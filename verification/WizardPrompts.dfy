/** What the wizard makes of what is typed: a completed run is a list of replies, one for each prompt in
    order, and each field of the configuration is the reply to its prompt. */
module WizardPrompts {
  import opened Wrappers
  import opened PyText
  import opened WizardFiles
  import opened WizardLaws
  import opened WizardRecovery
  import opened Wizard

  /** The lines typed at one prompt: those it did not accept, then the one it did. */
  datatype Reply = Reply(refused: seq<string>, line: string) {
    function Lines(): seq<string> {
      refused + [line]
    }

    /** What was typed, without the white space around it; nothing typed means the default. */
    function Means(default: string): string {
      Meant(line, default)
    }

    /** The prompt takes the first line that means something of this length. */
    predicate Fits(default: string, least: nat) {
      |Means(default)| >= least && forall l | l in refused :: |Meant(l, default)| < least
    }
  }

  function Meant(line: string, default: string): string {
    if Strip(line) == "" then default else Strip(line)
  }

  // ------------------------------------------------------------- one prompt

  lemma AskMeant(default: string, line: string, rest: seq<string>)
    ensures AskOf(default, [line] + rest) == Got(Meant(line, default), rest)
  {
    assert ([line] + rest)[1..] == rest;
  }

  /** Ask accepts any line. */
  lemma AskReply(default: string, r: Reply, rest: seq<string>)
    requires r.refused == []
    ensures AskOf(default, r.Lines() + rest) == Got(r.Means(default), rest)
  {
    assert r.Lines() == [r.line];
    AskMeant(default, r.line, rest);
  }

  lemma {:induction false} RequiredReply(default: string, r: Reply, rest: seq<string>)
    requires r.Fits(default, 1)
    ensures RequiredOf(default, r.Lines() + rest) == Got(r.Means(default), rest)
    decreases |r.refused|
  {
    if r.refused == [] {
      AskReply(default, r, rest);
    } else {
      var first, more := r.refused[0], Reply(r.refused[1..], r.line);
      assert r.Lines() + rest == [first] + (more.Lines() + rest);
      assert first in r.refused;
      AskMeant(default, first, more.Lines() + rest);
      RequiredReply(default, more, rest);
    }
  }

  /** A password shorter than eight characters is asked for again. */
  lemma {:induction false} PasswordReply(default: string, r: Reply, rest: seq<string>)
    requires r.Fits(default, 8)
    ensures PasswordOf(default, r.Lines() + rest) == Got(r.Means(default), rest)
    decreases |r.refused|
  {
    if r.refused == [] {
      RequiredReply(default, r, rest);
    } else {
      var first, more := r.refused[0], Reply(r.refused[1..], r.line);
      assert r.Lines() + rest == [first] + (more.Lines() + rest);
      assert first in r.refused;
      PasswordReply(default, more, rest);
      SkipShort(default, first, more.Lines() + rest);
    }
  }

  /** A line that is too short for a password changes nothing. */
  lemma SkipShort(default: string, line: string, rest: seq<string>)
    requires |Meant(line, default)| < 8
    ensures PasswordOf(default, [line] + rest) == PasswordOf(default, rest)
  {
    AskMeant(default, line, rest);
    if Meant(line, default) != "" {
      RequiredReply(default, Reply([], line), rest);
      assert Reply([], line).Lines() == [line];
    } else {
      assert RequiredOf(default, [line] + rest) == RequiredOf(default, rest);
    }
  }

  // ------------------------------------------------------------ the WAN loop

  /** The replies for one network. */
  datatype Entry = Entry(ssid: Reply, password: Reply)

  function SavedAt(prev: seq<Wan>, i: nat): Wan {
    if i < |prev| then prev[i] else Wan("", "")
  }

  /** Networks i, i + 1, ... are typed. A blank name is refused for the first network only. */
  predicate EntriesFit(prev: seq<Wan>, i: nat, entries: seq<Entry>)
    decreases |entries|
  {
    if entries == [] then true
    else
      && entries[0].ssid.Fits(SavedAt(prev, i).ssid, 1) && (i > 0 ==> entries[0].ssid.refused == [])
      && entries[0].password.Fits(SavedAt(prev, i).password, 8)
      && EntriesFit(prev, i + 1, entries[1..])
  }

  function EntryLines(entries: seq<Entry>): seq<string> {
    if entries == [] then [] else entries[0].ssid.Lines() + entries[0].password.Lines() + EntryLines(entries[1..])
  }

  function EntryMeans(prev: seq<Wan>, i: nat, entries: seq<Entry>): (r: seq<Wan>)
    ensures |r| == |entries|
    decreases |entries|
  {
    if entries == [] then []
    else
      [Wan(entries[0].ssid.Means(SavedAt(prev, i).ssid), entries[0].password.Means(SavedAt(prev, i).password))]
      + EntryMeans(prev, i + 1, entries[1..])
  }

  lemma {:induction false} FirstSsid(prev: seq<Wan>, r: Reply, rest: seq<string>)
    requires forall l | l in r.refused :: Meant(l, SavedAt(prev, 0).ssid) == ""
    ensures NetworksOf(prev, [], r.Lines() + rest) == NetworksOf(prev, [], [r.line] + rest)
    decreases |r.refused|
  {
    if r.refused == [] {
      assert r.Lines() == [r.line];
    } else {
      var first, more := r.refused[0], Reply(r.refused[1..], r.line);
      assert r.Lines() + rest == [first] + (more.Lines() + rest);
      assert first in r.refused;
      AskMeant(SavedAt(prev, 0).ssid, first, more.Lines() + rest);
      FirstSsid(prev, more, rest);
    }
  }

  lemma OneNetwork(prev: seq<Wan>, done: seq<Wan>, line: string, password: Reply, rest: seq<string>)
    requires Meant(line, SavedAt(prev, |done|).ssid) != "" && password.Fits(SavedAt(prev, |done|).password, 8)
    ensures var saved := SavedAt(prev, |done|);
      NetworksOf(prev, done, [line] + (password.Lines() + rest))
      == NetworksOf(prev, done + [Wan(Meant(line, saved.ssid), password.Means(saved.password))], rest)
  {
    AskMeant(SavedAt(prev, |done|).ssid, line, password.Lines() + rest);
    PasswordReply(SavedAt(prev, |done|).password, password, rest);
  }

  function EntryMeant(saved: Wan, e: Entry): Wan {
    Wan(e.ssid.Means(saved.ssid), e.password.Means(saved.password))
  }

  lemma OneEntry(prev: seq<Wan>, done: seq<Wan>, e: Entry, rest: seq<string>)
    requires e.ssid.Fits(SavedAt(prev, |done|).ssid, 1) && (|done| > 0 ==> e.ssid.refused == [])
    requires e.password.Fits(SavedAt(prev, |done|).password, 8)
    ensures NetworksOf(prev, done, e.ssid.Lines() + e.password.Lines() + rest)
         == NetworksOf(prev, done + [EntryMeant(SavedAt(prev, |done|), e)], rest)
  {
    assert e.ssid.Lines() + e.password.Lines() + rest == e.ssid.Lines() + (e.password.Lines() + rest);
    SsidLine(prev, done, e.ssid, e.password.Lines() + rest);
    OneNetwork(prev, done, e.ssid.line, e.password, rest);
  }

  lemma LastLine(prev: seq<Wan>, done: seq<Wan>, last: string, rest: seq<string>)
    requires done != [] && Meant(last, SavedAt(prev, |done|).ssid) == ""
    ensures NetworksOf(prev, done, [last] + rest) == Got(done, rest)
  {
    AskMeant(SavedAt(prev, |done|).ssid, last, rest);
  }

  lemma Fold(done: seq<Wan>, prev: seq<Wan>, entries: seq<Entry>)
    requires entries != []
    ensures done + EntryMeans(prev, |done|, entries)
         == (done + [EntryMeant(SavedAt(prev, |done|), entries[0])]) + EntryMeans(prev, |done| + 1, entries[1..])
  {
  }

  /** The loop returns the networks typed, in order, and ends at the first blank name after them. */
  lemma {:induction false} NetworkReplies(prev: seq<Wan>, done: seq<Wan>, entries: seq<Entry>, last: string, rest: seq<string>)
    requires EntriesFit(prev, |done|, entries) && (done != [] || entries != [])
    requires Meant(last, SavedAt(prev, |done| + |entries|).ssid) == ""
    ensures NetworksOf(prev, done, EntryLines(entries) + ([last] + rest))
         == Got(done + EntryMeans(prev, |done|, entries), rest)
    decreases |entries|
  {
    if entries == [] {
      assert EntryLines(entries) + ([last] + rest) == [last] + rest;
      LastLine(prev, done, last, rest);
      assert done + [] == done;
    } else {
      var done' := done + [EntryMeant(SavedAt(prev, |done|), entries[0])];
      NetworkReplies(prev, done', entries[1..], last, rest);
      EntriesFront(prev, done, entries, [last] + rest, rest);
    }
  }

  lemma EntriesFront(prev: seq<Wan>, done: seq<Wan>, entries: seq<Entry>, tail: seq<string>, rest: seq<string>)
    requires entries != [] && EntriesFit(prev, |done|, entries)
    requires var done' := done + [EntryMeant(SavedAt(prev, |done|), entries[0])];
      NetworksOf(prev, done', EntryLines(entries[1..]) + tail) == Got(done' + EntryMeans(prev, |done'|, entries[1..]), rest)
    ensures NetworksOf(prev, done, EntryLines(entries) + tail) == Got(done + EntryMeans(prev, |done|, entries), rest)
  {
    EntryFront(entries, tail);
    OneEntry(prev, done, entries[0], EntryLines(entries[1..]) + tail);
    Fold(done, prev, entries);
  }

  lemma EntryFront(entries: seq<Entry>, rest: seq<string>)
    requires entries != []
    ensures EntryLines(entries) + rest
         == entries[0].ssid.Lines() + entries[0].password.Lines() + (EntryLines(entries[1..]) + rest)
  {
  }

  lemma SsidLine(prev: seq<Wan>, done: seq<Wan>, r: Reply, rest: seq<string>)
    requires r.Fits(SavedAt(prev, |done|).ssid, 1) && (|done| > 0 ==> r.refused == [])
    ensures NetworksOf(prev, done, r.Lines() + rest) == NetworksOf(prev, done, [r.line] + rest)
  {
    if done == [] {
      FirstSsid(prev, r, rest);
    } else {
      assert r.Lines() == [r.line];
    }
  }

  // ---------------------------------------------------------------- whole runs

  /** The replies to all prompts, in the order of the source, and the blank name at the end. */
  datatype Script = Script(
    host: Reply, user: Reply, title: Reply, cert: Reply, hostname: Reply, country: Reply, ssid: Reply, password: Reply,
    networks: seq<Entry>, last: string)
  {
    /** The defaults decide what counts as a reply. */
    predicate Fits(d: Config) {
      && host.Fits(d.piHost, 1) && user.refused == [] && title.refused == [] && cert.Fits(d.certName, 1)
      && hostname.refused == [] && country.refused == [] && ssid.Fits(d.ssid, 1) && password.Fits(d.password, 8)
      && networks != [] && EntriesFit(d.wan, 0, networks)
      && Meant(last, SavedAt(d.wan, |networks|).ssid) == ""
    }

    function Lines(): seq<string> {
      host.Lines() + (user.Lines() + (title.Lines() + (cert.Lines() + (hostname.Lines() + (country.Lines()
      + (ssid.Lines() + (password.Lines() + (EntryLines(networks) + [last]))))))))
    }
  }

  lemma ScriptLines(s: Script, rest: seq<string>)
    ensures s.Lines() + rest
         == s.host.Lines() + (s.user.Lines() + (s.title.Lines() + (s.cert.Lines() + (s.hostname.Lines()
          + (s.country.Lines() + (s.ssid.Lines() + (s.password.Lines() + (EntryLines(s.networks) + ([s.last] + rest)))))))))
  {
  }

  /** The prompts, one after the other. */
  lemma PromptChain(d: Config, c: Config, l1: seq<string>, l2: seq<string>, l3: seq<string>, l4: seq<string>,
                    l5: seq<string>, l6: seq<string>, l7: seq<string>, l8: seq<string>, l9: seq<string>, rest: seq<string>)
    requires RequiredOf(d.piHost, l1) == Got(c.piHost, l2) && AskOf(d.ansibleUser, l2) == Got(c.ansibleUser, l3)
    requires AskOf(d.title, l3) == Got(c.title, l4) && RequiredOf(d.certName, l4) == Got(c.certName, l5)
    requires AskOf(d.hostname, l5) == Got(c.hostname, l6) && AskOf(d.country, l6) == Got(c.country, l7)
    requires RequiredOf(d.ssid, l7) == Got(c.ssid, l8) && PasswordOf(d.password, l8) == Got(c.password, l9)
    requires NetworksOf(d.wan, [], l9) == Got(c.wan, rest)
    ensures AnswersOf(d, l1) == Got(c, rest)
  {
  }

  /** WHAT IS TYPED IS TAKEN.  For all defaults and all replies that fit them, in the order of the source,
      each field is what was typed at its prompt, or its default where nothing was typed. */
  lemma RepliesTaken(d: Config, s: Script, rest: seq<string>)
    requires s.Fits(d)
    ensures AnswersOf(d, s.Lines() + rest)
         == Got(Config(s.host.Means(d.piHost), s.user.Means(d.ansibleUser), s.title.Means(d.title),
                       s.cert.Means(d.certName), s.hostname.Means(d.hostname), s.country.Means(d.country),
                       s.ssid.Means(d.ssid), s.password.Means(d.password), EntryMeans(d.wan, 0, s.networks)), rest)
  {
    var l9 := EntryLines(s.networks) + ([s.last] + rest);
    var l8 := s.password.Lines() + l9;
    var l7 := s.ssid.Lines() + l8;
    var l6 := s.country.Lines() + l7;
    var l5 := s.hostname.Lines() + l6;
    var l4 := s.cert.Lines() + l5;
    var l3 := s.title.Lines() + l4;
    var l2 := s.user.Lines() + l3;
    var c := Config(s.host.Means(d.piHost), s.user.Means(d.ansibleUser), s.title.Means(d.title),
                    s.cert.Means(d.certName), s.hostname.Means(d.hostname), s.country.Means(d.country),
                    s.ssid.Means(d.ssid), s.password.Means(d.password), EntryMeans(d.wan, 0, s.networks));
    ScriptLines(s, rest);
    RequiredReply(d.piHost, s.host, l2);
    AskReply(d.ansibleUser, s.user, l3);
    AskReply(d.title, s.title, l4);
    RequiredReply(d.certName, s.cert, l5);
    AskReply(d.hostname, s.hostname, l6);
    AskReply(d.country, s.country, l7);
    RequiredReply(d.ssid, s.ssid, l8);
    PasswordReply(d.password, s.password, l9);
    NetworksTyped(d.wan, s, rest);
    PromptChain(d, c, s.host.Lines() + l2, l2, l3, l4, l5, l6, l7, l8, l9, rest);
  }

  lemma NetworksTyped(prev: seq<Wan>, s: Script, rest: seq<string>)
    requires s.networks != [] && EntriesFit(prev, 0, s.networks)
    requires Meant(s.last, SavedAt(prev, |s.networks|).ssid) == ""
    ensures NetworksOf(prev, [], EntryLines(s.networks) + ([s.last] + rest)) == Got(EntryMeans(prev, 0, s.networks), rest)
  {
    NetworkReplies(prev, [], s.networks, s.last, rest);
    assert [] + EntryMeans(prev, 0, s.networks) == EntryMeans(prev, 0, s.networks);
  }

  /** Something was typed at every prompt. */
  predicate AllTyped(s: Script) {
    && Strip(s.host.line) != "" && Strip(s.user.line) != "" && Strip(s.title.line) != "" && Strip(s.cert.line) != ""
    && Strip(s.hostname.line) != "" && Strip(s.country.line) != "" && Strip(s.ssid.line) != ""
    && Strip(s.password.line) != ""
    && forall e | e in s.networks :: Strip(e.ssid.line) != "" && Strip(e.password.line) != ""
  }

  function TypedNetworks(entries: seq<Entry>): seq<Wan> {
    if entries == [] then []
    else [Wan(Strip(entries[0].ssid.line), Strip(entries[0].password.line))] + TypedNetworks(entries[1..])
  }

  lemma {:induction false} TypedEntries(prev: seq<Wan>, i: nat, entries: seq<Entry>)
    requires forall e | e in entries :: Strip(e.ssid.line) != "" && Strip(e.password.line) != ""
    ensures EntryMeans(prev, i, entries) == TypedNetworks(entries)
    decreases |entries|
  {
    if entries != [] {
      assert entries[0] in entries;
      TypedEntries(prev, i + 1, entries[1..]);
    }
  }

  /** When something is typed everywhere, no default is left in the result. */
  lemma TypedTaken(d: Config, s: Script, rest: seq<string>)
    requires s.Fits(d) && AllTyped(s)
    ensures AnswersOf(d, s.Lines() + rest)
         == Got(Config(Strip(s.host.line), Strip(s.user.line), Strip(s.title.line), Strip(s.cert.line),
                       Strip(s.hostname.line), Strip(s.country.line), Strip(s.ssid.line), Strip(s.password.line),
                       TypedNetworks(s.networks)), rest)
  {
    RepliesTaken(d, s, rest);
    TypedEntries(d.wan, 0, s.networks);
  }

  // ------------------------------------------------------- and nothing else is

  lemma {:induction false} RequiredFrom(default: string, lines: seq<string>) returns (r: Reply)
    requires RequiredOf(default, lines).Got?
    ensures r.Fits(default, 1) && lines == r.Lines() + RequiredOf(default, lines).rest
    decreases |lines|
  {
    var a := AskOf(default, lines);
    if a.value != "" {
      r := Reply([], lines[0]);
      assert lines == [lines[0]] + lines[1..] && r.Lines() == [lines[0]];
    } else {
      var more := RequiredFrom(default, lines[1..]);
      r := Reply([lines[0]] + more.refused, more.line);
      assert lines == [lines[0]] + lines[1..];
    }
  }

  lemma AskFrom(default: string, lines: seq<string>) returns (r: Reply)
    requires AskOf(default, lines).Got?
    ensures r.refused == [] && lines == r.Lines() + AskOf(default, lines).rest && r.Means(default) == AskOf(default, lines).value
  {
    r := Reply([], lines[0]);
    assert lines == [lines[0]] + lines[1..] && r.Lines() == [lines[0]];
  }

  lemma RequiredValue(default: string, lines: seq<string>, r: Reply)
    requires RequiredOf(default, lines).Got?
    requires r.Fits(default, 1) && lines == r.Lines() + RequiredOf(default, lines).rest
    ensures RequiredOf(default, lines).value == r.Means(default)
  {
    RequiredReply(default, r, RequiredOf(default, lines).rest);
  }

  lemma {:induction false} PasswordFrom(default: string, lines: seq<string>) returns (r: Reply)
    requires PasswordOf(default, lines).Got?
    ensures r.Fits(default, 8) && lines == r.Lines() + PasswordOf(default, lines).rest
    decreases |lines|
  {
    var a := RequiredOf(default, lines);
    r := RequiredFrom(default, lines);
    RequiredValue(default, lines, r);
    if |a.value| < 8 {
      var more := PasswordFrom(default, a.rest);
      var all := Reply(r.refused + [r.line] + more.refused, more.line);
      assert all.Lines() == r.Lines() + more.Lines();
      assert lines == all.Lines() + PasswordOf(default, lines).rest;
      r := all;
    }
  }

  /** The blank names refused before the first network, and the name that is not blank. */
  lemma {:induction false} FirstFrom(prev: seq<Wan>, lines: seq<string>) returns (r: Reply, rest: seq<string>)
    requires NetworksOf(prev, [], lines).Got?
    ensures r.Fits(SavedAt(prev, 0).ssid, 1) && lines == r.Lines() + rest
    decreases |lines|
  {
    var saved := SavedAt(prev, 0).ssid;
    assert lines == [lines[0]] + lines[1..];
    AskMeant(saved, lines[0], lines[1..]);
    if Meant(lines[0], saved) == "" {
      r, rest := FirstFrom(prev, lines[1..]);
      assert lines == ([lines[0]] + r.refused + [r.line]) + rest;
      r := Reply([lines[0]] + r.refused, r.line);
    } else {
      r, rest := Reply([], lines[0]), lines[1..];
    }
  }

  lemma PasswordFollows(prev: seq<Wan>, done: seq<Wan>, line: string, after: seq<string>)
    requires NetworksOf(prev, done, [line] + after).Got? && Meant(line, SavedAt(prev, |done|).ssid) != ""
    ensures PasswordOf(SavedAt(prev, |done|).password, after).Got?
  {
    AskMeant(SavedAt(prev, |done|).ssid, line, after);
  }

  /** The lines of the next network, when there is one. */
  lemma EntryFrom(prev: seq<Wan>, done: seq<Wan>, lines: seq<string>, ssid: Reply, after: seq<string>)
      returns (e: Entry, rest: seq<string>)
    requires NetworksOf(prev, done, lines).Got? && lines == ssid.Lines() + after
    requires ssid.Fits(SavedAt(prev, |done|).ssid, 1) && (|done| > 0 ==> ssid.refused == [])
    ensures e.ssid == ssid && e.password.Fits(SavedAt(prev, |done|).password, 8)
    ensures lines == e.ssid.Lines() + e.password.Lines() + rest && |rest| < |lines|
    ensures NetworksOf(prev, done, lines) == NetworksOf(prev, done + [EntryMeant(SavedAt(prev, |done|), e)], rest)
  {
    var saved := SavedAt(prev, |done|);
    SsidLine(prev, done, ssid, after);
    PasswordFollows(prev, done, ssid.line, after);
    var p := PasswordFrom(saved.password, after);
    e, rest := Entry(ssid, p), PasswordOf(saved.password, after).rest;
    assert lines == e.ssid.Lines() + e.password.Lines() + rest;
    OneEntry(prev, done, e, rest);
  }

  /** These replies are what the loop took from the lines. */
  ghost predicate Took(prev: seq<Wan>, i: nat, lines: seq<string>, entries: seq<Entry>, last: string, rest: seq<string>) {
    && EntriesFit(prev, i, entries) && Meant(last, SavedAt(prev, i + |entries|).ssid) == ""
    && lines == EntryLines(entries) + ([last] + rest)
  }

  lemma NoEntries(prev: seq<Wan>, done: seq<Wan>, lines: seq<string>)
    requires done != [] && NetworksOf(prev, done, lines).Got? && Meant(lines[0], SavedAt(prev, |done|).ssid) == ""
    ensures Took(prev, |done|, lines, [], lines[0], NetworksOf(prev, done, lines).rest)
  {
    assert lines == [lines[0]] + lines[1..];
    AskMeant(SavedAt(prev, |done|).ssid, lines[0], lines[1..]);
    assert [] + ([lines[0]] + lines[1..]) == lines;
  }

  /** The reply to the next name prompt. */
  lemma NameFrom(prev: seq<Wan>, done: seq<Wan>, lines: seq<string>) returns (r: Reply, after: seq<string>)
    requires NetworksOf(prev, done, lines).Got? && (done == [] || Meant(lines[0], SavedAt(prev, |done|).ssid) != "")
    ensures r.Fits(SavedAt(prev, |done|).ssid, 1) && (|done| > 0 ==> r.refused == []) && lines == r.Lines() + after
  {
    if done == [] {
      r, after := FirstFrom(prev, lines);
    } else {
      r, after := Reply([], lines[0]), lines[1..];
      assert r.Lines() == [lines[0]];
    }
  }

  ghost predicate Next(prev: seq<Wan>, i: nat, lines: seq<string>, e: Entry, rest: seq<string>) {
    && e.ssid.Fits(SavedAt(prev, i).ssid, 1) && (i > 0 ==> e.ssid.refused == [])
    && e.password.Fits(SavedAt(prev, i).password, 8)
    && lines == e.ssid.Lines() + e.password.Lines() + rest
  }

  lemma NextFrom(prev: seq<Wan>, done: seq<Wan>, lines: seq<string>) returns (e: Entry, rest: seq<string>)
    requires NetworksOf(prev, done, lines).Got? && (done == [] || Meant(lines[0], SavedAt(prev, |done|).ssid) != "")
    ensures Next(prev, |done|, lines, e, rest) && |rest| < |lines|
    ensures NetworksOf(prev, done, lines) == NetworksOf(prev, done + [EntryMeant(SavedAt(prev, |done|), e)], rest)
  {
    var ssid, after := NameFrom(prev, done, lines);
    e, rest := EntryFrom(prev, done, lines, ssid, after);
  }

  lemma {:induction false} NetworksFrom(prev: seq<Wan>, done: seq<Wan>, lines: seq<string>)
      returns (entries: seq<Entry>, last: string)
    requires NetworksOf(prev, done, lines).Got?
    ensures Took(prev, |done|, lines, entries, last, NetworksOf(prev, done, lines).rest) && (done == [] ==> entries != [])
    decreases |lines|
  {
    if done != [] && Meant(lines[0], SavedAt(prev, |done|).ssid) == "" {
      entries, last := [], lines[0];
      NoEntries(prev, done, lines);
    } else {
      var e, rest := NextFrom(prev, done, lines);
      var more;
      var done' := done + [EntryMeant(SavedAt(prev, |done|), e)];
      more, last := NetworksFrom(prev, done', rest);
      entries := [e] + more;
      EntriesJoin(prev, |done|, |done'|, e, more, last, NetworksOf(prev, done', rest).rest, lines, rest);
    }
  }

  lemma EntriesJoin(prev: seq<Wan>, i: nat, j: nat, e: Entry, more: seq<Entry>, last: string, end: seq<string>,
                    lines: seq<string>, rest: seq<string>)
    requires Next(prev, i, lines, e, rest) && Took(prev, j, rest, more, last, end) && j == i + 1
    ensures Took(prev, i, lines, [e] + more, last, end)
  {
    assert ([e] + more)[1..] == more;
    EntryFront([e] + more, [last] + end);
  }

  /** Every completed run is a list of replies, so the law above speaks of every run that completes. */
  lemma EveryRunIsReplies(d: Config, lines: seq<string>) returns (s: Script)
    requires AnswersOf(d, lines).Got?
    ensures s.Fits(d) && lines == s.Lines() + AnswersOf(d, lines).rest
  {
    var host := RequiredFrom(d.piHost, lines);
    var l2 := RequiredOf(d.piHost, lines).rest;
    var user := AskFrom(d.ansibleUser, l2);
    var l3 := AskOf(d.ansibleUser, l2).rest;
    var title := AskFrom(d.title, l3);
    var l4 := AskOf(d.title, l3).rest;
    var cert := RequiredFrom(d.certName, l4);
    var l5 := RequiredOf(d.certName, l4).rest;
    var hostname := AskFrom(d.hostname, l5);
    var l6 := AskOf(d.hostname, l5).rest;
    var country := AskFrom(d.country, l6);
    var l7 := AskOf(d.country, l6).rest;
    var ssid := RequiredFrom(d.ssid, l7);
    var l8 := RequiredOf(d.ssid, l7).rest;
    var password := PasswordFrom(d.password, l8);
    var l9 := PasswordOf(d.password, l8).rest;
    var networks, last := NetworksFrom(d.wan, [], l9);
    s := Script(host, user, title, cert, hostname, country, ssid, password, networks, last);
    ScriptLines(s, NetworksOf(d.wan, [], l9).rest);
  }

  // ------------------------------------------------------- what is offered first

  /** Without group_vars the prompts offer what .env holds and the built-in defaults, whatever the
      inventory says; without any file, the built-in defaults alone. */
  lemma FirstOffers(env: Option<string>, hosts: Option<string>)
    ensures var e := EnvOn(Disk(env, hosts, None));
      Defaults(Disk(env, hosts, None))
      == Config(Get(e, "PI_HOST", ""), "pi", Or(Get(e, "DASHBOARD_TITLE", ""), "pispot"),
                Get(e, "PISPOT_TLS_CERT_NAME", ""), "pispot.local", "US", "", "", [])
    ensures Defaults(Disk(None, hosts, None)) == Config("", "pi", "pispot", "", "pispot.local", "US", "", "", [])
  {
  }
}
