/** What the reader of wpa_supplicant-wlan1.conf makes of any file, printed by it or not: the file as a
    header and blocks of lines, and one network for every closed block that names one. */
module WifiFile {
  import opened Wrappers
  import opened Text
  import opened WifiConfig

  /** A line that opens a block, the lines of the block, and, unless another opening line or the end of
      the file comes first, the line that closes it with the lines behind it. */
  datatype Chunk =
    | Closed(open: string, body: seq<string>, close: string, gap: seq<string>)
    | Abandoned(open: string, body: seq<string>)
  {
    function Lines(): seq<string> {
      if Closed? then [open] + body + [close] + gap else [open] + body
    }

    predicate WellFormed() {
      && TrimSpace(open) == "network={"
      && (forall l | l in body :: Inside(l))
      && (Closed? ==> TrimSpace(close) == "}" && forall l | l in gap :: Outside(l))
    }
  }

  /** A line that does not open a block. */
  predicate Outside(line: string) {
    TrimSpace(line) != "network={"
  }

  /** A line that neither opens nor closes a block. */
  predicate Inside(line: string) {
    TrimSpace(line) != "network={" && TrimSpace(line) != "}"
  }

  function Flat(chunks: seq<Chunk>): seq<string> {
    if chunks == [] then [] else chunks[0].Lines() + Flat(chunks[1..])
  }

  /** A header without opening lines, then chunks. */
  predicate Divided(header: seq<string>, chunks: seq<Chunk>) {
    (forall l | l in header :: Outside(l)) && forall c | c in chunks :: c.WellFormed()
  }

  /** The text behind the key on the last line of a block that starts with it. */
  function LastSetting(body: seq<string>, key: string): Option<string> {
    if body == [] then None
    else
      var t := TrimSpace(body[|body| - 1]);
      if HasPrefix(t, key) then Some(t[|key|..]) else LastSetting(body[..|body| - 1], key)
  }

  function Setting(body: seq<string>, key: string): string {
    var v := LastSetting(body, key);
    if v.Some? then Unquote(v.value) else ""
  }

  /** One network for each closed block with a name, in order. */
  function NetworksOf(chunks: seq<Chunk>): seq<Network> {
    if chunks == [] then []
    else
      var c := chunks[0];
      var name := Setting(c.body, "ssid=");
      (if c.Closed? && name != "" then [Network(name, Setting(c.body, "psk="))] else []) + NetworksOf(chunks[1..])
  }

  // ------------------------------------------------------------ one chunk

  lemma KeysExclude(t: string)
    ensures !(HasPrefix(t, "ssid=") && HasPrefix(t, "psk="))
  {
    assert "ssid="[0] != "psk="[0];
  }

  /** The pending network is what the lines so far set. */
  lemma {:induction false} BodySteps(st: ParseState, body: seq<string>)
    requires st.headerDone && st.inBlock && st.cur == NO_NETWORK && forall l | l in body :: Inside(l)
    ensures Steps(st, body) == st.(cur := Network(Setting(body, "ssid="), Setting(body, "psk=")))
    decreases |body|
  {
    if body != [] {
      var init, last := body[..|body| - 1], body[|body| - 1];
      assert body == init + [last] && last in body;
      BodySteps(st, init);
      StepsAppend(st, init, [last]);
      var mid := Steps(st, init);
      assert Steps(mid, [last]) == Step(mid, last);
      KeysExclude(TrimSpace(last));
    }
  }

  lemma {:induction false} OutsideSteps(st: ParseState, gap: seq<string>)
    requires st.headerDone && !st.inBlock && forall l | l in gap :: Outside(l)
    ensures Steps(st, gap) == st
    decreases |gap|
  {
    if gap != [] {
      assert gap[0] in gap;
      OutsideSteps(st, gap[1..]);
    }
  }

  lemma {:induction false} HeaderSteps(st: ParseState, header: seq<string>)
    requires !st.headerDone && forall l | l in header :: Outside(l)
    ensures Steps(st, header) == st.(headerLines := st.headerLines + header)
    decreases |header|
  {
    if header == [] {
      assert st.headerLines + header == st.headerLines;
    } else {
      assert header[0] in header;
      HeaderSteps(Step(st, header[0]), header[1..]);
      assert st.headerLines + [header[0]] + header[1..] == st.headerLines + header;
    }
  }

  /** Between chunks only the list and the header matter. */
  ghost predicate Reads(st: ParseState, headerLines: seq<string>, networks: seq<Network>) {
    st.headerLines == headerLines && st.networks == networks
  }

  lemma OpenSteps(st: ParseState, open: string, body: seq<string>)
    requires TrimSpace(open) == "network={" && forall l | l in body :: Inside(l)
    ensures Steps(st, [open] + body)
         == ParseState(st.headerLines, st.networks, true, Network(Setting(body, "ssid="), Setting(body, "psk=")), true)
  {
    assert ([open] + body)[1..] == body;
    BodySteps(Step(st, open), body);
  }

  lemma ChunkSteps(st: ParseState, c: Chunk)
    requires c.WellFormed()
    ensures var s' := Steps(st, c.Lines()); s'.headerDone && Reads(s', st.headerLines, st.networks + NetworksOf([c]))
  {
    var inside := Steps(st, [c.open] + c.body);
    OpenSteps(st, c.open, c.body);
    assert [c][1..] == [];
    if c.Closed? {
      StepsAppend(st, [c.open] + c.body, [c.close] + c.gap);
      assert c.Lines() == [c.open] + c.body + ([c.close] + c.gap);
      assert ([c.close] + c.gap)[1..] == c.gap;
      CloseStep(inside, c.close);
      OutsideSteps(Step(inside, c.close), c.gap);
    }
  }

  lemma CloseStep(st: ParseState, close: string)
    requires st.headerDone && st.inBlock && TrimSpace(close) == "}"
    ensures Step(st, close)
         == st.(inBlock := false, networks := st.networks + if st.cur.ssid != "" then [st.cur] else [])
  {
    assert "}" != "network={";
  }

  lemma {:induction false} ChunksSteps(st: ParseState, chunks: seq<Chunk>)
    requires forall c | c in chunks :: c.WellFormed()
    ensures Reads(Steps(st, Flat(chunks)), st.headerLines, st.networks + NetworksOf(chunks))
    decreases |chunks|
  {
    if chunks != [] {
      var c := chunks[0];
      assert c in chunks;
      ChunkSteps(st, c);
      StepsAppend(st, c.Lines(), Flat(chunks[1..]));
      ChunksSteps(Steps(st, c.Lines()), chunks[1..]);
      assert NetworksOf([c]) + NetworksOf(chunks[1..]) == NetworksOf(chunks) by { assert [c][1..] == []; }
      Assoc(st.networks, NetworksOf([c]), NetworksOf(chunks[1..]));
    }
  }

  // ----------------------------------------------------------------- the file

  /** ANY FILE.  Divided in any way into a header and chunks, the scanned lines read as the networks of
      the closed blocks that name one, in order; nothing else in the file counts. */
  lemma FileLaw(data: string, header: seq<string>, chunks: seq<Chunk>)
    requires Divided(header, chunks) && Scan(data, 65536).lines == header + Flat(chunks)
    ensures ParseText(data) == Parsed(NetworksOf(chunks), HeaderText(header), Scan(data, 65536).tooLong)
  {
    HeaderSteps(START, header);
    StepsAppend(START, header, Flat(chunks));
    ChunksSteps(Steps(START, header), chunks);
    assert [] + header == header;
    assert [] + NetworksOf(chunks) == NetworksOf(chunks);
  }

  /** Where the lines of a block end. */
  function BodyEnd(lines: seq<string>): (i: nat)
    ensures i <= |lines| && forall l | l in lines[..i] :: Inside(l)
    ensures i < |lines| ==> !Inside(lines[i])
  {
    if lines == [] || !Inside(lines[0]) then 0
    else
      var i := BodyEnd(lines[1..]);
      assert lines[..1 + i] == [lines[0]] + lines[1..][..i];
      1 + i
  }

  function GapEnd(lines: seq<string>): (i: nat)
    ensures i <= |lines| && forall l | l in lines[..i] :: Outside(l)
    ensures i < |lines| ==> !Outside(lines[i])
  {
    if lines == [] || !Outside(lines[0]) then 0
    else
      var i := GapEnd(lines[1..]);
      assert lines[..1 + i] == [lines[0]] + lines[1..][..i];
      1 + i
  }

  lemma ClosedLines(open: string, body: seq<string>, close: string, gap: seq<string>, more: seq<string>)
    ensures [open] + (body + ([close] + (gap + more))) == Closed(open, body, close, gap).Lines() + more
  {
  }

  lemma FirstClosed(open: string, body: seq<string>, close: string, behind: seq<string>)
      returns (c: Chunk, more: seq<string>)
    requires TrimSpace(open) == "network={" && TrimSpace(close) == "}" && forall l | l in body :: Inside(l)
    ensures c.WellFormed() && [open] + (body + ([close] + behind)) == c.Lines() + more && |more| <= |behind|
    ensures more == [] || !Outside(more[0])
  {
    var g := GapEnd(behind);
    c, more := Closed(open, body, close, behind[..g]), behind[g..];
    assert behind == behind[..g] + more;
    ClosedLines(open, body, close, behind[..g], more);
  }

  lemma FirstAbandoned(open: string, rest: seq<string>, b: nat) returns (c: Chunk, more: seq<string>)
    requires TrimSpace(open) == "network={" && b == BodyEnd(rest) && (b == |rest| || TrimSpace(rest[b]) != "}")
    ensures c.WellFormed() && [open] + rest == c.Lines() + more && |more| <= |rest|
    ensures more == [] || !Outside(more[0])
  {
    c, more := Abandoned(open, rest[..b]), rest[b..];
    assert rest == rest[..b] + more;
  }

  lemma {:induction false} DivideChunks(lines: seq<string>) returns (chunks: seq<Chunk>)
    requires lines == [] || !Outside(lines[0])
    ensures (forall c | c in chunks :: c.WellFormed()) && Flat(chunks) == lines
    decreases |lines|
  {
    if lines == [] {
      return [];
    }
    var rest := lines[1..];
    var b := BodyEnd(rest);
    assert lines == [lines[0]] + rest;
    var c, more;
    if b < |rest| && TrimSpace(rest[b]) == "}" {
      assert rest == rest[..b] + ([rest[b]] + rest[b + 1..]);
      c, more := FirstClosed(lines[0], rest[..b], rest[b], rest[b + 1..]);
    } else {
      c, more := FirstAbandoned(lines[0], rest, b);
    }
    var tail := DivideChunks(more);
    chunks := [c] + tail;
    assert chunks[1..] == tail;
  }

  /** Every list of lines can be divided, so the law speaks of every file. */
  lemma EveryFileDivides(lines: seq<string>) returns (header: seq<string>, chunks: seq<Chunk>)
    ensures Divided(header, chunks) && lines == header + Flat(chunks)
  {
    var g := GapEnd(lines);
    header := lines[..g];
    chunks := DivideChunks(lines[g..]);
  }

  // ------------------------------------------------------------------- values

  lemma {:induction false} TrimRightPadded(s: string, pad: string)
    requires (forall c | c in pad :: IsSpace(c)) && (s == "" || !IsSpace(s[|s| - 1]))
    ensures TrimRight(s + pad) == s
    decreases |pad|
  {
    if pad == "" {
      assert s + pad == s;
    } else {
      assert (s + pad)[..|s + pad| - 1] == s + pad[..|pad| - 1];
      TrimRightPadded(s, pad[..|pad| - 1]);
    }
  }

  /** Trimming takes white space off both sides and nothing else. */
  lemma {:induction false} TrimBoth(before: string, s: string, behind: string)
    requires (forall c | c in before :: IsSpace(c)) && (forall c | c in behind :: IsSpace(c)) && s != "" && Tight(s)
    ensures TrimSpace(before + s + behind) == s
    decreases |before|
  {
    if before == "" {
      assert before + s + behind == s + behind;
      TrimRightPadded(s, behind);
    } else {
      assert (before + s + behind)[1..] == before[1..] + s + behind;
      TrimBoth(before[1..], s, behind);
    }
  }

  /** A quoted value reads as what stands between its outer quotation marks, whatever that is. */
  lemma QuotedReads(before: string, v: string, behind: string)
    requires (forall c | c in before :: IsSpace(c)) && forall c | c in behind :: IsSpace(c)
    ensures Unquote(before + ("\"" + v + "\"") + behind) == v
  {
    var q := "\"" + v + "\"";
    TrimBoth(before, q, behind);
    assert q[1..|q| - 1] == v;
  }

  /** A value without quotation marks on both sides reads as itself, without the white space around it. */
  lemma BareReads(before: string, v: string, behind: string)
    requires (forall c | c in before :: IsSpace(c)) && (forall c | c in behind :: IsSpace(c)) && v != "" && Tight(v)
    requires |v| == 1 || v[0] != '"' || v[|v| - 1] != '"'
    ensures Unquote(before + v + behind) == v
  {
    TrimBoth(before, v, behind);
  }

  /** What one line of a block sets: the last name line and the last password line decide. */
  lemma BlockReads(before: seq<string>, name: string, between: seq<string>, psk: string, behind: seq<string>)
    requires HasPrefix(TrimSpace(name), "ssid=") && HasPrefix(TrimSpace(psk), "psk=")
    requires forall l | l in between + behind :: !HasPrefix(TrimSpace(l), "ssid=")
    requires forall l | l in behind :: !HasPrefix(TrimSpace(l), "psk=")
    ensures var body := before + [name] + between + [psk] + behind;
      && Setting(body, "ssid=") == Unquote(TrimSpace(name)[5..])
      && Setting(body, "psk=") == Unquote(TrimSpace(psk)[4..])
  {
    KeysExclude(TrimSpace(psk));
    assert |"ssid="| == 5 && |"psk="| == 4;
    var body := before + [name] + between + [psk] + behind;
    assert body == (before + [name]) + (between + [psk] + behind);
    LastSettingBehind(before + [name], between + [psk] + behind, "ssid=");
    LastSettingIs(before, name, "ssid=");
    LastSettingBehind(before + [name] + between + [psk], behind, "psk=");
    LastSettingIs(before + [name] + between, psk, "psk=");
  }

  lemma LastSettingIs(before: seq<string>, line: string, key: string)
    requires HasPrefix(TrimSpace(line), key)
    ensures LastSetting(before + [line], key) == Some(TrimSpace(line)[|key|..])
  {
  }

  /** Lines without the key do not change what it is set to. */
  lemma {:induction false} LastSettingBehind(body: seq<string>, others: seq<string>, key: string)
    requires forall l | l in others :: !HasPrefix(TrimSpace(l), key)
    ensures LastSetting(body + others, key) == LastSetting(body, key)
    decreases |others|
  {
    if others == [] {
      assert body + others == body;
    } else {
      var init, last := others[..|others| - 1], others[|others| - 1];
      assert (body + others)[..|body + others| - 1] == body + init && last in others;
      LastSettingBehind(body, init, key);
    }
  }
}
