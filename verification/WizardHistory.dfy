/** Any number of sittings with the wizard, answered in any way, from a checkout without files. */
module WizardHistory {
  import opened Wrappers
  import opened PyText
  import opened Regex
  import opened WizardFiles
  import opened WizardLaws
  import opened WizardUser
  import opened WizardEnv
  import opened WizardRecovery
  import opened Wizard
  import opened WizardRuns
  import Text

  /** The files after one sitting. */
  function Sit(disk: Disk, lines: seq<string>): Disk {
    match AnswersOf(Defaults(disk), lines)
    case Eof => disk
    case Got(c, _) => FilesOf(c)
  }

  function Sittings(disk: Disk, sittings: seq<seq<string>>): Disk
    decreases |sittings|
  {
    if sittings == [] then disk else Sittings(Sit(disk, sittings[0]), sittings[1..])
  }

  const FRESH: Disk := Disk(None, None, None)

  /** What input() can return: one line. */
  predicate Typed(lines: seq<string>) {
    forall l | l in lines :: OneLine(l)
  }

  // -------------------------------------------------------- answers are complete

  /** Defaults that a prompt may return as they are. */
  predicate Offerable(d: Config) {
    && Optional(d.piHost) && Optional(d.certName) && Optional(d.ssid) && Optional(d.password)
    && Entered(d.ansibleUser) && Entered(d.title) && Entered(d.hostname) && Entered(d.country)
    && forall w | w in d.wan :: Optional(w.ssid) && Optional(w.password)
  }

  lemma StripEntered(l: string)
    requires OneLine(l)
    ensures Optional(Strip(l))
  {
    StripKeeps(l);
  }

  lemma AskComplete(default: string, lines: seq<string>)
    requires Typed(lines) && Optional(default)
    ensures var r := AskOf(default, lines);
      r.Got? ==> Typed(r.rest) && Optional(r.value) && (default != "" ==> Entered(r.value))
  {
    if lines != [] {
      assert lines[0] in lines;
      StripEntered(lines[0]);
    }
  }

  lemma {:induction false} RequiredComplete(default: string, lines: seq<string>)
    requires Typed(lines) && Optional(default)
    ensures var r := RequiredOf(default, lines); r.Got? ==> Typed(r.rest) && Entered(r.value)
    decreases |lines|
  {
    AskComplete(default, lines);
    var a := AskOf(default, lines);
    if a.Got? && a.value == "" {
      RequiredComplete(default, a.rest);
    }
  }

  lemma {:induction false} PasswordComplete(default: string, lines: seq<string>)
    requires Typed(lines) && Optional(default)
    ensures var r := PasswordOf(default, lines); r.Got? ==> Typed(r.rest) && Entered(r.value)
    decreases |lines|
  {
    RequiredComplete(default, lines);
    var a := RequiredOf(default, lines);
    if a.Got? && |a.value| < 8 {
      PasswordComplete(default, a.rest);
    }
  }

  predicate AllWanComplete(wan: seq<Wan>) {
    forall w | w in wan :: WanComplete(w)
  }

  lemma {:induction false} NetworksComplete(prev: seq<Wan>, done: seq<Wan>, lines: seq<string>)
    requires Typed(lines) && AllWanComplete(done)
    requires forall w | w in prev :: Optional(w.ssid) && Optional(w.password)
    ensures var r := NetworksOf(prev, done, lines); r.Got? ==> Typed(r.rest) && AllWanComplete(r.value)
    decreases |lines|
  {
    var i := |done|;
    assert i < |prev| ==> prev[i] in prev;
    var ssid := AskOf(if i < |prev| then prev[i].ssid else "", lines);
    AskComplete(if i < |prev| then prev[i].ssid else "", lines);
    if ssid.Got? {
      if ssid.value == "" {
        if done == [] { NetworksComplete(prev, done, ssid.rest); }
      } else {
        var default := if i < |prev| then prev[i].password else "";
        PasswordComplete(default, ssid.rest);
        var password := PasswordOf(default, ssid.rest);
        if password.Got? {
          NetworksComplete(prev, done + [Wan(ssid.value, password.value)], password.rest);
        }
      }
    }
  }

  /** Every completed sitting has asked for everything. */
  lemma AnswersComplete(d: Config, lines: seq<string>)
    requires Typed(lines) && Offerable(d)
    ensures var r := AnswersOf(d, lines); r.Got? ==> Complete(r.value)
  {
    var host := RequiredOf(d.piHost, lines);
    RequiredComplete(d.piHost, lines);
    if host.Eof? { return; }
    var user := AskOf(d.ansibleUser, host.rest);
    AskComplete(d.ansibleUser, host.rest);
    if user.Eof? { return; }
    var title := AskOf(d.title, user.rest);
    AskComplete(d.title, user.rest);
    if title.Eof? { return; }
    var cert := RequiredOf(d.certName, title.rest);
    RequiredComplete(d.certName, title.rest);
    if cert.Eof? { return; }
    var hostname := AskOf(d.hostname, cert.rest);
    AskComplete(d.hostname, cert.rest);
    if hostname.Eof? { return; }
    var country := AskOf(d.country, hostname.rest);
    AskComplete(d.country, hostname.rest);
    if country.Eof? { return; }
    var ssid := RequiredOf(d.ssid, country.rest);
    RequiredComplete(d.ssid, country.rest);
    if ssid.Eof? { return; }
    var password := PasswordOf(d.password, ssid.rest);
    PasswordComplete(d.password, ssid.rest);
    if password.Eof? { return; }
    NetworksComplete(d.wan, [], password.rest);
  }

  // -------------------------------------------------- saved values are offerable

  lemma FreshOfferable()
    ensures Offerable(Defaults(FRESH))
  {
  }

  lemma {:induction false} UnlinesPlain(lines: seq<string>)
    requires Typed(lines)
    ensures '\r' !in Text.Unlines(lines)
  {
    if lines != [] {
      assert OneLine(lines[0]);
      UnlinesPlain(lines[1..]);
    }
  }

  lemma {:induction false} WanTyped(wan: seq<Wan>)
    requires AllWanComplete(wan)
    ensures Typed(WanLines(wan))
  {
    if wan != [] {
      assert wan[0] in wan;
      WanTyped(wan[1..]);
    }
  }

  lemma ScalarTyped(key: string, v: string)
    requires OneLine(key) && Entered(v)
    ensures OneLine(Scalar(key, v))
  {
  }

  lemma KeysTyped()
    ensures OneLine("") && OneLine("wan_networks:")
    ensures OneLine("wifi_country") && OneLine("hotspot_ssid") && OneLine("hotspot_password")
  {
  }

  lemma EightTyped(a: string, b: string, c: string, d: string, e: string, f: string)
    requires OneLine(a) && OneLine(b) && OneLine(c) && OneLine(d) && OneLine(e) && OneLine(f)
    ensures Typed([a, b, c, b, d, e, b, f])
  {
  }

  lemma HeadTyped(c: Config)
    requires Complete(c)
    ensures Typed(VarsHead(c))
  {
    CommentLine();
    KeysTyped();
    ScalarTyped("wifi_country", c.country);
    ScalarTyped("hotspot_ssid", c.ssid);
    ScalarTyped("hotspot_password", c.password);
    EightTyped(COMMENT, "", Scalar("wifi_country", c.country), Scalar("hotspot_ssid", c.ssid),
               Scalar("hotspot_password", c.password), "wan_networks:");
  }

  lemma TailTyped(c: Config)
    requires Complete(c)
    ensures Typed(VarsTail(c))
  {
    ScalarTyped("pispot_https_hostname", c.hostname);
    ScalarTyped("pispot_tls_cert_name", c.certName);
    ScalarTyped("dashboard_title", c.title);
    assert OneLine("");
  }

  lemma VarsTyped(c: Config)
    requires Complete(c)
    ensures Typed(VarsLines(c))
  {
    HeadTyped(c);
    WanTyped(c.wan);
    TailTyped(c);
  }

  lemma TakenOptional(text: string, v: string)
    requires Taken(text, v) && '\r' !in text
    ensures Optional(v)
  {
  }

  lemma WordEntered(text: string, pos: nat)
    requires pos < |text| && !IsSpace(text[pos])
    ensures Entered(Word(text, pos))
  {
    var w := Word(text, pos);
    forall i | 0 <= i < |w| ensures !IsSpace(w[i]) {
      assert w[i] == text[pos + i] && In(NonSpace, text[pos + i]);
    }
    assert RunLen(NonSpace, text, pos, |text| - pos) > 0;
  }

  lemma {:induction false} FirstUserEntered(text: string, pos: nat)
    ensures var u := FirstUser(text, pos); u.Some? ==> Entered(u.value)
    decreases |text| - pos
  {
    if pos < |text| {
      if UserAt(text, pos) {
        WordEntered(text, pos + |USER|);
      } else {
        FirstUserEntered(text, pos + 1);
      }
    }
  }

  lemma RestoredOfferable(c: Config, d: Config)
    requires Complete(c) && Restored(c, d) && Entered(ReadUser(c))
    requires '\r' !in VarsText(c)
    ensures Offerable(d)
  {
    ReadsShape(c);
    KeptOrDefault(c.title, "pispot");
    KeptOrDefault(c.certName, "");
    KeptOrDefault(c.hostname, "pispot.local");
    KeptOrDefault(c.country, "US");
    KeptOrDefault(c.ssid, "");
    KeptOrDefault(c.password, "");
    NetworksOptional(VarsText(c), d.wan);
  }

  lemma KeptOrDefault(v: string, default: string)
    requires Entered(v) && default in {"", "US", "pispot", "pispot.local"}
    ensures Optional(IfPlain(v, default)) && (default != "" ==> Entered(IfPlain(v, default)))
  {
  }

  lemma NetworksOptional(text: string, wan: seq<Wan>)
    requires WanTaken(text, wan) && '\r' !in text
    ensures forall w | w in wan :: Optional(w.ssid) && Optional(w.password)
  {
    forall w | w in wan ensures Optional(w.ssid) && Optional(w.password) {
      TakenOptional(text, w.ssid);
      TakenOptional(text, w.password);
    }
  }

  /** What a completed sitting leaves can be offered by the next. */
  lemma SavedOfferable(c: Config)
    requires Complete(c)
    ensures Offerable(Defaults(FilesOf(c)))
  {
    FirstUserEntered(c.piHost, 0);
    WordEntered(c.ansibleUser, 0);
    VarsTyped(c);
    UnlinesPlain(VarsLines(c));
    DefaultsLaw(c);
    RestoredOfferable(c, Defaults(FilesOf(c)));
  }

  // ------------------------------------------------------------ all histories

  /** No files, or the three files of one complete configuration. */
  ghost predicate Whole(disk: Disk) {
    disk == FRESH || exists c :: Complete(c) && disk == FilesOf(c)
  }

  lemma SitWhole(disk: Disk, lines: seq<string>)
    requires Whole(disk) && Typed(lines)
    ensures Whole(Sit(disk, lines))
  {
    if disk == FRESH {
      FreshOfferable();
    } else {
      var c :| Complete(c) && disk == FilesOf(c);
      SavedOfferable(c);
    }
    AnswersComplete(Defaults(disk), lines);
  }

  lemma {:induction false} SittingsWhole(disk: Disk, sittings: seq<seq<string>>)
    requires Whole(disk) && forall s | s in sittings :: Typed(s)
    ensures Whole(Sittings(disk, sittings))
    decreases |sittings|
  {
    if sittings != [] {
      assert sittings[0] in sittings;
      SitWhole(disk, sittings[0]);
      SittingsWhole(Sit(disk, sittings[0]), sittings[1..]);
    }
  }

  /** After any history that has written files, Enter alone writes them back exactly when they can be
      read back. */
  lemma HistoryFixpoint(sittings: seq<seq<string>>, enters: seq<string>)
    requires (forall s | s in sittings :: Typed(s)) && AllBlank(enters)
    ensures var disk := Sittings(FRESH, sittings);
      && (disk != FRESH ==> exists c :: Complete(c) && disk == FilesOf(c))
      && forall c | Complete(c) && disk == FilesOf(c) && |enters| >= 9 + 2 * |c.wan| ::
           WritesBack(c, AnswersOf(Defaults(disk), enters)) <==> Keeps(c)
  {
    var disk := Sittings(FRESH, sittings);
    SittingsWhole(FRESH, sittings);
    forall c | Complete(c) && disk == FilesOf(c) && |enters| >= 9 + 2 * |c.wan|
      ensures WritesBack(c, AnswersOf(Defaults(disk), enters)) <==> Keeps(c)
    {
      EnterFixpoint(c, enters);
    }
  }
}
