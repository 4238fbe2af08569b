/** Whole runs of the wizard: what a first run and its reruns can write, and when a rerun answered
    with Enter alone writes everything back. */
module WizardRuns {
  import opened Wrappers
  import opened PyText
  import opened Regex
  import opened WizardFiles
  import opened WizardLaws
  import opened WizardUser
  import opened WizardEnv
  import opened WizardRecovery
  import opened Wizard
  import Text

  // --------------------------------------------------------------- defaults

  function ReadUser(c: Config): string {
    var u := UserInHost(c.piHost);
    if u.Some? then u.value else Word(c.ansibleUser, 0)
  }

  predicate Restored(c: Config, d: Config) {
    && d == Config(ReadHost(c), ReadUser(c), Or(ReadTitle(c), IfPlain(c.title, "pispot")),
                   Or(ReadCert(c), IfPlain(c.certName, "")), IfPlain(c.hostname, "pispot.local"),
                   IfPlain(c.country, "US"), IfPlain(c.ssid, ""), IfPlain(c.password, ""), d.wan)
    && WanTaken(VarsText(c), d.wan)
    && (CleanWan(c.wan) ==> d.wan == c.wan)
  }

  /** What the prompts offer after a completed run, field by field. */
  lemma DefaultsLaw(c: Config)
    requires Complete(c)
    ensures Restored(c, Defaults(FilesOf(c)))
  {
    EnvReads(c);
    UserSaved(c);
    WanSaved(c);
    SavedScalar(c, "pispot_https_hostname", "pispot.local");
    SavedScalar(c, "wifi_country", "US");
    SavedScalar(c, "hotspot_ssid", "");
    SavedScalar(c, "hotspot_password", "");
    SavedScalar(c, "pispot_tls_cert_name", "");
    SavedScalar(c, "dashboard_title", "pispot");
  }

  lemma UserSaved(c: Config)
    requires Complete(c)
    ensures VarsOf(FilesOf(c)).user == Some(ReadUser(c))
  {
    UserLaw(c);
  }

  lemma WanSaved(c: Config)
    requires Complete(c)
    ensures var wan := VarsOf(FilesOf(c)).wan;
      WanTaken(VarsText(c), wan) && (CleanWan(c.wan) ==> wan == c.wan)
  {
    NetworksTaken(VarsText(c));
    if CleanWan(c.wan) {
      WanRecovered(c);
    }
  }

  lemma SavedScalar(c: Config, key: string, default: string)
    requires Complete(c) && key in KEYS
    ensures Get(ScalarsOf(VarsText(c), KEYS), key, default) == IfPlain(ValueOf(c, key), default)
  {
    ScalarLaw(c, key);
  }

  // ------------------------------------------------------ answers of Enter

  predicate AllBlank(lines: seq<string>) {
    forall l | l in lines :: Strip(l) == ""
  }

  lemma BlankAsk(default: string, lines: seq<string>)
    requires AllBlank(lines)
    ensures AskOf(default, lines) == if lines == [] then Eof else Got(default, lines[1..])
  {
  }

  lemma {:induction false} BlankRequired(default: string, lines: seq<string>)
    requires AllBlank(lines)
    ensures RequiredOf(default, lines) == if lines == [] || default == "" then Eof else Got(default, lines[1..])
    decreases |lines|
  {
    BlankAsk(default, lines);
    if lines != [] && default == "" {
      BlankRequired(default, lines[1..]);
    }
  }

  lemma {:induction false} BlankPassword(default: string, lines: seq<string>)
    requires AllBlank(lines)
    ensures PasswordOf(default, lines) == if lines == [] || |default| < 8 then Eof else Got(default, lines[1..])
    decreases |lines|
  {
    BlankRequired(default, lines);
    if lines != [] && default != "" && |default| < 8 {
      BlankPassword(default, lines[1..]);
    }
  }

  /** With Enter alone the WAN loop can only accept saved networks, in order. */
  lemma {:induction false} BlankNetworks(prev: seq<Wan>, done: seq<Wan>, lines: seq<string>)
    requires AllBlank(lines) && done <= prev
    ensures var r := NetworksOf(prev, done, lines); r.Got? ==> r.value <= prev
    decreases |lines|
  {
    var i := |done|;
    if lines != [] {
      var ssid := if i < |prev| then prev[i].ssid else "";
      BlankAsk(ssid, lines);
      if ssid == "" {
        if done == [] { BlankNetworks(prev, done, lines[1..]); }
      } else {
        BlankPassword(prev[i].password, lines[1..]);
        if |lines| > 1 && |prev[i].password| >= 8 {
          assert done + [prev[i]] == prev[..i + 1];
          BlankNetworks(prev, done + [prev[i]], lines[2..]);
        }
      }
    }
  }

  predicate Acceptable(wan: seq<Wan>) {
    forall w | w in wan :: w.ssid != "" && LongEnough(w.password)
  }

  /** It accepts all of them when they are acceptable, and stops at the first blank prompt after them. */
  lemma {:induction false} KeepNetworks(prev: seq<Wan>, done: seq<Wan>, lines: seq<string>)
    requires AllBlank(lines) && done <= prev && prev != [] && Acceptable(prev)
    ensures NetworksOf(prev, done, lines)
         == var used := 2 * (|prev| - |done|) + 1; if |lines| < used then Eof else Got(prev, lines[used..])
    decreases |lines|
  {
    var i := |done|;
    if lines != [] {
      if i == |prev| {
        BlankAsk("", lines);
        assert done == prev;
      } else {
        assert prev[i] in prev;
        BlankAsk(prev[i].ssid, lines);
        BlankPassword(prev[i].password, lines[1..]);
        if |lines| > 1 {
          assert done + [prev[i]] == prev[..i + 1];
          KeepNetworks(prev, done + [prev[i]], lines[2..]);
          assert lines[1..][1..] == lines[2..];
        }
      }
    }
  }

  lemma DropOne(lines: seq<string>, k: nat)
    requires k < |lines|
    ensures lines[k..][1..] == lines[k + 1..]
  {
  }

  /** The defaults without which Enter does not get past a prompt. */
  predicate Answerable(d: Config) {
    d.piHost != "" && d.certName != "" && d.ssid != "" && LongEnough(d.password)
  }

  function EnterAnswers(d: Config, lines: seq<string>): Asked<Config> {
    if |lines| < 8 || !Answerable(d) then Eof
    else
      match NetworksOf(d.wan, [], lines[8..])
      case Eof => Eof
      case Got(w, rest) => Got(d.(wan := w), rest)
  }

  /** Eight prompts answered with Enter keep eight defaults; then comes the WAN loop. */
  lemma BlankAnswers(d: Config, lines: seq<string>)
    requires AllBlank(lines)
    ensures AnswersOf(d, lines) == EnterAnswers(d, lines)
  {
    assert lines[0..] == lines;
    forall k | 0 <= k < |lines| ensures lines[k..][1..] == lines[k + 1..] {
      DropOne(lines, k);
    }
    BlankRequired(d.piHost, lines);
    if |lines| >= 1 { BlankAsk(d.ansibleUser, lines[1..]); }
    if |lines| >= 2 { BlankAsk(d.title, lines[2..]); }
    if |lines| >= 3 { BlankRequired(d.certName, lines[3..]); }
    if |lines| >= 4 { BlankAsk(d.hostname, lines[4..]); }
    if |lines| >= 5 { BlankAsk(d.country, lines[5..]); }
    if |lines| >= 6 { BlankRequired(d.ssid, lines[6..]); }
    if |lines| >= 7 { BlankPassword(d.password, lines[7..]); }
  }

  // ------------------------------------------------------------- the fixpoint

  /** No quotation mark in a value that only group_vars holds, no line hidden in a value of .env that
      changes what is read there, and no user name in the host but the user. */
  predicate Keeps(c: Config) {
    && QuoteFree(c.hostname) && QuoteFree(c.country) && QuoteFree(c.ssid) && QuoteFree(c.password)
    && (forall w | w in c.wan :: QuoteFree(w.ssid) && QuoteFree(w.password))
    && HostKept(c) && CertKept(c) && TitleKept(c)
    && UserKept(c)
  }

  predicate UserKept(c: Config) {
    match UserInHost(c.piHost)
    case Some(u) => u == c.ansibleUser
    case None => forall i | 0 <= i < |c.ansibleUser| :: !IsSpace(c.ansibleUser[i])
  }

  lemma DefaultsKept(c: Config)
    requires Complete(c) && Keeps(c)
    ensures Defaults(FilesOf(c)) == c
  {
    DefaultsLaw(c);
    HostKeptExact(c);
    CertKeptExact(c);
    TitleKeptExact(c);
    WholeWord(c.ansibleUser);
    forall w | w in c.wan ensures Clean(w.ssid) && Clean(w.password) {
      assert WanComplete(w);
    }
  }

  /** No host with a line break in it is offered again. */
  lemma BrokenHostNotKept(c: Config)
    requires Complete(c) && !Unbroken(c.piHost)
    ensures Defaults(FilesOf(c)).piHost != c.piHost && !Keeps(c)
  {
    DefaultsLaw(c);
    HostKeptExact(c);
  }

  lemma EnterAccepts(d: Config, lines: seq<string>)
    requires Answerable(d) && d.wan != [] && Acceptable(d.wan) && AllBlank(lines)
    ensures var used := 9 + 2 * |d.wan|;
      EnterAnswers(d, lines) == if |lines| < used then Eof else Got(d, lines[used..])
  {
    if |lines| >= 8 {
      var n := 2 * |d.wan| + 1;
      KeepNetworks(d.wan, [], lines[8..]);
      if |lines| >= 8 + n {
        assert lines[8..][n..] == lines[8 + n..];
        assert d.(wan := d.wan) == d;
      }
    }
  }

  /** Enter at every prompt: the rerun needs 9 + 2n lines and keeps everything. */
  lemma EnterKeeps(c: Config, lines: seq<string>)
    requires Complete(c) && Keeps(c) && AllBlank(lines)
    ensures var used := 9 + 2 * |c.wan|;
      AnswersOf(Defaults(FilesOf(c)), lines) == if |lines| < used then Eof else Got(c, lines[used..])
  {
    DefaultsKept(c);
    forall w | w in c.wan ensures w.ssid != "" && LongEnough(w.password) {
      assert WanComplete(w);
    }
    EnterAccepts(c, lines);
    BlankAnswers(c, lines);
  }

  // ------------------------------------------------- the files tell all apart

  lemma LinesTell(a: seq<string>, b: seq<string>)
    requires Text.Unlines(a) == Text.Unlines(b)
    requires (forall l | l in a :: '\n' !in l) && forall l | l in b :: '\n' !in l
    ensures a == b
  {
    Text.RawLinesUnlines(a, "");
    Text.RawLinesUnlines(b, "");
    assert Text.Unlines(a) + "" == Text.Unlines(a) && Text.Unlines(b) + "" == Text.Unlines(b);
    assert a + [] == a && b + [] == b;
  }

  lemma ScalarTells(key: string, v: string, w: string)
    requires Scalar(key, v) == Scalar(key, w)
    ensures v == w
  {
    Between(key + ": \"", v, w, "\"");
  }

  lemma Between(a: string, v: string, w: string, b: string)
    requires a + v + b == a + w + b
    ensures v == w
  {
    var s, t := a + v + b, a + w + b;
    assert |v| == |w|;
    assert v == s[|a|..|a| + |v|] && w == t[|a|..|a| + |w|];
  }

  lemma {:induction false} WanTells(a: seq<Wan>, b: seq<Wan>)
    requires WanLines(a) == WanLines(b)
    ensures a == b
  {
    if a != [] && b != [] {
      var x, y := WanLines(a), WanLines(b);
      assert x[0] == y[0] && x[1] == y[1] && x[2..] == WanLines(a[1..]) && y[2..] == WanLines(b[1..]);
      Between("  - ssid: \"", a[0].ssid, b[0].ssid, "\"");
      Between("    password: \"", a[0].password, b[0].password, "\"");
      WanTells(a[1..], b[1..]);
      assert a == [a[0]] + a[1..] && b == [b[0]] + b[1..];
    }
  }

  // ---------------------------------------------- the other direction

  /** The six scalar lines and the networks can be read off the text of group_vars. */
  lemma VarsTell(c: Config, d: Config)
    requires PlainVars(c) && PlainVars(d) && VarsText(c) == VarsText(d)
    ensures c.country == d.country && c.ssid == d.ssid && c.password == d.password && c.hostname == d.hostname
    ensures c.wan == d.wan
  {
    LinesTell(VarsLines(c), VarsLines(d));
    VarsLinesTell(c, d);
  }

  ghost predicate PlainVars(c: Config) {
    forall l | l in VarsLines(c) :: '\n' !in l
  }

  lemma VarsLinesTell(c: Config, d: Config)
    requires VarsLines(c) == VarsLines(d)
    ensures c.country == d.country && c.ssid == d.ssid && c.password == d.password && c.hostname == d.hostname
    ensures c.wan == d.wan
  {
    WanCount(c.wan);
    WanCount(d.wan);
    Pieces(VarsHead(c), WanLines(c.wan), VarsTail(c), VarsHead(d), WanLines(d.wan), VarsTail(d));
    WanTells(c.wan, d.wan);
    ScalarTells("wifi_country", c.country, d.country);
    ScalarTells("hotspot_ssid", c.ssid, d.ssid);
    ScalarTells("hotspot_password", c.password, d.password);
    ScalarTells("pispot_https_hostname", c.hostname, d.hostname);
  }

  lemma {:induction false} WanCount(wan: seq<Wan>)
    ensures |WanLines(wan)| == 2 * |wan|
  {
    if wan != [] {
      WanCount(wan[1..]);
    }
  }

  lemma Pieces<T>(a: seq<T>, b: seq<T>, c: seq<T>, x: seq<T>, y: seq<T>, z: seq<T>)
    requires a + b + c == x + y + z && |a| == |x| && |c| == |z|
    ensures a == x && b == y && c == z
  {
    var s, t := a + b + c, x + y + z;
    assert |b| == |y|;
    assert a == s[..|a|] && b == s[|a|..|a| + |b|] && c == s[|a| + |b|..];
    assert x == t[..|a|] && y == t[|a|..|a| + |b|] && z == t[|a| + |b|..];
  }

  lemma Tail3(x: string, a: string, b: string, u: string, v: string, e: string)
    requires x + (a + (b + u + e)) == x + (a + (b + v + e))
    ensures u == v
  {
    var s, t := x + (a + (b + u + e)), x + (a + (b + v + e));
    var n := |x| + |a| + |b|;
    assert |u| == |v|;
    assert u == s[n..n + |u|] && v == t[n..n + |v|];
  }

  lemma UserTells(c: Config, d: Config)
    requires c.piHost == d.piHost && HostsText(c) == HostsText(d)
    ensures c.ansibleUser == d.ansibleUser
  {
    InventoryText(c);
    InventoryText(d);
    Tail3(PLAIN_PART + "_host=" + c.piHost, " ", USER, c.ansibleUser, d.ansibleUser, "\n");
  }

  /** The three values can be read off the text of .env. */
  lemma EnvTells(c: Config, d: Config)
    requires NewlineFree(c) && NewlineFree(d) && EnvText(c) == EnvText(d)
    ensures c.piHost == d.piHost && c.certName == d.certName && c.title == d.title
  {
    EnvLinesPlain(c);
    EnvLinesPlain(d);
    LinesTell(EnvLines(c), EnvLines(d));
    EnvLinesTell(c, d);
  }

  lemma EnvLinesPlain(c: Config)
    requires NewlineFree(c)
    ensures forall l | l in EnvLines(c) :: '\n' !in l
  {
    CommentPlain();
  }

  lemma EnvLinesTell(c: Config, d: Config)
    requires EnvLines(c) == EnvLines(d)
    ensures c.piHost == d.piHost && c.certName == d.certName && c.title == d.title
  {
    var x, y := EnvLines(c), EnvLines(d);
    assert x[1] == y[1] && x[2] == y[2] && x[3] == y[3];
    Behind("PI_HOST=", c.piHost, d.piHost);
    Behind("PISPOT_TLS_CERT_NAME=", c.certName, d.certName);
    Behind("DASHBOARD_TITLE=", c.title, d.title);
  }

  lemma Behind(a: string, v: string, w: string)
    requires a + v == a + w
    ensures v == w
  {
    assert v == (a + v)[|a|..] && w == (a + w)[|a|..];
  }

  /** Values without newlines make lines without newlines. */
  predicate NewlineFree(c: Config) {
    && '\n' !in c.piHost
    && '\n' !in c.country && '\n' !in c.ssid && '\n' !in c.password && '\n' !in c.hostname
    && '\n' !in c.certName && '\n' !in c.title
    && forall w | w in c.wan :: '\n' !in w.ssid && '\n' !in w.password
  }

  lemma {:induction false} WanNewlineFree(wan: seq<Wan>)
    requires forall w | w in wan :: '\n' !in w.ssid && '\n' !in w.password
    ensures forall l | l in WanLines(wan) :: '\n' !in l
  {
    if wan != [] {
      assert wan[0] in wan;
      WanNewlineFree(wan[1..]);
    }
  }

  lemma LinesNewlineFree(c: Config)
    requires NewlineFree(c)
    ensures PlainVars(c)
  {
    CommentPlain();
    WanNewlineFree(c.wan);
    forall l | l in VarsHead(c) ensures '\n' !in l {
    }
    forall l | l in VarsTail(c) ensures '\n' !in l {
    }
  }

  lemma CompleteNewlineFree(c: Config)
    requires Complete(c)
    ensures NewlineFree(c)
  {
    forall w | w in c.wan ensures '\n' !in w.ssid && '\n' !in w.password {
      assert WanComplete(w);
    }
  }

  /** The answers to Enter have no newline, and no quotation mark where group_vars is their only source. */
  lemma EnteredPlain(c: Config, d: Config, e: Config)
    requires Complete(c) && Restored(c, d) && e == d.(wan := e.wan) && e.wan <= d.wan
    ensures NewlineFree(e)
    ensures QuoteFree(e.hostname) && QuoteFree(e.country) && QuoteFree(e.ssid) && QuoteFree(e.password)
    ensures forall w | w in e.wan :: QuoteFree(w.ssid) && QuoteFree(w.password)
  {
    CompleteNewlineFree(c);
    ReadsShape(c);
    OptionalPlain(ReadHost(c));
    OptionalPlain(ReadCert(c));
    OptionalPlain(ReadTitle(c));
    NetworksPlain(VarsText(c), d.wan, e.wan);
    DefaultsPlain(c.title, "pispot");
    DefaultsPlain(c.certName, "");
    DefaultsPlain(c.hostname, "pispot.local");
    DefaultsPlain(c.country, "US");
    DefaultsPlain(c.ssid, "");
    DefaultsPlain(c.password, "");
  }

  lemma OptionalPlain(v: string)
    requires Optional(v)
    ensures '\n' !in v
  {
  }

  lemma DefaultsPlain(v: string, default: string)
    requires '\n' !in v && default in {"", "US", "pispot", "pispot.local"}
    ensures '\n' !in IfPlain(v, default) && QuoteFree(IfPlain(v, default))
  {
  }

  lemma NetworksPlain(text: string, wan: seq<Wan>, kept: seq<Wan>)
    requires WanTaken(text, wan) && kept <= wan
    ensures forall w | w in kept :: QuoteFree(w.ssid) && QuoteFree(w.password) && '\n' !in w.ssid && '\n' !in w.password
  {
    forall w | w in kept
      ensures QuoteFree(w.ssid) && QuoteFree(w.password) && '\n' !in w.ssid && '\n' !in w.password
    {
      assert w in wan;
      TakenPlain(text, w.ssid);
      TakenPlain(text, w.password);
    }
  }

  lemma TakenPlain(text: string, v: string)
    requires Taken(text, v)
    ensures QuoteFree(v) && '\n' !in v
  {
  }

  predicate WritesBack(c: Config, r: Asked<Config>) {
    r.Got? && FilesOf(r.value) == FilesOf(c)
  }

  lemma EnterOnlyKeeps(c: Config, e: Config)
    requires Complete(c) && FilesOf(e) == FilesOf(c)
    requires e.piHost == ReadHost(c) && e.ansibleUser == ReadUser(c)
    requires e.certName == Or(ReadCert(c), IfPlain(c.certName, ""))
    requires e.title == Or(ReadTitle(c), IfPlain(c.title, "pispot"))
    requires NewlineFree(e) && QuoteFree(e.hostname) && QuoteFree(e.country) && QuoteFree(e.ssid) && QuoteFree(e.password)
    requires forall w | w in e.wan :: QuoteFree(w.ssid) && QuoteFree(w.password)
    ensures Keeps(c)
  {
    CompleteNewlineFree(c);
    LinesNewlineFree(c);
    LinesNewlineFree(e);
    VarsTell(c, e);
    EnvTells(c, e);
    UserTells(c, e);
    HostKeptExact(c);
    CertKeptExact(c);
    TitleKeptExact(c);
    WholeWord(c.ansibleUser);
  }

  /** A rerun with Enter alone writes the three files back byte for byte exactly when the saved values
      can be read back. */
  lemma EnterFixpoint(c: Config, lines: seq<string>)
    requires Complete(c) && AllBlank(lines) && |lines| >= 9 + 2 * |c.wan|
    ensures WritesBack(c, AnswersOf(Defaults(FilesOf(c)), lines)) <==> Keeps(c)
  {
    var d := Defaults(FilesOf(c));
    if Keeps(c) {
      EnterKeeps(c, lines);
    }
    BlankAnswers(d, lines);
    var r := EnterAnswers(d, lines);
    if WritesBack(c, r) {
      BlankNetworks(d.wan, [], lines[8..]);
      DefaultsLaw(c);
      EnteredPlain(c, d, r.value);
      EnterOnlyKeeps(c, r.value);
    }
  }
}
