/** What load_env gives back of dashboard/.env (scripts/init.py).  The file is split at every break that
    str.splitlines knows, while a typed answer ends at a newline only, so an answer may hold lines of
    its own, and these may bind keys. */
module WizardEnv {
  import opened Wrappers
  import opened PyText
  import opened WizardFiles
  import opened WizardLaws
  import opened Wizard
  import Text

  // ------------------------------------------------------- lines in a value

  predicate Unbroken(v: string) {
    forall i | 0 <= i < |v| :: !IsBreak(v[i])
  }

  /** The first line of a value, which is what follows the key. */
  function First(v: string): string {
    if v == "" then "" else Strip(SplitLines(v)[0])
  }

  /** The lines hidden behind it. */
  function Hidden(v: string): seq<string> {
    if v == "" then [] else SplitLines(v)[1..]
  }

  lemma UnbrokenSplit(v: string)
    requires Unbroken(v) && v != ""
    ensures SplitLines(v) == [v]
  {
  }

  lemma BrokenSplit(v: string)
    requires v != "" && !Unbroken(v)
    ensures First(v) != v
  {
    SplitParts(v, v);
    StripKeeps(SplitLines(v)[0]);
    var i :| 0 <= i < |v| && IsBreak(v[i]);
    assert v[i] !in First(v) && v[i] in v;
  }

  /** Characters of the text, none of them a break. */
  predicate LineOf(text: string, l: string) {
    forall c | c in l :: !IsBreak(c) && c in text
  }

  lemma {:induction false} SplitParts(v: string, text: string)
    requires forall c | c in v :: c in text
    ensures forall l | l in SplitLines(v) :: LineOf(text, l)
    decreases |v|
  {
    if v != "" {
      var i := BreakAt(v);
      assert LineOf(text, v[..i]);
      if i < |v| {
        SplitParts(v[i + 1..], text);
        if i + 1 < |v| {
          SplitParts(v[i + 2..], text);
        }
      }
    }
  }

  lemma SplitFirst(s: string, i: nat)
    requires i < |s| && IsBreak(s[i]) && s[i] != '\r' && forall j | 0 <= j < i :: !IsBreak(s[j])
    ensures SplitLines(s) == [s[..i]] + SplitLines(s[i + 1..])
  {
    assert BreakAt(s) == i;
  }

  lemma SplitInFront(line: string, more: string, i: nat)
    requires i < |line| && IsBreak(line[i]) && line[i] != '\r' && forall j | 0 <= j < i :: !IsBreak(line[j])
    ensures SplitLines(line + more) == [line[..i]] + SplitLines(line[i + 1..] + more)
  {
    var text := line + more;
    assert text[..i] == line[..i] && text[i + 1..] == line[i + 1..] + more;
    SplitFirst(text, i);
  }

  /** A line that does not end in a break is split by itself. */
  lemma {:induction false} SplitAppend(line: string, rest: string)
    requires '\r' !in line && line != "" && !IsBreak(line[|line| - 1])
    ensures SplitLines(line + ("\n" + rest)) == SplitLines(line) + SplitLines(rest)
    decreases |line|
  {
    var i := BreakAt(line);
    if i == |line| {
      Text.Assoc(line, "\n", rest);
      SplitLinesCons(line, rest);
      UnbrokenSplit(line);
    } else {
      var tail := line[i + 1..];
      assert line[i] in line;
      assert tail != "" && tail[|tail| - 1] == line[|line| - 1];
      SplitAppend(tail, rest);
      SplitInFront(line, "\n" + rest, i);
      SplitFirst(line, i);
      Text.Assoc([line[..i]], SplitLines(tail), SplitLines(rest));
    }
  }

  lemma UnbrokenAppend(a: string, b: string)
    requires Unbroken(a) && Unbroken(b)
    ensures Unbroken(a + b)
  {
  }

  lemma Slices(front: string, v: string, i: nat)
    requires i < |v|
    ensures var s, n := front + v, |front| + i; s[..n] == front + v[..i] && s[n] == v[i] && s[n + 1..] == v[i + 1..]
  {
  }

  lemma NoBreakBefore(front: string, v: string, i: nat)
    requires Unbroken(front) && i < |v| && forall j | 0 <= j < i :: !IsBreak(v[j])
    ensures forall j | 0 <= j < |front| + i :: !IsBreak((front + v)[j])
  {
    var s := front + v;
    forall j | 0 <= j < |front| + i ensures !IsBreak(s[j]) {
      if j < |front| {
        assert s[j] == front[j];
      } else {
        assert s[j] == v[j - |front|];
      }
    }
  }

  lemma SplitBehind(front: string, v: string, i: nat)
    requires Unbroken(front)
    requires i < |v| && IsBreak(v[i]) && v[i] != '\r' && forall j | 0 <= j < i :: !IsBreak(v[j])
    ensures SplitLines(front + v) == [front + v[..i]] + SplitLines(v[i + 1..])
  {
    Slices(front, v, i);
    NoBreakBefore(front, v, i);
    SplitFirst(front + v, |front| + i);
  }

  /** What stands in front of a value joins its first line. */
  lemma SplitPrefix(front: string, v: string)
    requires Unbroken(front) && '\r' !in v && v != ""
    ensures SplitLines(v) != []
    ensures SplitLines(front + v) == [front + SplitLines(v)[0]] + SplitLines(v)[1..]
  {
    var i := BreakAt(v);
    if i == |v| {
      UnbrokenAppend(front, v);
      UnbrokenSplit(front + v);
      UnbrokenSplit(v);
    } else {
      assert v[i] in v;
      SplitFirst(v, i);
      SplitBehind(front, v, i);
    }
  }

  // ----------------------------------------------------- load_env over lines

  /** Later lines win over earlier ones. */
  lemma {:induction false} EnvAppend(a: seq<string>, b: seq<string>)
    ensures EnvOf(a + b) == EnvOf(a) + EnvOf(b)
    decreases |b|
  {
    if b == [] {
      assert a + b == a;
    } else {
      var init, last := b[..|b| - 1], b[|b| - 1];
      EnvAppend(a, init);
      assert (a + b)[..|a + b| - 1] == a + init && (a + b)[|a + b| - 1] == last;
    }
  }

  /** A key that survives stripping and has no '='. */
  predicate KeyWord(key: string) {
    key != "" && key[0] != '#' && Stripped(key) && Unbroken(key) && '=' !in key && OneLine(key)
  }

  lemma {:induction false} RStripBehind(front: string, p: string)
    requires front != "" && !IsSpace(front[|front| - 1])
    ensures RStrip(front + p) == front + RStrip(p)
    decreases |p|
  {
    var s := front + p;
    if p == "" {
      assert s == front;
    } else if IsSpace(p[|p| - 1]) {
      assert s[..|s| - 1] == front + p[..|p| - 1];
      RStripBehind(front, p[..|p| - 1]);
    }
  }

  /** One line with a key binds it to what follows, stripped. */
  lemma Binding(key: string, p: string)
    requires KeyWord(key) && p != "" && !IsSpace(p[0])
    ensures EnvOf([key + "=" + p]) == map[key := Strip(p)]
  {
    var front := key + "=";
    var line := front + p;
    RStripBehind(front, p);
    assert Strip(line) == front + RStrip(p);
    assert Strip(p) == RStrip(p);
    RStripKeeps(p);
    StripNothing(RStrip(p));
    StripNothing(key);
    PartitionAt(key, '=', RStrip(p));
    assert "=" == ['='];
    assert [line][..0] == [];
  }

  lemma FirstLineStarts(v: string)
    requires Entered(v)
    ensures SplitLines(v) != [] && SplitLines(v)[0] != "" && SplitLines(v)[0][0] == v[0]
  {
    assert !IsBreak(v[0]);
  }

  /** The lines a printed binding becomes, and what they bind. */
  lemma BindingLines(key: string, v: string)
    requires KeyWord(key) && Entered(v)
    ensures EnvOf(SplitLines(key + "=" + v)) == map[key := First(v)] + EnvOf(Hidden(v))
  {
    FirstLineStarts(v);
    SplitPrefix(key + "=", v);
    var p := SplitLines(v)[0];
    Binding(key, p);
    EnvAppend([key + "=" + p], Hidden(v));
  }

  // ----------------------------------------------------------- the whole file

  lemma CommentLine()
    ensures OneLine(COMMENT) && Unbroken(COMMENT) && EnvOf([COMMENT]) == map[]
  {
    CommentUnbroken();
    UnbrokenIsOneLine(COMMENT);
    CommentUnread(COMMENT);
  }

  lemma CommentUnbroken()
    ensures Unbroken(COMMENT) && COMMENT != "" && COMMENT[0] == '#' && Stripped(COMMENT)
  {
    assert COMMENT[|COMMENT| - 1] == '.';
  }

  lemma UnbrokenIsOneLine(v: string)
    requires Unbroken(v)
    ensures OneLine(v)
  {
  }

  lemma CommentUnread(l: string)
    requires l != "" && l[0] == '#' && Stripped(l)
    ensures EnvOf([l]) == map[]
  {
    StripNothing(l);
    assert [l][..0] == [];
  }

  lemma EnvKeys()
    ensures KeyWord("PI_HOST") && KeyWord("PISPOT_TLS_CERT_NAME") && KeyWord("DASHBOARD_TITLE")
  {
  }

  lemma EnvCons(key: string, v: string, rest: string)
    requires KeyWord(key) && Entered(v)
    ensures EnvOf(SplitLines(key + "=" + v + ("\n" + rest)))
         == (map[key := First(v)] + EnvOf(Hidden(v))) + EnvOf(SplitLines(rest))
  {
    var line := key + "=" + v;
    assert line[|line| - 1] == v[|v| - 1];
    SplitAppend(line, rest);
    BindingLines(key, v);
    EnvAppend(SplitLines(line), SplitLines(rest));
  }

  lemma FourLines(a: string, b: string, c: string, d: string)
    ensures Text.Unlines([a, b, c, d]) == a + "\n" + (b + ("\n" + (c + ("\n" + (d + ("\n" + ""))))))
  {
    Text.UnlinesCons(a, [b, c, d]);
    Text.UnlinesCons(b, [c, d]);
    Text.UnlinesCons(c, [d]);
    Text.UnlinesCons(d, []);
    assert [a] + [b, c, d] == [a, b, c, d] && [b] + [c, d] == [b, c, d];
    assert [c] + [d] == [c, d] && [d] + [] == [d];
    Text.Assoc(b, "\n", Text.Unlines([c, d]));
    Text.Assoc(c, "\n", Text.Unlines([d]));
    Text.Assoc(d, "\n", "");
  }

  /** What the lines of one value bind. */
  function Bound(key: string, v: string): map<string, string> {
    map[key := First(v)] + EnvOf(Hidden(v))
  }

  lemma LastBinding(l: string, w: string)
    requires KeyWord(l) && Entered(w)
    ensures EnvOf(SplitLines(l + "=" + w + ("\n" + ""))) == Bound(l, w)
  {
    EnvCons(l, w, "");
    Nothing();
    assert Bound(l, w) + map[] == Bound(l, w);
  }

  lemma TwoBindings(k: string, l: string, v: string, w: string)
    requires KeyWord(k) && KeyWord(l) && Entered(v) && Entered(w)
    ensures EnvOf(SplitLines(k + "=" + v + ("\n" + (l + "=" + w + ("\n" + ""))))) == Bound(k, v) + Bound(l, w)
  {
    EnvCons(k, v, l + "=" + w + ("\n" + ""));
    LastBinding(l, w);
  }

  lemma CommentCons(comment: string, rest: string)
    requires Unbroken(comment) && EnvOf([comment]) == map[]
    ensures EnvOf(SplitLines(comment + "\n" + rest)) == EnvOf(SplitLines(rest))
  {
    SplitLinesCons(comment, rest);
    EnvAppend([comment], SplitLines(rest));
    assert map[] + EnvOf(SplitLines(rest)) == EnvOf(SplitLines(rest));
  }

  lemma ThreeBindings(comment: string, j: string, k: string, l: string, u: string, v: string, w: string)
    requires Unbroken(comment) && EnvOf([comment]) == map[]
    requires KeyWord(j) && KeyWord(k) && KeyWord(l) && Entered(u) && Entered(v) && Entered(w)
    ensures EnvOf(SplitLines(Text.Unlines([comment, j + "=" + u, k + "=" + v, l + "=" + w])))
         == Bound(j, u) + (Bound(k, v) + Bound(l, w))
  {
    var tb := k + "=" + v + ("\n" + (l + "=" + w + ("\n" + "")));
    FourLines(comment, j + "=" + u, k + "=" + v, l + "=" + w);
    CommentCons(comment, j + "=" + u + ("\n" + tb));
    EnvCons(j, u, tb);
    TwoBindings(k, l, v, w);
  }

  lemma Nothing()
    ensures EnvOf(SplitLines("")) == map[]
  {
  }

  lemma EnvShape(c: Config)
    ensures EnvLines(c) == [COMMENT, "PI_HOST" + "=" + c.piHost, "PISPOT_TLS_CERT_NAME" + "=" + c.certName,
                            "DASHBOARD_TITLE" + "=" + c.title]
  {
    assert "PI_HOST" + "=" == "PI_HOST=" && "PISPOT_TLS_CERT_NAME" + "=" == "PISPOT_TLS_CERT_NAME=";
    assert "DASHBOARD_TITLE" + "=" == "DASHBOARD_TITLE=";
  }

  /** What load_env makes of dashboard/.env, for all typed answers: each key is bound to the first line
      of its value, unless a line hidden in this or a later value binds it again. */
  lemma EnvLaw(c: Config)
    requires Entered(c.piHost) && Entered(c.certName) && Entered(c.title)
    ensures EnvOf(SplitLines(EnvText(c)))
         == Bound("PI_HOST", c.piHost) + (Bound("PISPOT_TLS_CERT_NAME", c.certName) + Bound("DASHBOARD_TITLE", c.title))
  {
    EnvShape(c);
    EnvKeys();
    CommentLine();
    ThreeBindings(COMMENT, "PI_HOST", "PISPOT_TLS_CERT_NAME", "DASHBOARD_TITLE", c.piHost, c.certName, c.title);
  }

  // ------------------------------------------------- what each prompt is offered

  /** What the last of these lines that binds the key binds it to. */
  function Rebound(lines: seq<string>, key: string): Option<string> {
    if key in EnvOf(lines) then Some(EnvOf(lines)[key]) else None
  }

  /** The value of a key whose own line says `first`, with `later` lines behind it. */
  function Reread(first: string, later: seq<string>, key: string): string {
    Get(EnvOf(later), key, first)
  }

  function ReadHost(c: Config): string {
    Reread(First(c.piHost), Hidden(c.piHost) + (Hidden(c.certName) + Hidden(c.title)), "PI_HOST")
  }

  function ReadCert(c: Config): string {
    Reread(First(c.certName), Hidden(c.certName) + Hidden(c.title), "PISPOT_TLS_CERT_NAME")
  }

  function ReadTitle(c: Config): string {
    Reread(First(c.title), Hidden(c.title), "DASHBOARD_TITLE")
  }

  lemma KeysApart()
    ensures "PI_HOST" != "PISPOT_TLS_CERT_NAME" && "PI_HOST" != "DASHBOARD_TITLE"
    ensures "PISPOT_TLS_CERT_NAME" != "DASHBOARD_TITLE"
  {
    assert |"PI_HOST"| == 7 && |"PISPOT_TLS_CERT_NAME"| == 20 && |"DASHBOARD_TITLE"| == 15;
  }

  lemma ReadMaps(j: string, k: string, l: string, fu: string, fv: string, fw: string,
                 hu: map<string, string>, hv: map<string, string>, hw: map<string, string>)
    requires j != k && j != l && k != l
    ensures var env := (map[j := fu] + hu) + ((map[k := fv] + hv) + (map[l := fw] + hw));
      && Get(env, j, "") == Get(hu + (hv + hw), j, fu)
      && Get(env, k, "") == Get(hv + hw, k, fv)
      && Get(env, l, "") == Get(hw, l, fw)
  {
  }

  lemma ReadThree(j: string, k: string, l: string, u: string, v: string, w: string, env: map<string, string>)
    requires j != k && j != l && k != l && env == Bound(j, u) + (Bound(k, v) + Bound(l, w))
    ensures Get(env, j, "") == Reread(First(u), Hidden(u) + (Hidden(v) + Hidden(w)), j)
    ensures Get(env, k, "") == Reread(First(v), Hidden(v) + Hidden(w), k)
    ensures Get(env, l, "") == Reread(First(w), Hidden(w), l)
  {
    HiddenMaps(Hidden(u), Hidden(v), Hidden(w));
    ReadMaps(j, k, l, First(u), First(v), First(w), EnvOf(Hidden(u)), EnvOf(Hidden(v)), EnvOf(Hidden(w)));
  }

  lemma HiddenMaps(a: seq<string>, b: seq<string>, c: seq<string>)
    ensures EnvOf(b + c) == EnvOf(b) + EnvOf(c) && EnvOf(a + (b + c)) == EnvOf(a) + (EnvOf(b) + EnvOf(c))
  {
    EnvAppend(b, c);
    EnvAppend(a, b + c);
  }

  lemma EnvReads(c: Config)
    requires Entered(c.piHost) && Entered(c.certName) && Entered(c.title)
    ensures var env := EnvOn(FilesOf(c));
      && Get(env, "PI_HOST", "") == ReadHost(c) && Get(env, "PISPOT_TLS_CERT_NAME", "") == ReadCert(c)
      && Get(env, "DASHBOARD_TITLE", "") == ReadTitle(c)
  {
    EnvLaw(c);
    KeysApart();
    ReadThree("PI_HOST", "PISPOT_TLS_CERT_NAME", "DASHBOARD_TITLE", c.piHost, c.certName, c.title, EnvOn(FilesOf(c)));
  }

  // --------------------------------------- what can be read from .env at all

  predicate AllLinesOf(text: string, lines: seq<string>) {
    forall l | l in lines :: LineOf(text, l)
  }

  lemma {:induction false} PartitionPart(s: string, c: char)
    ensures forall x | x in Partition(s, c).1 :: x in s
  {
    if s != "" && s[0] != c {
      PartitionPart(s[1..], c);
    }
  }

  /** A value bound by unbroken lines is stripped and unbroken, and its characters are theirs. */
  lemma {:induction false} EnvValues(text: string, lines: seq<string>)
    requires AllLinesOf(text, lines)
    ensures forall k | k in EnvOf(lines) :: Stripped(EnvOf(lines)[k]) && LineOf(text, EnvOf(lines)[k])
    decreases |lines|
  {
    if lines != [] {
      var init, last := lines[..|lines| - 1], lines[|lines| - 1];
      EnvValues(text, init);
      assert LineOf(text, last);
      LineValue(text, last);
    }
  }

  lemma LineValue(text: string, l: string)
    requires LineOf(text, l)
    ensures var v := Strip(Partition(Strip(l), '=').1); Stripped(v) && LineOf(text, v)
  {
    StripKeeps(l);
    var p := Partition(Strip(l), '=').1;
    PartitionPart(Strip(l), '=');
    StripKeeps(p);
    forall c | c in Strip(p) ensures !IsBreak(c) && c in text {
      assert c in p && c in Strip(l) && c in l;
    }
  }

  lemma HiddenLines(v: string, text: string)
    requires forall c | c in v :: c in text
    ensures AllLinesOf(text, Hidden(v))
  {
    SplitParts(v, text);
  }

  lemma FirstRead(v: string, text: string)
    requires Entered(v) && forall c | c in v :: c in text
    ensures First(v) != "" && Stripped(First(v)) && LineOf(text, First(v))
  {
    SplitParts(v, text);
    FirstLineStarts(v);
    var p := SplitLines(v)[0];
    StripKeeps(p);
    assert LineOf(text, p);
    LStripNonspace(p);
  }

  lemma LStripNonspace(p: string)
    requires p != "" && !IsSpace(p[0])
    ensures Strip(p) != ""
  {
    RStripBehind([p[0]], p[1..]);
    assert [p[0]] + p[1..] == p;
  }

  lemma RereadShape(v: string, later: seq<string>, key: string, text: string)
    requires Entered(v) && (forall c | c in v :: c in text) && AllLinesOf(text, later)
    ensures var r := Reread(First(v), later, key); Stripped(r) && LineOf(text, r)
    ensures key !in EnvOf(later) ==> Reread(First(v), later, key) == First(v) != ""
  {
    FirstRead(v, text);
    EnvValues(text, later);
  }

  /** One-line characters make one-line values. */
  lemma LineOptional(text: string, r: string)
    requires Stripped(r) && LineOf(text, r) && OneLine(text)
    ensures Optional(r) && Unbroken(r)
  {
  }

  lemma ReadsShape(c: Config)
    requires Entered(c.piHost) && Entered(c.certName) && Entered(c.title)
    ensures Optional(ReadHost(c)) && Optional(ReadCert(c)) && Optional(ReadTitle(c))
    ensures Unbroken(ReadHost(c)) && Unbroken(ReadCert(c)) && Unbroken(ReadTitle(c))
  {
    var text := c.piHost + c.certName + c.title;
    HiddenLines(c.piHost, text);
    HiddenLines(c.certName, text);
    HiddenLines(c.title, text);
    RereadShape(c.piHost, Hidden(c.piHost) + (Hidden(c.certName) + Hidden(c.title)), "PI_HOST", text);
    RereadShape(c.certName, Hidden(c.certName) + Hidden(c.title), "PISPOT_TLS_CERT_NAME", text);
    RereadShape(c.title, Hidden(c.title), "DASHBOARD_TITLE", text);
    LineOptional(text, ReadHost(c));
    LineOptional(text, ReadCert(c));
    LineOptional(text, ReadTitle(c));
  }

  // ------------------------------------------------------ when a value is kept

  lemma UnbrokenPlain(v: string)
    requires Entered(v) && Unbroken(v)
    ensures First(v) == v && Hidden(v) == []
  {
    UnbrokenSplit(v);
    StripNothing(v);
  }

  lemma FirstIsValue(v: string)
    requires Entered(v)
    ensures First(v) == v <==> Unbroken(v)
  {
    if Unbroken(v) {
      UnbrokenPlain(v);
    } else {
      BrokenSplit(v);
    }
  }

  function IfPlain(v: string, default: string): string {
    if QuoteFree(v) then v else default
  }

  /** The host has no break, and no line hidden in the other two values names another host. */
  predicate HostKept(c: Config) {
    && Unbroken(c.piHost)
    && match Rebound(Hidden(c.certName) + Hidden(c.title), "PI_HOST")
       case Some(h) => h == c.piHost
       case None => true
  }

  /** The name has no break or is rebound to itself; rebound to nothing, it is read from group_vars. */
  predicate CertKept(c: Config) {
    match Rebound(Hidden(c.certName) + Hidden(c.title), "PISPOT_TLS_CERT_NAME")
    case Some(n) => if n == "" then QuoteFree(c.certName) else n == c.certName
    case None => Unbroken(c.certName)
  }

  predicate TitleKept(c: Config) {
    match Rebound(Hidden(c.title), "DASHBOARD_TITLE")
    case Some(t) => t == "" && QuoteFree(c.title)
    case None => Unbroken(c.title)
  }

  lemma HostKeptExact(c: Config)
    requires Entered(c.piHost) && Entered(c.certName) && Entered(c.title)
    ensures ReadHost(c) == c.piHost <==> HostKept(c)
  {
    ReadsShape(c);
    if Unbroken(c.piHost) {
      UnbrokenPlain(c.piHost);
      assert [] + (Hidden(c.certName) + Hidden(c.title)) == Hidden(c.certName) + Hidden(c.title);
    }
  }

  lemma CertKeptExact(c: Config)
    requires Entered(c.piHost) && Entered(c.certName) && Entered(c.title)
    ensures Or(ReadCert(c), IfPlain(c.certName, "")) == c.certName <==> CertKept(c)
  {
    FirstIsValue(c.certName);
    FirstRead(c.certName, c.certName);
  }

  lemma TitleKeptExact(c: Config)
    requires Entered(c.piHost) && Entered(c.certName) && Entered(c.title)
    ensures Or(ReadTitle(c), IfPlain(c.title, "pispot")) == c.title <==> TitleKept(c)
  {
    ReadsShape(c);
    FirstIsValue(c.title);
    FirstRead(c.title, c.title);
    if Unbroken(c.title) {
      UnbrokenPlain(c.title);
    }
  }

  // --------------------------------------------------------- concrete failures

  const SEPARATOR: char := '\U{2028}'

  /** Two unbroken parts with a line separator between them. */
  lemma TwoLines(a: string, b: string, v: string)
    requires Unbroken(a) && Unbroken(b) && b != "" && v == a + [SEPARATOR] + b
    ensures First(v) == Strip(a) && Hidden(v) == [b]
  {
    SplitFirst(v, |a|);
    assert v[..|a|] == a && v[|a| + 1..] == b;
    UnbrokenSplit(b);
  }

  lemma NoBinding(l: string)
    requires Stripped(l) && l != "" && '=' !in l
    ensures EnvOf([l]).Keys <= {l}
  {
    StripNothing(l);
    PartitionNone(l, '=');
    assert [l][..0] == [];
  }

  lemma {:induction false} PartitionNone(s: string, c: char)
    requires c !in s
    ensures Partition(s, c) == (s, "")
  {
    if s != "" {
      PartitionNone(s[1..], c);
      assert s == [s[0]] + s[1..];
    }
  }

  /** The host rasp, line separator, berry comes back as rasp. */
  lemma BrokenHostLost(c: Config)
    requires Entered(c.piHost) && Entered(c.certName) && Entered(c.title)
    requires c.piHost == "rasp" + [SEPARATOR] + "berry" && Unbroken(c.certName) && Unbroken(c.title)
    ensures ReadHost(c) == "rasp" && !HostKept(c)
  {
    TwoLines("rasp", "berry", c.piHost);
    UnbrokenPlain(c.certName);
    UnbrokenPlain(c.title);
    StripNothing("rasp");
    NoBinding("berry");
    assert ["berry"] + ([] + []) == ["berry"];
    assert c.piHost[4] == SEPARATOR;
  }

  /** A line hidden in the title names another host. */
  lemma TitleRenamesHost(c: Config)
    requires Entered(c.piHost) && Entered(c.certName) && Entered(c.title)
    requires c.title == "a" + [SEPARATOR] + "PI_HOST=b" && Unbroken(c.piHost) && Unbroken(c.certName)
    ensures ReadHost(c) == "b" && (HostKept(c) <==> c.piHost == "b")
  {
    TwoLines("a", "PI_HOST=b", c.title);
    UnbrokenPlain(c.piHost);
    UnbrokenPlain(c.certName);
    EnvKeys();
    Binding("PI_HOST", "b");
    StripNothing("b");
    assert "PI_HOST" + "=" + "b" == "PI_HOST=b";
    assert [] + ([] + ["PI_HOST=b"]) == ["PI_HOST=b"] && [] + ["PI_HOST=b"] == ["PI_HOST=b"];
  }
}
