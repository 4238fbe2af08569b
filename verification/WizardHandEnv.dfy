/** An environment file edited by hand: load_env strips white space around lines, keys and values, and
    skips comments and blank lines (scripts/init.py). */
module WizardHandEnv {
  import opened Wrappers
  import opened PyText
  import opened WizardFiles
  import opened WizardEnv
  import opened Wizard
  import opened WizardHand
  import Text

  /** A line someone may write: nothing, a comment, a key with a value, or a word without '='. */
  datatype Row =
    | Blank(space: string)
    | Comment(before: string, rest: string)
    | Set(before: string, key: string, gap: string, tail: string, v: string, after: string)
    | Word(before: string, key: string, after: string)
  {
    predicate WellFormed() {
      match this
      case Blank(s) => Spaces(s) && Unbroken(s)
      case Comment(s, r) => Spaces(s) && Unbroken(s) && Unbroken(r)
      case Set(a, k, b, c, w, d) => KeyAt(a, k, d) && Spaces(b) && Unbroken(b) && Spaces(c) && Unbroken(c) && Stripped(w) && Unbroken(w)
      case Word(a, k, d) => KeyAt(a, k, d)
    }

    function Text(): string {
      match this
      case Blank(s) => s
      case Comment(s, r) => s + ("#" + r)
      case Set(a, k, b, c, w, d) => a + ((k + b + "=") + (c + (w + d)))
      case Word(a, k, d) => a + (k + d)
    }

    /** What the line binds. */
    function Binds(): map<string, string> {
      match this
      case Set(_, k, _, _, w, _) => map[k := w]
      case Word(_, k, _) => map[k := ""]
      case _ => map[]
    }
  }

  predicate Spaces(s: string) {
    forall i | 0 <= i < |s| :: IsSpace(s[i])
  }

  predicate KeyAt(a: string, k: string, d: string) {
    && Spaces(a) && Unbroken(a) && Spaces(d) && Unbroken(d)
    && k != "" && k[0] != '#' && Stripped(k) && '=' !in k && Unbroken(k)
  }

  lemma {:induction false} LStripSpaces(a: string, s: string)
    requires Spaces(a)
    ensures LStrip(a + s) == LStrip(s)
  {
    if a == "" {
      assert a + s == s;
    } else {
      assert (a + s)[1..] == a[1..] + s;
      LStripSpaces(a[1..], s);
    }
  }

  lemma {:induction false} RStripSpaces(s: string, d: string)
    requires Spaces(d)
    ensures RStrip(s + d) == RStrip(s)
    decreases |d|
  {
    if d == "" {
      assert s + d == s;
    } else {
      assert (s + d)[..|s + d| - 1] == s + d[..|d| - 1];
      RStripSpaces(s, d[..|d| - 1]);
    }
  }

  lemma StrippedIs(s: string)
    requires Stripped(s)
    ensures LStrip(s) == s && RStrip(s) == s && Strip(s) == s
  {
  }

  /** Only white space. */
  lemma BlankStrips(s: string)
    requires Spaces(s)
    ensures Strip(s) == ""
  {
    assert s + "" == s;
    LStripSpaces(s, "");
  }

  lemma OneLineEnv(l: string)
    ensures Strip(l) == "" || Strip(l)[0] == '#' ==> EnvOf([l]) == map[]
    ensures Strip(l) != "" && Strip(l)[0] != '#' ==>
      EnvOf([l]) == map[Strip(Partition(Strip(l), '=').0) := Strip(Partition(Strip(l), '=').1)]
  {
    assert [l][..0] == [];
  }

  lemma CommentSkipped(s: string, r: string)
    requires Spaces(s)
    ensures EnvOf([s + ("#" + r)]) == map[]
  {
    LStripSpaces(s, "#" + r);
    RStripBehind("#", r);
    OneLineEnv(s + ("#" + r));
  }

  /** Around a value that may be empty. */
  lemma ValueStrips(c: string, w: string, d: string)
    requires Spaces(c) && Stripped(w) && Spaces(d)
    ensures Strip(RStrip(c + (w + d))) == w
  {
    Text.Assoc(c, w, d);
    RStripSpaces(c + w, d);
    if w == "" {
      assert c + w == "" + c;
      RStripSpaces("", c);
    } else {
      RStripBehind(c + w, "");
      assert c + w + "" == c + w;
      LStripSpaces(c, w);
      StrippedIs(w);
    }
  }

  lemma KeyStrips(k: string, b: string)
    requires k != "" && Stripped(k) && Spaces(b)
    ensures Strip(k + b) == k
  {
    assert k + b == k + b && (k + b)[0] == k[0];
    RStripSpaces(k, b);
    StrippedIs(k);
  }

  /** Stripping a line that begins with a key leaves the front whole. */
  lemma SetStrips(a: string, front: string, rest: string)
    requires Spaces(a) && front != "" && !IsSpace(front[0]) && !IsSpace(front[|front| - 1])
    ensures Strip(a + (front + rest)) == front + RStrip(rest)
  {
    LStripSpaces(a, front + rest);
    assert (front + rest)[0] == front[0];
    RStripBehind(front, rest);
  }

  lemma NoEqualsIn(k: string, b: string)
    requires '=' !in k && Spaces(b)
    ensures '=' !in k + b
  {
  }

  lemma SetBinds(a: string, k: string, b: string, c: string, w: string, d: string)
    requires KeyAt(a, k, d) && Spaces(b) && Spaces(c) && Stripped(w)
    ensures EnvOf([a + ((k + b + "=") + (c + (w + d)))]) == map[k := w]
  {
    var front, rest := k + b + "=", c + (w + d);
    var l := a + (front + rest);
    assert front[0] == k[0] && front[|front| - 1] == '=';
    SetStrips(a, front, rest);
    OneLineEnv(l);
    NoEqualsIn(k, b);
    PartitionAt(k + b, '=', RStrip(rest));
    assert "=" == ['='];
    KeyStrips(k, b);
    ValueStrips(c, w, d);
  }

  lemma {:induction false} PartitionNone(s: string, c: char)
    requires c !in s
    ensures Partition(s, c) == (s, "")
  {
    if s != "" {
      assert s[0] in s;
      PartitionNone(s[1..], c);
      assert s == [s[0]] + s[1..];
    }
  }

  lemma WordBinds(a: string, k: string, d: string)
    requires KeyAt(a, k, d)
    ensures EnvOf([a + (k + d)]) == map[k := ""]
  {
    LStripSpaces(a, k + d);
    KeyStrips(k, d);
    assert Strip(a + (k + d)) == Strip(k + d);
    OneLineEnv(a + (k + d));
    PartitionNone(k, '=');
    StrippedIs(k);
  }

  lemma RowBinds(row: Row)
    requires row.WellFormed()
    ensures EnvOf([row.Text()]) == row.Binds()
  {
    match row {
      case Blank(s) =>
        BlankStrips(s);
        OneLineEnv(s);
      case Comment(s, r) =>
        CommentSkipped(s, r);
      case Set(a, k, b, c, w, d) =>
        SetBinds(a, k, b, c, w, d);
      case Word(a, k, d) =>
        WordBinds(a, k, d);
    }
  }

  lemma RowUnbroken(row: Row)
    requires row.WellFormed()
    ensures Unbroken(row.Text())
  {
    match row {
      case Blank(_) =>
      case Comment(s, r) =>
        UnbrokenAppend("#", r);
        UnbrokenAppend(s, "#" + r);
      case Set(a, k, b, c, w, d) =>
        UnbrokenAppend(w, d);
        UnbrokenAppend(c, w + d);
        UnbrokenAppend(k, b);
        UnbrokenAppend(k + b, "=");
        UnbrokenAppend(k + b + "=", c + (w + d));
        UnbrokenAppend(a, (k + b + "=") + (c + (w + d)));
      case Word(a, k, d) =>
        UnbrokenAppend(k, d);
        UnbrokenAppend(a, k + d);
    }
  }

  // ------------------------------------------------------------ the whole file

  predicate AllFormed(rows: seq<Row>) {
    forall r | r in rows :: r.WellFormed()
  }

  function FileText(rows: seq<Row>): string {
    if rows == [] then "" else rows[0].Text() + "\n" + FileText(rows[1..])
  }

  /** The last line that binds a key. */
  ghost predicate LastSays(rows: seq<Row>, key: string, v: string, i: nat) {
    && i < |rows| && key in rows[i].Binds() && rows[i].Binds()[key] == v
    && forall j | i < j < |rows| :: key !in rows[j].Binds()
  }

  lemma RowsCons(row: Row, env: map<string, string>, text: string)
    requires row.WellFormed() && EnvOf(SplitLines(text)) == env
    ensures EnvOf(SplitLines(row.Text() + "\n" + text)) == row.Binds() + env
  {
    RowUnbroken(row);
    RowBinds(row);
    SplitLinesCons(row.Text(), text);
    EnvAppend([row.Text()], SplitLines(text));
  }

  /** AN EDITED FILE.  A key is bound exactly when some line binds it, and to the value of the last such
      line; comments, blank lines and white space around lines, keys and values change nothing. */
  lemma {:induction false} HandEnvLaw(rows: seq<Row>, key: string)
    requires AllFormed(rows)
    ensures var env := EnvOf(SplitLines(FileText(rows)));
      && (key in env <==> exists r | r in rows :: key in r.Binds())
      && (key in env ==> exists i: nat :: LastSays(rows, key, env[key], i))
  {
    if rows != [] {
      var row, more := rows[0], rows[1..];
      var env := EnvOf(SplitLines(FileText(more)));
      assert row in rows && rows == [row] + more;
      HandEnvLaw(more, key);
      RowsCons(row, env, FileText(more));
      if key in env {
        var i: nat :| LastSays(more, key, env[key], i);
        assert LastSays(rows, key, env[key], i + 1);
      } else if key in row.Binds() {
        assert LastSays(rows, key, row.Binds()[key], 0);
      }
    }
  }

  // ------------------------------------------------------------ what is offered

  lemma SaidOnce(rows: seq<Row>, key: string, v: string, i: nat, w: string, j: nat)
    requires LastSays(rows, key, v, i) && LastSays(rows, key, w, j)
    ensures v == w
  {
  }

  lemma SaysKey(rows: seq<Row>, key: string, v: string, i: nat)
    requires AllFormed(rows) && LastSays(rows, key, v, i)
    ensures Get(EnvOf(SplitLines(FileText(rows))), key, "") == v
  {
    var env := EnvOf(SplitLines(FileText(rows)));
    HandEnvLaw(rows, key);
    assert rows[i] in rows && key in env;
    var j: nat :| LastSays(rows, key, env[key], j);
    SaidOnce(rows, key, v, i, env[key], j);
  }

  /** The last line about PI_HOST is what the first prompt offers; a title and a certificate name in .env
      win over group_vars. */
  lemma EnvOffers(disk: Disk, rows: seq<Row>, key: string, v: string, i: nat)
    requires AllFormed(rows) && disk.env == Some(FileText(rows)) && LastSays(rows, key, v, i)
    ensures key == "PI_HOST" ==> Defaults(disk).piHost == v
    ensures key == "DASHBOARD_TITLE" && v != "" ==> Defaults(disk).title == v
    ensures key == "PISPOT_TLS_CERT_NAME" && v != "" ==> Defaults(disk).certName == v
  {
    SaysKey(rows, key, v, i);
  }

  lemma ScalarKept(text: string, keys: seq<string>, key: string, v: string)
    requires LoadScalar(text, key) == Some(v) && key in keys
    ensures Get(ScalarsOf(text, keys), key, "") == v && key in ScalarsOf(text, keys)
  {
  }

  lemma SixKeys()
    ensures "wifi_country" in KEYS && "hotspot_ssid" in KEYS && "hotspot_password" in KEYS
    ensures "pispot_https_hostname" in KEYS && "pispot_tls_cert_name" in KEYS && "dashboard_title" in KEYS
  {
    assert KEYS[0] == "wifi_country" && KEYS[1] == "hotspot_ssid" && KEYS[2] == "hotspot_password";
    assert KEYS[3] == "pispot_https_hostname" && KEYS[4] == "pispot_tls_cert_name" && KEYS[5] == "dashboard_title";
  }

  lemma ScalarOffered(env: map<string, string>, vars: Vars, key: string, v: string)
    requires key in vars.scalars && vars.scalars[key] == v
    ensures key == "wifi_country" ==> Offered(env, vars).country == v
    ensures key == "hotspot_ssid" ==> Offered(env, vars).ssid == v
    ensures key == "hotspot_password" ==> Offered(env, vars).password == v
    ensures key == "pispot_https_hostname" ==> Offered(env, vars).hostname == v
    ensures key == "pispot_tls_cert_name" && Get(env, "PISPOT_TLS_CERT_NAME", "") == "" ==> Offered(env, vars).certName == v
    ensures key == "dashboard_title" && Get(env, "DASHBOARD_TITLE", "") == "" ==> Offered(env, vars).title == v
  {
  }

  /** Each of the six keys, edited by hand in group_vars, is what its own prompt offers; for the last two
      only when .env does not say otherwise. */
  lemma VarsOffer(disk: Disk, key: string, h: Hand, lines: seq<string>)
    requires disk.vars == Some(Text.Unlines(lines)) && '\n' !in key && h.WellFormed() && HandLine(key, h) in lines
    requires forall l | l in lines :: '\n' !in l && (l == HandLine(key, h) || !(key + ":" <= l))
    ensures key == "wifi_country" ==> Defaults(disk).country == h.v
    ensures key == "hotspot_ssid" ==> Defaults(disk).ssid == h.v
    ensures key == "hotspot_password" ==> Defaults(disk).password == h.v
    ensures key == "pispot_https_hostname" ==> Defaults(disk).hostname == h.v
    ensures key == "pispot_tls_cert_name" && Get(EnvOn(disk), "PISPOT_TLS_CERT_NAME", "") == "" ==>
      Defaults(disk).certName == h.v
    ensures key == "dashboard_title" && Get(EnvOn(disk), "DASHBOARD_TITLE", "") == "" ==> Defaults(disk).title == h.v
  {
    HandLaw(key, h, lines);
    SixKeys();
    if key in KEYS {
      ScalarKept(disk.vars.value, KEYS, key, h.v);
      ScalarOffered(EnvOn(disk), VarsOf(disk), key, h.v);
    }
  }
}
