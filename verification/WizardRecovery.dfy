/** What load_group_vars gives back of the file a completed run wrote (scripts/init.py). */
module WizardRecovery {
  import opened Wrappers
  import opened PyText
  import opened Regex
  import opened WizardFiles
  import opened WizardLaws
  import opened WizardEnv
  import opened Wizard
  import Text

  // --------------------------------------------------- group_vars/all.yml

  predicate LongEnough(v: string) {
    |v| >= 8
  }

  predicate WanComplete(w: Wan) {
    Entered(w.ssid) && Entered(w.password) && LongEnough(w.password)
  }

  /** What a completed run can have asked for. */
  predicate Complete(c: Config) {
    && Entered(c.piHost) && Entered(c.ansibleUser) && Entered(c.title) && Entered(c.certName)
    && Entered(c.hostname) && Entered(c.country) && Entered(c.ssid) && Entered(c.password) && LongEnough(c.password)
    && c.wan != [] && forall w | w in c.wan :: WanComplete(w)
  }

  lemma NoNewline(v: string)
    requires OneLine(v)
    ensures '\n' !in v
  {
  }

  lemma ScalarLine(key: string, v: string)
    requires '\n' !in key && Entered(v)
    ensures '\n' !in Scalar(key, v)
  {
    NoNewline(v);
  }

  lemma CommentPlain()
    ensures '\n' !in COMMENT && COMMENT != "" && COMMENT[0] == '#'
  {
    CommentLine();
    NoNewline(COMMENT);
  }

  lemma HeadLines(c: Config)
    requires Complete(c)
    ensures forall l | l in VarsHead(c) :: '\n' !in l
    ensures Quiet(VarsHead(c))
  {
    CommentPlain();
    ScalarLine("wifi_country", c.country);
    ScalarLine("hotspot_ssid", c.ssid);
    ScalarLine("hotspot_password", c.password);
    assert '\n' !in "wan_networks:";
    var h := VarsHead(c);
    forall i | 0 <= i < |h| ensures QuietAt(h, i) {
      assert h[0] == COMMENT;
    }
  }

  lemma TailLines(c: Config)
    requires Complete(c)
    ensures forall l | l in VarsTail(c) :: '\n' !in l
    ensures Quiet(VarsTail(c))
  {
    ScalarLine("pispot_https_hostname", c.hostname);
    ScalarLine("pispot_tls_cert_name", c.certName);
    ScalarLine("dashboard_title", c.title);
    var t := VarsTail(c);
    forall i | 0 <= i < |t| ensures QuietAt(t, i) {
    }
  }

  lemma WanLinePlain(key: string, v: string)
    requires '\n' !in key && key != "" && key[0] == ' ' && OneLine(v)
    ensures var l := key + v + "\""; '\n' !in l && l != "" && l[0] == ' '
  {
    NoNewline(v);
  }

  lemma {:induction false} WanLinesPlain(wan: seq<Wan>)
    requires forall w | w in wan :: WanComplete(w)
    ensures |WanLines(wan)| == 2 * |wan|
    ensures forall l | l in WanLines(wan) :: '\n' !in l && l != "" && l[0] == ' '
  {
    if wan != [] {
      assert wan[0] in wan;
      WanLinePlain("  - ssid: \"", wan[0].ssid);
      WanLinePlain("    password: \"", wan[0].password);
      WanLinesPlain(wan[1..]);
    }
  }

  lemma WanRecovered(c: Config)
    requires Complete(c) && CleanWan(c.wan)
    ensures LoadWan(VarsText(c)) == c.wan
  {
    HeadLines(c);
    TailLines(c);
    Text.UnlinesAppend(VarsHead(c) + WanLines(c.wan), VarsTail(c));
    Text.UnlinesAppend(VarsHead(c), WanLines(c.wan));
    Text.Assoc(Text.Unlines(VarsHead(c)), Text.Unlines(WanLines(c.wan)), Text.Unlines(VarsTail(c)));
    FindWans(InValue, VarsHead(c), c.wan, VarsTail(c), VarsText(c));
    WanOfPrinted(c.wan);
  }

  lemma OtherKey(key: string, line: string, j: nat)
    requires j < |key| && (j >= |line| || line[j] != key[j])
    ensures !(key + ":" <= line)
  {
    assert (key + ":")[j] == key[j];
  }

  /** The scalar a key holds. */
  function ValueOf(c: Config, key: string): string
    requires key in KEYS
  {
    if key == "wifi_country" then c.country
    else if key == "hotspot_ssid" then c.ssid
    else if key == "hotspot_password" then c.password
    else if key == "pispot_https_hostname" then c.hostname
    else if key == "pispot_tls_cert_name" then c.certName
    else c.title
  }

  lemma KeysDiffer(k: string, l: string) returns (j: nat)
    requires k in KEYS && l in KEYS && k != l
    ensures j < |k| && j < |l| && k[j] != l[j]
  {
    j := if k[0] != l[0] then 0 else if k[0] == 'h' then 8 else 7;
  }

  lemma KeyPlain(key: string)
    requires key in KEYS
    ensures '\n' !in key && key != "" && key[0] !in {' ', '#'} && !(key + ":" <= "wan_networks:")
  {
    OtherKey(key, "wan_networks:", if key == "wifi_country" then 1 else 0);
  }

  /** A line that is the key's own, or another's. */
  predicate Known(c: Config, key: string, line: string)
    requires key in KEYS
  {
    '\n' !in line && (line == Scalar(key, ValueOf(c, key)) || !(key + ":" <= line))
  }

  lemma ScalarKnown(c: Config, key: string, other: string)
    requires Complete(c) && key in KEYS && other in KEYS
    ensures Known(c, key, Scalar(other, ValueOf(c, other)))
  {
    KeyPlain(other);
    ScalarLine(other, ValueOf(c, other));
    if key != other {
      var j := KeysDiffer(key, other);
      OtherKey(key, Scalar(other, ValueOf(c, other)), j);
    }
  }

  lemma HeadKnown(c: Config, key: string)
    requires Complete(c) && key in KEYS
    ensures forall l | l in VarsHead(c) :: Known(c, key, l)
  {
    HeadLines(c);
    CommentPlain();
    KeyPlain(key);
    OtherKey(key, COMMENT, 0);
    OtherKey(key, "", 0);
    ScalarKnown(c, key, "wifi_country");
    ScalarKnown(c, key, "hotspot_ssid");
    ScalarKnown(c, key, "hotspot_password");
  }

  lemma TailKnown(c: Config, key: string)
    requires Complete(c) && key in KEYS
    ensures forall l | l in VarsTail(c) :: Known(c, key, l)
  {
    KeyPlain(key);
    OtherKey(key, "", 0);
    ScalarKnown(c, key, "pispot_https_hostname");
    ScalarKnown(c, key, "pispot_tls_cert_name");
    ScalarKnown(c, key, "dashboard_title");
  }

  lemma AllKnown(c: Config, key: string)
    requires Complete(c) && key in KEYS
    ensures forall l | l in VarsLines(c) :: Known(c, key, l)
  {
    HeadKnown(c, key);
    TailKnown(c, key);
    WanLinesPlain(c.wan);
    KeyPlain(key);
    forall l | l in WanLines(c.wan) ensures Known(c, key, l) {
      OtherKey(key, l, 0);
    }
  }

  lemma OwnLine(c: Config, key: string)
    requires key in KEYS
    ensures Scalar(key, ValueOf(c, key)) in VarsLines(c)
  {
    var i := if key == "wifi_country" then 2 else if key == "hotspot_ssid" then 4 else 5;
    var j := if key == "pispot_https_hostname" then 1 else if key == "pispot_tls_cert_name" then 2 else 3;
    assert VarsHead(c)[i] in VarsHead(c) && VarsTail(c)[j] in VarsTail(c);
  }

  /** What load_group_vars reads for a key: the value, or nothing if it has a quotation mark. */
  lemma ScalarLaw(c: Config, key: string)
    requires Complete(c) && key in KEYS
    ensures LoadScalar(VarsText(c), key) == if QuoteFree(ValueOf(c, key)) then Some(ValueOf(c, key)) else None
  {
    var v, text := ValueOf(c, key), VarsText(c);
    assert text == "" + text;
    AllKnown(c, key);
    KeyPlain(key);
    if QuoteFree(v) {
      OwnLine(c, key);
      FindScalar(key, v, VarsLines(c), "", text);
      StripNothing(v);
    } else {
      forall l | l in VarsLines(c) ensures Barren(key, l) {
        assert Known(c, key, l);
      }
      FindNoScalar(key, VarsLines(c), "", text);
    }
  }

  // --------------------------------- what the readers can never give back

  /** What a reader takes from a text: stripped, no quotation mark or newline, characters of the text. */
  predicate Taken(text: string, v: string) {
    Stripped(v) && Drawn(InValue, text, v)
  }

  lemma StripPart(text: string, s: string)
    requires Drawn(InValue, text, s)
    ensures Taken(text, Strip(s))
  {
    StripKeeps(s);
    var r := Strip(s);
    forall i | 0 <= i < |r| ensures In(InValue, r[i]) && r[i] in text {
      assert r[i] in s;
    }
  }

  predicate WanTaken(text: string, wan: seq<Wan>) {
    forall w | w in wan :: Taken(text, w.ssid) && Taken(text, w.password)
  }

  predicate ValueGroups(text: string, gs: seq<string>) {
    forall g | g in gs :: Drawn(InValue, text, g)
  }

  lemma {:induction false} WanOfTaken(text: string, groups: seq<seq<string>>)
    requires forall gs | gs in groups :: ValueGroups(text, gs)
    ensures WanTaken(text, WanOf(groups))
  {
    if groups != [] {
      WanOfTaken(text, groups[1..]);
      var gs := groups[0];
      assert gs in groups;
      if |gs| == 2 {
        assert Drawn(InValue, text, gs[0]) && Drawn(InValue, text, gs[1]);
        StripPart(text, gs[0]);
        StripPart(text, gs[1]);
      }
    }
  }

  /** Whatever the file holds, no network read from it has a quotation mark. */
  lemma NetworksTaken(text: string)
    ensures WanTaken(text, LoadWan(text))
  {
    FindAllGroupsIn(WanPattern(InValue), InValue, text, 0);
    WanOfTaken(text, FindAll(WanPattern(InValue), text, 0));
  }
}
