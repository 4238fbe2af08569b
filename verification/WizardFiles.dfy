/** The three files the setup wizard writes and its own readers of them (scripts/init.py). */
module WizardFiles {
  import opened Wrappers
  import opened PyText
  import opened Regex
  import Text

  // ---------------------------------------------------------------- printers

  datatype Wan = Wan(ssid: string, password: string)

  /** Everything the wizard asks for. */
  datatype Config = Config(
    piHost: string, ansibleUser: string, title: string, certName: string, hostname: string,
    country: string, ssid: string, password: string, wan: seq<Wan>)

  const COMMENT: string := "# Generated by make init \U{2014} do not commit."

  function Scalar(key: string, value: string): string {
    key + ": \"" + value + "\""
  }

  function WanLines(wan: seq<Wan>): seq<string> {
    if wan == [] then []
    else ["  - ssid: \"" + wan[0].ssid + "\"", "    password: \"" + wan[0].password + "\""] + WanLines(wan[1..])
  }

  function VarsHead(c: Config): seq<string> {
    [COMMENT, "", Scalar("wifi_country", c.country), "", Scalar("hotspot_ssid", c.ssid),
     Scalar("hotspot_password", c.password), "", "wan_networks:"]
  }

  function VarsTail(c: Config): seq<string> {
    ["", Scalar("pispot_https_hostname", c.hostname), Scalar("pispot_tls_cert_name", c.certName),
     Scalar("dashboard_title", c.title)]
  }

  function VarsLines(c: Config): seq<string> {
    VarsHead(c) + WanLines(c.wan) + VarsTail(c)
  }

  /** build_group_vars; the last element of its list is empty, so every line ends in a newline. */
  function VarsText(c: Config): string {
    Text.Unlines(VarsLines(c))
  }

  function EnvLines(c: Config): seq<string> {
    [COMMENT, "PI_HOST=" + c.piHost, "PISPOT_TLS_CERT_NAME=" + c.certName, "DASHBOARD_TITLE=" + c.title]
  }

  function EnvText(c: Config): string {
    Text.Unlines(EnvLines(c))
  }

  function HostsText(c: Config): string {
    Text.Unlines([COMMENT, "[pi]", "pi-host ansible_host=" + c.piHost + " ansible_user=" + c.ansibleUser])
  }

  lemma {:induction false} WanLinesAppend(a: seq<Wan>, b: seq<Wan>)
    ensures WanLines(a + b) == WanLines(a) + WanLines(b)
  {
    if a == [] {
      assert a + b == b;
    } else {
      assert (a + b)[1..] == a[1..] + b;
      WanLinesAppend(a[1..], b);
    }
  }

  /** build_group_vars, with its growing list of lines. */
  method BuildGroupVars(c: Config) returns (text: string)
    ensures text == VarsText(c)
  {
    var lines := VarsHead(c);
    for i := 0 to |c.wan|
      invariant lines == VarsHead(c) + WanLines(c.wan[..i])
    {
      var n := c.wan[i];
      lines := lines + ["  - ssid: \"" + n.ssid + "\""];
      lines := lines + ["    password: \"" + n.password + "\""];
      WanLinesAppend(c.wan[..i], [n]);
      assert c.wan[..i + 1] == c.wan[..i] + [n];
      assert WanLines([n]) == ["  - ssid: \"" + n.ssid + "\"", "    password: \"" + n.password + "\""];
    }
    assert c.wan[..|c.wan|] == c.wan;
    Text.JoinSnoc(lines + VarsTail(c), "");
    assert Text.Unlines(lines + VarsTail(c)) + "" == Text.Unlines(lines + VarsTail(c));
    lines := lines + VarsTail(c) + [""];
    text := Text.Join(lines);
  }

  // ----------------------------------------------------------------- readers

  /** load_env on the lines of the file. */
  function EnvOf(lines: seq<string>): map<string, string> {
    if lines == [] then map[]
    else
      var line := Strip(lines[|lines| - 1]);
      var before := EnvOf(lines[..|lines| - 1]);
      if line == "" || line[0] == '#' then before
      else
        var (k, v) := Partition(line, '=');
        before[Strip(k) := Strip(v)]
  }

  method LoadEnv(text: string) returns (out: map<string, string>)
    ensures out == EnvOf(SplitLines(text))
  {
    out := map[];
    var lines := SplitLines(text);
    for i := 0 to |lines|
      invariant out == EnvOf(lines[..i])
    {
      assert lines[..i + 1][..i] == lines[..i];
      var line := Strip(lines[i]);
      if line == "" || line[0] == '#' {
        continue;
      }
      var (k, v) := Partition(line, '=');
      out := out[Strip(k) := Strip(v)];
    }
    assert lines[..|lines|] == lines;
  }

  /** ^key:\s*"?([^"\n]+)"?\s*$ */
  function ScalarPattern(key: string): seq<Item> {
    [Bol, Str(key + ":")] + (QuotedPattern(Star(Space), InValue) + [Star(Space), Eol])
  }

  /** Spaces, then a value that may be quoted: \s*"?([^"\n]+)"? with either repetition of \s; the
      class of the value's characters is a parameter of the patterns. */
  function QuotedPattern(spaces: Item, value: Class): seq<Item> {
    [spaces, Opt('"'), Group(value), Opt('"')]
  }

  function LoadScalar(text: string, key: string): Option<string> {
    var m := Search(ScalarPattern(key), text, 0);
    if m.Some? && m.value.groups != [] then Some(Strip(m.value.groups[0])) else None
  }

  /** \s{4}password:\s+"?([^"\n]+)"? */
  function PasswordPattern(value: Class): seq<Item> {
    [Exactly(Space, 4), Str("password:")] + (QuotedPattern(Plus(Space), value) + [])
  }

  /** \s*\n and what follows. */
  function BreakPattern(value: Class): seq<Item> {
    [Star(Space), Str("\n")] + PasswordPattern(value)
  }

  /** ^\s{2}-\s+ssid:\s+"?([^"\n]+)"? and what follows. */
  function WanPattern(value: Class): seq<Item> {
    [Bol, Exactly(Space, 2), Str("-"), Plus(Space), Str("ssid:")]
    + (QuotedPattern(Plus(Space), value) + BreakPattern(value))
  }

  function WanOf(groups: seq<seq<string>>): seq<Wan> {
    if groups == [] then []
    else (if |groups[0]| == 2 then [Wan(Strip(groups[0][0]), Strip(groups[0][1]))] else []) + WanOf(groups[1..])
  }

  function LoadWan(text: string): seq<Wan> {
    WanOf(FindAll(WanPattern(InValue), text, 0))
  }

  const USER: string := "ansible_user="

  /** ansible_user=(\S+) */
  function UserPattern(): seq<Item> {
    [Str(USER), Group(NonSpace)]
  }

  function LoadUser(text: string): Option<string> {
    var m := Search(UserPattern(), text, 0);
    if m.Some? && m.value.groups != [] then Some(m.value.groups[0]) else None
  }
}
