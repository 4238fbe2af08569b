/** The setup wizard itself: prompts with saved defaults, and the three files it writes
    (scripts/init.py). */
module Wizard {
  import opened Wrappers
  import opened PyText
  import opened WizardFiles
  import Regex
  import Text

  /** The three generated files, where they exist. */
  datatype Disk = Disk(env: Option<string>, hosts: Option<string>, vars: Option<string>)

  function FilesOf(c: Config): Disk {
    Disk(Some(EnvText(c)), Some(HostsText(c)), Some(VarsText(c)))
  }

  // ---------------------------------------------------------- saved values

  const KEYS: seq<string> := ["wifi_country", "hotspot_ssid", "hotspot_password",
                              "pispot_https_hostname", "pispot_tls_cert_name", "dashboard_title"]

  datatype Vars = Vars(scalars: map<string, string>, wan: seq<Wan>, user: Option<string>)

  function ScalarsOf(text: string, keys: seq<string>): map<string, string> {
    map k | k in keys && LoadScalar(text, k).Some? :: LoadScalar(text, k).value
  }

  /** load_group_vars: without group_vars/all.yml nothing is read, not even the inventory. */
  function VarsOf(disk: Disk): Vars {
    if disk.vars.None? then Vars(map[], [], None)
    else
      Vars(ScalarsOf(disk.vars.value, KEYS), LoadWan(disk.vars.value),
           if disk.hosts.Some? then LoadUser(disk.hosts.value) else None)
  }

  lemma {:induction false} WanOfSnoc(groups: seq<seq<string>>, g: seq<string>)
    ensures WanOf(groups + [g]) == WanOf(groups) + WanOf([g])
  {
    if groups == [] {
      assert [] + [g] == [g] && WanOf([]) == [];
    } else {
      var first := if |groups[0]| == 2 then [Wan(Strip(groups[0][0]), Strip(groups[0][1]))] else [];
      assert (groups + [g])[1..] == groups[1..] + [g] && (groups + [g])[0] == groups[0];
      WanOfSnoc(groups[1..], g);
      Text.Assoc(first, WanOf(groups[1..]), WanOf([g]));
    }
  }

  /** The loop over the matches. */
  method Networks(found: seq<seq<string>>) returns (networks: seq<Wan>)
    ensures networks == WanOf(found)
  {
    networks := [];
    for i := 0 to |found|
      invariant networks == WanOf(found[..i])
    {
      WanOfSnoc(found[..i], found[i]);
      assert found[..i + 1] == found[..i] + [found[i]];
      if |found[i]| == 2 {
        networks := networks + [Wan(Strip(found[i][0]), Strip(found[i][1]))];
      }
    }
    assert found[..|found|] == found;
  }

  method LoadGroupVars(disk: Disk) returns (out: Vars)
    ensures out == VarsOf(disk)
  {
    if disk.vars.None? {
      return Vars(map[], [], None);
    }
    var text := disk.vars.value;
    var scalars: map<string, string> := map[];
    for i := 0 to |KEYS|
      invariant scalars == ScalarsOf(text, KEYS[..i])
    {
      var m := LoadScalar(text, KEYS[i]);
      if m.Some? {
        scalars := scalars[KEYS[i] := m.value];
      }
      assert KEYS[..i + 1] == KEYS[..i] + [KEYS[i]];
    }
    assert KEYS[..|KEYS|] == KEYS;
    var networks := Networks(Regex.FindAll(WanPattern(Regex.InValue), text, 0));
    var user := None;
    if disk.hosts.Some? {
      user := LoadUser(disk.hosts.value);
    }
    out := Vars(scalars, networks, user);
  }

  function Get(m: map<string, string>, key: string, default: string): string {
    if key in m then m[key] else default
  }

  function Or(a: string, b: string): string {
    if a != "" then a else b
  }

  function EnvOn(disk: Disk): map<string, string> {
    if disk.env.Some? then EnvOf(SplitLines(disk.env.value)) else map[]
  }

  /** What each prompt of the wizard offers. */
  function Offered(env: map<string, string>, vars: Vars): Config {
    var s := vars.scalars;
    Config(
      Get(env, "PI_HOST", ""),
      if vars.user.Some? then vars.user.value else "pi",
      Or(Get(env, "DASHBOARD_TITLE", ""), Get(s, "dashboard_title", "pispot")),
      Or(Get(env, "PISPOT_TLS_CERT_NAME", ""), Get(s, "pispot_tls_cert_name", "")),
      Get(s, "pispot_https_hostname", "pispot.local"),
      Get(s, "wifi_country", "US"),
      Get(s, "hotspot_ssid", ""),
      Get(s, "hotspot_password", ""),
      vars.wan)
  }

  function Defaults(disk: Disk): Config {
    Offered(EnvOn(disk), VarsOf(disk))
  }

  // --------------------------------------------------------------- prompts

  /** An answer and the lines still to be typed, or the end of the input. */
  datatype Asked<T> = Eof | Got(value: T, rest: seq<string>)

  function AskOf(default: string, lines: seq<string>): (r: Asked<string>)
    ensures r.Got? ==> |r.rest| < |lines|
  {
    if lines == [] then Eof else Got(Or(Strip(lines[0]), default), lines[1..])
  }

  function RequiredOf(default: string, lines: seq<string>): (r: Asked<string>)
    ensures r.Got? ==> |r.rest| < |lines| && r.value != ""
    decreases |lines|
  {
    var a := AskOf(default, lines);
    if a.Eof? then Eof
    else if a.value != "" then a
    else RequiredOf(default, a.rest)
  }

  /** A required answer of at least eight characters. */
  function PasswordOf(default: string, lines: seq<string>): (r: Asked<string>)
    ensures r.Got? ==> |r.rest| < |lines| && |r.value| >= 8
    decreases |lines|
  {
    var a := RequiredOf(default, lines);
    if a.Eof? then Eof
    else if |a.value| >= 8 then a
    else PasswordOf(default, a.rest)
  }

  /** The WAN loop, with the networks entered so far. */
  function NetworksOf(prev: seq<Wan>, done: seq<Wan>, lines: seq<string>): (r: Asked<seq<Wan>>)
    ensures r.Got? ==> r.value != [] && done <= r.value
    decreases |lines|
  {
    var i := |done|;
    var ssid := AskOf(if i < |prev| then prev[i].ssid else "", lines);
    if ssid.Eof? then Eof
    else if ssid.value == "" then (if done == [] then NetworksOf(prev, done, ssid.rest) else Got(done, ssid.rest))
    else
      var password := PasswordOf(if i < |prev| then prev[i].password else "", ssid.rest);
      if password.Eof? then Eof
      else NetworksOf(prev, done + [Wan(ssid.value, password.value)], password.rest)
  }

  /** All the prompts of a run, in order. */
  function AnswersOf(d: Config, lines: seq<string>): Asked<Config> {
    var host := RequiredOf(d.piHost, lines);
    if host.Eof? then Eof else
    var user := AskOf(d.ansibleUser, host.rest);
    if user.Eof? then Eof else
    var title := AskOf(d.title, user.rest);
    if title.Eof? then Eof else
    var cert := RequiredOf(d.certName, title.rest);
    if cert.Eof? then Eof else
    var hostname := AskOf(d.hostname, cert.rest);
    if hostname.Eof? then Eof else
    var country := AskOf(d.country, hostname.rest);
    if country.Eof? then Eof else
    var ssid := RequiredOf(d.ssid, country.rest);
    if ssid.Eof? then Eof else
    var password := PasswordOf(d.password, ssid.rest);
    if password.Eof? then Eof else
    var wan := NetworksOf(d.wan, [], password.rest);
    if wan.Eof? then Eof else
    Got(Config(host.value, user.value, title.value, cert.value, hostname.value, country.value, ssid.value,
               password.value, wan.value), wan.rest)
  }

  /** One sitting: the lines the user will type, and the files. */
  class Session {
    var lines: seq<string>
    var disk: Disk

    constructor (lines: seq<string>, disk: Disk)
      ensures this.lines == lines && this.disk == disk
    {
      this.lines, this.disk := lines, disk;
    }

    /** The call's answer is the specified one, and the lines it used are gone. */
    ghost predicate Gave<T>(want: Asked<T>, value: Option<T>)
      reads this`lines
    {
      match want
      case Eof => value == None && lines == []
      case Got(v, rest) => value == Some(v) && lines == rest
    }

    method Ask(default: string) returns (value: Option<string>)
      modifies this`lines
      ensures Gave(AskOf(default, old(lines)), value)
    {
      if lines == [] {
        return None;
      }
      var typed := Strip(lines[0]);
      lines := lines[1..];
      value := Some(if typed != "" then typed else default);
    }

    method AskRequired(default: string) returns (value: Option<string>)
      modifies this`lines
      ensures Gave(RequiredOf(default, old(lines)), value)
    {
      while true
        invariant RequiredOf(default, lines) == RequiredOf(default, old(lines))
        decreases |lines|
      {
        value := Ask(default);
        if value.None? || value.value != "" {
          return;
        }
      }
    }

    method AskPassword(default: string) returns (value: Option<string>)
      modifies this`lines
      ensures Gave(PasswordOf(default, old(lines)), value)
    {
      value := AskRequired(default);
      while value.Some? && |value.value| < 8
        invariant value.None? ==> lines == [] && PasswordOf(default, old(lines)).Eof?
        invariant value.Some? && |value.value| >= 8 ==> PasswordOf(default, old(lines)) == Got(value.value, lines)
        invariant value.Some? && |value.value| < 8 ==> PasswordOf(default, old(lines)) == PasswordOf(default, lines)
        decreases |lines|, value.Some?
      {
        value := AskRequired(default);
      }
    }

    method AskNetworks(prev: seq<Wan>) returns (networks: Option<seq<Wan>>)
      modifies this`lines
      ensures Gave(NetworksOf(prev, [], old(lines)), networks)
    {
      var done: seq<Wan> := [];
      var i := 1;
      while true
        invariant i == |done| + 1
        invariant NetworksOf(prev, done, lines) == NetworksOf(prev, [], old(lines))
        decreases |lines|
      {
        var ssid := Ask(if i <= |prev| then prev[i - 1].ssid else "");
        if ssid.None? {
          return None;
        }
        if ssid.value == "" {
          if done == [] {
            continue;
          }
          return Some(done);
        }
        var password := AskPassword(if i <= |prev| then prev[i - 1].password else "");
        if password.None? {
          return None;
        }
        done := done + [Wan(ssid.value, password.value)];
        i := i + 1;
      }
    }

    /** A whole run. When the input ends early the files are as they were. */
    method Setup() returns (completed: bool)
      modifies this
      ensures match AnswersOf(Defaults(old(disk)), old(lines))
              case Eof => !completed && disk == old(disk) && lines == []
              case Got(c, rest) => completed && disk == FilesOf(c) && lines == rest
    {
      completed := false;
      var env: map<string, string> := map[];
      if disk.env.Some? {
        env := LoadEnv(disk.env.value);
      }
      var vars := LoadGroupVars(disk);
      var d := Offered(env, vars);
      var host := AskRequired(d.piHost);
      if host.None? { return; }
      var user := Ask(d.ansibleUser);
      if user.None? { return; }
      var title := Ask(d.title);
      if title.None? { return; }
      var cert := AskRequired(d.certName);
      if cert.None? { return; }
      var hostname := Ask(d.hostname);
      if hostname.None? { return; }
      var country := Ask(d.country);
      if country.None? { return; }
      var ssid := AskRequired(d.ssid);
      if ssid.None? { return; }
      var password := AskPassword(d.password);
      if password.None? { return; }
      var wan := AskNetworks(d.wan);
      if wan.None? { return; }
      var c := Config(host.value, user.value, title.value, cert.value, hostname.value, country.value, ssid.value,
                      password.value, wan.value);
      var text := BuildGroupVars(c);
      disk := Disk(Some(EnvText(c)), Some(HostsText(c)), Some(text));
      completed := true;
    }
  }
}
