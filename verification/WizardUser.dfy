/** What the wizard reads back as the SSH user name: the first word after the first "ansible_user="
    anywhere in the inventory, the host name included. */
module WizardUser {
  import opened Wrappers
  import opened PyText
  import opened Regex
  import opened WizardFiles
  import Text

  /** The longest run of characters without white space from pos on. */
  function Word(text: string, pos: nat): string
    requires pos <= |text|
  {
    text[pos..pos + RunLen(NonSpace, text, pos, |text| - pos)]
  }

  predicate UserAt(text: string, pos: nat) {
    Starts(text, pos, USER) && pos + |USER| < |text| && !IsSpace(text[pos + |USER|])
  }

  function FirstUser(text: string, pos: nat): Option<string>
    decreases |text| - pos
  {
    if pos >= |text| then None
    else if UserAt(text, pos) then Some(Word(text, pos + |USER|))
    else FirstUser(text, pos + 1)
  }

  /** The name the host's own text would give. */
  function UserInHost(host: string): Option<string> {
    FirstUser(host, 0)
  }

  lemma UserMatch(text: string, pos: nat)
    requires pos <= |text|
    ensures var m := Match(UserPattern(), text, pos);
      && (m.Some? <==> UserAt(text, pos))
      && (m.Some? ==> m.value.groups == [Word(text, pos + |USER|)])
  {
    var items := UserPattern();
    HereStarts(text, pos, USER);
    assert items[0] == Str(USER) && items[1..] == [Group(NonSpace)];
    if Starts(text, pos, USER) {
      GroupMatch(NonSpace, text, pos + |USER|);
    }
  }

  lemma GroupMatch(cls: Class, text: string, pos: nat)
    requires pos <= |text|
    ensures var m := Match([Group(cls)], text, pos);
      && (m.Some? <==> pos < |text| && In(cls, text[pos]))
      && (m.Some? ==> m.value.groups == [text[pos..pos + RunLen(cls, text, pos, |text| - pos)]])
  {
    var k := RunLen(cls, text, pos, |text| - pos);
    if k > 0 {
      GroupTakes([Group(cls)], cls, text, pos, k);
    } else {
      GroupFails([Group(cls)], cls, text, pos);
    }
  }

  lemma GroupTakes(items: seq<Item>, cls: Class, text: string, pos: nat, k: nat)
    requires pos < |text| && 0 < k == RunLen(cls, text, pos, |text| - pos) && items == [Group(cls)]
    ensures Match(items, text, pos) == Some(Found(pos + k, [text[pos..pos + k]]))
  {
    assert Match(items[1..], text, pos + k) == Some(Found(pos + k, []));
    Greedy(items, text, pos, k);
    assert [text[pos..pos + k]] + [] == [text[pos..pos + k]];
  }

  lemma GroupFails(items: seq<Item>, cls: Class, text: string, pos: nat)
    requires pos <= |text| && RunLen(cls, text, pos, |text| - pos) == 0 && items == [Group(cls)]
    ensures Match(items, text, pos).None?
  {
    assert Try(items, text, pos, 0).None?;
  }

  /** The pattern search, said without patterns. */
  lemma {:induction false} UserSearch(text: string, pos: nat)
    requires pos <= |text|
    ensures var m := Search(UserPattern(), text, pos);
      && (m.Some? <==> FirstUser(text, pos).Some?)
      && (m.Some? ==> m.value.groups == [FirstUser(text, pos).value])
    decreases |text| - pos
  {
    UserMatch(text, pos);
    if pos < |text| && !UserAt(text, pos) {
      UserSearch(text, pos + 1);
    }
  }

  lemma {:induction false} FirstUserSkips(text: string, from: nat, to: nat)
    requires from <= to <= |text| && forall p | from <= p < to :: !UserAt(text, p)
    ensures FirstUser(text, from) == FirstUser(text, to)
    decreases |text| - from
  {
    if from < to {
      assert !UserAt(text, from);
      FirstUserSkips(text, from + 1, to);
    }
  }

  /** The host and a space after it stand in the text. */
  predicate HostAt(text: string, from: nat, host: string) {
    && from + |host| < |text| && text[from + |host|] == ' '
    && forall i | 0 <= i < |host| :: text[from + i] == host[i]
  }

  lemma NoSpaceInUser(j: nat)
    requires j < |USER|
    ensures USER[j] != ' '
  {
  }

  lemma WordOfHost(text: string, from: nat, host: string, i: nat)
    requires HostAt(text, from, host) && i <= |host|
    ensures Word(text, from + i) == Word(host, i)
  {
    var k := RunLen(NonSpace, host, i, |host| - i);
    forall p | from + i <= p < from + i + k ensures In(NonSpace, text[p]) {
      assert text[from + (p - from)] == host[p - from];
    }
    if i + k < |host| {
      assert text[from + (i + k)] == host[i + k];
    }
    RunIs(NonSpace, text, from + i, |text| - (from + i), k);
    forall p | i <= p < i + k ensures text[from + i..from + i + k][p - i] == host[p] {
      assert text[from + p] == host[p];
    }
    assert text[from + i..from + i + k] == host[i..i + k];
  }

  lemma UserAtHost(text: string, from: nat, host: string, i: nat)
    requires HostAt(text, from, host) && i < |host|
    ensures UserAt(text, from + i) <==> UserAt(host, i)
  {
    var n := |USER|;
    if i + n > |host| {
      NoSpaceInUser(|host| - i);
      assert text[from + i + (|host| - i)] == ' ';
    } else {
      forall j | 0 <= j < n ensures text[from + i + j] == USER[j] <==> host[i + j] == USER[j] {
        assert text[from + (i + j)] == host[i + j];
      }
      if i + n < |host| {
        assert text[from + (i + n)] == host[i + n];
      }
    }
  }

  lemma {:induction false} UserPastHost(text: string, from: nat, host: string, i: nat)
    requires HostAt(text, from, host) && i <= |host|
    ensures FirstUser(text, from + i)
         == if FirstUser(host, i).Some? then FirstUser(host, i) else FirstUser(text, from + |host|)
    decreases |host| - i
  {
    if i < |host| {
      UserAtHost(text, from, host, i);
      if UserAt(host, i) {
        WordOfHost(text, from, host, i + |USER|);
      } else {
        UserPastHost(text, from, host, i + 1);
      }
    }
  }

  // ---------------------------------------------------------- the inventory

  const PLAIN_PART: string := COMMENT + "\n[pi]\npi-host ansible"

  lemma PlainPart(i: nat)
    requires i < |PLAIN_PART|
    ensures PLAIN_PART[i] != '_'
  {
    var a, b := COMMENT, "\n[pi]\npi-host ansible";
    if i < |a| {
      assert PLAIN_PART[i] == a[i];
    } else {
      assert PLAIN_PART[i] == b[i - |a|];
    }
  }

  /** Nothing in front of the host looks like "ansible_user=": the only '_' is followed by 'h'. */
  lemma NoUserInFront(text: string, pos: nat)
    requires Starts(text, 0, PLAIN_PART + "_host=") && pos < |PLAIN_PART| + 6
    ensures !UserAt(text, pos)
  {
    var p := |PLAIN_PART|;
    StartsSplit(text, 0, PLAIN_PART, "_host=");
    if pos + 7 < p {
      PlainPart(pos + 7);
      assert text[0 + (pos + 7)] == PLAIN_PART[pos + 7];
      assert USER[7] == '_' && text[pos + 7] != USER[7];
    } else if pos + 7 == p {
      assert text[p + 1] == "_host="[1] == 'h' && USER[8] == 'u';
      assert text[pos + 8] != USER[8];
    } else if pos < p {
      LastPart(pos);
      assert text[0 + pos] == PLAIN_PART[pos];
      assert text[pos + 0] != USER[0];
    } else {
      assert text[p + (pos - p)] == "_host="[pos - p] != 'a';
      assert text[pos + 0] != USER[0];
    }
  }

  lemma LastPart(pos: nat)
    requires |PLAIN_PART| - 7 < pos < |PLAIN_PART|
    ensures PLAIN_PART[pos] != 'a'
  {
    var a := "\n[pi]\npi-host ansible";
    assert PLAIN_PART[pos] == a[pos - |COMMENT|];
  }

  /** A space, "ansible_user=", the name and the end of the line. */
  lemma UserBehind(text: string, at: nat, user: string)
    requires user != "" && !IsSpace(user[0])
    requires at < |text| && text[at..] == " " + (USER + user + "\n")
    ensures FirstUser(text, at) == Some(Word(user, 0))
  {
    var rest, q := USER + user + "\n", at + 1;
    assert forall i | 0 <= i < |rest| :: text[q + i] == text[at..][i + 1] == rest[i];
    assert text[at] == ' ' && USER[0] != ' ';
    assert text[at + 0] != USER[0];
    assert FirstUser(text, at) == FirstUser(text, q);
    UserStands(text, q, user);
  }

  lemma UserStands(text: string, q: nat, user: string)
    requires user != "" && !IsSpace(user[0])
    requires q + |USER| + |user| + 1 == |text|
    requires forall i | 0 <= i < |USER| + |user| + 1 :: text[q + i] == (USER + user + "\n")[i]
    ensures FirstUser(text, q) == Some(Word(user, 0))
  {
    var s := USER + user + "\n";
    forall i | 0 <= i < |USER| ensures text[q + i] == USER[i] {
      assert s[i] == USER[i];
    }
    var at := q + |USER|;
    forall p | at <= p < at + |user| ensures text[p] == user[p - at] {
      assert text[q + (p - q)] == s[p - q];
    }
    assert text[q + (|USER| + |user|)] == s[|USER| + |user|] == '\n';
    UserWord(text, at, user);
  }

  lemma UserWord(text: string, at: nat, user: string)
    requires at + |user| + 1 == |text| && text[at + |user|] == '\n'
    requires forall p | at <= p < at + |user| :: text[p] == user[p - at]
    ensures Word(text, at) == Word(user, 0)
  {
    var k := RunLen(NonSpace, user, 0, |user|);
    RunIs(NonSpace, text, at, |text| - at, k);
    assert text[at..at + k] == user[0..k];
  }

  lemma Layout(front: string, host: string, rest: string, text: string)
    requires text == front + host + rest && rest != "" && rest[0] == ' '
    ensures Starts(text, 0, front) && HostAt(text, |front|, host)
    ensures |front| + |host| < |text| && text[|front| + |host|..] == rest
  {
  }

  lemma NothingInFront(text: string, n: nat)
    requires Starts(text, 0, PLAIN_PART + "_host=") && n == |PLAIN_PART| + 6 && n <= |text|
    ensures FirstUser(text, 0) == FirstUser(text, n)
  {
    forall p | 0 <= p < n ensures !UserAt(text, p) {
      NoUserInFront(text, p);
    }
    FirstUserSkips(text, 0, n);
  }

  lemma HostThenUser(text: string, n: nat, host: string, user: string)
    requires HostAt(text, n, host) && FirstUser(text, n + |host|) == Some(Word(user, 0))
    ensures FirstUser(text, n)
         == if UserInHost(host).Some? then UserInHost(host) else Some(Word(user, 0))
  {
    UserPastHost(text, n, host, 0);
  }

  /** The user name read back from an inventory: the host's own, if it contains one. */
  lemma UserRead(host: string, user: string, text: string)
    requires text == PLAIN_PART + "_host=" + host + (" " + (USER + user + "\n"))
    requires user != "" && !IsSpace(user[0])
    ensures FirstUser(text, 0)
         == if UserInHost(host).Some? then UserInHost(host) else Some(Word(user, 0))
  {
    var front, rest := PLAIN_PART + "_host=", " " + (USER + user + "\n");
    Layout(front, host, rest, text);
    UserBehind(text, |front| + |host|, user);
    HostThenUser(text, |front|, host, user);
    NothingInFront(text, |front|);
  }

  lemma InventoryText(c: Config)
    ensures HostsText(c) == PLAIN_PART + "_host=" + c.piHost + (" " + (USER + c.ansibleUser + "\n"))
  {
    var a, b, l := COMMENT, "[pi]", "pi-host ansible_host=" + c.piHost + " ansible_user=" + c.ansibleUser;
    Text.UnlinesAppend([a], [b, l]);
    assert [a] + [b, l] == [a, b, l];
    assert [b] + [l] == [b, l];
    Text.UnlinesAppend([b], [l]);
    UnlinesOne(a);
    UnlinesOne(b);
    UnlinesOne(l);
    HostLine(c.piHost, c.ansibleUser);
    Joined(COMMENT, "_host=" + c.piHost + (" " + (USER + c.ansibleUser)));
  }

  lemma UnlinesOne(l: string)
    ensures Text.Unlines([l]) == l + "\n"
  {
    assert [l][1..] == [];
    assert l + "\n" + "" == l + "\n";
  }

  lemma HostLine(host: string, user: string)
    ensures "pi-host ansible_host=" + host + " ansible_user=" + user
         == "pi-host ansible" + ("_host=" + host + (" " + (USER + user)))
  {
    assert "pi-host ansible_host=" == "pi-host ansible" + "_host=";
    assert " ansible_user=" == " " + USER;
    FiveParts("pi-host ansible", "_host=", host, " ", USER, user);
  }

  lemma FiveParts(a: string, b: string, c: string, d: string, e: string, f: string)
    ensures (a + b) + c + (d + e) + f == a + (b + c + (d + (e + f)))
  {
  }

  lemma Joined(comment: string, tail: string)
    ensures comment + "\n" + ("[pi]" + "\n" + ("pi-host ansible" + tail + "\n"))
         == comment + "\n[pi]\npi-host ansible" + (tail + "\n")
  {
  }

  /** For every host and user, what load_group_vars reads back as the user. */
  lemma UserLaw(c: Config)
    requires c.ansibleUser != "" && !IsSpace(c.ansibleUser[0])
    ensures LoadUser(HostsText(c))
         == if UserInHost(c.piHost).Some? then UserInHost(c.piHost) else Some(Word(c.ansibleUser, 0))
  {
    var text := HostsText(c);
    InventoryText(c);
    UserRead(c.piHost, c.ansibleUser, text);
    UserSearch(text, 0);
  }

  lemma WholeWord(v: string)
    ensures Word(v, 0) == v <==> forall i | 0 <= i < |v| :: !IsSpace(v[i])
  {
    if forall i | 0 <= i < |v| :: !IsSpace(v[i]) {
      RunIs(NonSpace, v, 0, |v|, |v|);
    }
  }

  /** The host "ansible_user=y" turns every saved user into "y". */
  lemma HostStealsUser(c: Config)
    requires c.piHost == "ansible_user=y" && c.ansibleUser == "pi"
    ensures LoadUser(HostsText(c)) == Some("y")
  {
    UserLaw(c);
    var host := c.piHost;
    assert Starts(host, 0, USER) && UserAt(host, 0);
    RunIs(NonSpace, host, 13, 1, 1);
    assert host[13..14] == "y";
  }
}
