/** The file-backed network list: List, Add and Remove of host/internal/wifi/config.go.
    The outcome of each file operation is an input of the call. */
module WifiStore {
  import opened Wrappers
  import opened Text
  import opened GoQuote
  import opened WifiConfig

  /** What the operating system does with one call: whether the config can be read, whether the
      temporary file can be written (and what a failed write leaves there), whether the rename works,
      and whether the temporary file can be removed when it does not. */
  datatype Io = Io(readOk: bool, writeOk: bool, partial: Option<string>, renameOk: bool, removeOk: bool)

  const ALL_OK := Io(true, true, None, true, true)

  datatype Error =
    | EmptySsid | EmptyPassword | PasswordLength(n: nat) | ReadFailed | ParseFailed
    | AlreadyExists(ssid: string) | NotFound(ssid: string) | WriteFailed | RenameFailed

  /** A listing that the scanner cut short comes with its error. */
  datatype Reply = Done | Listed(networks: seq<Network>) | CutShort(networks: seq<Network>) | Refused(error: Error)

  datatype Op = List | Add(ssid: string, psk: string) | Remove(ssid: string)

  /** The config file and its temporary sibling. */
  datatype Disk = Disk(config: Option<string>, tmp: Option<string>)

  predicate Contains(networks: seq<Network>, ssid: string) {
    exists n | n in networks :: n.ssid == ssid
  }

  function Without(networks: seq<Network>, ssid: string): seq<Network> {
    if networks == [] then []
    else (if networks[0].ssid == ssid then [] else [networks[0]]) + Without(networks[1..], ssid)
  }

  /** The checks Add makes before it touches the file. */
  function AddProblem(ssid: string, psk: string): Option<Error> {
    if TrimSpace(ssid) == "" then Some(EmptySsid)
    else if TrimSpace(psk) == "" then Some(EmptyPassword)
    else if ByteLen(psk) < 8 || ByteLen(psk) > 63 then Some(PasswordLength(ByteLen(psk)))
    else None
  }

  /** The file half of write: temporary file, then rename. */
  function Commit(disk: Disk, text: string, io: Io): (Disk, Reply) {
    if !io.writeOk then (disk.(tmp := io.partial), Refused(WriteFailed))
    else if !io.renameOk then (disk.(tmp := if io.removeOk then None else Some(text)), Refused(RenameFailed))
    else (Disk(Some(text), None), Done)
  }

  /** One call, as a function of the bytes on disk. */
  function Exec(printable: Table, disk: Disk, op: Op, io: Io): (Disk, Reply) {
    if op.Add? && AddProblem(op.ssid, op.psk).Some? then (disk, Refused(AddProblem(op.ssid, op.psk).value))
    else if !io.readOk || disk.config.None? then (disk, Refused(ReadFailed))
    else
      var p := ParseText(disk.config.value);
      if p.failed then (disk, if op.List? then CutShort(p.networks) else Refused(ParseFailed))
      else match op
        case List => (disk, Listed(p.networks))
        case Add(ssid, psk) =>
          if Contains(p.networks, ssid) then (disk, Refused(AlreadyExists(ssid)))
          else Commit(disk, Print(printable, p.header, p.networks + [Network(ssid, psk)]), io)
        case Remove(ssid) =>
          if !Contains(p.networks, ssid) then (disk, Refused(NotFound(ssid)))
          else Commit(disk, Print(printable, p.header, Without(p.networks, ssid)), io)
  }

  lemma {:induction false} WithoutAppend(a: seq<Network>, b: seq<Network>, ssid: string)
    ensures Without(a + b, ssid) == Without(a, ssid) + Without(b, ssid)
  {
    if a == [] {
      assert a + b == b;
    } else {
      assert (a + b)[1..] == a[1..] + b;
      WithoutAppend(a[1..], b, ssid);
    }
  }

  /** Wherever a network stands in the list, removal drops it or leaves it there, by its name: the others
      keep their order and number. */
  lemma WithoutInPlace(before: seq<Network>, n: Network, after: seq<Network>, ssid: string)
    ensures Without(before + [n] + after, ssid)
         == Without(before, ssid) + (if n.ssid == ssid then [] else [n]) + Without(after, ssid)
  {
    WithoutAppend(before + [n], after, ssid);
    WithoutAppend(before, [n], ssid);
    assert Without([n], ssid) == if n.ssid == ssid then [] else [n];
  }

  lemma {:induction false} WithoutMeans(networks: seq<Network>, ssid: string)
    ensures forall n :: n in Without(networks, ssid) <==> n in networks && n.ssid != ssid
    ensures !Contains(networks, ssid) ==> Without(networks, ssid) == networks
  {
    if networks != [] {
      WithoutMeans(networks[1..], ssid);
      assert networks == [networks[0]] + networks[1..];
      assert Contains(networks[1..], ssid) ==> Contains(networks, ssid);
    }
  }

  class Store {
    const printable: Table
    var config: Option<string>
    var tmp: Option<string>

    constructor (printable: Table, config: Option<string>)
      ensures this.printable == printable && OnDisk() == Disk(config, None)
    {
      this.printable := printable;
      this.config := config;
      tmp := None;
    }

    function OnDisk(): Disk
      reads this
    {
      Disk(config, tmp)
    }

    method ReadAndParse(io: Io) returns (networks: seq<Network>, header: string, error: Option<Error>)
      ensures !io.readOk || config.None? ==> error == Some(ReadFailed)
      ensures io.readOk && config.Some? ==>
        ParseText(config.value) == Parsed(networks, header, error == Some(ParseFailed)) && error != Some(ReadFailed)
      ensures error in {None, Some(ReadFailed), Some(ParseFailed)}
    {
      networks, header, error := [], "", None;
      if !io.readOk || config.None? {
        error := Some(ReadFailed);
        return;
      }
      var failed;
      networks, header, failed := Parse(config.value);
      if failed {
        error := Some(ParseFailed);
      }
    }

    method List(io: Io) returns (reply: Reply)
      ensures (OnDisk(), reply) == Exec(printable, OnDisk(), Op.List, io)
    {
      var networks, _, error := ReadAndParse(io);
      if error == Some(ReadFailed) {
        return Refused(ReadFailed);
      }
      reply := if error.Some? then CutShort(networks) else Listed(networks);
    }

    method Add(ssid: string, psk: string, io: Io) returns (reply: Reply)
      modifies this
      ensures (OnDisk(), reply) == Exec(printable, old(OnDisk()), Op.Add(ssid, psk), io)
    {
      if TrimSpace(ssid) == "" {
        return Refused(EmptySsid);
      }
      if TrimSpace(psk) == "" {
        return Refused(EmptyPassword);
      }
      if ByteLen(psk) < 8 || ByteLen(psk) > 63 {
        return Refused(PasswordLength(ByteLen(psk)));
      }
      var networks, header, error := ReadAndParse(io);
      if error.Some? {
        return Refused(error.value);
      }
      for i := 0 to |networks|
        invariant !Contains(networks[..i], ssid)
        invariant OnDisk() == old(OnDisk())
      {
        if networks[i].ssid == ssid {
          return Refused(AlreadyExists(ssid));
        }
      }
      assert networks[..|networks|] == networks;
      networks := networks + [Network(ssid, psk)];
      reply := Write(header, networks, io);
    }

    method Remove(ssid: string, io: Io) returns (reply: Reply)
      modifies this
      ensures (OnDisk(), reply) == Exec(printable, old(OnDisk()), Op.Remove(ssid), io)
    {
      var networks, header, error := ReadAndParse(io);
      if error.Some? {
        return Refused(error.value);
      }
      var found := false;
      var updated: seq<Network> := [];
      for i := 0 to |networks|
        invariant found <==> Contains(networks[..i], ssid)
        invariant updated == Without(networks[..i], ssid)
        invariant OnDisk() == old(OnDisk())
      {
        var n := networks[i];
        assert networks[..i + 1] == networks[..i] + [n];
        WithoutAppend(networks[..i], [n], ssid);
        if n.ssid == ssid {
          found := true;
        } else {
          updated := updated + [n];
        }
      }
      assert networks[..|networks|] == networks;
      if !found {
        return Refused(NotFound(ssid));
      }
      reply := Write(header, updated, io);
    }

    method Write(header: string, networks: seq<Network>, io: Io) returns (reply: Reply)
      modifies this
      ensures (OnDisk(), reply) == Commit(old(OnDisk()), Print(printable, header, networks), io)
    {
      var sb := Render(printable, header, networks);
      if !io.writeOk {
        tmp := io.partial;
        return Refused(WriteFailed);
      }
      tmp := Some(sb);
      if !io.renameOk {
        if io.removeOk {
          tmp := None;
        }
        return Refused(RenameFailed);
      }
      config, tmp := tmp, None;
      reply := Done;
    }
  }

  predicate AllSpace(s: string) {
    forall i | 0 <= i < |s| :: IsSpace(s[i])
  }

  /** The checks of Add, in order: a blank name, a blank password, a password outside 8 to 63 bytes. */
  lemma AddProblemExact(ssid: string, psk: string)
    ensures AddProblem(ssid, psk)
         == if AllSpace(ssid) then Some(EmptySsid)
            else if AllSpace(psk) then Some(EmptyPassword)
            else if 8 <= ByteLen(psk) <= 63 then None
            else Some(PasswordLength(ByteLen(psk)))
  {
    TrimEmpty(ssid);
    TrimEmpty(psk);
  }

  /** The config file changes exactly when all three steps work, and then as a whole; a temporary file is
      left only by a failed write or a failed clean-up. */
  lemma CommitLeaves(disk: Disk, text: string, io: Io)
    ensures var (after, reply) := Commit(disk, text, io);
      && (reply == Done <==> io.writeOk && io.renameOk)
      && after.config == (if reply == Done then Some(text) else disk.config)
      && (reply != Done ==> reply == Refused(if io.writeOk then RenameFailed else WriteFailed))
      && after.tmp == (if !io.writeOk then io.partial else if io.renameOk || io.removeOk then None else Some(text))
  {
  }
}
