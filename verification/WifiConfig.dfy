/** The reader and the printer of wpa_supplicant-wlan1.conf (host/internal/wifi/config.go). */
module WifiConfig {
  import opened Text
  import opened GoQuote

  /** bufio.MaxScanTokenSize. */
  const MAX_TOKEN: nat := 65536

  datatype Network = Network(ssid: string, psk: string)

  const NO_NETWORK := Network("", "")

  /** What parse returns: the networks, the header, and whether the scanner failed. */
  datatype Parsed = Parsed(networks: seq<Network>, header: string, failed: bool)

  function Unquote(text: string): string {
    var s := TrimSpace(text);
    if |s| >= 2 && s[0] == '"' && s[|s| - 1] == '"' then s[1..|s| - 1] else s
  }

  // ------------------------------------------------- parse, as a fold of lines

  datatype ParseState = ParseState(
    headerLines: seq<string>,
    networks: seq<Network>,
    inBlock: bool,
    cur: Network,
    headerDone: bool)

  const START := ParseState([], [], false, NO_NETWORK, false)

  function Step(st: ParseState, line: string): ParseState {
    var trimmed := TrimSpace(line);
    if !st.headerDone && trimmed != "network={" then
      st.(headerLines := st.headerLines + [line])
    else if trimmed == "network={" then
      st.(headerDone := true, inBlock := true, cur := NO_NETWORK)
    else if trimmed == "}" && st.inBlock then
      st.(inBlock := false, networks := st.networks + if st.cur.ssid != "" then [st.cur] else [])
    else if st.inBlock && HasPrefix(trimmed, "ssid=") then
      st.(cur := st.cur.(ssid := Unquote(trimmed[5..])))
    else if st.inBlock && HasPrefix(trimmed, "psk=") then
      st.(cur := st.cur.(psk := Unquote(trimmed[4..])))
    else st
  }

  function Steps(st: ParseState, lines: seq<string>): ParseState
    decreases |lines|
  {
    if lines == [] then st else Steps(Step(st, lines[0]), lines[1..])
  }

  /** The newline rule at the end of parse. */
  function HeaderText(lines: seq<string>): string {
    var header := Join(lines);
    if header != "" && !EndsInNewline(header) then header + "\n" else header
  }

  function ParseScanned(sc: Scanned): Parsed {
    var st := Steps(START, sc.lines);
    Parsed(st.networks, HeaderText(st.headerLines), sc.tooLong)
  }

  function ParseText(data: string): Parsed {
    ParseScanned(Scan(data, MAX_TOKEN))
  }

  lemma {:induction false} StepsAppend(st: ParseState, a: seq<string>, b: seq<string>)
    ensures Steps(st, a + b) == Steps(Steps(st, a), b)
    decreases |a|
  {
    if a == [] {
      assert a + b == b;
    } else {
      assert (a + b)[1..] == a[1..] + b;
      StepsAppend(Step(st, a[0]), a[1..], b);
    }
  }

  /** parse, with the local variables and the order of tests of the source. */
  method Parse(data: string) returns (networks: seq<Network>, header: string, failed: bool)
    ensures Parsed(networks, header, failed) == ParseText(data)
  {
    var headerLines: seq<string>, inBlock, cur, headerDone := [], false, NO_NETWORK, false;
    networks := [];
    var sc := Scan(data, MAX_TOKEN);
    for i := 0 to |sc.lines|
      invariant Steps(START, sc.lines[..i]) == ParseState(headerLines, networks, inBlock, cur, headerDone)
    {
      var line := sc.lines[i];
      StepsAppend(START, sc.lines[..i], [line]);
      assert sc.lines[..i] + [line] == sc.lines[..i + 1];
      var trimmed := TrimSpace(line);
      if !headerDone && trimmed == "network={" {
        headerDone := true;
      }
      if !headerDone {
        headerLines := headerLines + [line];
      } else if trimmed == "network={" {
        inBlock := true;
        cur := NO_NETWORK;
      } else if trimmed == "}" && inBlock {
        inBlock := false;
        if cur.ssid != "" {
          networks := networks + [cur];
        }
      } else if inBlock {
        if HasPrefix(trimmed, "ssid=") {
          cur := cur.(ssid := Unquote(trimmed[5..]));
        } else if HasPrefix(trimmed, "psk=") {
          cur := cur.(psk := Unquote(trimmed[4..]));
        }
      }
    }
    assert sc.lines[..|sc.lines|] == sc.lines;
    header := Join(headerLines);
    if header != "" && !EndsInNewline(header) {
      header := header + "\n";
    }
    failed := sc.tooLong;
  }

  // ------------------------------------------------------------------- write

  function SsidLine(printable: Table, n: Network): string {
    "    ssid=" + Quote(printable, n.ssid)
  }

  function PskLine(printable: Table, n: Network): string {
    "    psk=" + Quote(printable, n.psk)
  }

  /** The five lines write prints for a network; the first is empty. */
  function BlockLines(printable: Table, n: Network): seq<string> {
    ["", "network={", SsidLine(printable, n), PskLine(printable, n), "}"]
  }

  function AllBlockLines(printable: Table, networks: seq<Network>): seq<string> {
    if networks == [] then []
    else BlockLines(printable, networks[0]) + AllBlockLines(printable, networks[1..])
  }

  function Print(printable: Table, header: string, networks: seq<Network>): string {
    header + Unlines(AllBlockLines(printable, networks))
  }

  lemma {:induction false} AllBlockLinesAppend(printable: Table, a: seq<Network>, b: seq<Network>)
    ensures AllBlockLines(printable, a + b) == AllBlockLines(printable, a) + AllBlockLines(printable, b)
  {
    if a == [] {
      assert a + b == b;
    } else {
      assert (a + b)[1..] == a[1..] + b;
      AllBlockLinesAppend(printable, a[1..], b);
    }
  }

  /** Four appends to a builder are five more lines. */
  lemma FiveMoreLines(sb: string, a: string, b: string, c: string, d: string, e: string)
    ensures sb + (a + "\n" + b + "\n") + (c + "\n") + (d + "\n") + (e + "\n") == sb + Unlines([a, b, c, d, e])
  {
    assert [a, b, c, d, e][1..] == [b, c, d, e] && [b, c, d, e][1..] == [c, d, e] && [c, d, e][1..] == [d, e];
    assert [d, e][1..] == [e] && Unlines([e]) == e + "\n";
    assert Unlines([d, e]) == d + "\n" + (e + "\n");
    assert Unlines([c, d, e]) == c + "\n" + (d + "\n" + (e + "\n"));
    assert Unlines([b, c, d, e]) == b + "\n" + (c + "\n" + (d + "\n" + (e + "\n")));
    assert Unlines([a, b, c, d, e]) == a + "\n" + (b + "\n" + (c + "\n" + (d + "\n" + (e + "\n"))));
  }

  /** The text half of write: four appends to the builder per network. */
  method Render(printable: Table, header: string, networks: seq<Network>) returns (sb: string)
    ensures sb == Print(printable, header, networks)
  {
    sb := header;
    for i := 0 to |networks|
      invariant sb == Print(printable, header, networks[..i])
    {
      var n := networks[i];
      ghost var before := sb;
      sb := sb + "\nnetwork={\n";
      sb := sb + ("    ssid=" + Quote(printable, n.ssid) + "\n");
      sb := sb + ("    psk=" + Quote(printable, n.psk) + "\n");
      sb := sb + "}\n";
      assert sb == before + Unlines(BlockLines(printable, n)) by {
        FiveMoreLines(before, "", "network={", SsidLine(printable, n), PskLine(printable, n), "}");
        assert "" + "\n" + "network={" + "\n" == "\nnetwork={\n";
        assert "}" + "\n" == "}\n";
      }
      PrintSnoc(printable, header, networks[..i], n);
      assert networks[..i + 1] == networks[..i] + [n];
    }
    assert networks[..|networks|] == networks;
  }

  lemma PrintSnoc(printable: Table, header: string, networks: seq<Network>, n: Network)
    ensures Print(printable, header, networks + [n])
         == Print(printable, header, networks) + Unlines(BlockLines(printable, n))
  {
    AllBlockLinesAppend(printable, networks, [n]);
    UnlinesAppend(AllBlockLines(printable, networks), BlockLines(printable, n));
    assert AllBlockLines(printable, [n]) == BlockLines(printable, n);
  }
}
