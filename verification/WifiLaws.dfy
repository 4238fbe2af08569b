/** What reading back a printed config file gives, for every header and every list of networks. */
module WifiLaws {
  import opened Text
  import opened GoQuote
  import opened WifiConfig

  /** A line that fits the scanner's buffer. */
  predicate Short(line: string) {
    ByteLen(line) < MAX_TOKEN
  }

  predicate HeaderLine(line: string) {
    TrimSpace(line) != "network={" && Short(line)
  }

  /** The shape of every header parse returns (ParsedHeaderValid). */
  predicate ValidHeader(header: string) {
    (header == "" || EndsInNewline(header)) && forall l | l in RawLines(header) :: HeaderLine(l)
  }

  /** Both value lines of the printed block fit the scanner's buffer. */
  predicate Fits(printable: Table, n: Network) {
    Short(SsidLine(printable, n)) && Short(PskLine(printable, n))
  }

  predicate Named(networks: seq<Network>) {
    forall n | n in networks :: n.ssid != ""
  }

  predicate AllFit(printable: Table, networks: seq<Network>) {
    forall n | n in networks :: Fits(printable, n)
  }

  predicate PlainNetwork(printable: Table, n: Network) {
    Plain(printable, n.ssid) && Plain(printable, n.psk)
  }

  predicate AllPlain(printable: Table, networks: seq<Network>) {
    forall n | n in networks :: PlainNetwork(printable, n)
  }

  /** The networks before the first one whose lines do not fit. */
  function Readable(printable: Table, networks: seq<Network>): (r: seq<Network>)
    ensures AllFit(printable, networks) ==> r == networks
  {
    if networks == [] || !Fits(printable, networks[0]) then []
    else [networks[0]] + Readable(printable, networks[1..])
  }

  function Escaped(printable: Table, n: Network): Network {
    Network(Body(printable, n.ssid), Body(printable, n.psk))
  }

  function EscapedAll(printable: Table, networks: seq<Network>): (r: seq<Network>)
    ensures |r| == |networks|
    ensures forall i | 0 <= i < |r| :: r[i] == Escaped(printable, networks[i])
  {
    seq(|networks|, i requires 0 <= i < |networks| => Escaped(printable, networks[i]))
  }

  /** The header found when a printed file is read back. */
  function Reheader(header: string, networks: seq<Network>): string {
    var lines := DropCRs(RawLines(header));
    if networks == [] then HeaderText(lines) else Unlines(lines)
  }

  // --------------------------------------------------------- lines of a block

  /** unquote takes the quotation marks off and undoes nothing else. */
  lemma UnquoteQuote(printable: Table, value: string)
    ensures Unquote(Quote(printable, value)) == Body(printable, value)
  {
    var q := Quote(printable, value);
    assert q[0] == '"' && q[|q| - 1] == '"';
    assert q[1..|q| - 1] == Body(printable, value);
    TrimPadded("", q);
    assert "" + q == q;
  }

  /** A padded key followed by a quoted value is one line, and trimming it only takes the padding off. */
  lemma PaddedLine(pad: string, key: string, q: string)
    requires forall c | c in pad :: IsSpace(c) && c != '\n'
    requires key != "" && !IsSpace(key[0]) && '\n' !in key
    requires '\n' !in q && q != "" && q[|q| - 1] == '"'
    ensures '\n' !in pad + key + q
    ensures DropCR(pad + key + q) == pad + key + q
    ensures TrimSpace(pad + key + q) == key + q
  {
    Assoc(pad, key, q);
    TrimPadded(pad, key + q);
  }

  lemma SsidLineReads(printable: Table, n: Network)
    ensures '\n' !in SsidLine(printable, n) && DropCR(SsidLine(printable, n)) == SsidLine(printable, n)
    ensures var t := TrimSpace(SsidLine(printable, n)); HasPrefix(t, "ssid=") && t[5..] == Quote(printable, n.ssid)
  {
    BodyOneLine(printable, n.ssid);
    PaddedLine("    ", "ssid=", Quote(printable, n.ssid));
    assert "    ssid=" == "    " + "ssid=";
  }

  lemma PskLineReads(printable: Table, n: Network)
    ensures '\n' !in PskLine(printable, n) && DropCR(PskLine(printable, n)) == PskLine(printable, n)
    ensures var t := TrimSpace(PskLine(printable, n)); HasPrefix(t, "psk=") && t[4..] == Quote(printable, n.psk)
  {
    BodyOneLine(printable, n.psk);
    PaddedLine("    ", "psk=", Quote(printable, n.psk));
    assert "    psk=" == "    " + "psk=";
  }

  lemma TrimTight(s: string)
    requires s != "" && !IsSpace(s[0]) && !IsSpace(s[|s| - 1])
    ensures TrimSpace(s) == s
  {
    TrimPadded("", s);
    assert "" + s == s;
  }

  lemma FixedLines()
    ensures TrimSpace("") == "" && TrimSpace("network={") == "network={" && TrimSpace("}") == "}"
    ensures Short("") && Short("network={") && Short("}")
    ensures DropCR("") == "" && DropCR("network={") == "network={" && DropCR("}") == "}"
  {
    TrimTight("network={");
    TrimTight("}");
    AsciiLen("network={");
    AsciiLen("}");
  }

  lemma {:induction false} AsciiLen(s: string)
    requires forall i | 0 <= i < |s| :: s[i] as int < 0x80
    ensures ByteLen(s) == |s|
  {
    if s != "" { AsciiLen(s[1..]); }
  }

  // ------------------------------------------------------- reading one block

  lemma StepsCons(st: ParseState, line: string, rest: seq<string>)
    ensures Steps(st, [line] + rest) == Steps(Step(st, line), rest)
  {
    assert ([line] + rest)[1..] == rest;
  }

  lemma FiveSteps(st: ParseState, a: string, b: string, c: string, d: string, e: string)
    ensures Steps(st, [a, b, c, d, e]) == Step(Step(Step(Step(Step(st, a), b), c), d), e)
  {
    var st1 := Step(st, a);
    var st2 := Step(st1, b);
    var st3 := Step(st2, c);
    var st4 := Step(st3, d);
    StepsCons(st, a, [b, c, d, e]);
    StepsCons(st1, b, [c, d, e]);
    StepsCons(st2, c, [d, e]);
    StepsCons(st3, d, [e]);
    StepsCons(st4, e, []);
    assert [a, b, c, d, e] == [a] + [b, c, d, e] && [b, c, d, e] == [b] + [c, d, e];
    assert [c, d, e] == [c] + [d, e] && [d, e] == [d] + [e] && [e] == [e] + [];
  }

  lemma StepSsid(printable: Table, st: ParseState, n: Network)
    requires st.headerDone && st.inBlock
    ensures Step(st, SsidLine(printable, n)) == st.(cur := st.cur.(ssid := Body(printable, n.ssid)))
  {
    SsidLineReads(printable, n);
    UnquoteQuote(printable, n.ssid);
    var t := TrimSpace(SsidLine(printable, n));
    assert t[0] == 's';
  }

  lemma StepPsk(printable: Table, st: ParseState, n: Network)
    requires st.headerDone && st.inBlock
    ensures Step(st, PskLine(printable, n)) == st.(cur := st.cur.(psk := Body(printable, n.psk)))
  {
    PskLineReads(printable, n);
    UnquoteQuote(printable, n.psk);
    var t := TrimSpace(PskLine(printable, n));
    assert t[0] == 'p';
  }

  /** A block printed from any network, read outside a block, adds exactly its escaped form. */
  lemma ReadBlock(printable: Table, st: ParseState, n: Network)
    requires st.headerDone && !st.inBlock && n.ssid != ""
    ensures Steps(st, BlockLines(printable, n))
         == st.(networks := st.networks + [Escaped(printable, n)], cur := Escaped(printable, n))
  {
    FixedLines();
    BodyNonempty(printable, n.ssid);
    FiveSteps(st, "", "network={", SsidLine(printable, n), PskLine(printable, n), "}");
    assert Step(st, "") == st;
    var open := Step(st, "network={");
    StepSsid(printable, open, n);
    StepPsk(printable, open.(cur := Network(Body(printable, n.ssid), "")), n);
  }

  // ------------------------------------------------- reading the whole file

  /** What the parser knows between two blocks, as far as its result depends on it. */
  ghost predicate Between(st: ParseState, headerLines: seq<string>, networks: seq<Network>) {
    st.headerLines == headerLines && st.networks == networks
  }

  lemma BlockIsLines(printable: Table, n: Network)
    ensures forall l | l in BlockLines(printable, n) :: '\n' !in l
    ensures DropCRs(BlockLines(printable, n)) == BlockLines(printable, n)
  {
    SsidLineReads(printable, n);
    PskLineReads(printable, n);
  }

  lemma ScanCons(line: string, rest: seq<string>)
    requires Short(line) && DropCR(line) == line
    ensures var sc := ScanRaw(rest, MAX_TOKEN);
            ScanRaw([line] + rest, MAX_TOKEN) == Scanned([line] + sc.lines, sc.tooLong)
  {
    assert ([line] + rest)[1..] == rest;
  }

  lemma ScanOpening(rest: seq<string>)
    ensures var sc := ScanRaw(rest, MAX_TOKEN);
            ScanRaw(["", "network={"] + rest, MAX_TOKEN) == Scanned(["", "network={"] + sc.lines, sc.tooLong)
  {
    FixedLines();
    ScanCons("", ["network={"] + rest);
    ScanCons("network={", rest);
    Assoc([""], ["network={"], rest);
    Assoc([""], ["network={"], ScanRaw(rest, MAX_TOKEN).lines);
    assert [""] + ["network={"] == ["", "network={"];
  }

  /** Where the scanner stops inside a block that does not fit. */
  lemma ScanUnfitBlock(printable: Table, n: Network, more: seq<string>)
    requires !Fits(printable, n)
    ensures var sc := ScanRaw(BlockLines(printable, n) + more, MAX_TOKEN);
            sc.tooLong && (sc.lines == ["", "network={"] || sc.lines == ["", "network={", SsidLine(printable, n)])
  {
    var ssid, psk := SsidLine(printable, n), PskLine(printable, n);
    var left := [psk, "}"] + more;
    assert BlockLines(printable, n) + more == ["", "network={"] + ([ssid] + left);
    ScanOpening([ssid] + left);
    if Short(ssid) {
      SsidLineReads(printable, n);
      ScanCons(ssid, left);
      assert left[0] == psk;
      assert ScanRaw(left, MAX_TOKEN) == Scanned([], true);
      assert ["", "network={"] + ([ssid] + []) == ["", "network={", ssid];
    } else {
      assert ScanRaw([ssid] + left, MAX_TOKEN) == Scanned([], true);
      assert ["", "network={"] + [] == ["", "network={"];
    }
  }

  lemma OpenBlock(st: ParseState, rest: seq<string>)
    requires st.headerDone && !st.inBlock
    ensures Steps(st, ["", "network={"] + rest) == Steps(Step(st, "network={"), rest)
  {
    FixedLines();
    assert Step(st, "") == st;
    assert ["", "network={"] + rest == [""] + (["network={"] + rest);
    StepsCons(st, "", ["network={"] + rest);
    StepsCons(st, "network={", rest);
  }

  lemma ReadUnfitBlock(printable: Table, st: ParseState, n: Network, lines: seq<string>)
    requires st.headerDone && !st.inBlock
    requires lines == ["", "network={"] || lines == ["", "network={", SsidLine(printable, n)]
    ensures Between(Steps(st, lines), st.headerLines, st.networks)
  {
    OpenBlock(st, lines[2..]);
    assert lines == ["", "network={"] + lines[2..];
    var open := Step(st, "network={");
    FixedLines();
    if |lines| == 3 {
      StepSsid(printable, open, n);
      StepsCons(open, SsidLine(printable, n), []);
      assert lines[2..] == [SsidLine(printable, n)] + [];
    }
  }

  lemma ScanFitBlock(printable: Table, n: Network, more: seq<string>)
    requires Fits(printable, n)
    ensures ScanRaw(BlockLines(printable, n) + more, MAX_TOKEN)
         == Scanned(BlockLines(printable, n) + ScanRaw(more, MAX_TOKEN).lines, ScanRaw(more, MAX_TOKEN).tooLong)
  {
    FixedLines();
    BlockIsLines(printable, n);
    ScanAppend(BlockLines(printable, n), more, MAX_TOKEN);
  }

  lemma EscapedCons(printable: Table, n: Network, rest: seq<Network>)
    ensures EscapedAll(printable, [n] + rest) == [Escaped(printable, n)] + EscapedAll(printable, rest)
  {
  }

  lemma {:induction false} ReadBlocks(printable: Table, st: ParseState, networks: seq<Network>)
    requires st.headerDone && !st.inBlock && Named(networks)
    ensures var sc := ScanRaw(AllBlockLines(printable, networks), MAX_TOKEN);
            && Between(Steps(st, sc.lines), st.headerLines,
                       st.networks + EscapedAll(printable, Readable(printable, networks)))
            && sc.tooLong == !AllFit(printable, networks)
    decreases |networks|
  {
    if networks == [] {
      assert EscapedAll(printable, []) == [];
    } else {
      var n, rest := networks[0], networks[1..];
      var block, more := BlockLines(printable, n), AllBlockLines(printable, rest);
      assert networks == [n] + rest;
      if Fits(printable, n) {
        ScanFitBlock(printable, n, more);
        var lines := ScanRaw(more, MAX_TOKEN).lines;
        StepsAppend(st, block, lines);
        ReadBlock(printable, st, n);
        ReadBlocks(printable, Steps(st, block), rest);
        EscapedCons(printable, n, Readable(printable, rest));
        Assoc(st.networks, [Escaped(printable, n)], EscapedAll(printable, Readable(printable, rest)));
      } else {
        ScanUnfitBlock(printable, n, more);
        ReadUnfitBlock(printable, st, n, ScanRaw(block + more, MAX_TOKEN).lines);
        assert EscapedAll(printable, []) == [];
      }
    }
  }

  lemma {:induction false} ReadHeaderLines(st: ParseState, lines: seq<string>)
    requires !st.headerDone && forall l | l in lines :: TrimSpace(l) != "network={"
    ensures Steps(st, lines) == st.(headerLines := st.headerLines + lines)
    decreases |lines|
  {
    if lines != [] {
      ReadHeaderLines(Step(st, lines[0]), lines[1..]);
      assert lines == [lines[0]] + lines[1..];
    }
  }

  /** The empty line before the first block still counts as a header line. */
  lemma FirstBlock(st: ParseState, lines: seq<string>)
    requires !st.headerDone && !st.inBlock
    requires ["", "network={"] <= lines
    ensures Steps(st, lines) == Steps(st.(headerDone := true, headerLines := st.headerLines + [""]), lines)
  {
    FixedLines();
    var st1 := st.(headerLines := st.headerLines + [""]);
    var st2 := st1.(headerDone := true);
    assert lines == [""] + lines[1..] && lines[1..] == ["network={"] + lines[2..];
    StepsCons(st, "", lines[1..]);
    StepsCons(st1, "network={", lines[2..]);
    StepsCons(st2, "", lines[1..]);
    StepsCons(st2, "network={", lines[2..]);
    assert Step(st, "") == st1 && Step(st2, "") == st2;
    assert Step(st1, "network={") == Step(st2, "network={");
  }

  lemma {:induction false} AllBlockLinesAreLines(printable: Table, networks: seq<Network>)
    ensures forall l | l in AllBlockLines(printable, networks) :: '\n' !in l
  {
    if networks != [] {
      BlockIsLines(printable, networks[0]);
      AllBlockLinesAreLines(printable, networks[1..]);
    }
  }

  lemma PrintedLines(printable: Table, header: string, networks: seq<Network>)
    requires ValidHeader(header)
    ensures RawLines(Print(printable, header, networks)) == RawLines(header) + AllBlockLines(printable, networks)
  {
    var h, b := RawLines(header), AllBlockLines(printable, networks);
    UnlinesRawLines(header);
    UnlinesAppend(h, b);
    AllBlockLinesAreLines(printable, networks);
    RawLinesUnlines(h + b, "");
    assert Unlines(h + b) + "" == Unlines(h + b);
    assert h + b + RawLines("") == h + b;
  }

  lemma FirstLinesScanned(printable: Table, networks: seq<Network>)
    requires networks != []
    ensures ["", "network={"] <= ScanRaw(AllBlockLines(printable, networks), MAX_TOKEN).lines
  {
    var n, more := networks[0], AllBlockLines(printable, networks[1..]);
    var rest := [SsidLine(printable, n), PskLine(printable, n), "}"] + more;
    assert AllBlockLines(printable, networks) == ["", "network={"] + rest;
    ScanOpening(rest);
  }

  lemma ReadHeader(header: string)
    requires ValidHeader(header)
    ensures Steps(START, DropCRs(RawLines(header))) == START.(headerLines := DropCRs(RawLines(header)))
  {
    var h := RawLines(header);
    forall l | l in DropCRs(h) ensures TrimSpace(l) != "network={" {
      var i :| 0 <= i < |h| && l == DropCRs(h)[i];
      DropCRShorter(h[i]);
      assert HeaderLine(h[i]);
    }
    ReadHeaderLines(START, DropCRs(h));
  }

  /** Reading the printed blocks after the header lines hl. */
  lemma ReadBody(printable: Table, hl: seq<string>, networks: seq<Network>)
    requires Named(networks)
    ensures var sc := ScanRaw(AllBlockLines(printable, networks), MAX_TOKEN);
            && Between(Steps(START.(headerLines := hl), sc.lines), if networks == [] then hl else hl + [""],
                       EscapedAll(printable, Readable(printable, networks)))
            && sc.tooLong == !AllFit(printable, networks)
  {
    var st := START.(headerLines := hl);
    if networks == [] {
      assert EscapedAll(printable, []) == [];
    } else {
      FirstLinesScanned(printable, networks);
      FirstBlock(st, ScanRaw(AllBlockLines(printable, networks), MAX_TOKEN).lines);
      ReadBlocks(printable, st.(headerDone := true, headerLines := hl + [""]), networks);
      assert st.networks + EscapedAll(printable, Readable(printable, networks))
          == EscapedAll(printable, Readable(printable, networks));
    }
  }

  lemma {:induction false} UnlinesEnds(lines: seq<string>)
    ensures Unlines(lines) == "" || EndsInNewline(Unlines(lines))
  {
    if lines != [] { UnlinesEnds(lines[1..]); }
  }

  /** Join and the conditional newline agree once an empty line closes the header. */
  lemma ClosedHeaderText(hl: seq<string>)
    ensures HeaderText(hl + [""]) == Unlines(hl)
  {
    JoinSnoc(hl, "");
    UnlinesEnds(hl);
    assert Unlines(hl) + "" == Unlines(hl);
  }

  /** THE LAW.  Reading back what write printed gives, for every valid header and every list of
      networks with nonempty names and arbitrary characters in them, the same networks in the same
      order with every value escaped; no value can open, close or add a block.  The one way to fail
      is a value line too long for the scanner: the networks before it are still read, then parse fails. */
  lemma PrintParse(printable: Table, header: string, networks: seq<Network>)
    requires ValidHeader(header) && Named(networks)
    ensures ParseText(Print(printable, header, networks))
         == Parsed(EscapedAll(printable, Readable(printable, networks)), Reheader(header, networks),
                   !AllFit(printable, networks))
  {
    var h, b := RawLines(header), AllBlockLines(printable, networks);
    PrintedLines(printable, header, networks);
    ScanAppend(h, b, MAX_TOKEN);
    StepsAppend(START, DropCRs(h), ScanRaw(b, MAX_TOKEN).lines);
    ReadHeader(header);
    ReadBody(printable, DropCRs(h), networks);
    ClosedHeaderText(DropCRs(h));
  }

  // ---------------------------------------- what parse can return at all

  ghost predicate StateOk(st: ParseState) {
    && (forall l | l in st.headerLines :: HeaderLine(l) && '\n' !in l)
    && Named(st.networks)
  }

  lemma {:induction false} StepsOk(st: ParseState, lines: seq<string>)
    requires StateOk(st) && forall l | l in lines :: Short(l) && '\n' !in l
    ensures StateOk(Steps(st, lines))
    decreases |lines|
  {
    if lines != [] {
      assert StateOk(Step(st, lines[0]));
      StepsOk(Step(st, lines[0]), lines[1..]);
    }
  }

  lemma HeaderTextValid(lines: seq<string>)
    requires forall l | l in lines :: HeaderLine(l) && '\n' !in l
    ensures ValidHeader(HeaderText(lines))
  {
    if lines != [] {
      var init, last := lines[..|lines| - 1], lines[|lines| - 1];
      assert lines == init + [last];
      JoinSnoc(init, last);
      if last == "" {
        UnlinesEnds(init);
        assert Unlines(init) + "" == Unlines(init);
        RawLinesUnlines(init, "");
        assert init + [] == init;
      } else {
        UnlinesSnoc(init, last);
        RawLinesUnlines(lines, "");
        assert Unlines(lines) + "" == Unlines(lines);
        assert lines + [] == lines;
        assert last in lines && last[|last| - 1] in last;
      }
    }
  }

  /** Whatever the file holds, parse returns a valid header and only named networks, so the law
      above applies to everything Add and Remove ever print. */
  lemma ParsedOk(data: string)
    ensures ValidHeader(ParseText(data).header) && Named(ParseText(data).networks)
  {
    var lines := Scan(data, MAX_TOKEN).lines;
    ScannedLines(RawLines(data), MAX_TOKEN);
    StepsOk(START, lines);
    HeaderTextValid(Steps(START, lines).headerLines);
  }

  // --------------------------------------------------- when nothing changes

  /** Total length of the values. */
  function Volume(networks: seq<Network>): nat {
    if networks == [] then 0 else |networks[0].ssid| + |networks[0].psk| + Volume(networks[1..])
  }

  lemma {:induction false} VolumeGrows(printable: Table, networks: seq<Network>)
    ensures AllPlain(printable, networks) ==> EscapedAll(printable, networks) == networks
    ensures !AllPlain(printable, networks) ==> Volume(EscapedAll(printable, networks)) > Volume(networks)
    ensures Volume(EscapedAll(printable, networks)) >= Volume(networks)
  {
    if networks != [] {
      var n, rest := networks[0], networks[1..];
      assert networks == [n] + rest;
      BodyGrows(printable, n.ssid);
      BodyGrows(printable, n.psk);
      EscapedCons(printable, n, rest);
      VolumeGrows(printable, rest);
      assert AllPlain(printable, networks) <==> PlainNetwork(printable, n) && AllPlain(printable, rest);
    }
  }

  /** Print then parse is the identity on a list of networks exactly when every value is plain;
      on every other list of readable networks the values strictly grow. */
  lemma IdentityIffPlain(printable: Table, header: string, networks: seq<Network>)
    requires ValidHeader(header) && Named(networks) && AllFit(printable, networks)
    ensures var p := ParseText(Print(printable, header, networks));
            && (p.networks == networks <==> AllPlain(printable, networks))
            && (p.networks != networks ==> Volume(p.networks) > Volume(networks))
            && |p.networks| == |networks| && !p.failed
  {
    PrintParse(printable, header, networks);
    VolumeGrows(printable, networks);
  }

  // -------------------------------------------------------------- the header

  predicate NoLineEndsInCR(header: string) {
    forall l | l in RawLines(header) :: DropCR(l) == l
  }

  lemma {:induction false} UnlinesLength(lines: seq<string>)
    ensures |Unlines(DropCRs(lines))| <= |Unlines(lines)|
    ensures |Unlines(DropCRs(lines))| == |Unlines(lines)| ==> DropCRs(lines) == lines
  {
    if lines != [] {
      UnlinesLength(lines[1..]);
      assert DropCRs(lines) == [DropCR(lines[0])] + DropCRs(lines[1..]);
      assert lines == [lines[0]] + lines[1..];
    }
  }

  /** With a network printed, the header comes back byte for byte exactly when none of its lines
      ends in a carriage return. */
  lemma HeaderFixpoint(header: string, networks: seq<Network>)
    requires ValidHeader(header) && networks != []
    ensures Reheader(header, networks) == header <==> NoLineEndsInCR(header)
  {
    var h := RawLines(header);
    UnlinesRawLines(header);
    UnlinesLength(h);
    if NoLineEndsInCR(header) {
      assert DropCRs(h) == h;
    }
    if DropCRs(h) == h {
      forall l | l in h ensures DropCR(l) == l {
        var i :| 0 <= i < |h| && h[i] == l;
        assert DropCRs(h)[i] == DropCR(h[i]);
      }
    }
  }

  predicate EndsInEmptyLine(header: string) {
    header == "\n" || (|header| >= 2 && header[|header| - 1] == '\n' && header[|header| - 2] == '\n')
  }

  /** The newline rule of parse, on a header whose last line is known. */
  lemma HeaderTextLast(init: seq<string>, last: string)
    requires '\n' !in last
    ensures var text := Unlines(init) + last + "\n";
            && HeaderText(init + [last]) == (if last == "" then Unlines(init) else text)
            && (last == "" <==> EndsInEmptyLine(text))
  {
    JoinSnoc(init, last);
    UnlinesEnds(init);
    var text := Unlines(init) + last + "\n";
    if last == "" {
      assert Unlines(init) + last == Unlines(init);
      assert EndsInEmptyLine(text);
    } else {
      assert last[|last| - 1] in last;
      assert text[|text| - 2] == last[|last| - 1];
    }
  }

  lemma HeaderTextAlone(lines: seq<string>)
    requires forall l | l in lines :: '\n' !in l
    ensures var text := Unlines(lines);
            HeaderText(lines) == if EndsInEmptyLine(text) then text[..|text| - 1] else text
  {
    if lines != [] {
      var init, last := lines[..|lines| - 1], lines[|lines| - 1];
      assert lines == init + [last] && last in lines;
      UnlinesSnoc(init, last);
      HeaderTextLast(init, last);
      assert last == "" ==> Unlines(init) + last == Unlines(init);
    }
  }

  /** With no network printed, a header without trailing carriage returns loses at most one
      newline, and loses it exactly when it ends in an empty line. */
  lemma HeaderAlone(header: string)
    requires ValidHeader(header) && NoLineEndsInCR(header)
    ensures Reheader(header, []) == if EndsInEmptyLine(header) then header[..|header| - 1] else header
  {
    UnlinesRawLines(header);
    HeaderTextAlone(RawLines(header));
    assert DropCRs(RawLines(header)) == RawLines(header);
  }
}
