/** Where the promises of the network list stop holding: a bound under which no name is too long, and
    one concrete input for each promise that fails. */
module WifiCases {
  import opened Wrappers
  import opened Text
  import opened GoQuote
  import opened WifiConfig
  import opened WifiLaws
  import opened WifiStore
  import opened WifiRuns

  // ---------------------------------------------------------------- long names

  lemma {:induction false} HexBytes(n: nat, width: nat)
    ensures ByteLen(Hex(n, width)) == width
  {
    if width > 0 {
      HexBytes(n / 16, width - 1);
      ByteLenAppend(Hex(n / 16, width - 1), [HEX[n % 16]]);
    }
  }

  lemma QuoteCharBytes(printable: Table, c: char)
    ensures ByteLen(QuoteChar(printable, c)) <= 4 * CharLen(c)
  {
    var n := c as int;
    HexBytes(n, 2);
    HexBytes(n, 4);
    HexBytes(n, 8);
    ByteLenAppend("\\x", Hex(n, 2));
    ByteLenAppend("\\u", Hex(n, 4));
    ByteLenAppend("\\U", Hex(n, 8));
  }

  /** Quoting makes a string at most four times as long, in bytes. */
  lemma {:induction false} BodyBytes(printable: Table, s: string)
    ensures ByteLen(Body(printable, s)) <= 4 * ByteLen(s)
  {
    if s != "" {
      QuoteCharBytes(printable, s[0]);
      BodyBytes(printable, s[1..]);
      ByteLenAppend(QuoteChar(printable, s[0]), Body(printable, s[1..]));
    }
  }

  lemma LineBytes(key: string, body: string)
    ensures ByteLen(key + ("\"" + body + "\"")) == ByteLen(key) + ByteLen(body) + 2
  {
    ByteLenAppend(key, "\"" + body + "\"");
    ByteLenAppend("\"" + body, "\"");
    ByteLenAppend("\"", body);
  }

  lemma KeyBytes()
    ensures ByteLen("    ssid=") == 9 && ByteLen("    psk=") == 8
  {
    AsciiLen("    ssid=");
    AsciiLen("    psk=");
  }

  /** Names and passwords below 16 KB always fit the scanner; in particular the 32-byte names and
      63-byte passwords of real networks do. */
  lemma ShortNamesFit(printable: Table, n: Network)
    requires ByteLen(n.ssid) <= 16380 && ByteLen(n.psk) <= 16380
    ensures Fits(printable, n)
  {
    KeyBytes();
    LineBytes("    ssid=", Body(printable, n.ssid));
    LineBytes("    psk=", Body(printable, n.psk));
    BodyBytes(printable, n.ssid);
    BodyBytes(printable, n.psk);
  }

  /** A name of at least 64 KB never fits. */
  lemma LongNamesDoNotFit(printable: Table, n: Network)
    requires |n.ssid| >= 65536
    ensures !Fits(printable, n)
  {
    BodyGrows(printable, n.ssid);
    LineBytes("    ssid=", Body(printable, n.ssid));
  }

  // --------------------------------------------------------- concrete failures

  lemma EmptyFile(printable: Table)
    ensures ParseText("") == Parsed([], "", false) && Canonical(printable, "")
  {
  }

  lemma EmptyAccepts(printable: Table, n: Network)
    requires AddProblem(n.ssid, n.psk).None?
    ensures Canonical(printable, "") && Accepts("", n)
    ensures Exec(printable, Disk(Some(""), None), Add(n.ssid, n.psk), ALL_OK).1 == Done
  {
    EmptyFile(printable);
  }

  lemma Password(psk: string)
    requires psk == "password"
    ensures TrimSpace(psk) == psk && ByteLen(psk) == 8
  {
    AsciiLen(psk);
    TrimTight(psk);
  }

  lemma Marked(printable: Table, ssid: string)
    requires ssid == "a\"b"
    ensures TrimSpace(ssid) == ssid && ByteLen(ssid) == 3 && !Plain(printable, ssid)
  {
    AsciiLen(ssid);
    TrimTight(ssid);
    assert ssid[1] in ssid && !PlainChar(printable, ssid[1]);
  }

  /** A name with a quotation mark can be added twice, and cannot be removed. */
  lemma MarkedNameEscapesChecks(printable: Table, ssid: string, psk: string)
    requires ssid == "a\"b" && psk == "password"
    ensures var added := Exec(printable, Disk(Some(""), None), Add(ssid, psk), ALL_OK).0;
      && Exec(printable, added, Add(ssid, psk), ALL_OK).1 == Done
      && Exec(printable, added, Remove(ssid), ALL_OK).1 == Refused(NotFound(ssid))
  {
    Marked(printable, ssid);
    Password(psk);
    Escapes(printable, Network(ssid, psk));
  }

  lemma Escapes(printable: Table, n: Network)
    requires AddProblem(n.ssid, n.psk).None? && !Plain(printable, n.ssid)
    requires ByteLen(n.ssid) <= 16380 && ByteLen(n.psk) <= 16380
    ensures var added := Exec(printable, Disk(Some(""), None), Add(n.ssid, n.psk), ALL_OK).0;
      && Exec(printable, added, Add(n.ssid, n.psk), ALL_OK).1 == Done
      && Exec(printable, added, Remove(n.ssid), ALL_OK).1 == Refused(NotFound(n.ssid))
  {
    EmptyAccepts(printable, n);
    ShortNamesFit(printable, n);
    SecondAdd(printable, "", n, n.psk);
    AddThenRemove(printable, "", n);
  }

  /** One oversized name, once added, makes even List fail from then on. */
  lemma LongNameBlocksList(printable: Table, ssid: string, psk: string)
    requires ssid == seq(65536, _ => 'a') && psk == "password"
    ensures var (added, reply) := Exec(printable, Disk(Some(""), None), Add(ssid, psk), ALL_OK);
      reply == Done && Exec(printable, added, List, ALL_OK) == (added, CutShort([]))
  {
    Password(psk);
    TrimTight(ssid);
    Blocks(printable, Network(ssid, psk));
  }

  lemma Blocks(printable: Table, n: Network)
    requires AddProblem(n.ssid, n.psk).None? && |n.ssid| >= 65536
    ensures var (added, reply) := Exec(printable, Disk(Some(""), None), Add(n.ssid, n.psk), ALL_OK);
      reply == Done && Exec(printable, added, List, ALL_OK) == (added, CutShort([]))
  {
    EmptyAccepts(printable, n);
    LongNamesDoNotFit(printable, n);
    OversizeNameBlocksTheStore(printable, "", n, Call(List, ALL_OK));
    assert [] + [n] == [n];
  }

  /** A header line that ends in a carriage return loses it when the file is written. */
  lemma CarriageReturnLost()
    ensures ValidHeader("x\r\n") && Reheader("x\r\n", [Network("a", "password")]) != "x\r\n"
  {
    var header := "x\r\n";
    assert header == "x\r" + "\n" + "";
    RawLinesCons("x\r", "");
    var line := RawLines(header)[0];
    assert line == "x\r" && DropCR(line) != line && line in RawLines(header);
    AsciiLen(line);
    TrimSpaceTight(line);
    HeaderFixpoint(header, [Network("a", "password")]);
  }
}
