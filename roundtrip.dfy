/**
 * The writer's bytes as the reader reads them.
 *
 * XMLWriter_v5.cpp and XMLReader_v5.cpp share one wire format: tags,
 * `\t<Name>Value</Name>\n` fields, a decimal `<CRC>` line and a binary
 * section framed by `START` and `END`.  The lemmas here put the writer's
 * functions of WriterSpec through the reader's functions of ReaderSpec:
 * what comes back whole, and where the two programs part ways (the frame
 * kinds, long field names and the order of the section's CRC bytes).
 */
module RoundTrip {
  import opened Ascii
  import opened Crc16
  import opened InstInfo
  import opened ReaderSpec
  import TelecommandSpec
  import W = WriterSpec

  // ---------------------------------------------------------------------
  // Fields
  // ---------------------------------------------------------------------

  /** A node the reader takes back: a readable field with a non-empty name and a non-empty C-string value. */
  predicate NodeFits(tag: seq<byte>, value: seq<byte>)
  {
    tag != [] && value != [] && IsCString(value) && Readable(tag, value)
  }

  /** `writeNode` of a short C-string name writes the bytes of a field holding what `crcUpdate` feeds of the value. */
  lemma NodeIsField(tag: seq<byte>, value: seq<byte>)
    requires IsCString(tag) && 0 < |tag| <= W.TEXT_LIMIT
    ensures W.Node(tag, value) == FieldBytes(tag, W.CText(value))
  {
    W.CTextOf(tag);
    assert [LT, SLASH] == [LT] + [SLASH] && [GT, NEWLINE] == [GT] + [NEWLINE];
  }

  /**
   * `ReadField` takes back the name and the value `writeNode` wrote; the
   * empty string, which the writer sends as a lone NUL, comes back as a
   * row that `strcmp` and `sscanf` see as empty.
   */
  lemma NodeReadBack(tag: seq<byte>, value: seq<byte>, rest: seq<byte>)
    requires tag != [] && IsCString(tag) && |tag| < ROW_SIZE && GT !in tag
    requires IsCString(value) && |value| <= VALUE_LIMIT && LT !in value
    ensures var s := W.Node(tag, value) + rest;
      s != [] && s[0] == TAB && Field(s[1..], ROW_SIZE) == FieldRead(true, Some(tag), Some(W.CText(value)), rest)
    ensures CView(W.CText(value)) == value
  {
    var text := W.CText(value);
    ValueText(value);
    NodeIsField(tag, value);
    var s := W.Node(tag, value) + rest;
    assert s == [TAB] + (FieldBody(tag, text) + rest);
    FieldOf(tag, text, rest, s[1..]);
  }

  /** What `crcUpdate` feeds of a short value: the value, or a lone NUL for the empty one. */
  lemma ValueText(value: seq<byte>)
    requires IsCString(value) && |value| <= VALUE_LIMIT && LT !in value
    ensures CView(W.CText(value)) == value && |W.CText(value)| <= VALUE_LIMIT && LT !in W.CText(value)
  {
    if value == [] {
      assert W.CText(value) == [NUL];
    } else {
      W.CTextOf(value);
    }
  }

  /** The nodes `writeNode` writes for `tags` and `values`, in turn. */
  function Nodes(tags: seq<seq<byte>>, values: seq<seq<byte>>): seq<byte>
    requires |tags| == |values|
  {
    if tags == [] then [] else W.Node(tags[0], values[0]) + Nodes(tags[1..], values[1..])
  }

  /** Every node of a run fits the reader. */
  predicate AllFit(tags: seq<seq<byte>>, values: seq<seq<byte>>)
    requires |tags| == |values|
  {
    tags == [] || (NodeFits(tags[0], values[0]) && AllFit(tags[1..], values[1..]))
  }

  /** A run of nodes that fit is a run of readable fields. */
  lemma {:induction false} NodesAreFields(tags: seq<seq<byte>>, values: seq<seq<byte>>)
    requires |tags| == |values| && AllFit(tags, values)
    ensures Nodes(tags, values) == FieldsBytes(tags, values) && AllReadable(tags, values)
  {
    if tags != [] {
      NodesAreFields(tags[1..], values[1..]);
      NodeIsField(tags[0], values[0]);
      W.CTextOf(values[0]);
    }
  }

  /** `Until` with a limit shorter than the text fails: the byte after the limit is not the stop byte. */
  lemma {:induction false} UntilTooLong(s: seq<byte>, limit: nat, stop: byte)
    requires limit < |s| && stop !in s[..limit + 1]
    ensures !Until(s, limit, stop).ok
    decreases limit
  {
    if limit > 0 {
      assert s[1..][..limit] == s[1..limit + 1];
      UntilTooLong(s[1..], limit - 1, stop);
    }
  }

  /** The bytes of a node after its tab and `<`: the name, `>`, the value and the closing tag. */
  lemma NodeSplit(tag: seq<byte>, value: seq<byte>, rest: seq<byte>)
    ensures W.Node(tag, value) + rest == [TAB] + ([LT] + (W.CText(tag) + ([GT] + W.CText(value) + W.Close(tag) + rest)))
  {
  }

  /** An opening tag longer than the row fails. */
  lemma LongTagFails(s: seq<byte>, t: seq<byte>)
    requires s == [LT] + t && ROW_SIZE <= |t| && GT !in t[..ROW_SIZE]
    ensures !Field(s, ROW_SIZE).ok
  {
    assert s[1..] == t;
    UntilTooLong(t, ROW_SIZE - 1, GT);
    assert !OpeningTag(s, ROW_SIZE).ok;
  }

  /** A field name of eight bytes or more does not fit the reader's row: `ReadField` fails on it. */
  lemma LongNameRejected(tag: seq<byte>, value: seq<byte>, rest: seq<byte>)
    requires IsCString(tag) && GT !in tag && ROW_SIZE <= |tag| <= W.TEXT_LIMIT
    ensures var s := W.Node(tag, value) + rest;
      s != [] && s[0] == TAB && !Field(s[1..], ROW_SIZE).ok
  {
    W.CTextOf(tag);
    var t := tag + ([GT] + W.CText(value) + W.Close(tag) + rest);
    NodeSplit(tag, value, rest);
    assert t[..ROW_SIZE] == tag[..ROW_SIZE];
    LongTagFails([LT] + t, t);
  }

  /** The writer's long field names are words of eight bytes or more. */
  lemma WriterLongName(tag: seq<byte>)
    requires tag in {W.SWVERSION_TAG, W.ZPROTOCOL_TAG, W.STATEFLAG1_TAG, W.STATEFLAG2_TAG,
                     W.STATEFLAG3_TAG, W.STATEMESS1_TAG, W.STATEMESS2_TAG, W.STATEMESS3_TAG}
    ensures IsCString(tag) && GT !in tag && ROW_SIZE <= |tag| <= W.TEXT_LIMIT
  {
    if tag == W.SWVERSION_TAG {
      PlainWord("SWVersion");
    } else if tag == W.ZPROTOCOL_TAG {
      PlainWord("ZProtocolVersion");
    } else {
      HealthName(tag);
    }
  }

  /** The names of the health slots of a `TM` frame are words of ten bytes. */
  lemma HealthName(tag: seq<byte>)
    requires tag in {W.STATEFLAG1_TAG, W.STATEFLAG2_TAG, W.STATEFLAG3_TAG, W.STATEMESS1_TAG, W.STATEMESS2_TAG, W.STATEMESS3_TAG}
    ensures IsCString(tag) && GT !in tag && |tag| == 10
  {
    if tag == W.STATEFLAG1_TAG {
      PlainWord("StateFlag1");
    } else if tag == W.STATEFLAG2_TAG {
      PlainWord("StateFlag2");
    } else if tag == W.STATEFLAG3_TAG {
      PlainWord("StateFlag3");
    } else if tag == W.STATEMESS1_TAG {
      PlainWord("StateMess1");
    } else if tag == W.STATEMESS2_TAG {
      PlainWord("StateMess2");
    } else {
      PlainWord("StateMess3");
    }
  }

  /** Names the writer uses in its frames and that the reader cannot take back. */
  lemma WriterLongNames(tag: seq<byte>, value: seq<byte>, rest: seq<byte>)
    requires tag in {W.SWVERSION_TAG, W.ZPROTOCOL_TAG, W.STATEFLAG1_TAG, W.STATEFLAG2_TAG,
                     W.STATEFLAG3_TAG, W.STATEMESS1_TAG, W.STATEMESS2_TAG, W.STATEMESS3_TAG}
    ensures var s := W.Node(tag, value) + rest;
      s != [] && s[0] == TAB && !Field(s[1..], ROW_SIZE).ok
  {
    WriterLongName(tag);
    LongNameRejected(tag, value, rest);
  }

  // ---------------------------------------------------------------------
  // Frames
  // ---------------------------------------------------------------------

  /** The kind of a tag text is the kind that names it; no kind name holds `>`. */
  lemma KindOfName(m: ZephyrMessage)
    requires IsKind(m)
    ensures KindOf(KindName(m)) == m && GT !in KindName(m)
  {
    CViewOfCString(KindName(m));
  }

  /** `<tag>\n`, as `tagOpen` writes it, is the opening type tag of kind `KindOf(tag)`. */
  lemma OpenReadBack(tag: seq<byte>, rest: seq<byte>)
    requires tag != [] && IsCString(tag) && |tag| < ROW_SIZE && GT !in tag
    ensures var s := W.Open(tag) + rest;
      s != [] && s[0] == LT && TypeOpen(s) == Opened(IsKind(KindOf(tag)), Some(KindOf(tag)), tag, rest)
  {
    W.CTextOf(tag);
    var s1 := [NEWLINE] + rest;
    var s := W.Open(tag) + rest;
    assert s == [LT] + tag + [GT] + s1;
    LeadThenOf(LT, tag, ROW_SIZE, s1);
  }

  /** `</tag>\n`, as `tagClose` writes it, closes the frame opened by `tag`. */
  lemma CloseReadBack(tag: seq<byte>, rest: seq<byte>)
    requires tag != [] && IsCString(tag) && |tag| < ROW_SIZE && GT !in tag
    ensures TypeClose(W.Close(tag) + rest, tag) == Run(true, [], rest)
  {
    W.CTextOf(tag);
    var s2 := [NEWLINE] + rest;
    var s1 := [SLASH] + tag + [GT] + s2;
    var s := W.Close(tag) + rest;
    assert s == [LT] + s1;
    LeadThenOf(SLASH, tag, ROW_SIZE, s2);
  }

  /** A frame of kind `m` as the writer's `tagOpen`, `writeNode` and `tagClose` write it. */
  function FrameBody(m: ZephyrMessage, tags: seq<seq<byte>>, values: seq<seq<byte>>): (b: seq<byte>)
    requires IsKind(m) && |tags| == |values|
    ensures b != [] && b[0] == LT
  {
    W.Open(KindName(m)) + Nodes(tags, values) + W.Close(KindName(m))
  }

  /** The text of a frame of a kind the reader knows, with up to ten fields that fit, is read back whole. */
  lemma FrameTextReadBack(m: ZephyrMessage, tags: seq<seq<byte>>, values: seq<seq<byte>>, rest: seq<byte>)
    requires IsKind(m) && |tags| == |values| <= MAX_MSG_FIELDS && AllFit(tags, values)
    ensures FrameText(FrameBody(m, tags, values) + rest) == Text(true, Some(m), tags, values, rest)
  {
    var k := KindName(m);
    KindOfName(m);
    NodesAreFields(tags, values);
    var f := FieldsBytes(tags, values);
    var c := W.Close(k) + rest;
    var s := FrameBody(m, tags, values) + rest;
    Regroup(W.Open(k), Nodes(tags, values), W.Close(k), rest);
    OpenReadBack(k, f + c);
    W.CTextOf(k);
    assert c[0] == LT;
    FieldsOf(tags, values, 0, c);
    CloseReadBack(k, rest);
  }

  /** What the writer prints of a frame sent from the idle state: the text, then its CRC line. */
  lemma FrameSent(o: seq<byte>, count: nat, body: seq<byte>)
    ensures W.Frame(W.Link(o, W.IDLE, count), body).out == o + body + W.CrcLine(Fold(CRC_POLY, body))
  {
    assert [] + body == body;
  }

  /** The name of the CRC tag, as `ReadVerifyCRC` compares it. */
  const CRC_NAME: seq<byte> := Bytes("CRC")

  /** How `writeCRC`'s tags fall into `<`, the name, `>` and the rest. */
  lemma CrcTags()
    ensures W.CRC_OPEN == [LT] + CRC_NAME + [GT]
    ensures W.CRC_CLOSE == [LT] + ([SLASH] + CRC_NAME + [GT] + [NEWLINE])
    ensures |CRC_NAME| == 3 && GT !in CRC_NAME && CView(CRC_NAME) == CRC_NAME
  {
    PlainWord("CRC");
  }

  /** `writeCRC`'s line cut where `ReadVerifyCRC` reads it: `<`, the name, `>`, the digits, `<`, `/`, the name, `>`, the newline. */
  lemma CrcLineSplit(reg: bv16, rest: seq<byte>)
    ensures W.CrcLine(reg) + rest
         == [LT] + CRC_NAME + [GT] + (Decimal(reg as nat) + [LT] + ([SLASH] + CRC_NAME + [GT] + ([NEWLINE] + rest)))
  {
    CrcTags();
    Regroup(W.CRC_OPEN, Decimal(reg as nat), W.CRC_CLOSE, rest);
  }

  /** `ReadVerifyCRC`'s tags and digits, once each of its three reads has succeeded. */
  lemma CrcDigitsOf(s: seq<byte>, s1: seq<byte>, d: seq<byte>, s2: seq<byte>, s3: seq<byte>)
    requires CView(CRC_NAME) == CRC_NAME
    requires OpeningTag(s, CRC_TAG_SIZE) == Tag(true, true, CRC_NAME, s1)
    requires Until(s1, CRC_DIGIT_LIMIT, LT) == Run(true, d, s2)
    requires ClosingTag(s2, CRC_TAG_SIZE) == Tag(true, true, CRC_NAME, s3)
    ensures CrcDigits(s) == Run(true, d, s3)
  {
  }

  /** The tags and the digits of `writeCRC`'s line, as `ReadVerifyCRC` reads them. */
  lemma CrcDigitsOfLine(reg: bv16, rest: seq<byte>)
    ensures CrcDigits(W.CrcLine(reg) + rest) == Run(true, Decimal(reg as nat), [NEWLINE] + rest)
  {
    var d := Decimal(reg as nat);
    CrcTags();
    var s3 := [NEWLINE] + rest;
    var s2 := [SLASH] + CRC_NAME + [GT] + s3;
    var s1 := d + [LT] + s2;
    CrcLineSplit(reg, rest);
    LeadThenOf(LT, CRC_NAME, CRC_TAG_SIZE, s1);
    DecimalLength(reg as nat, 5);
    UntilOf(d, CRC_DIGIT_LIMIT, LT, s2);
    LeadThenOf(SLASH, CRC_NAME, CRC_TAG_SIZE, s3);
    CrcDigitsOf(W.CrcLine(reg) + rest, s1, d, s2, s3);
  }

  /** `writeCRC`'s line is read back by `ReadVerifyCRC`, its value and its newline. */
  lemma CrcLineReadBack(reg: bv16, rest: seq<byte>)
    ensures VerifyCrc(W.CrcLine(reg) + rest) == CrcRead(true, reg as nat, [NEWLINE] + rest, rest)
  {
    var d := Decimal(reg as nat);
    CrcDigitsOfLine(reg, rest);
    CViewOfCString(d);
    DecimalRoundTrip(reg as nat, []);
    assert d + [] == d;
  }

  /**
   * A frame the writer sends from the idle state, of a kind the reader
   * knows and with fields that fit, is read back: its text gives the kind
   * and the fields, the reader folds its CRC over exactly the bytes the
   * writer folded, and the CRC line carries that same register.
   */
  lemma FrameReadBack(m: ZephyrMessage, tags: seq<seq<byte>>, values: seq<seq<byte>>, o: seq<byte>, count: nat, rest: seq<byte>)
    requires IsKind(m) && |tags| == |values| <= MAX_MSG_FIELDS && AllFit(tags, values)
    ensures var body := FrameBody(m, tags, values);
      var s := W.Frame(W.Link(o, W.IDLE, count), body).out[|o|..] + rest;
      var t := FrameText(s);
      t == Text(true, Some(m), tags, values, W.CrcLine(Fold(CRC_POLY, body)) + rest)
      && Consumed(s, t.rest) == body
      && VerifyCrc(t.rest) == CrcRead(true, Fold(CRC_POLY, Consumed(s, t.rest)) as nat, [NEWLINE] + rest, rest)
  {
    var body := FrameBody(m, tags, values);
    var line := W.CrcLine(Fold(CRC_POLY, body));
    FrameSent(o, count, body);
    var s := W.Frame(W.Link(o, W.IDLE, count), body).out[|o|..] + rest;
    AfterPrefix(o, body, line, rest);
    FrameTextReadBack(m, tags, values, line + rest);
    assert Consumed(s, line + rest) == body;
    CrcLineReadBack(Fold(CRC_POLY, body), rest);
  }

  /** The reader knows none of the kinds of the frames the writer sends. */
  lemma WriterKindsUnknown()
    ensures KindOf(W.IMR_TAG) == UNKNOWN && KindOf(W.IMACK_TAG) == UNKNOWN
    ensures KindOf(W.TCACK_TAG) == UNKNOWN && KindOf(W.S_TAG) == UNKNOWN
    ensures KindOf(W.RA_TAG) == UNKNOWN && KindOf(W.TM_TAG) == UNKNOWN
  {
    ReplyKindsUnknown();
    ReportKindsUnknown();
  }

  /** The replies `IMR`, `IMAck` and `TCAck` are no kind the reader knows. */
  lemma ReplyKindsUnknown()
    ensures KindOf(W.IMR_TAG) == UNKNOWN && KindOf(W.IMACK_TAG) == UNKNOWN && KindOf(W.TCACK_TAG) == UNKNOWN
  {
    CViewOfCString(W.IMR_TAG);
    CViewOfCString(W.IMACK_TAG);
    CViewOfCString(W.TCACK_TAG);
  }

  /** The reports `S`, `RA` and `TM` are no kind the reader knows. */
  lemma ReportKindsUnknown()
    ensures KindOf(W.S_TAG) == UNKNOWN && KindOf(W.RA_TAG) == UNKNOWN && KindOf(W.TM_TAG) == UNKNOWN
  {
    CViewOfCString(W.S_TAG);
    CViewOfCString(W.RA_TAG);
    CViewOfCString(W.TM_TAG);
  }

  /** The tags of the writer's frames are short words. */
  lemma WriterKindTag(tag: seq<byte>)
    requires tag in {W.IMR_TAG, W.IMACK_TAG, W.TCACK_TAG, W.S_TAG, W.RA_TAG, W.TM_TAG}
    ensures tag != [] && IsCString(tag) && |tag| < ROW_SIZE && GT !in tag
  {
    if tag == W.IMR_TAG {
      PlainWord("IMR");
    } else if tag == W.IMACK_TAG {
      PlainWord("IMAck");
    } else if tag == W.TCACK_TAG {
      PlainWord("TCAck");
    } else if tag == W.S_TAG {
      PlainWord("S");
    } else if tag == W.RA_TAG {
      PlainWord("RA");
    } else {
      PlainWord("TM");
    }
  }

  /** `GetNewMessage` rejects every frame the writer sends, at its opening tag. */
  lemma WriterFrameRejected(tag: seq<byte>, rest: seq<byte>, inst: Instrument, res: Results, tc: TelecommandSpec.TcState)
    requires tag in {W.IMR_TAG, W.IMACK_TAG, W.TCACK_TAG, W.S_TAG, W.RA_TAG, W.TM_TAG}
    requires TelecommandSpec.Sized(tc) && res.tcLength == tc.length
    ensures FrameText(W.Open(tag) + rest) == Text(false, Some(UNKNOWN), [], [], rest)
    ensures !GetNewMessage(W.Open(tag) + rest, inst, res, tc).ok
  {
    WriterKindsUnknown();
    WriterKindTag(tag);
    OpenReadBack(tag, rest);
  }

  // ---------------------------------------------------------------------
  // Binary sections
  // ---------------------------------------------------------------------

  /** A run of `ReadSpecificChar` calls takes back the literal it checks. */
  lemma {:induction false} LiteralOf(lit: seq<byte>, rest: seq<byte>)
    ensures Literal(lit + rest, lit) == Run(true, [], rest)
    decreases |lit|
  {
    if lit != [] {
      assert (lit + rest)[1..] == lit[1..] + rest;
      LiteralOf(lit[1..], rest);
    }
  }

  /** The value the reader assembles from two CRC bytes sent high byte first: the register with its bytes swapped. */
  function Swapped(reg: bv16): (v: nat)
    ensures v <= 0xFFFF
  {
    (reg as int % 256) * 256 + reg as int / 256
  }

  /** After `START`: the data, two CRC bytes and `END`, the first CRC byte taken as the low one. */
  lemma SectionBodyOf(data: seq<byte>, pair: seq<byte>, rest: seq<byte>)
    requires |pair| == 2
    ensures SectionBody(data + (pair + (W.END_MARK + rest)), |data|)
         == Binary(true, true, data, pair[0] as nat + pair[1] as nat * 256, rest)
  {
    var tail := pair + (W.END_MARK + rest);
    var x := data + tail;
    assert x[..|data|] == data && x[|data|..] == tail;
    assert tail[2..] == W.END_MARK + rest;
    LiteralOf(W.END_MARK, rest);
  }

  /**
   * `ReadBinarySection` takes back the data of a section the writer
   * sends, and assembles its CRC from the two bytes low byte first, so it
   * holds the writer's register with its bytes swapped.
   */
  lemma SectionReadBack(data: seq<byte>, rest: seq<byte>)
    ensures BinarySection(W.Section(data) + rest, |data|) == Binary(true, true, data, Swapped(Fold(CRC_POLY, data)), rest)
  {
    var pair := W.CrcPair(Fold(CRC_POLY, data));
    var x := data + (pair + (W.END_MARK + rest));
    Regroup4(W.START_MARK, data, pair, W.END_MARK, rest);
    LiteralOf(W.START_MARK, x);
    SectionBodyOf(data, pair, rest);
  }

  /** The swapped value is the register only when its two bytes are equal. */
  lemma SwappedAgrees(reg: bv16)
    ensures Swapped(reg) == reg as nat <==> reg as int / 256 == reg as int % 256
  {
    var h, l := reg as int / 256, reg as int % 256;
    assert reg as int == h * 256 + l;
    assert Swapped(reg) - reg as int == 255 * (l - h);
  }

  // ---------------------------------------------------------------------
  // Helpers
  // ---------------------------------------------------------------------

  /** A word of letters and digits is a C string with no `<` and no `>`. */
  lemma PlainWord(w: string)
    requires forall i | 0 <= i < |w| :: '0' <= w[i] <= 'z' && w[i] != '<' && w[i] != '>'
    ensures IsByteString(w)
    ensures IsCString(Bytes(w)) && GT !in Bytes(w) && LT !in Bytes(w)
  {
  }

  lemma Regroup(a: seq<byte>, b: seq<byte>, c: seq<byte>, r: seq<byte>)
    ensures a + b + c + r == a + (b + (c + r))
  {
  }

  lemma Regroup4(a: seq<byte>, b: seq<byte>, c: seq<byte>, d: seq<byte>, r: seq<byte>)
    ensures a + b + c + d + r == a + (b + (c + (d + r)))
  {
  }

  lemma AfterPrefix(o: seq<byte>, b: seq<byte>, c: seq<byte>, r: seq<byte>)
    ensures (o + b + c)[|o|..] + r == b + (c + r)
  {
    assert (o + b + c)[|o|..] == b + c;
  }
}
