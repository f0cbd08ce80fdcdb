/**
 * Places where XMLReader_v5.cpp, Telecommand.cpp and XMLWriter_v5.cpp do
 * something other than what their own comments, declarations and the other
 * side of the link evidently intend.  Each is stated twice: a member that
 * follows the code as written, with a lemma on an input that shows the
 * difference, and the corrected behaviour, which is the one the rest of
 * the model uses.
 */
module Findings {
  import opened Ascii
  import opened Crc16
  import opened InstInfo
  import opened ReaderSpec
  import opened TelecommandSpec
  import W = WriterSpec
  import RoundTrip

  // ---------------------------------------------------------------------
  // The constructor leaves the register at 0
  // ---------------------------------------------------------------------

  /**
   * The register of a reader just constructed: the initializer of
   * `working_crc` (XMLReader_v5.h:153), since the constructor
   * (XMLReader_v5.cpp:27-31) does not call `ResetReader`.
   */
  const CONSTRUCTED_CRC: bv16 := 0

  /**
   * `crc_result` after the first frame's text `text`, as written: for every
   * text it differs from the one every later frame gets from `crc_poly`.
   */
  function FirstCrcAsWritten(text: seq<byte>): (r: bv16)
    ensures r != Fold(CRC_POLY, text)
  {
    FoldInjective(CONSTRUCTED_CRC, CRC_POLY, text);
    Fold(CONSTRUCTED_CRC, text)
  }

  /**
   * For every frame whose text is read, the `crc_result` the model keeps
   * (the register from `crc_poly`) is not the one the first frame gets as
   * written.  Since the comparison with the CRC tag is commented out, this
   * is the only thing the missing reset changes.
   */
  lemma FirstCrcDiffers(s: seq<byte>, inst: Instrument, res: Results, tc: TcState)
    requires Sized(tc) && res.tcLength == tc.length
    ensures var s0 := DropJunk(s);
      var t := FrameText(s0);
      t.ok ==> GetNewMessage(s, inst, res, tc).closeCrc != FirstCrcAsWritten(Consumed(s0, t.rest))
  {
  }

  // ---------------------------------------------------------------------
  // The name row is read with the size of the row count
  // ---------------------------------------------------------------------

  /** `ReadField` as written (XMLReader_v5.cpp:348): the name read with `MAX_MSG_FIELDS` as the size of an 8-byte row. */
  function FieldAsWritten(s: seq<byte>): (f: FieldRead)
    ensures f.name.Some? ==> |f.name.value| < MAX_MSG_FIELDS
  {
    Field(s, MAX_MSG_FIELDS)
  }

  /** A name of eight or nine bytes is stored whole, with its terminator, in a row of eight bytes. */
  lemma FieldOverflowsRow(name: seq<byte>, value: seq<byte>, rest: seq<byte>)
    requires IsCString(name) && GT !in name && ROW_SIZE <= |name| < MAX_MSG_FIELDS
    ensures var f := FieldAsWritten(FieldBody(name, value) + rest);
      f.name == Some(name) && |f.name.value| + 1 > ROW_SIZE
  {
    var s1 := value + [LT, SLASH] + name + [GT, NEWLINE] + rest;
    assert FieldBody(name, value) + rest == [LT] + name + [GT] + s1;
    LeadThenOf(LT, name, MAX_MSG_FIELDS, s1);
  }

  /** The writer's own `SWVersion` is such a name. */
  lemma SwVersionOverflowsRow(value: seq<byte>, rest: seq<byte>)
    ensures FieldAsWritten(FieldBody(W.SWVERSION_TAG, value) + rest).name == Some(W.SWVERSION_TAG)
    ensures |W.SWVERSION_TAG| + 1 > ROW_SIZE
  {
    RoundTrip.WriterLongName(W.SWVERSION_TAG);
    FieldOverflowsRow(W.SWVERSION_TAG, value, rest);
  }

  // ---------------------------------------------------------------------
  // The field loop has no bound
  // ---------------------------------------------------------------------

  /** The field loop of `GetNewMessage` as written (XMLReader_v5.cpp:86-99): a field is read for every tab, however many rows that takes. */
  function FieldsAsWritten(s: seq<byte>): (r: FieldsRead)
    ensures |r.rest| <= |s|
    decreases |s|
  {
    if s == [] || s[0] != TAB then FieldsRead(true, [], [], 0, s)
    else
      var f := Field(s[1..], ROW_SIZE);
      if !f.ok then FieldsRead(false, Written(f.name), Written(f.value), 0, f.rest)
      else
        var r := FieldsAsWritten(f.rest);
        FieldsRead(r.ok, [f.name.value] + r.names, [f.value.value] + r.values, r.whole + 1, r.rest)
  }

  /** As written, the loop stores one row per readable field, past the tenth. */
  lemma {:induction false} FieldsAsWrittenOf(names: seq<seq<byte>>, values: seq<seq<byte>>, rest: seq<byte>)
    requires |names| == |values| && AllReadable(names, values)
    requires rest == [] || rest[0] != TAB
    ensures FieldsAsWritten(FieldsBytes(names, values) + rest) == FieldsRead(true, names, values, |names|, rest)
    decreases |names|
  {
    if names == [] {
      assert FieldsBytes(names, values) + rest == rest;
    } else {
      var s := FieldsBytes(names, values) + rest;
      var tail := FieldsBytes(names[1..], values[1..]) + rest;
      FirstField(names, values, rest, s, tail);
      FieldsAsWrittenOf(names[1..], values[1..], rest);
      HeadTail(names);
      HeadTail(values);
    }
  }

  /** A frame of eleven readable fields: ten rows and one past them as written, a failed frame corrected. */
  lemma ElevenFields(names: seq<seq<byte>>, values: seq<seq<byte>>, rest: seq<byte>)
    requires |names| == |values| == MAX_MSG_FIELDS + 1 && AllReadable(names, values)
    requires rest == [] || rest[0] != TAB
    ensures var s := FieldsBytes(names, values) + rest;
      FieldsAsWritten(s).ok && |FieldsAsWritten(s).names| > MAX_MSG_FIELDS && !Fields(s, 0).ok
  {
    FieldsAsWrittenOf(names, values, rest);
    TooManyFieldsRejected(names, values, 0, rest);
  }

  // ---------------------------------------------------------------------
  // The getters copy one byte more than their window
  // ---------------------------------------------------------------------

  /**
   * The copy loop of a getter as written (Telecommand.cpp:76-84 and the
   * other getters): `tc_index <= max_index` lets `Window + 1` bytes in.
   */
  function ElementAsWritten(buf: seq<byte>, length: nat, index: nat, c: Converter, last: bool): (r: Element)
    requires Scannable(buf, length, index)
    ensures |r.text| <= BufferSize(c)
  {
    ReadElement(buf, length, index, Window(c) + 1, last)
  }

  /** With no separator among the next `span` bytes, the copy runs the whole span. */
  lemma {:induction false} RunEndFull(buf: seq<byte>, length: nat, start: nat, span: nat)
    requires start + span <= length < |buf|
    requires forall i | start <= i < start + span :: !IsSeparator(buf[i])
    ensures RunEnd(buf, length, start, span) == start + span
    decreases span
  {
    if span > 0 {
      RunEndFull(buf, length, start + 1, span - 1);
    }
  }

  /** An element of `Window + 1` bytes fills `int_buffer` as written, and its terminator lands one past the end. */
  lemma ElementOverflows(buf: seq<byte>, length: nat, index: nat, c: Converter, last: bool)
    requires Scannable(buf, length, index) && index + Window(c) + 1 <= length
    requires forall i | index <= i < index + Window(c) + 1 :: !IsSeparator(buf[i])
    ensures |ElementAsWritten(buf, length, index, c, last).text| == BufferSize(c)
    ensures !ReadElement(buf, length, index, Window(c), last).delimited
  {
    RunEndFull(buf, length, index, Window(c) + 1);
    RunEndFull(buf, length, index, Window(c));
  }

  /** `0001;` for `Get_uint8`: four digits are copied into `int_buffer[4]`, whose terminator goes to `int_buffer[4]`. */
  lemma Uint8Overflow()
    ensures var buf := Bytes("0001;") + [NUL];
      var r := ElementAsWritten(buf, 5, 0, Integer(U8), true);
      r.delimited && |r.text| == BufferSize(Integer(U8)) && r.next == 5
      && !ReadElement(buf, 5, 0, Window(Integer(U8)), true).delimited
  {
    var buf := Bytes("0001;") + [NUL];
    assert buf[4] == SEMICOLON;
    ElementOverflows(buf, 5, 0, Integer(U8), true);
  }

  // ---------------------------------------------------------------------
  // TMhouse sends a logical and
  // ---------------------------------------------------------------------

  /**
   * The binary section `TMhouse` sends as written (XMLWriter_v5.cpp:437-446):
   * the high byte of `reset_crc`, then `reset_crc && 0x00FF`, which is the
   * truth value 1.
   */
  function HouseSectionAsWritten(): (r: seq<byte>)
    ensures r == W.START_MARK + [0x10, 0x01] + W.END_MARK
  {
    W.START_MARK + [(CRC_POLY as int / 256) as byte, LogicalAnd(CRC_POLY as int, 0xFF)] + W.END_MARK
  }

  /** C's `&&` on two integers: 1 when both are non-zero, else 0. */
  function LogicalAnd(a: int, b: int): (r: byte)
    ensures r == 1 <==> a != 0 && b != 0
  {
    if a != 0 && b != 0 then 1 else 0
  }

  /** The second CRC byte is 1 where the empty section of every other sender has `0x21`. */
  lemma HouseSectionDiffers()
    ensures HouseSectionAsWritten()[|W.START_MARK| + 1] == 1
    ensures W.Section([])[|W.START_MARK| + 1] == 0x21
    ensures HouseSectionAsWritten() != W.Section([])
  {
    W.EmptySectionAfterReset();
    SecondOfPair(W.START_MARK, (CRC_POLY as int / 256) as byte, 1, W.END_MARK);
    SecondOfPair(W.START_MARK, 0x10, 0x21, W.END_MARK);
    assert W.CrcPair(CRC_POLY) == [0x10, 0x21];
  }

  lemma SecondOfPair(a: seq<byte>, x: byte, y: byte, b: seq<byte>)
    ensures (a + [x, y] + b)[|a| + 1] == y
  {
  }

  // ---------------------------------------------------------------------
  // addTm(String) counts with a byte
  // ---------------------------------------------------------------------

  /**
   * `addTm(String)` as written (XMLWriter_v5.cpp:709-721) from byte `i`:
   * the counter is a `uint8_t`, so past 255 it starts again at the first
   * byte of the string.  Every turn pushes a byte or stops.
   */
  function AddTextAsWritten(tm: seq<byte>, s: seq<byte>, i: nat): (r: (seq<byte>, bool))
    requires |tm| <= W.TXBUFSIZE && i < 256
    ensures |r.0| <= W.TXBUFSIZE
    decreases W.TXBUFSIZE - |tm|
  {
    if i >= |s| then (tm, false)
    else if |tm| + 1 > W.TXBUFSIZE then (tm, true)
    else AddTextAsWritten(tm + [s[i]], s, (i + 1) % 256)
  }

  /** For a string of 256 bytes or more, the loop as written never reaches its end: it fills the buffer and fails. */
  lemma {:induction false} LongTextFills(tm: seq<byte>, s: seq<byte>, i: nat)
    requires |tm| <= W.TXBUFSIZE && i < 256 <= |s|
    ensures AddTextAsWritten(tm, s, i).1 && |AddTextAsWritten(tm, s, i).0| == W.TXBUFSIZE
    decreases W.TXBUFSIZE - |tm|
  {
    if |tm| + 1 <= W.TXBUFSIZE {
      LongTextFills(tm + [s[i]], s, (i + 1) % 256);
    }
  }

  /** A string of 256 bytes that fits: the corrected loop takes it whole, the loop as written fails. */
  lemma LongTextDiffers(s: seq<byte>)
    requires |s| == 256
    ensures W.AddText([], s) == (s, false)
    ensures AddTextAsWritten([], s, 0).1
  {
    LongTextFills([], s, 0);
    assert [] + s[..256] == s;
  }

  /** Below 256 bytes the counter does not wrap, and the loop as written is the corrected one. */
  lemma {:induction false} ShortTextAsWritten(tm: seq<byte>, s: seq<byte>, i: nat)
    requires |tm| <= W.TXBUFSIZE && i <= |s| < 256
    ensures AddTextAsWritten(tm, s, i) == W.AddText(tm, s[i..])
    decreases |s| - i
  {
    if i == |s| {
      assert tm + s[i..][..0] == tm;
    } else if |tm| + 1 > W.TXBUFSIZE {
      assert tm + s[i..][..0] == tm;
    } else {
      ShortTextAsWritten(tm + [s[i]], s, i + 1);
      AddTextCons(tm, s[i], s[i + 1..]);
      assert [s[i]] + s[i + 1..] == s[i..];
    }
  }

  /** One byte pushed, then the rest: the same as the text with that byte in front. */
  lemma AddTextCons(tm: seq<byte>, b: byte, rest: seq<byte>)
    requires |tm| < W.TXBUFSIZE
    ensures W.AddText(tm + [b], rest) == W.AddText(tm, [b] + rest)
  {
    var k := Min(|rest|, W.TXBUFSIZE - |tm| - 1);
    assert Min(|[b] + rest|, W.TXBUFSIZE - |tm|) == k + 1;
    assert ([b] + rest)[..k + 1] == [b] + rest[..k];
    assert tm + [b] + rest[..k] == tm + ([b] + rest)[..k + 1];
  }

  // ---------------------------------------------------------------------
  // A failed parse does not reset the reader
  // ---------------------------------------------------------------------

  /** What a call of `GetNewMessage` leaves for the next one: the rows still counted and the register. */
  datatype Leftover = Leftover(numFields: nat, crc: bv16)

  /** What `ResetReader` leaves. */
  const RESET: Leftover := Leftover(0, CRC_POLY)

  /**
   * `GetNewMessage` as written (XMLReader_v5.cpp:73-133): every way out
   * calls `ResetReader` except the failed parse (line 119), which returns
   * with the frame's rows still counted and the register where the CRC
   * tag left it.
   */
  function LeftoverAsWritten(s: seq<byte>, inst: Instrument, res: Results): (r: Leftover)
    ensures r.numFields <= MAX_MSG_FIELDS
    ensures r != RESET ==> FrameText(DropJunk(s)).ok
  {
    var s0 := DropJunk(s);
    var t := FrameText(s0);
    if !t.ok then RESET
    else
      var c := VerifyCrc(t.rest);
      if !c.ok then RESET
      else if ParseMessage(Rows(t.names), Rows(t.values), inst, res.(message := t.message.value)).0 then RESET
      else Leftover(|t.names|, Fold(CRC_POLY, Consumed(s0, c.folded)))
  }

  /** Whenever the reader as written keeps anything for the next call, the corrected `GetNewMessage` has failed. */
  lemma LeftoverOnlyOnFailure(s: seq<byte>, inst: Instrument, res: Results, tc: TcState)
    requires Sized(tc) && res.tcLength == tc.length
    ensures LeftoverAsWritten(s, inst, res) != RESET ==> !GetNewMessage(s, inst, res, tc).ok
  {
  }

  /** The name `Id` and the value `1` of the example frame. */
  const ID_NAME: seq<byte> := Bytes("Id")
  const ONE_VALUE: seq<byte> := Bytes("1")

  /** The example's name and value fit the reader, and the name is not `Msg`. */
  lemma ExampleField()
    ensures RoundTrip.AllFit([ID_NAME], [ONE_VALUE])
    ensures CView(Row([ID_NAME], 0)) != W.MSG_TAG
  {
    RoundTrip.PlainWord("Id");
    RoundTrip.PlainWord("1");
    CViewOfCString(ID_NAME);
    assert Row([ID_NAME], 0) == ID_NAME;
    assert |ID_NAME| != |W.MSG_TAG|;
  }

  /** A frame whose text and CRC tag are read and whose first field is not `Msg` leaves its rows behind, as written. */
  lemma LeftoverAfterFailedParse(s: seq<byte>, inst: Instrument, res: Results, t: Text)
    requires t == FrameText(DropJunk(s)) && t.ok && VerifyCrc(t.rest).ok
    requires CView(Row(t.names, 0)) != W.MSG_TAG
    ensures LeftoverAsWritten(s, inst, res).numFields == |t.names|
  {
    assert Rows(t.names)[0] == Row(t.names, 0);
    NoMsgRejected(Rows(t.names), Rows(t.values), inst, res.(message := t.message.value));
  }

  /** A message whose first row is not `Msg` fails to parse. */
  lemma NoMsgRejected(names: seq<seq<byte>>, values: seq<seq<byte>>, inst: Instrument, res: Results)
    requires |names| == MAX_MSG_FIELDS && |values| == MAX_MSG_FIELDS
    requires CView(names[0]) != W.MSG_TAG
    ensures !ParseMessage(names, values, inst, res).0
  {
  }

  /**
   * An `SW` frame whose only field is `<Id>1</Id>`, sent with its CRC line:
   * its parse fails on the missing `Msg`, and the reader as written starts
   * the next frame with one row already counted.
   */
  lemma StaleRowsExample(inst: Instrument, res: Results, rest: seq<byte>)
    ensures var s := W.Frame(W.Link([], W.IDLE, 0), RoundTrip.FrameBody(SW, [ID_NAME], [ONE_VALUE])).out[0..] + rest;
      LeftoverAsWritten(s, inst, res).numFields == 1
  {
    var s := W.Frame(W.Link([], W.IDLE, 0), RoundTrip.FrameBody(SW, [ID_NAME], [ONE_VALUE])).out[0..] + rest;
    ExampleField();
    RoundTrip.FrameReadBack(SW, [ID_NAME], [ONE_VALUE], [], 0, rest);
    assert DropJunk(s) == s;
    LeftoverAfterFailedParse(s, inst, res, FrameText(s));
  }
}
