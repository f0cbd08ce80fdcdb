/**
 * What the frame reader of XMLReader_v5.cpp consumes and what it makes of
 * it, as functions of the bytes still waiting in the receive stream.
 *
 * A frame on the wire is
 *
 *     <KIND>\n  \t<Name>Value</Name>\n ...  </KIND>\n  <CRC>ddddd</CRC>\n
 *
 * followed, for a TC frame, by `START`, the binary section, two CRC bytes
 * and `END`.  Each function below follows one method of the reader: it says
 * whether the method succeeds, what it stores, and which bytes are left in
 * the stream (`rest`).  Waiting for a byte until the deadline is modelled as
 * the stream running dry: a read that finds the stream empty fails.
 */
module ReaderSpec {
  import opened Ascii
  import opened Crc16
  import opened InstInfo
  import TelecommandSpec

  /** `MAX_MSG_FIELDS` (XMLReader_v5.h:26). */
  const MAX_MSG_FIELDS: nat := 10
  /** The size of `message_buff`, of a row of `fields` and of the closing-tag buffers (XMLReader_v5.h:157-158, XMLReader_v5.cpp:328, 344). */
  const ROW_SIZE: nat := 8
  /** The most value bytes a field may have: a row of `field_values` holds 16 bytes with the terminator (XMLReader_v5.h:159). */
  const VALUE_LIMIT: nat := 15
  /** The size of `crc_tag` (XMLReader_v5.cpp:385). */
  const CRC_TAG_SIZE: nat := 4
  /** The most digits of the CRC value: `crc_value` holds 6 bytes (XMLReader_v5.cpp:386). */
  const CRC_DIGIT_LIMIT: nat := 5

  /** The names `ParseMessage` requires of the first three fields. */
  const MSG_FIELD: seq<byte> := Bytes("Msg")
  const INST_FIELD: seq<byte> := Bytes("Inst")
  const MODE_FIELD: seq<byte> := Bytes("Mode")
  const ACK_FIELD: seq<byte> := Bytes("Ack")
  const LENGTH_FIELD: seq<byte> := Bytes("Length")

  /** `ZephyrMessage_t` (XMLReader_v5.h:37-48). */
  datatype ZephyrMessage = IM | SAck | SW | RAAck | TMAck | TC | GPS | NO_ZEPHYR_MSG | UNKNOWN

  /** `InstMode_t` (XMLReader_v5.h:51-58). */
  datatype InstMode = MODE_STANDBY | MODE_FLIGHT | MODE_LOWPOWER | MODE_SAFETY | MODE_EOF

  /** The integer part of `GPSData_t` (XMLReader_v5.h:60-74); the six float readings are kept as their texts. */
  datatype GpsData = GpsData(year: nat, month: nat, day: nat, hour: nat, minute: nat, second: nat, quality: nat,
                             readings: seq<seq<byte>>)

  predicate IsKind(m: ZephyrMessage)
  {
    m != NO_ZEPHYR_MSG && m != UNKNOWN
  }

  /** The tag text of each message kind (XMLReader_v5.h:29-35). */
  function KindName(m: ZephyrMessage): (t: seq<byte>)
    requires IsKind(m)
    ensures 2 <= |t| <= 5 && IsCString(t)
  {
    match m
    case IM => Bytes("IM")
    case SAck => Bytes("SAck")
    case SW => Bytes("SW")
    case RAAck => Bytes("RAAck")
    case TMAck => Bytes("TMAck")
    case TC => Bytes("TC")
    case GPS => Bytes("GPS")
  }

  /** The `strcmp` chain of `MessageTypeOpen` (XMLReader_v5.cpp:304-321). */
  function KindOf(tag: seq<byte>): (m: ZephyrMessage)
    ensures m != NO_ZEPHYR_MSG
    ensures IsKind(m) ==> KindName(m) == CView(tag)
  {
    var t := CView(tag);
    if t == Bytes("IM") then IM
    else if t == Bytes("SAck") then SAck
    else if t == Bytes("SW") then SW
    else if t == Bytes("RAAck") then RAAck
    else if t == Bytes("TMAck") then TMAck
    else if t == Bytes("TC") then TC
    else if t == Bytes("GPS") then GPS
    else UNKNOWN
  }

  /** `r` is what is left of `s` after some of its first bytes were read. */
  predicate SuffixOf(r: seq<byte>, s: seq<byte>)
  {
    |r| <= |s| && r == s[|s| - |r|..]
  }

  /** The bytes read from `s` when `r` is left. */
  function Consumed(s: seq<byte>, r: seq<byte>): (c: seq<byte>)
    requires |r| <= |s|
    ensures |c| == |s| - |r|
  {
    s[..|s| - |r|]
  }

  // ---------------------------------------------------------------------
  // Reading runs of bytes
  // ---------------------------------------------------------------------

  /**
   * The outcome of a read: whether it succeeded, the bytes it stored, and
   * what is left of the stream.
   */
  datatype Run = Run(ok: bool, text: seq<byte>, rest: seq<byte>)

  /** `ReadSpecificChar`: read one byte and check it. */
  function SpecificChar(s: seq<byte>, ch: byte): (r: Run)
    ensures |r.rest| <= |s| && r.text == []
    ensures r.ok <==> s != [] && s[0] == ch
    ensures r.rest == if s == [] then [] else s[1..]
  {
    if s == [] then Run(false, [], []) else Run(s[0] == ch, [], s[1..])
  }

  /**
   * The loop shared by the tag, value and CRC readers: store bytes until
   * `stop`, at most `limit` of them; when the limit is reached the next
   * byte must be `stop` (XMLReader_v5.cpp:506-524, 351-366, 394-409).
   */
  function Until(s: seq<byte>, limit: nat, stop: byte): (r: Run)
    ensures |r.text| <= limit && |r.rest| <= |s|
    decreases limit
  {
    if s == [] then Run(false, [], [])
    else if limit == 0 then Run(s[0] == stop, [], s[1..])
    else if s[0] == stop then Run(true, [], s[1..])
    else
      var r := Until(s[1..], limit - 1, stop);
      Run(r.ok, [s[0]] + r.text, r.rest)
  }

  /** A tag read: `started` when its lead byte matched, which is when the buffer is written. */
  datatype Tag = Tag(started: bool, ok: bool, text: seq<byte>, rest: seq<byte>)

  function LeadThen(s: seq<byte>, lead: byte, size: nat): (t: Tag)
    requires size >= 1
    ensures |t.rest| <= |s| && |t.text| <= size - 1 && (s != [] ==> |t.rest| < |s|)
    ensures t.started <==> s != [] && s[0] == lead
    ensures !t.started ==> !t.ok && t.text == []
  {
    if s == [] then Tag(false, false, [], [])
    else if s[0] != lead then Tag(false, false, [], s[1..])
    else
      var r := Until(s[1..], size - 1, GT);
      Tag(true, r.ok, r.text, r.rest)
  }

  /** `ReadOpeningTag(buffer, size)` (XMLReader_v5.cpp:498-525): `<`, at most `size - 1` bytes, `>`. */
  function OpeningTag(s: seq<byte>, size: nat): (t: Tag)
    requires size >= 1
    ensures |t.rest| <= |s| && |t.text| <= size - 1 && (s != [] ==> |t.rest| < |s|)
    ensures t.started <==> s != [] && s[0] == LT
    ensures !t.started ==> !t.ok && t.text == []
  {
    LeadThen(s, LT, size)
  }

  /** `ReadClosingTag(buffer, size)` (XMLReader_v5.cpp:529-556): `/`, at most `size - 1` bytes, `>`. */
  function ClosingTag(s: seq<byte>, size: nat): (t: Tag)
    requires size >= 1
    ensures |t.rest| <= |s| && |t.text| <= size - 1 && (s != [] ==> |t.rest| < |s|)
    ensures t.started <==> s != [] && s[0] == SLASH
    ensures !t.started ==> !t.ok && t.text == []
  {
    LeadThen(s, SLASH, size)
  }

  // ---------------------------------------------------------------------
  // Fields
  // ---------------------------------------------------------------------

  /** A field read: the name and value rows it wrote, if it got that far. */
  datatype FieldRead = FieldRead(ok: bool, name: Option<seq<byte>>, value: Option<seq<byte>>, rest: seq<byte>)

  /**
   * `ReadField` (XMLReader_v5.cpp:341-379), after the tab: `<Name>`, at
   * most 15 value bytes up to `<`, `/Name>` with the same name, then `\n`.
   * `rowSize` is the size passed for the name row.
   */
  function Field(s: seq<byte>, rowSize: nat): (f: FieldRead)
    requires rowSize >= 1
    ensures |f.rest| <= |s|
    ensures f.name.Some? ==> |f.name.value| <= rowSize - 1
    ensures f.value.Some? ==> f.name.Some? && |f.value.value| <= VALUE_LIMIT
    ensures f.ok ==> f.name.Some? && f.value.Some? && |f.rest| < |s|
  {
    var o := OpeningTag(s, rowSize);
    if !o.started then FieldRead(false, None, None, o.rest)
    else if !o.ok then FieldRead(false, Some(o.text), None, o.rest)
    else
      var v := FieldValue(o.rest, o.text);
      FieldRead(v.ok, Some(o.text), Some(v.text), v.rest)
  }

  /** The rest of a field after `<Name>`: the value up to `<`, then `/Name>` naming the same field, then `\n`. */
  function FieldValue(s: seq<byte>, name: seq<byte>): (v: Run)
    ensures |v.rest| <= |s| && |v.text| <= VALUE_LIMIT
  {
    var v := Until(s, VALUE_LIMIT, LT);
    if !v.ok then Run(false, v.text, v.rest)
    else
      var c := ClosingTag(v.rest, ROW_SIZE);
      if !c.ok || CView(c.text) != CView(name) then Run(false, v.text, c.rest)
      else
        var n := SpecificChar(c.rest, NEWLINE);
        Run(n.ok, v.text, n.rest)
  }

  /**
   * The fields of a frame: the name and value rows written, in order, and
   * how many fields were read whole.  When the loop fails, the last rows
   * may belong to the field that failed.
   */
  datatype FieldsRead = FieldsRead(ok: bool, names: seq<seq<byte>>, values: seq<seq<byte>>, whole: nat, rest: seq<byte>)

  /** The row an optional read wrote, if any. */
  function Written(row: Option<seq<byte>>): (r: seq<seq<byte>>)
    ensures |r| <= 1
  {
    if row.Some? then [row.value] else []
  }

  /**
   * The field loop of `GetNewMessage` (XMLReader_v5.cpp:86-99) with `count`
   * fields already stored: while a tab is next, consume it and read a field.
   * A tab that would start an eleventh field fails the frame.
   */
  function Fields(s: seq<byte>, count: nat): (r: FieldsRead)
    requires count <= MAX_MSG_FIELDS
    ensures |r.rest| <= |s|
    ensures r.whole <= |r.values| <= |r.names| <= r.whole + 1 && count + |r.names| <= MAX_MSG_FIELDS
    ensures r.ok ==> |r.names| == |r.values| == r.whole && (r.rest == [] || r.rest[0] != TAB)
    decreases |s|
  {
    if s == [] || s[0] != TAB then FieldsRead(true, [], [], 0, s)
    else if count >= MAX_MSG_FIELDS then FieldsRead(false, [], [], 0, s)
    else
      var f := Field(s[1..], ROW_SIZE);
      if !f.ok then FieldsRead(false, Written(f.name), Written(f.value), 0, f.rest)
      else
        var r := Fields(f.rest, count + 1);
        FieldsRead(r.ok, [f.name.value] + r.names, [f.value.value] + r.values, r.whole + 1, r.rest)
  }

  /** The fields `names` and `values` stored before the loop went on to read `r`. */
  function JoinFields(names: seq<seq<byte>>, values: seq<seq<byte>>, r: FieldsRead): (j: FieldsRead)
    ensures j.ok == r.ok && j.rest == r.rest && j.whole == |names| + r.whole
  {
    FieldsRead(r.ok, names + r.names, values + r.values, |names| + r.whole, r.rest)
  }

  /** The account the field loop keeps: the fields stored so far, and the rest of the loop from stream `r`. */
  ghost predicate FieldsAccount(s: seq<byte>, r: seq<byte>, names: seq<seq<byte>>, values: seq<seq<byte>>)
  {
    |names| == |values| <= MAX_MSG_FIELDS && JoinFields(names, values, Fields(r, |names|)) == Fields(s, 0)
  }

  lemma FieldsAccountStart(s: seq<byte>)
    ensures FieldsAccount(s, s, [], [])
  {
    var r := Fields(s, 0);
    EmptyAppend(r.names);
    EmptyAppend(r.values);
  }

  /** No tab next: the loop ends with the fields stored. */
  lemma FieldsAccountDone(s: seq<byte>, r: seq<byte>, names: seq<seq<byte>>, values: seq<seq<byte>>)
    requires FieldsAccount(s, r, names, values) && (r == [] || r[0] != TAB)
    ensures Fields(s, 0) == FieldsRead(true, names, values, |names|, r)
  {
    AppendEmpty(names);
    AppendEmpty(values);
  }

  /** A tab after ten fields fails the frame. */
  lemma FieldsAccountFull(s: seq<byte>, r: seq<byte>, names: seq<seq<byte>>, values: seq<seq<byte>>)
    requires FieldsAccount(s, r, names, values) && r != [] && r[0] == TAB && |names| >= MAX_MSG_FIELDS
    ensures Fields(s, 0) == FieldsRead(false, names, values, |names|, r)
  {
    AppendEmpty(names);
    AppendEmpty(values);
  }

  /** A field that fails ends the loop, with the rows it wrote. */
  lemma FieldsAccountFail(s: seq<byte>, r: seq<byte>, names: seq<seq<byte>>, values: seq<seq<byte>>, f: FieldRead)
    requires FieldsAccount(s, r, names, values) && r != [] && r[0] == TAB && |names| < MAX_MSG_FIELDS
    requires f == Field(r[1..], ROW_SIZE) && !f.ok
    ensures Fields(s, 0) == FieldsRead(false, names + Written(f.name), values + Written(f.value), |names|, f.rest)
  {
  }

  /** A field read whole is stored, and the loop goes on after it. */
  lemma FieldsAccountNext(s: seq<byte>, r: seq<byte>, names: seq<seq<byte>>, values: seq<seq<byte>>, f: FieldRead)
    requires FieldsAccount(s, r, names, values) && r != [] && r[0] == TAB && |names| < MAX_MSG_FIELDS
    requires f == Field(r[1..], ROW_SIZE) && f.ok
    ensures FieldsAccount(s, f.rest, names + [f.name.value], values + [f.value.value])
  {
    var t := Fields(f.rest, |names| + 1);
    FieldsUnfold(r, |names|, f);
    AppendCons(names, f.name.value, t.names);
    AppendCons(values, f.value.value, t.values);
    JoinNext(names, values, f.name.value, f.value.value, t);
  }

  lemma JoinNext(names: seq<seq<byte>>, values: seq<seq<byte>>, name: seq<byte>, value: seq<byte>, t: FieldsRead)
    requires names + ([name] + t.names) == (names + [name]) + t.names
    requires values + ([value] + t.values) == (values + [value]) + t.values
    ensures JoinFields(names, values, FieldsRead(t.ok, [name] + t.names, [value] + t.values, t.whole + 1, t.rest))
            == JoinFields(names + [name], values + [value], t)
  {
  }

  /** One turn of the field loop on a field read whole. */
  lemma FieldsUnfold(r: seq<byte>, count: nat, f: FieldRead)
    requires r != [] && r[0] == TAB && count < MAX_MSG_FIELDS
    requires f == Field(r[1..], ROW_SIZE) && f.ok
    ensures var t := Fields(f.rest, count + 1);
            Fields(r, count) == FieldsRead(t.ok, [f.name.value] + t.names, [f.value.value] + t.values, t.whole + 1, t.rest)
  {
  }

  /** Row `i` of a buffer whose first rows are `rows` and whose other rows were emptied by `ResetReader`. */
  function Row(rows: seq<seq<byte>>, i: nat): seq<byte>
  {
    if i < |rows| then rows[i] else []
  }

  /** A buffer of `MAX_MSG_FIELDS` rows, as `fields` and `field_values` are. */
  type RowBuffer = rows: seq<seq<byte>> | |rows| == MAX_MSG_FIELDS witness Rows([])

  /** The ten rows of a buffer holding `rows` first. */
  function Rows(rows: seq<seq<byte>>): (r: seq<seq<byte>>)
    ensures |r| == MAX_MSG_FIELDS && forall i | 0 <= i < MAX_MSG_FIELDS :: r[i] == Row(rows, i)
  {
    seq(MAX_MSG_FIELDS, i requires 0 <= i < MAX_MSG_FIELDS => Row(rows, i))
  }

  // ---------------------------------------------------------------------
  // The frame envelope
  // ---------------------------------------------------------------------

  /** The bytes `MessageTypeOpen` throws away, unread by the CRC, before the first `<`. */
  function DropJunk(s: seq<byte>): (r: seq<byte>)
    ensures |r| <= |s| && (r == [] || r[0] == LT)
    ensures forall i | 0 <= i < |s| - |r| :: s[i] != LT
  {
    if s == [] || s[0] == LT then s else DropJunk(s[1..])
  }

  /** The opening type tag: the message kind it names, if it got that far, and the raw tag text. */
  datatype Opened = Opened(ok: bool, message: Option<ZephyrMessage>, tag: seq<byte>, rest: seq<byte>)

  /**
   * `MessageTypeOpen` (XMLReader_v5.cpp:285-324) on the stream after the
   * junk: `<KIND>` and `\n`.  The kind is set, possibly to `UNKNOWN`, only
   * once the newline has been read.
   */
  function TypeOpen(s: seq<byte>): (o: Opened)
    requires s == [] || s[0] == LT
    ensures |o.rest| <= |s| && |o.tag| < ROW_SIZE
    ensures o.ok <==> o.message.Some? && IsKind(o.message.value)
    ensures o.message.Some? ==> o.message.value == KindOf(o.tag)
  {
    if s == [] then Opened(false, None, [], [])
    else
      var t := OpeningTag(s, ROW_SIZE);
      if !t.ok then Opened(false, None, t.text, t.rest)
      else
        var n := SpecificChar(t.rest, NEWLINE);
        if !n.ok then Opened(false, None, t.text, n.rest)
        else
          var k := KindOf(t.text);
          Opened(IsKind(k), Some(k), t.text, n.rest)
  }

  /** `MessageTypeClose` (XMLReader_v5.cpp:326-339): `</KIND>\n` naming the kind of the opening tag. */
  function TypeClose(s: seq<byte>, open: seq<byte>): (r: Run)
    ensures |r.rest| <= |s| && r.text == []
  {
    var a := SpecificChar(s, LT);
    if !a.ok then Run(false, [], a.rest)
    else
      var c := ClosingTag(a.rest, ROW_SIZE);
      if !c.ok then Run(false, [], c.rest)
      else
        var n := SpecificChar(c.rest, NEWLINE);
        if !n.ok then Run(false, [], n.rest)
        else
          Run(CView(c.text) == CView(open), [], n.rest)
  }

  /** The CRC tag: the value it carries and the rest of the stream before and after its optional newline. */
  datatype CrcRead = CrcRead(ok: bool, value: nat, folded: seq<byte>, rest: seq<byte>)

  /**
   * `ReadVerifyCRC` (XMLReader_v5.cpp:381-426): `<CRC>`, at most five
   * digits, `</CRC>`, a value of at most 65535, and an optional newline
   * that is read without touching the CRC.  The value is not compared with
   * the computed CRC: the method succeeds whatever it is.
   */
  function VerifyCrc(s: seq<byte>): (c: CrcRead)
    ensures |c.folded| <= |s| && |c.rest| <= |c.folded|
    ensures c.ok ==> c.value <= 0xFFFF
    ensures !c.ok ==> c.rest == c.folded
  {
    var d := CrcDigits(s);
    if !d.ok then CrcRead(false, 0, d.rest, d.rest)
    else
      match ScanUnsigned(CView(d.text))
      case None => CrcRead(false, 0, d.rest, d.rest)
      case Some(n) =>
        if n > 0xFFFF then CrcRead(false, 0, d.rest, d.rest)
        else if d.rest != [] && d.rest[0] == NEWLINE then CrcRead(true, n, d.rest, d.rest[1..])
        else CrcRead(true, n, d.rest, d.rest)
  }

  /** The tags of the CRC and the digits between them: `<CRC>`, at most five bytes up to `<`, `/CRC>`. */
  function CrcDigits(s: seq<byte>): (r: Run)
    ensures |r.rest| <= |s| && |r.text| <= CRC_DIGIT_LIMIT
  {
    var o := OpeningTag(s, CRC_TAG_SIZE);
    if !o.ok || CView(o.text) != Bytes("CRC") then Run(false, [], o.rest)
    else
      var v := Until(o.rest, CRC_DIGIT_LIMIT, LT);
      if !v.ok then Run(false, [], v.rest)
      else
        var t := ClosingTag(v.rest, CRC_TAG_SIZE);
        Run(t.ok && CView(t.text) == Bytes("CRC"), v.text, t.rest)
  }

  // ---------------------------------------------------------------------
  // Semantic parsing
  // ---------------------------------------------------------------------

  /** The message results a successful frame may set (XMLReader_v5.h:94-105). */
  datatype Results = Results(message: ZephyrMessage, messageId: nat, mode: InstMode, ack: bool, gps: GpsData, tcLength: nat)

  /** The mode code of an IM message (XMLReader_v5.cpp:162-174). */
  function ModeOf(v: seq<byte>): Option<InstMode>
  {
    var t := CView(v);
    if t == Bytes("SB") then Some(MODE_STANDBY)
    else if t == Bytes("FL") then Some(MODE_FLIGHT)
    else if t == Bytes("LP") then Some(MODE_LOWPOWER)
    else if t == Bytes("SA") then Some(MODE_SAFETY)
    else if t == Bytes("EF") then Some(MODE_EOF)
    else None
  }

  /** The ack code of an SAck, RAAck or TMAck message (XMLReader_v5.cpp:183-189). */
  function AckOf(v: seq<byte>): Option<bool>
  {
    var t := CView(v);
    if t == Bytes("ACK") then Some(true) else if t == Bytes("NAK") then Some(false) else None
  }

  /** The names `ParseGPSMessage` expects for fields 1 to 9 (XMLReader_v5.cpp:217-225). */
  function GpsName(i: nat): seq<byte>
    requires 1 <= i <= 9
  {
    if i == 1 then Bytes("Date") else if i == 2 then Bytes("Time") else if i == 3 then Bytes("Lon")
    else if i == 4 then Bytes("Lat") else if i == 5 then Bytes("Alt") else if i == 6 then Bytes("SZA")
    else if i == 7 then Bytes("VBAT") else if i == 8 then Bytes("Diff") else Bytes("Quality")
  }

  predicate GpsNamesMatch(names: seq<seq<byte>>)
    requires |names| == MAX_MSG_FIELDS
  {
    forall i | 1 <= i <= 9 :: CView(names[i]) == GpsName(i)
  }

  /**
   * `ParseGPSMessage` (XMLReader_v5.cpp:211-279) on the ten name and value
   * rows: the new GPS data, or `None` when the message is rejected and
   * `zephyr_gps` keeps its old value.
   */
  function ParseGps(names: seq<seq<byte>>, values: seq<seq<byte>>, old_gps: GpsData): (g: Option<GpsData>)
    requires |names| == MAX_MSG_FIELDS && |values| == MAX_MSG_FIELDS
    ensures g.Some? ==> GpsNamesMatch(names)
    ensures g.Some? ==> g.value.year <= 2050 && g.value.month <= 12 && g.value.day <= 31
                        && g.value.hour <= 23 && g.value.minute <= 59 && g.value.second <= 59
    ensures g.Some? ==> ScanUnsigned(CView(values[9])).Some? && ScanUnsigned(CView(values[9])).value != 0
                        && g.value.quality == ScanUnsigned(CView(values[9])).value % 256
  {
    if !GpsNamesMatch(names) then None
    else
      match ScanTriple(CView(values[1]), SLASH)
      case None => None
      case Some(date) =>
        if date.first > 2050 || date.second > 12 || date.third > 31 then None
        else
          match ScanTriple(CView(values[2]), COLON)
          case None => None
          case Some(time) =>
            if time.first > 23 || time.second > 59 || time.third > 59 then None
            else if !(forall i | 3 <= i <= 8 :: ScansFloat(CView(values[i]))) then None
            else
              match ScanUnsigned(CView(values[9]))
              case None => None
              case Some(q) =>
                if q == 0 then None
                else Some(GpsData(date.first, date.second, date.third, time.first, time.second, time.third, q % 256,
                                  [CView(values[3]), CView(values[4]), CView(values[5]),
                                   CView(values[6]), CView(values[8]), CView(values[7])]))
  }

  /**
   * `ParseMessage` (XMLReader_v5.cpp:139-208) on the ten name and value
   * rows of a frame of kind `message`: whether it succeeds, and the results
   * as it leaves them.  Results it sets before failing stay set.
   */
  function ParseMessage(names: seq<seq<byte>>, values: seq<seq<byte>>, inst: Instrument, res: Results): (r: (bool, Results))
    requires |names| == MAX_MSG_FIELDS && |values| == MAX_MSG_FIELDS
    ensures r.1.message == res.message
    ensures r.0 ==> CView(names[0]) == MSG_FIELD && ScanUnsigned(CView(values[0])).Some?
                    && r.1.messageId == ScanUnsigned(CView(values[0])).value <= 0xFFFF
    ensures r.0 && res.message != GPS ==> CView(names[1]) == INST_FIELD && CView(values[1]) == InstId(inst)
    ensures r.1.tcLength <= Max(res.tcLength, TelecommandSpec.MAX_TC_SIZE)
    ensures r.0 && res.message == TC ==> r.1.tcLength <= TelecommandSpec.MAX_TC_SIZE
  {
    if CView(names[0]) != MSG_FIELD then (false, res)
    else
      match ScanUnsigned(CView(values[0]))
      case None => (false, res)
      case Some(id) =>
        if id > 0xFFFF then (false, res)
        else
          var res := res.(messageId := id);
          if res.message == GPS then
            match ParseGps(names, values, res.gps)
            case None => (false, res)
            case Some(g) => (true, res.(gps := g))
          else if CView(names[1]) != INST_FIELD || CView(values[1]) != InstId(inst) then (false, res)
          else ParseKind(names[2], values[2], res)
  }

  /**
   * The `switch` of `ParseMessage` (XMLReader_v5.cpp:156-205) on the third
   * field, `name` and `value`: what each kind of message takes from it.
   */
  function ParseKind(name: seq<byte>, value: seq<byte>, res: Results): (r: (bool, Results))
    ensures r.1.message == res.message && r.1.messageId == res.messageId && r.1.gps == res.gps
    ensures r.1.tcLength <= Max(res.tcLength, TelecommandSpec.MAX_TC_SIZE)
    ensures r.0 && res.message == TC ==> r.1.tcLength <= TelecommandSpec.MAX_TC_SIZE
    ensures r.0 ==> res.message in {IM, SAck, RAAck, TMAck, SW, TC}
    ensures r.0 && res.message != SW ==> CView(name) == KindField(res.message)
  {
    if res.message == IM then
      if CView(name) != MODE_FIELD then (false, res)
      else
        match ModeOf(value)
        case None => (false, res)
        case Some(m) => (true, res.(mode := m))
    else if res.message == SAck || res.message == RAAck || res.message == TMAck then
      if CView(name) != ACK_FIELD then (false, res)
      else
        match AckOf(value)
        case None => (false, res)
        case Some(a) => (true, res.(ack := a))
    else if res.message == SW then (true, res)
    else if res.message == TC then
      if CView(name) != LENGTH_FIELD then (false, res)
      else
        match ScanUnsigned(CView(value))
        case None => (false, res)
        case Some(n) =>
          if n > TelecommandSpec.MAX_TC_SIZE then (false, res) else (true, res.(tcLength := n))
    else (false, res)
  }

  /** The name of the third field of each kind of message that has one. */
  function KindField(m: ZephyrMessage): seq<byte>
  {
    if m == IM then MODE_FIELD
    else if m == TC then LENGTH_FIELD
    else ACK_FIELD
  }

  /** The text of each mode code, as `ParseMessage` compares it (XMLReader_v5.cpp:162-174). */
  function ModeText(m: InstMode): seq<byte>
  {
    match m
    case MODE_STANDBY => Bytes("SB")
    case MODE_FLIGHT => Bytes("FL")
    case MODE_LOWPOWER => Bytes("LP")
    case MODE_SAFETY => Bytes("SA")
    case MODE_EOF => Bytes("EF")
  }

  /** The text of an ack (`ACK`) or a nak (`NAK`). */
  function AckText(a: bool): seq<byte>
  {
    if a then Bytes("ACK") else Bytes("NAK")
  }

  /** An IM message whose third row is `Mode` with a mode code sets exactly that mode. */
  lemma ParseModeOf(name: seq<byte>, value: seq<byte>, res: Results, m: InstMode)
    requires res.message == IM && CView(name) == MODE_FIELD && CView(value) == ModeText(m)
    ensures ParseKind(name, value, res) == (true, res.(mode := m))
  {
  }

  /** An ack message whose third row is `Ack` with `ACK` or `NAK` sets exactly that ack. */
  lemma ParseAckOf(name: seq<byte>, value: seq<byte>, res: Results, a: bool)
    requires res.message in {SAck, RAAck, TMAck} && CView(name) == ACK_FIELD && CView(value) == AckText(a)
    ensures ParseKind(name, value, res) == (true, res.(ack := a))
  {
  }

  /** A TC message whose third row is `Length` with the decimal text of a length in bounds sets exactly that length. */
  lemma ParseLengthOf(name: seq<byte>, value: seq<byte>, res: Results, n: nat)
    requires res.message == TC && CView(name) == LENGTH_FIELD && CView(value) == Decimal(n)
    requires n <= TelecommandSpec.MAX_TC_SIZE
    ensures ParseKind(name, value, res) == (true, res.(tcLength := n))
  {
    DecimalRoundTrip(n, []);
    assert Decimal(n) + [] == Decimal(n);
  }

  /**
   * A message other than GPS whose first rows are `Msg` with the decimal
   * text of an id of at most 0xFFFF and `Inst` with this instrument's name
   * parses as its third row says, with that id.
   */
  lemma ParseMessageOf(names: seq<seq<byte>>, values: seq<seq<byte>>, inst: Instrument, res: Results, id: nat)
    requires |names| == MAX_MSG_FIELDS && |values| == MAX_MSG_FIELDS
    requires CView(names[0]) == MSG_FIELD && CView(values[0]) == Decimal(id) && id <= 0xFFFF
    requires res.message != GPS && CView(names[1]) == INST_FIELD && CView(values[1]) == InstId(inst)
    ensures ParseMessage(names, values, inst, res) == ParseKind(names[2], values[2], res.(messageId := id))
  {
    DecimalRoundTrip(id, []);
    assert Decimal(id) + [] == Decimal(id);
  }

  /**
   * The ten rows of a GPS message: the expected names, a date and a time
   * in range written as `%u/%u/%u` and `%u:%u:%u`, six readings `%f`
   * converts and a non-zero quality.
   */
  predicate GpsRows(names: seq<seq<byte>>, values: seq<seq<byte>>, date: Triple, time: Triple, q: nat)
    requires |names| == MAX_MSG_FIELDS && |values| == MAX_MSG_FIELDS
  {
    && GpsNamesMatch(names)
    && date.first <= 2050 && date.second <= 12 && date.third <= 31
    && time.first <= 23 && time.second <= 59 && time.third <= 59
    && CView(values[1]) == TripleText(date, SLASH) && CView(values[2]) == TripleText(time, COLON)
    && (forall i | 3 <= i <= 8 :: ScansFloat(CView(values[i])))
    && CView(values[9]) == Decimal(q) && 0 < q <= UINT_MAX
  }

  /** Well-formed GPS rows parse to the date, the time, the quality modulo 256 and the readings they hold. */
  lemma ParseGpsOf(names: seq<seq<byte>>, values: seq<seq<byte>>, old_gps: GpsData, date: Triple, time: Triple, q: nat)
    requires |names| == MAX_MSG_FIELDS && |values| == MAX_MSG_FIELDS
    requires GpsRows(names, values, date, time, q)
    ensures ParseGps(names, values, old_gps)
            == Some(GpsData(date.first, date.second, date.third, time.first, time.second, time.third, q % 256,
                            [CView(values[3]), CView(values[4]), CView(values[5]),
                             CView(values[6]), CView(values[8]), CView(values[7])]))
  {
    TripleRoundTrip(date, SLASH);
    TripleRoundTrip(time, COLON);
    DecimalRoundTrip(q, []);
    assert Decimal(q) + [] == Decimal(q);
  }

  /** A GPS message whose first row is `Msg` with an id of at most 0xFFFF and whose other rows are well formed parses, with that id and its GPS data. */
  lemma ParseGpsMessageOf(names: seq<seq<byte>>, values: seq<seq<byte>>, inst: Instrument, res: Results, id: nat,
                          date: Triple, time: Triple, q: nat)
    requires |names| == MAX_MSG_FIELDS && |values| == MAX_MSG_FIELDS
    requires CView(names[0]) == MSG_FIELD && CView(values[0]) == Decimal(id) && id <= 0xFFFF
    requires res.message == GPS && GpsRows(names, values, date, time, q)
    ensures ParseGps(names, values, res.gps).Some? && ParseGps(names, values, res.gps).value.quality == q % 256
    ensures ParseMessage(names, values, inst, res)
            == (true, res.(messageId := id, gps := ParseGps(names, values, res.gps).value))
  {
    DecimalRoundTrip(id, []);
    assert Decimal(id) + [] == Decimal(id);
    ParseGpsOf(names, values, res.gps, date, time, q);
  }

  // ---------------------------------------------------------------------
  // The binary section
  // ---------------------------------------------------------------------

  /** `s` starts with the literal `lit`, byte for byte, as a run of `ReadSpecificChar` calls checks it. */
  function Literal(s: seq<byte>, lit: seq<byte>): (r: Run)
    ensures |r.rest| <= |s| && r.text == []
    decreases |lit|
  {
    if lit == [] then Run(true, [], s)
    else
      var c := SpecificChar(s, lit[0]);
      if !c.ok then Run(false, [], c.rest)
      else
        var r := Literal(c.rest, lit[1..]);
        Run(r.ok, [], r.rest)
  }

  /**
   * The binary section of a TC message: `started` once `START` has been
   * read, `data` the bytes stored in `tc_buffer`, and `crcBytes` the two
   * CRC bytes as the reader assembles them, first byte low.
   */
  datatype Binary = Binary(ok: bool, started: bool, data: seq<byte>, crcValue: nat, rest: seq<byte>)

  /** `ReadBinarySection` (XMLReader_v5.cpp:428-478). The CRC of the section is computed but not checked. */
  function BinarySection(s: seq<byte>, length: nat): (b: Binary)
    ensures |b.rest| <= |s|
    ensures !b.started ==> !b.ok && b.data == []
    ensures b.started ==> |b.data| <= length
    ensures b.ok ==> |b.data| == length && b.crcValue <= 0xFFFF
  {
    var st := Literal(s, Bytes("START"));
    if !st.ok then Binary(false, false, [], 0, st.rest)
    else
      var b := SectionBody(st.rest, length);
      b
  }

  /** The binary section after `START`: `length` bytes of data, two CRC bytes and `END`. */
  function SectionBody(s: seq<byte>, length: nat): (b: Binary)
    ensures |b.rest| <= |s| && b.started && |b.data| <= length
    ensures b.ok ==> |b.data| == length && b.crcValue <= 0xFFFF
  {
    if |s| < length then Binary(false, true, s, 0, [])
    else
      var t := SectionTail(s[length..]);
      Binary(t.ok, true, s[..length], t.value, t.rest)
  }

  /** The two CRC bytes after the data, and the value the reader assembles from them. */
  datatype CrcBytes = CrcBytes(ok: bool, value: nat, rest: seq<byte>)

  /** The end of the binary section: two CRC bytes, the first one low, then `END`. */
  function SectionTail(s: seq<byte>): (t: CrcBytes)
    ensures |t.rest| <= |s| && t.value <= 0xFFFF
  {
    if |s| < 2 then CrcBytes(false, 0, [])
    else
      var e := Literal(s[2..], Bytes("END"));
      CrcBytes(e.ok, s[0] as nat + s[1] as nat * 256, e.rest)
  }

  /** `tc_buffer` after `data` has been read into it, NUL-terminated when the whole section arrived. */
  function StoreSection(buf: seq<byte>, data: seq<byte>, terminated: bool): (r: seq<byte>)
    requires |data| < |buf|
    ensures |r| == |buf| && r[..|data|] == data && r[|data| + 1..] == buf[|data| + 1..]
    ensures r[|data|] == if terminated then NUL else buf[|data|]
  {
    data + [if terminated then NUL else buf[|data|]] + buf[|data| + 1..]
  }

  /**
   * The account of the copy loop of `ReadBinarySection`: the first `n`
   * bytes of `s` are in `buf` over `buf0`, counted and folded from a fresh
   * register, and `r` is what is left.
   */
  predicate Copied(s: seq<byte>, buf0: seq<byte>, n: nat, r: seq<byte>, buf: seq<byte>, numTcs: nat, reg: bv16)
  {
    n <= |s| && n < |buf0| && r == s[n..] && buf == StoreSection(buf0, s[..n], false)
    && numTcs == Count(SEMICOLON, s[..n]) % 256 && reg == Fold(CRC_POLY, s[..n])
  }

  lemma CopiedStart(s: seq<byte>, buf0: seq<byte>)
    requires |buf0| > 0
    ensures Copied(s, buf0, 0, s, buf0, 0, CRC_POLY)
  {
    assert s[..0] == [];
    assert StoreSection(buf0, [], false) == buf0;
  }

  /** One more byte copied. */
  lemma CopiedStep(s: seq<byte>, buf0: seq<byte>, n: nat, r: seq<byte>, buf: seq<byte>, numTcs: nat, reg: bv16)
    requires Copied(s, buf0, n, r, buf, numTcs, reg) && r != [] && n + 1 < |buf0|
    ensures Copied(s, buf0, n + 1, r[1..], buf[n := r[0]], if r[0] == SEMICOLON then (numTcs + 1) % 256 else numTcs,
                   Update(reg, r[0]))
  {
    var d := s[..n];
    assert s[..n + 1] == d + [r[0]];
    FoldSnoc(CRC_POLY, d, r[0]);
    CountAppend(SEMICOLON, d, [r[0]]);
    var a, b := buf[n := r[0]], StoreSection(buf0, d + [r[0]], false);
    assert |a| == |b|;
    forall i | 0 <= i < |a|
      ensures a[i] == b[i]
    {
      if i < n {
        assert a[i] == buf[..n][i];
      } else if i > n + 1 {
        assert a[i] == buf[n + 1..][i - n - 1];
        assert b[i] == b[n + 2..][i - n - 2];
      }
    }
  }

  /** The copy loop ends when the section is in or the stream is dry. */
  lemma CopiedEnd(s: seq<byte>, buf0: seq<byte>, n: nat, r: seq<byte>, buf: seq<byte>, numTcs: nat, reg: bv16, length: nat)
    requires Copied(s, buf0, n, r, buf, numTcs, reg) && n <= length && (n == length || r == [])
    ensures |s| < length ==> n == |s| && s[..n] == s && r == []
    ensures |s| >= length ==> n == length && s[..n] == s[..length] && r == s[length..]
  {
  }

  /** The terminator after a whole section. */
  lemma StoreTerminated(buf: seq<byte>, data: seq<byte>)
    requires |data| < |buf|
    ensures StoreSection(buf, data, false)[|data| := NUL] == StoreSection(buf, data, true)
  {
  }

  /** The telecommand fields after a binary section read, reset and counted once `START` has been seen. */
  function SectionState(t: TelecommandSpec.TcState, b: Binary): (r: TelecommandSpec.TcState)
    requires TelecommandSpec.Sized(t) && (b.started ==> |b.data| <= t.length)
    requires b.ok ==> b.started && |b.data| == t.length
    ensures TelecommandSpec.Sized(r) && r.length == t.length && (b.started ==> TelecommandSpec.Layout(r))
    ensures b.ok ==> TelecommandSpec.Terminated(r) && r.index == 0 && r.currTc == 0 && r.buffer[..t.length] == b.data
    ensures b.ok ==> r.numTcs == Count(SEMICOLON, b.data) % 256
  {
    if !b.started then t
    else
      t.(buffer := StoreSection(t.buffer, b.data, |b.data| == t.length), numTcs := Count(SEMICOLON, b.data) % 256, index := 0, currTc := 0)
  }

  // ---------------------------------------------------------------------
  // A whole message
  // ---------------------------------------------------------------------

  /** What one call of `GetNewMessage` does: its verdict, the results and telecommand fields it leaves, and the rest of the stream. */
  datatype Outcome = Outcome(ok: bool, res: Results, tc: TelecommandSpec.TcState, rest: seq<byte>,
                             names: seq<seq<byte>>, values: seq<seq<byte>>, closeCrc: bv16)

  /** The text part of a frame: from the first `<` through the newline after the closing type tag. */
  datatype Text = Text(ok: bool, message: Option<ZephyrMessage>, names: seq<seq<byte>>, values: seq<seq<byte>>, rest: seq<byte>)

  function FrameText(s: seq<byte>): (t: Text)
    requires s == [] || s[0] == LT
    ensures |t.rest| <= |s| && |t.names| == |t.values| <= MAX_MSG_FIELDS
    ensures t.ok ==> t.message.Some? && IsKind(t.message.value)
  {
    var o := TypeOpen(s);
    if !o.ok then Text(false, o.message, [], [], o.rest)
    else TextBody(o.message, o.tag, o.rest)
  }

  /** What reading the text after the opening tag `open` from `s` leaves: the verdict, the rest and the rows. */
  ghost predicate BodyRead(open: seq<byte>, s: seq<byte>, ok: bool, r: seq<byte>, names: seq<seq<byte>>, values: seq<seq<byte>>)
  {
    var t := TextBody(None, open, s);
    ok == t.ok && r == t.rest && (ok ==> names == Rows(t.names) && values == Rows(t.values))
  }

  /** The text part of a frame after its opening tag `open`, of kind `message`: the fields and the closing tag. */
  function TextBody(message: Option<ZephyrMessage>, open: seq<byte>, s: seq<byte>): (t: Text)
    ensures |t.rest| <= |s| && |t.names| == |t.values| <= MAX_MSG_FIELDS && t.message == message
  {
    var f := Fields(s, 0);
    if !f.ok then Text(false, message, [], [], f.rest)
    else
      var c := TypeClose(f.rest, open);
      Text(c.ok, message, f.names, f.values, c.rest)
  }

  /**
   * `GetNewMessage` (XMLReader_v5.cpp:73-133) on the stream `s`, for a
   * reader of `inst` in its reset state with results `res` and telecommand
   * fields `tc`.
   */
  function GetNewMessage(s: seq<byte>, inst: Instrument, res: Results, tc: TelecommandSpec.TcState): (o: Outcome)
    requires TelecommandSpec.Sized(tc) && res.tcLength == tc.length
    ensures TelecommandSpec.Sized(o.tc) && o.res.tcLength == o.tc.length
    ensures o.ok ==> IsKind(o.res.message)
  {
    var s0 := DropJunk(s);
    var t := FrameText(s0);
    var res1 := if t.message.Some? then res.(message := t.message.value) else res;
    if !t.ok then Outcome(false, res1, tc, t.rest, [], [], 0)
    else AfterText(t.rest, t.names, t.values, Fold(CRC_POLY, Consumed(s0, t.rest)), inst, res1, tc)
  }

  /** Results and telecommand fields a frame's text may leave: a known kind and `tc_length` in bounds. */
  ghost predicate Poised(res: Results, tc: TelecommandSpec.TcState)
  {
    var r := res;
    TelecommandSpec.Sized(tc) && tc.length == r.tcLength && IsKind(r.message)
  }

  /** Buffers of rows holding `names` and `values` first. */
  ghost predicate RowsHeld(names: seq<seq<byte>>, values: seq<seq<byte>>, fields: seq<seq<byte>>, fieldValues: seq<seq<byte>>)
  {
    (fields, fieldValues) == (Rows(names), Rows(values))
  }

  /** A read that ended in outcome `o`: its verdict, the rest of the stream, the results and the telecommand fields. */
  predicate Reached(o: Outcome, ok: bool, r: seq<byte>, res: Results, tc: TelecommandSpec.TcState)
  {
    var e := Outcome(ok, res, tc, r, o.names, o.values, o.closeCrc);
    e == o
  }

  /** `GetNewMessage` once the text part of a frame has been read: the CRC tag, the parse and the binary section. */
  function AfterText(s: seq<byte>, names: seq<seq<byte>>, values: seq<seq<byte>>, closeCrc: bv16, inst: Instrument,
                     res: Results, tc: TelecommandSpec.TcState): (o: Outcome)
    requires TelecommandSpec.Sized(tc) && res.tcLength == tc.length
    requires IsKind(res.message)
    ensures TelecommandSpec.Sized(o.tc) && o.res.tcLength == o.tc.length
    ensures o.closeCrc == closeCrc
    ensures o.ok ==> IsKind(o.res.message)
  {
    var c := VerifyCrc(s);
    if !c.ok then Outcome(false, res, tc, c.rest, [], [], closeCrc)
    else AfterCrc(c.rest, names, values, closeCrc, inst, res, tc)
  }

  /** `GetNewMessage` after a good CRC tag: the parse of the rows and what follows it. */
  function AfterCrc(s: seq<byte>, names: seq<seq<byte>>, values: seq<seq<byte>>, closeCrc: bv16, inst: Instrument,
                    res: Results, tc: TelecommandSpec.TcState): (o: Outcome)
    requires TelecommandSpec.Sized(tc) && res.tcLength == tc.length
    requires IsKind(res.message)
    ensures TelecommandSpec.Sized(o.tc) && o.res.tcLength == o.tc.length
    ensures o.closeCrc == closeCrc
    ensures o.ok ==> IsKind(o.res.message)
  {
    var p := ParseMessage(Rows(names), Rows(values), inst, res);
    AfterParse(p.0, p.1, s, names, values, closeCrc, tc.(length := p.1.tcLength))
  }

  /**
   * `GetNewMessage` once the message has been parsed into `res`, with
   * `tc_length` already set: a TC message goes on to its binary section.
   */
  function AfterParse(ok: bool, res: Results, s: seq<byte>, names: seq<seq<byte>>, values: seq<seq<byte>>, closeCrc: bv16,
                      tc: TelecommandSpec.TcState): (o: Outcome)
    requires TelecommandSpec.Sized(tc) && IsKind(res.message) && res.tcLength == tc.length
    ensures TelecommandSpec.Sized(o.tc) && o.res.tcLength == o.tc.length
    ensures o.closeCrc == closeCrc
    ensures o.ok ==> IsKind(o.res.message)
    ensures o.ok && o.res.message == TC ==> TelecommandSpec.Terminated(o.tc) && o.tc.index == 0 && o.tc.currTc == 0
  {
    if !ok then Outcome(false, res, tc, s, names, values, closeCrc)
    else if res.message != TC then Outcome(true, res, tc, s, names, values, closeCrc)
    else
      var b := BinarySection(s, res.tcLength);
      Outcome(b.ok, res, SectionState(tc, b), b.rest, names, values, closeCrc)
  }

  // ---------------------------------------------------------------------
  // Properties
  // ---------------------------------------------------------------------

  /** Suffixes compose. */
  lemma SuffixTrans(s: seq<byte>, r1: seq<byte>, r2: seq<byte>)
    requires SuffixOf(r1, s) && SuffixOf(r2, r1)
    ensures |r2| <= |s|
    ensures Consumed(s, r2) == Consumed(s, r1) + Consumed(r1, r2)
  {
    assert s == Consumed(s, r1) + r1;
    assert r1 == Consumed(r1, r2) + r2;
  }

  /** Two reads one after the other fold the bytes of both into the register. */
  lemma FoldTrans(reg: bv16, s: seq<byte>, r1: seq<byte>, r2: seq<byte>)
    requires SuffixOf(r1, s) && SuffixOf(r2, r1)
    ensures |r2| <= |s|
    ensures Fold(Fold(reg, Consumed(s, r1)), Consumed(r1, r2)) == Fold(reg, Consumed(s, r2))
  {
    SuffixTrans(s, r1, r2);
    FoldAppend(reg, Consumed(s, r1), Consumed(r1, r2));
  }

  /**
   * The account every read keeps: from stream `s` and register `reg`, the
   * bytes read so far leave `r` in the stream and `reg2` in the register.
   */
  predicate ReadFrom(s: seq<byte>, reg: bv16, r: seq<byte>, reg2: bv16)
  {
    SuffixOf(r, s) && reg2 == Fold(reg, Consumed(s, r))
  }

  /** Two reads one after the other. */
  lemma ReadChain(s: seq<byte>, reg: bv16, s1: seq<byte>, reg1: bv16, r: seq<byte>, reg2: bv16)
    requires ReadFrom(s, reg, s1, reg1) && ReadFrom(s1, reg1, r, reg2)
    ensures ReadFrom(s, reg, r, reg2)
  {
    FoldTrans(reg, s, s1, r);
    assert r == s[|s| - |r|..];
  }

  /** The junk `MessageTypeOpen` throws away is a prefix of the stream. */
  lemma {:induction false} DropJunkSuffix(s: seq<byte>)
    ensures SuffixOf(DropJunk(s), s)
  {
    if s != [] && s[0] != LT {
      DropJunkSuffix(s[1..]);
    }
  }

  /** A buffer of rows after an optional read wrote row `i`. */
  function Store(rows: seq<seq<byte>>, i: nat, row: Option<seq<byte>>): (r: seq<seq<byte>>)
    requires i < |rows|
    ensures |r| == |rows| && r[..i] == rows[..i] && r[i + 1..] == rows[i + 1..]
    ensures r[i] == if row.Some? then row.value else rows[i]
  {
    if row.Some? then rows[i := row.value] else rows
  }

  /** Writing the row after the first `|rows|` adds it to them. */
  lemma RowsStore(rows: seq<seq<byte>>, row: Option<seq<byte>>)
    requires |rows| < MAX_MSG_FIELDS
    ensures Store(Rows(rows), |rows|, row) == Rows(rows + Written(row))
  {
    var a, b := Store(Rows(rows), |rows|, row), Rows(rows + Written(row));
    forall i | 0 <= i < MAX_MSG_FIELDS
      ensures a[i] == b[i]
    {
      if i < |rows| {
        assert a[..|rows|][i] == a[i];
      } else if i > |rows| {
        assert a[|rows| + 1..][i - |rows| - 1] == a[i];
      }
    }
  }

  /** A run read after `text` has already been stored. */
  function Prefixed(text: seq<byte>, r: Run): (p: Run)
    ensures p.ok == r.ok && p.rest == r.rest && |p.text| == |text| + |r.text|
  {
    Run(r.ok, text + r.text, r.rest)
  }

  /** One turn of the loop of `Until`: a byte that is not `stop`, within the limit, is stored. */
  lemma UntilStep(text: seq<byte>, s: seq<byte>, limit: nat, stop: byte)
    requires s != [] && limit > 0 && s[0] != stop
    ensures Prefixed(text, Until(s, limit, stop)) == Prefixed(text + [s[0]], Until(s[1..], limit - 1, stop))
  {
    var r := Until(s[1..], limit - 1, stop);
    assert text + ([s[0]] + r.text) == (text + [s[0]]) + r.text;
  }

  /**
   * The account the loop of `Until` keeps: `text` stored so far, `r` left,
   * and whether the stop byte has been read.
   */
  predicate UntilAccount(s: seq<byte>, limit: nat, stop: byte, r: seq<byte>, text: seq<byte>, found: bool)
  {
    |text| <= limit
    && (if found then Run(true, text, r) else Prefixed(text, Until(r, limit - |text|, stop))) == Until(s, limit, stop)
  }

  /** The loop reads one more byte: the stop byte ends it, any other is stored. */
  lemma UntilAccountStep(s: seq<byte>, limit: nat, stop: byte, r: seq<byte>, text: seq<byte>)
    requires UntilAccount(s, limit, stop, r, text, false) && r != [] && |text| < limit
    ensures r[0] == stop ==> UntilAccount(s, limit, stop, r[1..], text, true)
    ensures r[0] != stop ==> UntilAccount(s, limit, stop, r[1..], text + [r[0]], false)
  {
    if r[0] != stop {
      UntilStep(text, r, limit - |text|, stop);
    }
  }

  /** The loop ran out of room or of bytes: the stop byte must come next. */
  lemma UntilAccountEnd(s: seq<byte>, limit: nat, stop: byte, r: seq<byte>, text: seq<byte>)
    requires UntilAccount(s, limit, stop, r, text, false) && (|text| == limit || r == [])
    ensures var c := SpecificChar(r, stop); Until(s, limit, stop) == Run(c.ok, text, c.rest)
  {
    AppendEmpty(text);
  }

  /** Reading the first byte of what is left moves the stream on by one byte and folds that byte into the register. */
  lemma ReadStep(reg: bv16, s: seq<byte>, r: seq<byte>)
    requires SuffixOf(r, s) && r != []
    ensures SuffixOf(r[1..], s)
    ensures Fold(reg, Consumed(s, r[1..])) == Update(Fold(reg, Consumed(s, r)), r[0])
  {
    assert Consumed(s, r[1..]) == Consumed(s, r) + [r[0]];
    FoldSnoc(reg, Consumed(s, r), r[0]);
  }

  /** Nothing read yet. */
  lemma ReadNone(reg: bv16, s: seq<byte>)
    ensures SuffixOf(s, s) && Fold(reg, Consumed(s, s)) == reg
  {
    assert Consumed(s, s) == [];
  }

  /** The loop of `Until` reads back any text free of the stop byte and within the limit. */
  lemma {:induction false} UntilOf(text: seq<byte>, limit: nat, stop: byte, rest: seq<byte>)
    requires |text| <= limit && stop !in text
    ensures Until(text + [stop] + rest, limit, stop) == Run(true, text, rest)
    decreases limit
  {
    var s := text + [stop] + rest;
    if text != [] {
      assert s[1..] == text[1..] + [stop] + rest;
      UntilOf(text[1..], limit - 1, stop, rest);
      assert [text[0]] + text[1..] == text;
    }
  }

  /** A tag of at most `size - 1` bytes without `>` is read back whole. */
  lemma LeadThenOf(lead: byte, name: seq<byte>, size: nat, rest: seq<byte>)
    requires 1 <= size && |name| <= size - 1 && GT !in name
    ensures LeadThen([lead] + name + [GT] + rest, lead, size) == Tag(true, true, name, rest)
  {
    var s := [lead] + name + [GT] + rest;
    assert s[1..] == name + [GT] + rest;
    UntilOf(name, size - 1, GT, rest);
  }

  /** The bytes `\t<Name>Value</Name>\n` with which a field is written. */
  function FieldBytes(name: seq<byte>, value: seq<byte>): seq<byte>
  {
    [TAB] + FieldBody(name, value)
  }

  /** A field after its tab: `<Name>Value</Name>\n`. */
  function FieldBody(name: seq<byte>, value: seq<byte>): seq<byte>
  {
    [LT] + name + [GT] + value + [LT, SLASH] + name + [GT, NEWLINE]
  }

  /** A field the reader can take back: a C-string name of at most 7 bytes without `>`, and a value of at most 15 bytes without `<`. */
  predicate Readable(name: seq<byte>, value: seq<byte>)
  {
    |name| < ROW_SIZE && GT !in name && IsCString(name) && |value| <= VALUE_LIMIT && LT !in value
  }

  /** Every field of a run is `Readable`. */
  predicate AllReadable(names: seq<seq<byte>>, values: seq<seq<byte>>)
    requires |names| == |values|
  {
    names == [] || (Readable(names[0], values[0]) && AllReadable(names[1..], values[1..]))
  }

  /** `ReadField` reads back the name and the value of a field as the writer emits it. */
  lemma FieldOf(name: seq<byte>, value: seq<byte>, rest: seq<byte>, s: seq<byte>)
    requires Readable(name, value) && s == FieldBody(name, value) + rest
    ensures Field(s, ROW_SIZE) == FieldRead(true, Some(name), Some(value), rest)
  {
    var s3 := [NEWLINE] + rest;
    var s2 := [SLASH] + name + [GT] + s3;
    var s1 := value + [LT] + s2;
    FieldSplit(name, value, rest, s, s1, s2, s3);
    LeadThenOf(LT, name, ROW_SIZE, s1);
    UntilOf(value, VALUE_LIMIT, LT, s2);
    LeadThenOf(SLASH, name, ROW_SIZE, s3);
    assert OpeningTag(s, ROW_SIZE) == Tag(true, true, name, s1);
    assert Until(s1, VALUE_LIMIT, LT) == Run(true, value, s2);
    assert ClosingTag(s2, ROW_SIZE) == Tag(true, true, name, s3);
    assert SpecificChar(s3, NEWLINE) == Run(true, [], rest);
  }

  /** How the bytes of a field fall into its tags, value and newline. */
  lemma FieldSplit(name: seq<byte>, value: seq<byte>, rest: seq<byte>, s: seq<byte>, s1: seq<byte>, s2: seq<byte>, s3: seq<byte>)
    requires s == FieldBody(name, value) + rest
    requires s3 == [NEWLINE] + rest && s2 == [SLASH] + name + [GT] + s3 && s1 == value + [LT] + s2
    ensures s == [LT] + name + [GT] + s1
  {
  }

  /** The bytes of a run of fields. */
  function FieldsBytes(names: seq<seq<byte>>, values: seq<seq<byte>>): seq<byte>
    requires |names| == |values|
  {
    if names == [] then [] else FieldBytes(names[0], values[0]) + FieldsBytes(names[1..], values[1..])
  }

  /** A run of fields starts with a tab and the bytes of its first field. */
  lemma FieldsSplit(names: seq<seq<byte>>, values: seq<seq<byte>>, rest: seq<byte>, s: seq<byte>, tail: seq<byte>)
    requires |names| == |values| && names != []
    requires s == FieldsBytes(names, values) + rest && tail == FieldsBytes(names[1..], values[1..]) + rest
    ensures s != [] && s[0] == TAB && s[1..] == FieldBody(names[0], values[0]) + tail
  {
    ConsSplit(TAB, FieldBody(names[0], values[0]), FieldsBytes(names[1..], values[1..]), rest, s);
  }

  lemma ConsSplit(t: byte, body: seq<byte>, x: seq<byte>, rest: seq<byte>, s: seq<byte>)
    requires s == ([t] + body) + x + rest
    ensures s != [] && s[0] == t && s[1..] == body + (x + rest)
  {
    assert s == [t] + (body + (x + rest));
  }

  /** The field loop reads back up to ten fields as the writer emits them. */
  lemma {:induction false} FieldsOf(names: seq<seq<byte>>, values: seq<seq<byte>>, count: nat, rest: seq<byte>)
    requires |names| == |values| && count + |names| <= MAX_MSG_FIELDS
    requires AllReadable(names, values)
    requires rest == [] || rest[0] != TAB
    ensures Fields(FieldsBytes(names, values) + rest, count) == FieldsRead(true, names, values, |names|, rest)
    decreases |names|, 1
  {
    if names == [] {
      FieldsOfNone(names, values, count, rest);
    } else {
      FieldsOfCons(names, values, count, rest, FieldsBytes(names, values) + rest, FieldsBytes(names[1..], values[1..]) + rest);
    }
  }

  lemma FieldsOfNone(names: seq<seq<byte>>, values: seq<seq<byte>>, count: nat, rest: seq<byte>)
    requires names == [] && values == [] && count <= MAX_MSG_FIELDS && (rest == [] || rest[0] != TAB)
    ensures Fields(FieldsBytes(names, values) + rest, count) == FieldsRead(true, names, values, 0, rest)
  {
    assert FieldsBytes(names, values) + rest == rest;
  }

  lemma {:induction false} FieldsOfCons(names: seq<seq<byte>>, values: seq<seq<byte>>, count: nat, rest: seq<byte>, s: seq<byte>, tail: seq<byte>)
    requires |names| == |values| && names != [] && count + |names| <= MAX_MSG_FIELDS && AllReadable(names, values)
    requires rest == [] || rest[0] != TAB
    requires s == FieldsBytes(names, values) + rest && tail == FieldsBytes(names[1..], values[1..]) + rest
    ensures Fields(s, count) == FieldsRead(true, names, values, |names|, rest)
    decreases |names|, 0
  {
    FieldsOf(names[1..], values[1..], count + 1, rest);
    FirstField(names, values, rest, s, tail);
    FieldsCons(true, names, values, count, rest, s, tail);
  }

  /** The first field of a run is read back whole. */
  lemma FirstField(names: seq<seq<byte>>, values: seq<seq<byte>>, rest: seq<byte>, s: seq<byte>, tail: seq<byte>)
    requires |names| == |values| && names != [] && Readable(names[0], values[0])
    requires s == FieldsBytes(names, values) + rest && tail == FieldsBytes(names[1..], values[1..]) + rest
    ensures s != [] && s[0] == TAB && Field(s[1..], ROW_SIZE) == FieldRead(true, Some(names[0]), Some(values[0]), tail)
  {
    FieldsSplit(names, values, rest, s, tail);
    FieldOf(names[0], values[0], tail, s[1..]);
  }

  /** One turn of the field loop, when a field is read whole. */
  lemma FieldsCons(ok: bool, names: seq<seq<byte>>, values: seq<seq<byte>>, count: nat, rest: seq<byte>, s: seq<byte>, tail: seq<byte>)
    requires |names| == |values| && names != [] && count < MAX_MSG_FIELDS
    requires s != [] && s[0] == TAB && Field(s[1..], ROW_SIZE) == FieldRead(true, Some(names[0]), Some(values[0]), tail)
    requires Fields(tail, count + 1) == FieldsRead(ok, names[1..], values[1..], |names| - 1, rest)
    ensures Fields(s, count) == FieldsRead(ok, names, values, |names|, rest)
  {
    HeadTail(names);
    HeadTail(values);
  }

  /**
   * The field loop fails a frame at the tab of an eleventh field, having
   * stored the fields that fill the rows.
   */
  lemma TooManyFieldsRejected(names: seq<seq<byte>>, values: seq<seq<byte>>, count: nat, rest: seq<byte>)
    requires |names| == |values| && AllReadable(names, values)
    requires count <= MAX_MSG_FIELDS < count + |names|
    ensures var k := MAX_MSG_FIELDS - count;
      Fields(FieldsBytes(names, values) + rest, count)
      == FieldsRead(false, names[..k], values[..k], k, FieldsBytes(names[k..], values[k..]) + rest)
  {
    var k := MAX_MSG_FIELDS - count;
    var front := FieldsBytes(names[..k], values[..k]);
    var back := FieldsBytes(names[k..], values[k..]);
    var x := back + rest;
    FieldsBytesSplit(names, values, k);
    AppendAssoc(front, back, rest);
    assert FieldsBytes(names, values) + rest == front + x;
    ReadablePrefix(names, values, k);
    FieldsStartWithTab(names[k..], values[k..], rest);
    FieldsFull(names[..k], values[..k], count, x);
  }

  /** A nonempty run of fields starts with the tab of its first field. */
  lemma FieldsStartWithTab(names: seq<seq<byte>>, values: seq<seq<byte>>, rest: seq<byte>)
    requires |names| == |values| && names != []
    ensures FieldsBytes(names, values) + rest != [] && (FieldsBytes(names, values) + rest)[0] == TAB
  {
    FieldsSplit(names, values, rest, FieldsBytes(names, values) + rest, FieldsBytes(names[1..], values[1..]) + rest);
  }

  /**
   * The field loop over readable fields that take the last free rows, followed
   * by the tab of one more field: the fields are stored and the frame fails.
   */
  lemma {:induction false} FieldsFull(names: seq<seq<byte>>, values: seq<seq<byte>>, count: nat, x: seq<byte>)
    requires |names| == |values| && count + |names| == MAX_MSG_FIELDS
    requires AllReadable(names, values)
    requires x != [] && x[0] == TAB
    ensures Fields(FieldsBytes(names, values) + x, count) == FieldsRead(false, names, values, |names|, x)
    decreases |names|, 1
  {
    if names == [] {
      FieldsFullNone(names, values, count, x);
    } else {
      FieldsFullCons(names, values, count, x, FieldsBytes(names, values) + x, FieldsBytes(names[1..], values[1..]) + x);
    }
  }

  lemma FieldsFullNone(names: seq<seq<byte>>, values: seq<seq<byte>>, count: nat, x: seq<byte>)
    requires names == [] && values == [] && count == MAX_MSG_FIELDS && x != [] && x[0] == TAB
    ensures Fields(FieldsBytes(names, values) + x, count) == FieldsRead(false, names, values, 0, x)
  {
    assert FieldsBytes(names, values) + x == x;
  }

  lemma {:induction false} FieldsFullCons(names: seq<seq<byte>>, values: seq<seq<byte>>, count: nat, x: seq<byte>, s: seq<byte>, tail: seq<byte>)
    requires |names| == |values| && names != [] && count + |names| == MAX_MSG_FIELDS && AllReadable(names, values)
    requires x != [] && x[0] == TAB
    requires s == FieldsBytes(names, values) + x && tail == FieldsBytes(names[1..], values[1..]) + x
    ensures Fields(s, count) == FieldsRead(false, names, values, |names|, x)
    decreases |names|, 0
  {
    FieldsFull(names[1..], values[1..], count + 1, x);
    FirstField(names, values, x, s, tail);
    FieldsCons(false, names, values, count, x, s, tail);
  }

  /** The bytes of a run of fields are those of its first `k` fields, then those of the others. */
  lemma {:induction false} FieldsBytesSplit(names: seq<seq<byte>>, values: seq<seq<byte>>, k: nat)
    requires |names| == |values| && k <= |names|
    ensures FieldsBytes(names, values) == FieldsBytes(names[..k], values[..k]) + FieldsBytes(names[k..], values[k..])
    decreases k
  {
    if k == 0 {
      assert names[..0] == [] && values[..0] == [] && names[0..] == names && values[0..] == values;
    } else {
      FieldsBytesSplit(names[1..], values[1..], k - 1);
      SliceCons(names, k);
      SliceCons(values, k);
      assert names[..k][1..] == names[1..][..k - 1] && values[..k][1..] == values[1..][..k - 1];
    }
  }

  /** The first `k` of a run of readable fields are readable. */
  lemma {:induction false} ReadablePrefix(names: seq<seq<byte>>, values: seq<seq<byte>>, k: nat)
    requires |names| == |values| && k <= |names| && AllReadable(names, values)
    ensures AllReadable(names[..k], values[..k])
    decreases k
  {
    if k > 0 {
      ReadablePrefix(names[1..], values[1..], k - 1);
      assert names[..k][1..] == names[1..][..k - 1] && values[..k][1..] == values[1..][..k - 1];
    }
  }

  /** The first `k` items are the head and the first `k - 1` of the tail. */
  lemma SliceCons<T>(xs: seq<T>, k: nat)
    requires 0 < k <= |xs|
    ensures [xs[0]] + xs[1..][..k - 1] == xs[..k] && xs[1..][k - 1..] == xs[k..]
  {
    assert [xs[0]] + xs[1..][..k - 1] == xs[..k];
  }

}
