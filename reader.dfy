/**
 * The XML frame reader of XMLReader_v5.cpp as a class.
 *
 * The receive stream is the field `rx`: the bytes that have arrived and not
 * yet been read.  Waiting on `millis()` for a byte that never comes is
 * modelled as `rx` running dry.  Every byte taken with `ReadNextChar` is
 * folded into `workingCrc`; the junk before a frame and the newline after
 * the CRC tag are taken without it.  Each method is proved against the
 * function of `ReaderSpec` that describes it, with the account
 * `ReadFrom(old(rx), old(workingCrc), rx, workingCrc)` of what it read.
 */
module Reader {
  import opened Ascii
  import opened Crc16
  import opened InstInfo
  import opened TelecommandSpec
  import opened ReaderSpec
  import Telecommand

  class XmlReader {
    /** The bytes waiting in `rx_stream`. */
    var rx: seq<byte>
    /** `instrument`: whose `Inst` field the reader accepts. */
    const instrument: Instrument
    /** `working_crc` and `crc_result`. */
    var workingCrc: bv16
    var crcResult: bv16
    /** `message_buff`, `fields`, `field_values` and `num_fields`: each row holds the text last stored in it. */
    var messageBuff: seq<byte>
    var fields: RowBuffer
    var fieldValues: RowBuffer
    var numFields: nat
    /** The message results. */
    var zephyrMessage: ZephyrMessage
    var messageId: nat
    var zephyrMode: InstMode
    var zephyrAck: bool
    var zephyrGps: GpsData
    /** `tc_buffer`, `tc_length`, `num_tcs`, `curr_tc` and `tc_index`. */
    const tc: Telecommand.TelecommandBuffer

    /** The results a caller of `GetNewMessage` reads. */
    function Results(): ReaderSpec.Results
      reads this`zephyrMessage, this`messageId, this`zephyrMode, this`zephyrAck, this`zephyrGps, tc`length
    {
      ReaderSpec.Results(zephyrMessage, messageId, zephyrMode, zephyrAck, zephyrGps, tc.length)
    }

    /** The buffers within their declared sizes. */
    ghost predicate Shaped()
      reads this, tc
    {
      numFields <= MAX_MSG_FIELDS && Sized(tc.State())
    }

    /** The state `ResetReader` leaves: the register seeded, every buffer an empty string. */
    ghost predicate Valid()
      reads this, tc
    {
      Shaped() && workingCrc == CRC_POLY && crcResult == 0 && numFields == 0 && messageBuff == []
      && fields == Rows([]) && fieldValues == Rows([])
    }

    /**
     * The constructor (XMLReader_v5.cpp:27-31), corrected to reset the
     * reader so that the first frame's CRC starts from `crc_poly`.
     */
    constructor (stream: seq<byte>, inst: Instrument)
      ensures Valid() && fresh(tc)
      ensures rx == stream && instrument == inst
      ensures zephyrMessage == NO_ZEPHYR_MSG && messageId == 0 && zephyrMode == MODE_STANDBY && !zephyrAck
      ensures zephyrGps == GpsData(0, 0, 0, 0, 0, 0, 0, [])
      ensures tc.State() == TcState(seq(MAX_TC_SIZE + 1, i => NUL), 0, 0, 0, 0)
    {
      rx := stream;
      instrument := inst;
      workingCrc, crcResult := 0, 0;
      messageBuff := [];
      fields := seq(MAX_MSG_FIELDS, i => []);
      fieldValues := seq(MAX_MSG_FIELDS, i => []);
      numFields := 0;
      zephyrMessage, messageId, zephyrMode, zephyrAck := NO_ZEPHYR_MSG, 0, MODE_STANDBY, false;
      zephyrGps := GpsData(0, 0, 0, 0, 0, 0, 0, []);
      tc := new Telecommand.TelecommandBuffer();
      new;
      ResetReader();
    }

    /** `ReadNextChar` (XMLReader_v5.cpp:34-57): take a byte and fold it into the register. */
    method ReadNextChar() returns (ok: bool, ch: byte)
      modifies this`rx, this`workingCrc
      ensures ok <==> old(rx) != []
      ensures ok ==> ch == old(rx)[0] && rx == old(rx)[1..] && workingCrc == Update(old(workingCrc), ch)
      ensures !ok ==> rx == old(rx) && workingCrc == old(workingCrc)
      ensures ReadFrom(old(rx), old(workingCrc), rx, workingCrc)
    {
      ReadNone(workingCrc, rx);
      if rx == [] {
        return false, NUL;
      }
      ReadStep(workingCrc, rx, rx);
      ok, ch := true, rx[0];
      rx := rx[1..];
      workingCrc := Update(workingCrc, ch);
    }

    /** `ResetReader` (XMLReader_v5.cpp:59-71). */
    method ResetReader()
      modifies this`workingCrc, this`crcResult, this`numFields, this`messageBuff, this`fields, this`fieldValues
      ensures workingCrc == CRC_POLY && crcResult == 0 && numFields == 0 && messageBuff == []
      ensures fields == Rows([]) && fieldValues == Rows([])
    {
      workingCrc := CRC_POLY;
      crcResult := 0;
      numFields := 0;
      messageBuff := [];
      for i := 0 to MAX_MSG_FIELDS
        invariant workingCrc == CRC_POLY && crcResult == 0 && numFields == 0 && messageBuff == []
        invariant forall j | 0 <= j < i :: fields[j] == [] && fieldValues[j] == []
      {
        fields := fields[i := []];
        fieldValues := fieldValues[i := []];
      }
    }

    /** `ReadSpecificChar` (XMLReader_v5.cpp:485-496). */
    method ReadSpecificChar(ch: byte) returns (ok: bool)
      modifies this`rx, this`workingCrc
      ensures Run(ok, [], rx) == SpecificChar(old(rx), ch)
      ensures ReadFrom(old(rx), old(workingCrc), rx, workingCrc)
    {
      var got, c := ReadNextChar();
      ok := got && c == ch;
    }

    /**
     * The loop the tag, value and CRC readers share: store bytes until
     * `stop`, at most `limit` of them, and when the loop ends on anything
     * but `stop`, read `stop` next (XMLReader_v5.cpp:506-524, 351-366,
     * 394-409).  The readers always stop at `<` or `>`.
     */
    method ReadUntil(limit: nat, stop: byte) returns (ok: bool, text: seq<byte>)
      requires stop != NUL
      modifies this`rx, this`workingCrc
      ensures Run(ok, text, rx) == Until(old(rx), limit, stop)
      ensures ReadFrom(old(rx), old(workingCrc), rx, workingCrc)
    {
      ghost var s0, reg0 := rx, workingCrc;
      ReadNone(reg0, s0);
      text := [];
      var newChar := NUL;
      var timedOut := false;
      while |text| < limit && !timedOut && newChar != stop
        invariant ReadFrom(s0, reg0, rx, workingCrc)
        invariant UntilAccount(s0, limit, stop, rx, text, newChar == stop)
        invariant timedOut ==> rx == [] && newChar != stop
        decreases |rx|, !timedOut
      {
        ghost var before, regBefore := rx, workingCrc;
        var got, ch := ReadNextChar();
        ReadChain(s0, reg0, before, regBefore, rx, workingCrc);
        if !got {
          timedOut := true;
        } else {
          UntilAccountStep(s0, limit, stop, before, text);
          newChar := ch;
          if ch != stop {
            text := text + [ch];
          }
        }
      }
      if newChar == stop {
        ok := true;
      } else {
        UntilAccountEnd(s0, limit, stop, rx, text);
        ghost var before, regBefore := rx, workingCrc;
        ok := ReadSpecificChar(stop);
        ReadChain(s0, reg0, before, regBefore, rx, workingCrc);
      }
    }

    /** `ReadOpeningTag` and `ReadClosingTag`: the lead byte, then the tag text up to `>`. */
    method ReadTag(lead: byte, size: nat) returns (started: bool, ok: bool, text: seq<byte>)
      requires size >= 1
      modifies this`rx, this`workingCrc
      ensures Tag(started, ok, text, rx) == LeadThen(old(rx), lead, size)
      ensures ReadFrom(old(rx), old(workingCrc), rx, workingCrc)
    {
      ghost var s0, reg0 := rx, workingCrc;
      started := ReadSpecificChar(lead);
      if !started {
        return false, false, [];
      }
      ghost var s1, reg1 := rx, workingCrc;
      ok, text := ReadUntil(size - 1, GT);
      ReadChain(s0, reg0, s1, reg1, rx, workingCrc);
    }

    /** `ReadOpeningTag` (XMLReader_v5.cpp:498-525). */
    method ReadOpeningTag(size: nat) returns (started: bool, ok: bool, text: seq<byte>)
      requires size >= 1
      modifies this`rx, this`workingCrc
      ensures Tag(started, ok, text, rx) == OpeningTag(old(rx), size)
      ensures ReadFrom(old(rx), old(workingCrc), rx, workingCrc)
    {
      started, ok, text := ReadTag(LT, size);
    }

    /** `ReadClosingTag` (XMLReader_v5.cpp:529-556). */
    method ReadClosingTag(size: nat) returns (started: bool, ok: bool, text: seq<byte>)
      requires size >= 1
      modifies this`rx, this`workingCrc
      ensures Tag(started, ok, text, rx) == ClosingTag(old(rx), size)
      ensures ReadFrom(old(rx), old(workingCrc), rx, workingCrc)
    {
      started, ok, text := ReadTag(SLASH, size);
    }

    /** A run of `ReadSpecificChar` calls checking the bytes of `lit` (XMLReader_v5.cpp:435-439, 473-475). */
    method ReadLiteral(lit: seq<byte>) returns (ok: bool)
      modifies this`rx, this`workingCrc
      ensures Run(ok, [], rx) == Literal(old(rx), lit)
      ensures ReadFrom(old(rx), old(workingCrc), rx, workingCrc)
      decreases |lit|
    {
      ghost var s0, reg0 := rx, workingCrc;
      if lit == [] {
        ReadNone(reg0, s0);
        return true;
      }
      ok := ReadSpecificChar(lit[0]);
      if ok {
        ghost var s1, reg1 := rx, workingCrc;
        ok := ReadLiteral(lit[1..]);
        ReadChain(s0, reg0, s1, reg1, rx, workingCrc);
      }
    }

    /**
     * `MessageTypeOpen` (XMLReader_v5.cpp:285-324): throw away the bytes
     * before the first `<`, unread by the CRC, then read `<KIND>` and `\n`
     * into `message_buff` and set the message kind.
     */
    method MessageTypeOpen() returns (ok: bool)
      modifies this`rx, this`workingCrc, this`messageBuff, this`zephyrMessage
      ensures var s0 := DropJunk(old(rx)); var o := TypeOpen(s0);
              ok == o.ok && rx == o.rest && ReadFrom(s0, old(workingCrc), rx, workingCrc)
              && messageBuff == (if s0 == [] then old(messageBuff) else o.tag)
              && zephyrMessage == (if o.message.Some? then o.message.value else old(zephyrMessage))
    {
      while rx != [] && rx[0] != LT
        invariant DropJunk(rx) == DropJunk(old(rx)) && workingCrc == old(workingCrc)
        invariant messageBuff == old(messageBuff) && zephyrMessage == old(zephyrMessage)
      {
        rx := rx[1..];
      }
      if rx == [] {
        ReadNone(workingCrc, rx);
        return false;
      }
      var started, tagOk, tag := ReadOpeningTag(ROW_SIZE);
      messageBuff := tag;
      if !tagOk {
        return false;
      }
      ghost var s1, reg1 := rx, workingCrc;
      ok := ReadSpecificChar(NEWLINE);
      ReadChain(DropJunk(old(rx)), old(workingCrc), s1, reg1, rx, workingCrc);
      if !ok {
        return;
      }
      zephyrMessage := KindOf(messageBuff);
      ok := IsKind(zephyrMessage);
    }

    /**
     * `ReadField` (XMLReader_v5.cpp:341-379), after the tab: `<Name>` into
     * row `num_fields` of `fields`, the value into the same row of
     * `field_values`, then `</Name>` and `\n`.  The code reads the name
     * with `MAX_MSG_FIELDS`, 10, as its size (XMLReader_v5.cpp:348), which
     * overruns the 8-byte row; this is the corrected read, bounded by the
     * row size 8 (the code as written is `Findings.FieldAsWritten`).  The
     * caller's loop stops before an eleventh field.
     */
    method ReadField() returns (ok: bool)
      requires numFields < MAX_MSG_FIELDS
      modifies this`rx, this`workingCrc, this`fields, this`fieldValues, this`numFields
      ensures var f := Field(old(rx), ROW_SIZE);
              ok == f.ok && rx == f.rest
              && fields == Store(old(fields), old(numFields), f.name)
              && fieldValues == Store(old(fieldValues), old(numFields), f.value)
              && numFields == if ok then old(numFields) + 1 else old(numFields)
      ensures ReadFrom(old(rx), old(workingCrc), rx, workingCrc)
    {
      ghost var s0, reg0 := rx, workingCrc;
      var started, tagOk, name := ReadOpeningTag(ROW_SIZE);
      if !started {
        assert Field(s0, ROW_SIZE) == FieldRead(false, None, None, rx);
        return false;
      }
      fields := fields[numFields := name];
      if !tagOk {
        assert Field(s0, ROW_SIZE) == FieldRead(false, Some(name), None, rx);
        return false;
      }
      ghost var s1, reg1 := rx, workingCrc;
      var value;
      ok, value := ReadFieldValue(name);
      ReadChain(s0, reg0, s1, reg1, rx, workingCrc);
      assert Field(s0, ROW_SIZE) == FieldRead(ok, Some(name), Some(value), rx);
      fieldValues := fieldValues[numFields := value];
      if ok {
        numFields := numFields + 1;
      }
    }

    /** The value loop of `ReadField` and the closing tag and newline after it (XMLReader_v5.cpp:350-375). */
    method ReadFieldValue(name: seq<byte>) returns (ok: bool, value: seq<byte>)
      modifies this`rx, this`workingCrc
      ensures Run(ok, value, rx) == FieldValue(old(rx), name)
      ensures ReadFrom(old(rx), old(workingCrc), rx, workingCrc)
    {
      ghost var s0, reg0 := rx, workingCrc;
      ok, value := ReadUntil(VALUE_LIMIT, LT);
      if !ok {
        return;
      }
      ghost var s1, reg1 := rx, workingCrc;
      var closeStarted, closeOk, closeField := ReadClosingTag(ROW_SIZE);
      ReadChain(s0, reg0, s1, reg1, rx, workingCrc);
      if !closeOk || CView(closeField) != CView(name) {
        return false, value;
      }
      ghost var s2, reg2 := rx, workingCrc;
      ok := ReadSpecificChar(NEWLINE);
      ReadChain(s0, reg0, s2, reg2, rx, workingCrc);
    }

    /** `MessageTypeClose` (XMLReader_v5.cpp:326-339). */
    method MessageTypeClose() returns (ok: bool)
      modifies this`rx, this`workingCrc
      ensures Run(ok, [], rx) == TypeClose(old(rx), messageBuff)
      ensures ReadFrom(old(rx), old(workingCrc), rx, workingCrc)
    {
      ghost var s0, reg0 := rx, workingCrc;
      ok := ReadSpecificChar(LT);
      if !ok {
        return;
      }
      ghost var s1, reg1 := rx, workingCrc;
      var started, closeOk, closeType := ReadClosingTag(ROW_SIZE);
      ReadChain(s0, reg0, s1, reg1, rx, workingCrc);
      if !closeOk {
        return false;
      }
      ghost var s2, reg2 := rx, workingCrc;
      ok := ReadSpecificChar(NEWLINE);
      ReadChain(s0, reg0, s2, reg2, rx, workingCrc);
      if !ok {
        return;
      }
      ok := CView(closeType) == CView(messageBuff);
    }

    /**
     * `ReadVerifyCRC` (XMLReader_v5.cpp:381-426): the register folds every
     * byte through `</CRC>`; the newline after it is taken unread.  The
     * value is checked to fit 16 bits and then not compared.
     */
    method ReadVerifyCrc() returns (ok: bool)
      modifies this`rx, this`workingCrc
      ensures var c := VerifyCrc(old(rx));
              ok == c.ok && rx == c.rest && ReadFrom(old(rx), old(workingCrc), c.folded, workingCrc)
              && SuffixOf(rx, c.folded)
    {
      var digitsOk, crcValue := ReadCrcTags();
      if !digitsOk {
        return false;
      }
      var readCrc := ScanUnsigned(CView(crcValue));
      if readCrc.None? || readCrc.value > 0xFFFF {
        return false;
      }
      if rx != [] && rx[0] == NEWLINE {
        rx := rx[1..];
      }
      ok := true;
    }

    /** The tag reads of `ReadVerifyCRC` (XMLReader_v5.cpp:389-413). */
    method ReadCrcTags() returns (ok: bool, crcValue: seq<byte>)
      modifies this`rx, this`workingCrc
      ensures Run(ok, crcValue, rx) == CrcDigits(old(rx))
      ensures ReadFrom(old(rx), old(workingCrc), rx, workingCrc)
    {
      ghost var s0, reg0 := rx, workingCrc;
      var started, tagOk, crcTag := ReadOpeningTag(CRC_TAG_SIZE);
      if !tagOk || CView(crcTag) != Bytes("CRC") {
        return false, [];
      }
      ghost var s1, reg1 := rx, workingCrc;
      var valueOk;
      valueOk, crcValue := ReadUntil(CRC_DIGIT_LIMIT, LT);
      ReadChain(s0, reg0, s1, reg1, rx, workingCrc);
      if !valueOk {
        return false, [];
      }
      ghost var s2, reg2 := rx, workingCrc;
      var closeStarted, closeOk, closeTag := ReadClosingTag(CRC_TAG_SIZE);
      ReadChain(s0, reg0, s2, reg2, rx, workingCrc);
      ok := closeOk && CView(closeTag) == Bytes("CRC");
    }

    /**
     * The field loop of `GetNewMessage` (XMLReader_v5.cpp:85-99) on a reset
     * reader: while a tab is next, read it and a field.  A tab that would
     * start an eleventh field fails the frame.
     */
    method ReadFields() returns (ok: bool)
      requires numFields == 0 && fields == Rows([]) && fieldValues == Rows([])
      modifies this`rx, this`workingCrc, this`fields, this`fieldValues, this`numFields
      ensures var r := Fields(old(rx), 0);
              ok == r.ok && rx == r.rest && numFields == r.whole
              && fields == Rows(r.names) && fieldValues == Rows(r.values)
      ensures ReadFrom(old(rx), old(workingCrc), rx, workingCrc)
    {
      ghost var s0, reg0 := rx, workingCrc;
      ghost var names: seq<seq<byte>>, values: seq<seq<byte>> := [], [];
      ReadNone(reg0, s0);
      FieldsAccountStart(s0);
      while rx != [] && rx[0] == TAB
        invariant ReadFrom(s0, reg0, rx, workingCrc) && FieldsAccount(s0, rx, names, values)
        invariant numFields == |names| && fields == Rows(names) && fieldValues == Rows(values)
        decreases |rx|
      {
        if numFields >= MAX_MSG_FIELDS {
          FieldsAccountFull(s0, rx, names, values);
          return false;
        }
        ok := ReadFieldAfterTab(s0, reg0, names, values);
        if !ok {
          return;
        }
        names, values := names + [fields[numFields - 1]], values + [fieldValues[numFields - 1]];
      }
      FieldsAccountDone(s0, rx, names, values);
      ok := true;
    }

    /** One turn of the field loop: the tab, then `ReadField`. */
    method ReadFieldAfterTab(ghost s0: seq<byte>, ghost reg0: bv16, ghost names: seq<seq<byte>>, ghost values: seq<seq<byte>>)
      returns (ok: bool)
      requires ReadFrom(s0, reg0, rx, workingCrc) && FieldsAccount(s0, rx, names, values)
      requires rx != [] && rx[0] == TAB && numFields == |names| < MAX_MSG_FIELDS
      requires fields == Rows(names) && fieldValues == Rows(values)
      modifies this`rx, this`workingCrc, this`fields, this`fieldValues, this`numFields
      ensures ReadFrom(s0, reg0, rx, workingCrc) && |rx| < old(|rx|)
      ensures ok ==> numFields == |names| + 1
      ensures ok ==> FieldsAccount(s0, rx, names + [fields[|names|]], values + [fieldValues[|names|]])
      ensures ok ==> fields == Rows(names + [fields[|names|]]) && fieldValues == Rows(values + [fieldValues[|names|]])
      ensures !ok ==> var r := Fields(s0, 0);
                      !r.ok && rx == r.rest && numFields == r.whole && fields == Rows(r.names) && fieldValues == Rows(r.values)
    {
      ghost var s1, reg1 := rx, workingCrc;
      var _, _ := ReadNextChar();
      ReadChain(s0, reg0, s1, reg1, rx, workingCrc);
      ghost var f := Field(rx, ROW_SIZE);
      ghost var s2, reg2 := rx, workingCrc;
      ok := ReadField();
      ReadChain(s0, reg0, s2, reg2, rx, workingCrc);
      RowsStore(names, f.name);
      RowsStore(values, f.value);
      if ok {
        FieldsAccountNext(s0, s1, names, values, f);
      } else {
        FieldsAccountFail(s0, s1, names, values, f);
      }
    }

    /**
     * `ParseMessage` (XMLReader_v5.cpp:139-208): check the `Msg` and `Inst`
     * fields, then take what the kind of message carries.  A result set
     * before a later check fails stays set.
     */
    method ParseMessage() returns (ok: bool)
      modifies this`messageId, this`zephyrMode, this`zephyrAck, this`zephyrGps, tc`length
      ensures var p := ReaderSpec.ParseMessage(fields, fieldValues, instrument, old(Results()));
              ok == p.0 && Results() == p.1
    {
      if CView(fields[0]) != MSG_FIELD {
        return false;
      }
      var id := ScanUnsigned(CView(fieldValues[0]));
      if id.None? || id.value > 0xFFFF {
        return false;
      }
      messageId := id.value;
      if zephyrMessage == GPS {
        ok := ParseGpsMessage();
        return;
      }
      if CView(fields[1]) != INST_FIELD || CView(fieldValues[1]) != InstId(instrument) {
        return false;
      }
      ok := ParseKindField();
    }

    /** The `switch` of `ParseMessage` on the third field (XMLReader_v5.cpp:156-205). */
    method ParseKindField() returns (ok: bool)
      modifies this`zephyrMode, this`zephyrAck, tc`length
      ensures var p := ParseKind(fields[2], fieldValues[2], old(Results()));
              ok == p.0 && Results() == p.1
    {
      var name, value := CView(fields[2]), fieldValues[2];
      match zephyrMessage
      case IM =>
        var mode := ModeOf(value);
        ok := name == MODE_FIELD && mode.Some?;
        if ok {
          zephyrMode := mode.value;
        }
      case SAck | RAAck | TMAck =>
        var ack := AckOf(value);
        ok := name == ACK_FIELD && ack.Some?;
        if ok {
          zephyrAck := ack.value;
        }
      case SW =>
        ok := true;
      case TC =>
        var length := ScanUnsigned(CView(value));
        ok := name == LENGTH_FIELD && length.Some? && length.value <= MAX_TC_SIZE;
        if ok {
          tc.length := length.value;
        }
      case _ =>
        ok := false;
    }

    /**
     * `ParseGPSMessage` (XMLReader_v5.cpp:211-279): `zephyr_gps` changes only
     * when every field checks out.
     */
    method ParseGpsMessage() returns (ok: bool)
      modifies this`zephyrGps
      ensures var g := ParseGps(fields, fieldValues, old(zephyrGps));
              ok == g.Some? && zephyrGps == if ok then g.value else old(zephyrGps)
    {
      if !GpsNamesMatch(fields) {
        return false;
      }
      var date := ScanTriple(CView(fieldValues[1]), SLASH);
      if date.None? || date.value.first > 2050 || date.value.second > 12 || date.value.third > 31 {
        return false;
      }
      var time := ScanTriple(CView(fieldValues[2]), COLON);
      if time.None? || time.value.first > 23 || time.value.second > 59 || time.value.third > 59 {
        return false;
      }
      if !(forall i | 3 <= i <= 8 :: ScansFloat(CView(fieldValues[i]))) {
        return false;
      }
      var quality := ScanUnsigned(CView(fieldValues[9]));
      if quality.None? || quality.value == 0 {
        return false;
      }
      zephyrGps := GpsData(date.value.first, date.value.second, date.value.third,
                           time.value.first, time.value.second, time.value.third, quality.value % 256,
                           [CView(fieldValues[3]), CView(fieldValues[4]), CView(fieldValues[5]),
                            CView(fieldValues[6]), CView(fieldValues[8]), CView(fieldValues[7])]);
      ok := true;
    }

    /**
     * `ReadBinarySection` (XMLReader_v5.cpp:428-478): `START`, then the
     * section from a fresh register.  The CRC bytes are assembled into
     * `readCrc`, the value the commented-out comparison would use.
     */
    method ReadBinarySection() returns (ok: bool, readCrc: nat)
      requires Sized(tc.State())
      modifies this`rx, this`workingCrc, this`crcResult, tc`buffer, tc`numTcs, tc`index, tc`currTc
      ensures var b := BinarySection(old(rx), tc.length);
              ok == b.ok && rx == b.rest && tc.State() == SectionState(old(tc.State()), b) && (ok ==> readCrc == b.crcValue)
      ensures var st := Literal(old(rx), Bytes("START")); var b := BinarySection(old(rx), tc.length);
              if st.ok then ReadFrom(st.rest, CRC_POLY, rx, workingCrc)
                            && crcResult == (if |b.data| == tc.length then Fold(CRC_POLY, b.data) else old(crcResult))
              else ReadFrom(old(rx), old(workingCrc), rx, workingCrc) && crcResult == old(crcResult)
    {
      ok := ReadLiteral(Bytes("START"));
      if !ok {
        return false, 0;
      }
      ok, readCrc := ReadSectionBody();
    }

    /** `ReadBinarySection` after `START` (XMLReader_v5.cpp:441-477). */
    method ReadSectionBody() returns (ok: bool, readCrc: nat)
      requires Sized(tc.State())
      modifies this`rx, this`workingCrc, this`crcResult, tc`buffer, tc`numTcs, tc`index, tc`currTc
      ensures var b := SectionBody(old(rx), tc.length);
              ok == b.ok && rx == b.rest && (ok ==> readCrc == b.crcValue)
      ensures tc.State() == SectionState(old(tc.State()), SectionBody(old(rx), tc.length))
      ensures ReadFrom(old(rx), CRC_POLY, rx, workingCrc)
      ensures var b := SectionBody(old(rx), tc.length);
              crcResult == if |b.data| == tc.length then Fold(CRC_POLY, b.data) else old(crcResult)
    {
      workingCrc := CRC_POLY;
      tc.numTcs, tc.index, tc.currTc := 0, 0, 0;
      ghost var s0, buf0 := rx, tc.buffer;
      var complete, rxChar := CopySection();
      if !complete {
        assert tc.buffer == StoreSection(buf0, s0, false);
        return false, 0;
      }
      StoreTerminated(buf0, s0[..tc.length]);
      tc.buffer := tc.buffer[tc.length := NUL];
      crcResult := workingCrc;
      ghost var s1, reg1 := rx, workingCrc;
      ok, readCrc := ReadSectionTail(rxChar);
      ReadChain(s0, CRC_POLY, s1, reg1, rx, workingCrc);
    }

    /**
     * The copy loop of `ReadBinarySection` (XMLReader_v5.cpp:448-456): up to
     * `tc_length` bytes into `tc_buffer`, counting the `;`.  `rxChar` is the
     * last byte read.
     */
    method CopySection() returns (complete: bool, rxChar: byte)
      requires Sized(tc.State()) && workingCrc == CRC_POLY && tc.numTcs == 0
      modifies this`rx, this`workingCrc, tc`buffer, tc`numTcs
      ensures var n := Min(|old(rx)|, tc.length);
              complete == (n == tc.length) && Copied(old(rx), old(tc.buffer), n, rx, tc.buffer, tc.numTcs, workingCrc)
      ensures ReadFrom(old(rx), CRC_POLY, rx, workingCrc)
    {
      ghost var s0, buf0 := rx, tc.buffer;
      var itr := 0;
      var timedOut := false;
      rxChar := NUL;
      CopiedStart(s0, buf0);
      while itr < tc.length && !timedOut
        invariant itr <= tc.length && Copied(s0, buf0, itr, rx, tc.buffer, tc.numTcs, workingCrc)
        invariant timedOut ==> rx == []
        decreases tc.length - itr, !timedOut
      {
        ghost var before, regBefore := rx, workingCrc;
        var got, ch := ReadNextChar();
        if !got {
          timedOut := true;
        } else {
          CopiedStep(s0, buf0, itr, before, tc.buffer, tc.numTcs, regBefore);
          rxChar := ch;
          tc.buffer := tc.buffer[itr := ch];
          itr := itr + 1;
          if ch == SEMICOLON {
            tc.numTcs := (tc.numTcs + 1) % 256;
          }
        }
      }
      CopiedEnd(s0, buf0, itr, rx, tc.buffer, tc.numTcs, workingCrc, tc.length);
      complete := itr == tc.length;
    }

    /**
     * The CRC bytes and `END` (XMLReader_v5.cpp:464-475).  A byte that does
     * not come leaves `rx_char` as it was.
     */
    method ReadSectionTail(lastChar: byte) returns (ok: bool, readCrc: nat)
      modifies this`rx, this`workingCrc
      ensures var t := SectionTail(old(rx)); ok == t.ok && rx == t.rest && (ok ==> readCrc == t.value)
      ensures ReadFrom(old(rx), old(workingCrc), rx, workingCrc)
    {
      ghost var s0, reg0 := rx, workingCrc;
      var rxChar := lastChar;
      var got, ch := ReadNextChar();
      if got {
        rxChar := ch;
      }
      readCrc := rxChar as nat;
      ghost var s1, reg1 := rx, workingCrc;
      got, ch := ReadNextChar();
      ReadChain(s0, reg0, s1, reg1, rx, workingCrc);
      if got {
        rxChar := ch;
      }
      readCrc := readCrc + rxChar as nat * 256;
      ghost var s2, reg2 := rx, workingCrc;
      ok := ReadLiteral(Bytes("END"));
      ReadChain(s0, reg0, s2, reg2, rx, workingCrc);
    }
  
    /**
     * `GetNewMessage` (XMLReader_v5.cpp:73-133) from the reset state.  Every
     * way out resets the reader, the failed parse included, so the next
     * frame starts from a fresh register and empty rows.
     */
    method GetNewMessage() returns (ok: bool)
      requires Valid()
      modifies this`rx, this`workingCrc, this`crcResult, this`messageBuff, this`fields, this`fieldValues, this`numFields
      modifies this`zephyrMessage, this`messageId, this`zephyrMode, this`zephyrAck, this`zephyrGps
      modifies tc`length, tc`buffer, tc`numTcs, tc`index, tc`currTc
      ensures Reached(ReaderSpec.GetNewMessage(old(rx), instrument, old(Results()), old(tc.State())), ok, rx, Results(), tc.State())
      ensures Valid()
    {
      ok := ReadMessage();
      ResetReader();
    }

    /** `GetNewMessage` up to its final `ResetReader` (XMLReader_v5.cpp:73-130). */
    method ReadMessage() returns (ok: bool)
      requires Valid()
      modifies this`rx, this`workingCrc, this`crcResult, this`messageBuff, this`fields, this`fieldValues, this`numFields
      modifies this`zephyrMessage, this`messageId, this`zephyrMode, this`zephyrAck, this`zephyrGps
      modifies tc`length, tc`buffer, tc`numTcs, tc`index, tc`currTc
      ensures Reached(ReaderSpec.GetNewMessage(old(rx), instrument, old(Results()), old(tc.State())), ok, rx, Results(), tc.State())
    {
      ok := ReadText();
      if ok {
        ghost var t := FrameText(DropJunk(old(rx)));
        ok := ReadAfterText(t.names, t.values, workingCrc);
      }
    }

    /**
     * The text part of `GetNewMessage` (XMLReader_v5.cpp:79-106): the
     * opening tag, the tab-led fields and the closing tag.
     */
    method ReadText() returns (ok: bool)
      requires workingCrc == CRC_POLY && numFields == 0 && fields == Rows([]) && fieldValues == Rows([])
      modifies this`rx, this`workingCrc, this`messageBuff, this`fields, this`fieldValues, this`numFields, this`zephyrMessage
      ensures var t := FrameText(DropJunk(old(rx)));
              ok == t.ok && rx == t.rest && zephyrMessage == (if t.message.Some? then t.message.value else old(zephyrMessage))
              && (ok ==> fields == Rows(t.names) && fieldValues == Rows(t.values))
      ensures ok ==> ReadFrom(DropJunk(old(rx)), CRC_POLY, rx, workingCrc)
    {
      ghost var s0 := DropJunk(rx);
      ok := MessageTypeOpen();
      if !ok {
        return;
      }
      ghost var s1, reg1 := rx, workingCrc;
      ok := ReadTextBody();
      ReadChain(s0, CRC_POLY, s1, reg1, rx, workingCrc);
    }

    /** The fields and the closing tag after `message_buff` has been read (XMLReader_v5.cpp:85-106). */
    method ReadTextBody() returns (ok: bool)
      requires numFields == 0 && fields == Rows([]) && fieldValues == Rows([])
      modifies this`rx, this`workingCrc, this`fields, this`fieldValues, this`numFields
      ensures BodyRead(messageBuff, old(rx), ok, rx, fields, fieldValues)
      ensures ReadFrom(old(rx), old(workingCrc), rx, workingCrc)
    {
      ok := ReadFields();
      if !ok {
        return;
      }
      ghost var s1, reg1 := rx, workingCrc;
      ok := MessageTypeClose();
      ReadChain(old(rx), old(workingCrc), s1, reg1, rx, workingCrc);
    }

    /**
     * `GetNewMessage` once the text of `t` has been read and `closeCrc`
     * folded (XMLReader_v5.cpp:108-121): the CRC tag, then the rest.
     */
    method ReadAfterText(ghost names: seq<seq<byte>>, ghost values: seq<seq<byte>>, ghost closeCrc: bv16) returns (ok: bool)
      requires Poised(Results(), tc.State()) && RowsHeld(names, values, fields, fieldValues)
      modifies this`rx, this`workingCrc, this`crcResult, this`messageId, this`zephyrMode, this`zephyrAck, this`zephyrGps
      modifies tc`length, tc`buffer, tc`numTcs, tc`index, tc`currTc
      ensures Reached(AfterText(old(rx), names, values, closeCrc, instrument, old(Results()), old(tc.State())), ok, rx, Results(), tc.State())
    {
      crcResult := workingCrc;
      ok := ReadVerifyCrc();
      if !ok {
        return;
      }
      ok := ReadAfterCrc(names, values, closeCrc);
    }

    /** `GetNewMessage` after the CRC tag (XMLReader_v5.cpp:117-129): the parse and what follows it. */
    method ReadAfterCrc(ghost names: seq<seq<byte>>, ghost values: seq<seq<byte>>, ghost closeCrc: bv16) returns (ok: bool)
      requires Poised(Results(), tc.State()) && RowsHeld(names, values, fields, fieldValues)
      modifies this`rx, this`workingCrc, this`crcResult, this`messageId, this`zephyrMode, this`zephyrAck, this`zephyrGps
      modifies tc`length, tc`buffer, tc`numTcs, tc`index, tc`currTc
      ensures Reached(AfterCrc(old(rx), names, values, closeCrc, instrument, old(Results()), old(tc.State())), ok, rx, Results(), tc.State())
    {
      ok := ParseMessage();
      ok := ReadSectionIfTc(ok, names, values, closeCrc);
    }

    /**
     * The binary section of a parsed TC message (XMLReader_v5.cpp:123-129);
     * any other message, or a failed parse, reads nothing more.
     */
    method ReadSectionIfTc(parsed: bool, ghost names: seq<seq<byte>>, ghost values: seq<seq<byte>>, ghost closeCrc: bv16)
      returns (ok: bool)
      requires Sized(tc.State()) && tc.length == Results().tcLength && IsKind(zephyrMessage)
      modifies this`rx, this`workingCrc, this`crcResult, tc`buffer, tc`numTcs, tc`index, tc`currTc
      ensures Reached(AfterParse(parsed, old(Results()), old(rx), names, values, closeCrc, old(tc.State())), ok, rx, Results(), tc.State())
    {
      ok := parsed;
      if ok && zephyrMessage == TC {
        var readCrc;
        ok, readCrc := ReadBinarySection();
      }
    }
  }
}
