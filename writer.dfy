/**
 * The XML writer of XMLWriter_v5.cpp as a class.
 *
 * The output stream is the field `out`: every byte printed to `_stream`, in
 * order.  `txbuf` and `rx_crc` are fields that every `crcUpdate` changes,
 * and the message counter `messCount`, a global of the source, is a field
 * too.  Each method is proved against the bytes `WriterSpec` lays out:
 * what it pushes and prints, as `State() == Emit(old(State()), ...)` or
 * `State() == Frame(old(State()), ...)`.
 */
module Writer {
  import opened Ascii
  import opened Crc16
  import opened InstInfo
  import opened WriterSpec

  class XmlWriter {
    /** The bytes printed to `_stream`. */
    var out: seq<byte>
    /** `txbuf` (XMLWriter_v5.cpp:33) and `rx_crc`. */
    var txbuf: seq<byte>
    var rxCrc: bv16
    /** `messCount` (XMLWriter_v5.cpp:42). */
    var messCount: nat
    /** `instrument`: whose name the `Inst` node carries. */
    const instrument: Instrument
    /** The flag names, flag values and details of the health slots (XMLWriter_v5.h:172-182). */
    var stateFlag1: seq<byte>
    var stateFlag2: seq<byte>
    var stateFlag3: seq<byte>
    var flag1: StateFlag
    var flag2: StateFlag
    var flag3: StateFlag
    var details1: seq<byte>
    var details2: seq<byte>
    var details3: seq<byte>
    /** `tmbuf` and `tmbuf_len` (XMLWriter_v5.h:184-186). */
    var tmbuf: seq<byte>
    var tmbufLen: nat

    /** The unsent bytes and the register. */
    function Tx(): WriterSpec.Tx
      reads this`txbuf, this`rxCrc
    {
      WriterSpec.Tx(txbuf, rxCrc)
    }

    /** What was printed, what is unsent, and the counter. */
    function State(): Link
      reads this`out, this`txbuf, this`rxCrc, this`messCount
    {
      Link(out, Tx(), messCount)
    }

    /** The health slots `sendTMBody` reports. */
    function Slots(): Health
      reads this`stateFlag1, this`stateFlag2, this`stateFlag3, this`flag1, this`flag2, this`flag3
      reads this`details1, this`details2, this`details3
    {
      Health(stateFlag1, stateFlag2, stateFlag3, flag1, flag2, flag3, details1, details2, details3)
    }

    /** `tmbuf_len` counts the bytes of `tmbuf`, which stays within its capacity. */
    ghost predicate TmHeld()
      reads this`tmbuf, this`tmbufLen
    {
      tmbufLen == |tmbuf| <= TXBUFSIZE
    }

    /** The writer's invariant: the buffers within capacity and the counter in [1, 65533]. */
    ghost predicate Valid()
      reads this
    {
      |txbuf| <= TXBUFSIZE && TmHeld() && 1 <= messCount < COUNT_WRAP
    }

    /**
     * The constructor (XMLWriter_v5.cpp:45-56) and the defaults of the
     * header.  `count` is the value of the global `messCount` at this
     * point: 1 for the first writer of the program.
     */
    constructor (inst: Instrument, count: nat)
      requires 1 <= count < COUNT_WRAP
      ensures Valid() && instrument == inst && messCount == count
      ensures out == [] && Tx() == IDLE && tmbuf == [] && Slots() == DefaultHealth()
    {
      instrument := inst;
      out := [];
      messCount := count;
      stateFlag1, stateFlag2, stateFlag3 := STATEFLAG1_TAG, STATEFLAG2_TAG, STATEFLAG3_TAG;
      flag1, flag2, flag3 := FINE, NOMESS, NOMESS;
      details1, details2, details3 := [], [], [];
      tmbuf, tmbufLen := [], 0;
      txbuf, rxCrc := [], 0;
      new;
      Reset();
    }

    /** `reset` (XMLWriter_v5.cpp:58-62). */
    method Reset()
      modifies this`txbuf, this`rxCrc
      ensures Tx() == IDLE
    {
      rxCrc := CRC_POLY;
      txbuf := [];
    }

    /** `setStateFlags` (XMLWriter_v5.cpp:64-73): only slots 1 to 3 exist. */
    method SetStateFlags(num: nat, flag: seq<byte>)
      requires num < 256
      modifies this`stateFlag1, this`stateFlag2, this`stateFlag3
      ensures stateFlag1 == if num == 1 then flag else old(stateFlag1)
      ensures stateFlag2 == if num == 2 then flag else old(stateFlag2)
      ensures stateFlag3 == if num == 3 then flag else old(stateFlag3)
    {
      if num == 1 {
        stateFlag1 := flag;
      } else if num == 2 {
        stateFlag2 := flag;
      } else if num == 3 {
        stateFlag3 := flag;
      }
    }

    /** `setStateFlagValue` (XMLWriter_v5.cpp:75-85). */
    method SetStateFlagValue(num: nat, stat: StateFlag)
      requires num < 256
      modifies this`flag1, this`flag2, this`flag3
      ensures flag1 == if num == 1 then stat else old(flag1)
      ensures flag2 == if num == 2 then stat else old(flag2)
      ensures flag3 == if num == 3 then stat else old(flag3)
    {
      if num == 1 {
        flag1 := stat;
      } else if num == 2 {
        flag2 := stat;
      } else if num == 3 {
        flag3 := stat;
      }
    }

    /** `setStateDetails` (XMLWriter_v5.cpp:87-97). */
    method SetStateDetails(num: nat, details: seq<byte>)
      requires num < 256
      modifies this`details1, this`details2, this`details3
      ensures details1 == if num == 1 then details else old(details1)
      ensures details2 == if num == 2 then details else old(details2)
      ensures details3 == if num == 3 then details else old(details3)
    {
      if num == 1 {
        details1 := details;
      } else if num == 2 {
        details2 := details;
      } else if num == 3 {
        details3 := details;
      }
    }

    // -------------------------------------------------------------------
    // The CRC and the software buffer
    // -------------------------------------------------------------------

    /** `crcUpdate(uint8_t)` (XMLWriter_v5.cpp:245-262): push the byte and take the reader's CRC step. */
    method CrcUpdate(data: byte) returns (r: nat)
      requires |txbuf| < TXBUFSIZE
      modifies this`txbuf, this`rxCrc
      ensures rxCrc == Update(old(rxCrc), data) && r == 0
      ensures State() == Emit(old(State()), [data])
    {
      PushOne(Tx(), data);
      txbuf := txbuf + [data];
      rxCrc := Update(rxCrc, data);
      r := 0;
    }

    /**
     * The loop `crcUpdate(uint8_t*, length)` and `crcUpdate(const char*)`
     * share (XMLWriter_v5.cpp:221-227, 235-241): the first byte, then the
     * bytes before the first NUL, at most `limit`.
     */
    method CrcUpdateUpTo(data: seq<byte>, limit: nat)
      requires 0 < limit && Terminated(data, limit) && |txbuf| + |Feed(data, limit)| <= TXBUFSIZE
      modifies this`txbuf, this`rxCrc
      ensures State() == Emit(old(State()), Feed(data, limit))
    {
      ghost var s0 := State();
      var c := 0;
      while c < limit
        invariant c <= limit && c <= |data| && forall j | 1 <= j < c :: data[j] != NUL
        invariant c < limit ==> c < |data|
        invariant State() == Emit(s0, data[..c])
      {
        var x := data[c];
        if x == NUL && c != 0 {
          break;
        }
        TextGoesOn(data, limit, c);
        PushNext(s0, data, c, x);
        c := c + 1;
      }
      assert IsCString(data[1..c]);
      FeedStops(data, limit, c);
    }

    /** One `crcUpdate` of the byte at `c` in a loop that has pushed the `c` bytes before it since `s0`. */
    method PushNext(ghost s0: Link, ghost data: seq<byte>, ghost c: nat, b: byte)
      requires c < |data| && data[c] == b && |txbuf| < TXBUFSIZE && State() == Emit(s0, data[..c])
      modifies this`txbuf, this`rxCrc
      ensures State() == Emit(s0, data[..c + 1])
    {
      var r := CrcUpdate(b);
      EmitEmit(s0, data[..c], [data[c]]);
      assert data[..c] + [data[c]] == data[..c + 1];
    }

    /** `crcUpdate(uint8_t*, length)` (XMLWriter_v5.cpp:214-229): nothing, and 1, for a zero length. */
    method CrcUpdateBytes(data: seq<byte>, length: nat) returns (r: nat)
      requires length < 256 && (length == 0 || Terminated(data, length))
      requires length != 0 ==> |txbuf| + |Feed(data, length)| <= TXBUFSIZE
      modifies this`txbuf, this`rxCrc
      ensures r == if length == 0 then 1 else 0
      ensures State() == if length == 0 then old(State()) else Emit(old(State()), Feed(data, length))
    {
      if length == 0 {
        return 1;
      }
      CrcUpdateUpTo(data, length);
      r := 0;
    }

    /** `crcUpdate(const char*)` (XMLWriter_v5.cpp:231-243). */
    method CrcUpdateText(data: seq<byte>) returns (r: nat)
      requires Terminated(data, TEXT_LIMIT) && |txbuf| + |Feed(data, TEXT_LIMIT)| <= TXBUFSIZE
      modifies this`txbuf, this`rxCrc
      ensures State() == Emit(old(State()), Feed(data, TEXT_LIMIT)) && r == 0
    {
      CrcUpdateUpTo(data, TEXT_LIMIT);
      r := 0;
    }

    /** `crcUpdate` on the C string of `s`. */
    method CrcUpdateString(s: seq<byte>)
      requires |txbuf| + |CText(s)| <= TXBUFSIZE
      modifies this`txbuf, this`rxCrc
      ensures State() == Emit(old(State()), CText(s))
    {
      CTextFeeds(s);
      var _ := CrcUpdateText(Memory(s));
    }

    /** `crcReset` (XMLWriter_v5.cpp:264-267). */
    method CrcReset()
      modifies this`rxCrc
      ensures rxCrc == CRC_POLY
    {
      rxCrc := CRC_POLY;
    }

    /** `crcValue` (XMLWriter_v5.cpp:269-272). */
    method CrcValue() returns (v: bv16)
      ensures v == rxCrc
    {
      v := rxCrc;
    }

    // -------------------------------------------------------------------
    // Tags and nodes
    // -------------------------------------------------------------------

    /** `tagOpen` (XMLWriter_v5.cpp:99-105). */
    method TagOpen(tag: seq<byte>)
      requires |txbuf| + |Open(tag)| <= TXBUFSIZE
      modifies this`txbuf, this`rxCrc
      ensures State() == Emit(old(State()), Open(tag))
    {
      ghost var s0 := State();
      var r := CrcUpdate(LT);
      CrcUpdateString(tag);
      EmitEmit(s0, [LT], CText(tag));
      r := CrcUpdate(GT);
      EmitEmit(s0, [LT] + CText(tag), [GT]);
      r := CrcUpdate(NEWLINE);
      EmitEmit(s0, [LT] + CText(tag) + [GT], [NEWLINE]);
    }

    /** `tagClose` (XMLWriter_v5.cpp:107-118). */
    method TagClose(tag: seq<byte>)
      requires |txbuf| + |Close(tag)| <= TXBUFSIZE
      modifies this`txbuf, this`rxCrc
      ensures State() == Emit(old(State()), Close(tag))
    {
      ghost var s0 := State();
      var r := CrcUpdate(LT);
      r := CrcUpdate(SLASH);
      EmitEmit(s0, [LT], [SLASH]);
      CrcUpdateString(tag);
      EmitEmit(s0, [LT] + [SLASH], CText(tag));
      r := CrcUpdate(GT);
      EmitEmit(s0, [LT] + [SLASH] + CText(tag), [GT]);
      r := CrcUpdate(NEWLINE);
      EmitEmit(s0, [LT] + [SLASH] + CText(tag) + [GT], [NEWLINE]);
    }

    /** `\t<tag>`, the part every `writeNode` overload starts with. */
    method NodeLead(tag: seq<byte>)
      requires |txbuf| + |Lead(tag)| <= TXBUFSIZE
      modifies this`txbuf, this`rxCrc
      ensures State() == Emit(old(State()), Lead(tag))
    {
      ghost var s0 := State();
      var r := CrcUpdate(TAB);
      r := CrcUpdate(LT);
      EmitEmit(s0, [TAB], [LT]);
      CrcUpdateString(tag);
      EmitEmit(s0, [TAB] + [LT], CText(tag));
      r := CrcUpdate(GT);
      EmitEmit(s0, [TAB] + [LT] + CText(tag), [GT]);
    }

    /** `writeNode(const char*, const char*)` and its `String` forms (XMLWriter_v5.cpp:120-137, 173-181). */
    method WriteNode(tag: seq<byte>, value: seq<byte>)
      requires |txbuf| + |Node(tag, value)| <= TXBUFSIZE
      modifies this`txbuf, this`rxCrc
      ensures State() == Emit(old(State()), Node(tag, value))
    {
      ghost var s0 := State();
      NodeLead(tag);
      CrcUpdateString(value);
      EmitEmit(s0, Lead(tag), CText(value));
      TagClose(tag);
      EmitEmit(s0, Lead(tag) + CText(value), Close(tag));
    }

    /** `writeNode(const char*, char*, uint8_t)` (XMLWriter_v5.cpp:139-157): the value up to a NUL or `length` bytes. */
    method WriteNodeArray(tag: seq<byte>, value: seq<byte>, length: nat)
      requires length < 256 && (length <= |value| || NUL in value)
      requires |txbuf| + |Element(tag, ArrayText(value, length))| <= TXBUFSIZE
      modifies this`txbuf, this`rxCrc
      ensures State() == Emit(old(State()), Element(tag, ArrayText(value, length)))
    {
      ghost var s0 := State();
      NodeLead(tag);
      ghost var text := WriteArrayText(value, length);
      EmitEmit(s0, Lead(tag), text);
      TagClose(tag);
      EmitEmit(s0, Lead(tag) + text, Close(tag));
    }

    /** The loop of `writeNode(const char*, char*, uint8_t)`: the value bytes before a NUL, at most `length`. */
    method WriteArrayText(value: seq<byte>, length: nat) returns (ghost text: seq<byte>)
      requires length < 256 && (length <= |value| || NUL in value)
      requires |txbuf| + |ArrayText(value, length)| <= TXBUFSIZE
      modifies this`txbuf, this`rxCrc
      ensures text == ArrayText(value, length) && State() == Emit(old(State()), text)
    {
      ghost var s0 := State();
      var i := 0;
      while i < length
        invariant i <= length && i <= |value| && forall j | 0 <= j < i :: value[j] != NUL
        invariant State() == Emit(s0, value[..i])
      {
        ArrayGoesOn(value, length, i);
        if value[i] != NUL {
          PushNext(s0, value, i, value[i]);
        } else {
          break;
        }
        i := i + 1;
      }
      ArrayTextStops(value, length, i);
      text := value[..i];
    }

    /** `writeNode(const char*, uint8_t)` (XMLWriter_v5.cpp:159-171): the value is the one byte itself. */
    method WriteNodeByte(tag: seq<byte>, value: byte)
      requires |txbuf| + |Element(tag, [value])| <= TXBUFSIZE
      modifies this`txbuf, this`rxCrc
      ensures State() == Emit(old(State()), Element(tag, [value]))
    {
      ghost var s0 := State();
      NodeLead(tag);
      var r := CrcUpdate(value);
      EmitEmit(s0, Lead(tag), [value]);
      TagClose(tag);
      EmitEmit(s0, Lead(tag) + [value], Close(tag));
    }

    // -------------------------------------------------------------------
    // Sending
    // -------------------------------------------------------------------

    /** `writeCRC` (XMLWriter_v5.cpp:183-195): the CRC line is printed outside the CRC, then the register is reset. */
    method WriteCrc()
      modifies this`out, this`rxCrc
      ensures out == old(out) + CrcLine(old(rxCrc)) && rxCrc == CRC_POLY
    {
      out := out + CRC_OPEN;
      out := out + Decimal(rxCrc as nat);
      out := out + CRC_CLOSE;
      CrcReset();
    }

    /**
     * `sendBuf` (XMLWriter_v5.cpp:197-212).  The `uint8_t` counter never
     * reaches `TXBUFSIZE`; the loop ends when the buffer runs empty.
     */
    method SendBuf()
      requires txbuf != []
      modifies this`out, this`txbuf
      ensures out == old(out) + old(txbuf) && txbuf == []
    {
      var i := 0;
      while i < TXBUFSIZE
        invariant i < 256 && txbuf != []
        invariant out + txbuf == old(out) + old(txbuf)
        decreases |txbuf|
      {
        var ret := txbuf[0];
        txbuf := txbuf[1..];
        out := out + [ret];
        if txbuf == [] {
          break;
        }
        i := (i + 1) % 256;
      }
      txbuf := [];
    }

    /** `sendBuf` then `writeCRC`, the calls every frame ends its text with. */
    method Finish()
      requires txbuf != []
      modifies this`out, this`txbuf, this`rxCrc
      ensures State() == Flush(old(State()))
    {
      SendBuf();
      WriteCrc();
    }

    /** `msgNode` (XMLWriter_v5.cpp:274-283): the count in decimal, then the next count, wrapping at 65534. */
    method MsgNode() returns (count: nat)
      requires messCount < COUNT_WRAP && |txbuf| + |MsgElement(messCount)| <= TXBUFSIZE
      modifies this`txbuf, this`rxCrc, this`messCount
      ensures State() == Bump(Emit(old(State()), MsgElement(old(messCount)))) && count == messCount
    {
      var buf := Decimal(messCount);
      WriteNode(MSG_TAG, buf);
      messCount := messCount + 1;
      if messCount == COUNT_WRAP {
        messCount := 1;
      }
      count := messCount;
    }

    /** `instNode` (XMLWriter_v5.cpp:285-290). */
    method InstNode()
      requires |txbuf| + |InstElement(instrument)| <= TXBUFSIZE
      modifies this`txbuf, this`rxCrc
      ensures State() == Emit(old(State()), InstElement(instrument))
    {
      var temp := Trim(InstId(instrument));
      TrimInstId(instrument);
      WriteNode(INST_TAG, temp);
    }

    /** `tagOpen`, `msgNode` and `instNode`, the calls every frame but `RA` opens with. */
    method WriteHead(tag: seq<byte>)
      requires messCount < COUNT_WRAP && |txbuf| + |Head(tag, messCount, instrument)| <= TXBUFSIZE
      modifies this`txbuf, this`rxCrc, this`messCount
      ensures State() == Bump(Emit(old(State()), Head(tag, old(messCount), instrument)))
    {
      ghost var s0 := State();
      TagOpen(tag);
      var _ := MsgNode();
      EmitEmit(s0, Open(tag), MsgElement(s0.count));
      InstNode();
      EmitEmit(s0, Open(tag) + MsgElement(s0.count), InstElement(instrument));
    }

    // -------------------------------------------------------------------
    // Frames
    // -------------------------------------------------------------------

    /** `IMR` (XMLWriter_v5.cpp:292-303): the instrument mode request. */
    method IMR()
      requires messCount < COUNT_WRAP && |txbuf| + |ImrBody(messCount, instrument)| <= TXBUFSIZE
      modifies this`out, this`txbuf, this`rxCrc, this`messCount
      ensures State() == Frame(old(State()), ImrBody(old(messCount), instrument))
    {
      ghost var s0 := State();
      ghost var head := Head(IMR_TAG, s0.count, instrument);
      WriteHead(IMR_TAG);
      WriteVersions(s0, head);
      TagClose(IMR_TAG);
      EmitEmit(s0, WithVersions(head), Close(IMR_TAG));
      Finish();
    }

    /** The three version nodes of `IMR`, after the head `head` of the frame begun in `s0`. */
    method WriteVersions(ghost s0: Link, ghost head: seq<byte>)
      requires State() == Bump(Emit(s0, head)) && |txbuf| + |WithVersions(head)| <= |head| + TXBUFSIZE
      modifies this`txbuf, this`rxCrc
      ensures State() == Bump(Emit(s0, WithVersions(head)))
    {
      WriteNode(SWDATE_TAG, SW_DATE);
      EmitEmit(s0, head, Node(SWDATE_TAG, SW_DATE));
      WriteNode(SWVERSION_TAG, SW_VERSION);
      EmitEmit(s0, head + Node(SWDATE_TAG, SW_DATE), Node(SWVERSION_TAG, SW_VERSION));
      WriteNode(ZPROTOCOL_TAG, Z_PROTOCOL);
      EmitEmit(s0, head + Node(SWDATE_TAG, SW_DATE) + Node(SWVERSION_TAG, SW_VERSION), Node(ZPROTOCOL_TAG, Z_PROTOCOL));
    }

    /** The `Ack` node of `IMAck` and `TCAck`. */
    method WriteAck(ackval: nat)
      requires |txbuf| + |AckNode(ackval)| <= TXBUFSIZE
      modifies this`txbuf, this`rxCrc
      ensures State() == Emit(old(State()), AckNode(ackval))
    {
      if ackval != 0 {
        WriteNode(ACK_TAG, ACK_WORD);
      } else {
        WriteNode(ACK_TAG, NACK_WORD);
      }
    }

    /** A frame of `Head`, an `Ack` node and the closing tag. */
    method AckFrame(tag: seq<byte>, ackval: nat)
      requires messCount < COUNT_WRAP && |txbuf| + |AckBody(tag, messCount, instrument, ackval)| <= TXBUFSIZE
      modifies this`out, this`txbuf, this`rxCrc, this`messCount
      ensures State() == Frame(old(State()), AckBody(tag, old(messCount), instrument, ackval))
    {
      ghost var s0 := State();
      ghost var head := Head(tag, s0.count, instrument);
      WriteHead(tag);
      WriteAck(ackval);
      EmitEmit(s0, head, AckNode(ackval));
      TagClose(tag);
      EmitEmit(s0, head + AckNode(ackval), Close(tag));
      Finish();
    }

    /** `IMAck` (XMLWriter_v5.cpp:305-319). */
    method IMAck(ackval: nat)
      requires ackval < 256
      requires messCount < COUNT_WRAP && |txbuf| + |AckBody(IMACK_TAG, messCount, instrument, ackval)| <= TXBUFSIZE
      modifies this`out, this`txbuf, this`rxCrc, this`messCount
      ensures State() == Frame(old(State()), AckBody(IMACK_TAG, old(messCount), instrument, ackval))
    {
      AckFrame(IMACK_TAG, ackval);
    }

    /** `TCAck` (XMLWriter_v5.cpp:553-566). */
    method TCAck(ackval: nat)
      requires ackval < 256
      requires messCount < COUNT_WRAP && |txbuf| + |AckBody(TCACK_TAG, messCount, instrument, ackval)| <= TXBUFSIZE
      modifies this`out, this`txbuf, this`rxCrc, this`messCount
      ensures State() == Frame(old(State()), AckBody(TCACK_TAG, old(messCount), instrument, ackval))
    {
      AckFrame(TCACK_TAG, ackval);
    }

    /** `S` (XMLWriter_v5.cpp:321-329): the instrument has reached safety mode. */
    method S()
      requires messCount < COUNT_WRAP && |txbuf| + |SafetyBody(messCount, instrument)| <= TXBUFSIZE
      modifies this`out, this`txbuf, this`rxCrc, this`messCount
      ensures State() == Frame(old(State()), SafetyBody(old(messCount), instrument))
    {
      ghost var s0 := State();
      WriteHead(S_TAG);
      TagClose(S_TAG);
      EmitEmit(s0, Head(S_TAG, s0.count, instrument), Close(S_TAG));
      Finish();
    }

    /** `RA` (XMLWriter_v5.cpp:331-348): sent only by the RACHUTS instrument; any other returns having written nothing. */
    method RA()
      requires messCount < COUNT_WRAP && |txbuf| + |RaBody(messCount)| <= TXBUFSIZE
      modifies this`out, this`txbuf, this`rxCrc, this`messCount
      ensures State() == if instrument == RACHUTS then Frame(old(State()), RaBody(old(messCount))) else old(State())
    {
      var temp := Trim(InstId(instrument));
      TrimInstId(instrument);
      if temp != RACHUTS_NAME {
        return;
      }
      if instrument != RACHUTS {
        InstIdInjective(instrument, RACHUTS);
      }
      ghost var s0 := State();
      TagOpen(RA_TAG);
      var _ := MsgNode();
      EmitEmit(s0, Open(RA_TAG), MsgElement(s0.count));
      WriteNode(INST_TAG, RACHUTS_NAME);
      EmitEmit(s0, Open(RA_TAG) + MsgElement(s0.count), Node(INST_TAG, RACHUTS_NAME));
      TagClose(RA_TAG);
      EmitEmit(s0, Open(RA_TAG) + MsgElement(s0.count) + Node(INST_TAG, RACHUTS_NAME), Close(RA_TAG));
      Finish();
    }

    // -------------------------------------------------------------------
    // Telemetry frames
    // -------------------------------------------------------------------

    /** The first slot's flag in `sendTMBody` (XMLWriter_v5.cpp:570-585). */
    method WriteFirstFlag()
      requires |txbuf| + |FirstFlag(stateFlag1, flag1)| <= TXBUFSIZE
      modifies this`txbuf, this`rxCrc
      ensures State() == Emit(old(State()), FirstFlag(stateFlag1, flag1))
    {
      match flag1 {
        case FINE => WriteNode(stateFlag1, FINE_WORD);
        case CRIT => WriteNode(stateFlag1, CRIT_WORD);
        case WARN => WriteNode(stateFlag1, WARN_WORD);
        case UNKN => WriteNode(stateFlag1, UNKN_WORD);
        case NOMESS => WriteNode(STATEMESS1_TAG, UNKN_WORD);
      }
    }

    /** The second or third slot's flag in `sendTMBody` (XMLWriter_v5.cpp:590-605, 610-625). */
    method WriteOtherFlag(name: seq<byte>, f: StateFlag)
      requires |txbuf| + |OtherFlag(name, f)| <= TXBUFSIZE
      modifies this`txbuf, this`rxCrc
      ensures State() == Emit(old(State()), OtherFlag(name, f))
    {
      match f {
        case FINE => WriteNode(name, FINE_WORD);
        case CRIT => WriteNode(name, CRIT_WORD);
        case WARN => WriteNode(name, WARN_WORD);
        case UNKN => WriteNode(name, UNKN_WORD);
        case NOMESS => assert OtherFlag(name, f) == [];
      }
    }

    /** A slot's details in `sendTMBody` (XMLWriter_v5.cpp:586-588, 606-608, 626-628). */
    method WriteDetails(tag: seq<byte>, details: seq<byte>)
      requires |txbuf| + |Details(tag, details)| <= TXBUFSIZE
      modifies this`txbuf, this`rxCrc
      ensures State() == Emit(old(State()), Details(tag, details))
    {
      if |details| != 0 {
        WriteNode(tag, details);
      } else {
        assert Details(tag, details) == [];
      }
    }

    /** The first slot of `sendTMBody`: its flag, then its details. */
    method WriteFirstSlot()
      requires |txbuf| + |FirstSlot(stateFlag1, flag1, details1)| <= TXBUFSIZE
      modifies this`txbuf, this`rxCrc
      ensures State() == Emit(old(State()), FirstSlot(stateFlag1, flag1, details1))
    {
      ghost var s0 := State();
      WriteFirstFlag();
      WriteDetails(STATEMESS1_TAG, details1);
      EmitEmit(s0, FirstFlag(stateFlag1, flag1), Details(STATEMESS1_TAG, details1));
    }

    /** The second or third slot of `sendTMBody`: its flag, then its details. */
    method WriteOtherSlot(name: seq<byte>, f: StateFlag, tag: seq<byte>, details: seq<byte>)
      requires |txbuf| + |OtherSlot(name, f, tag, details)| <= TXBUFSIZE
      modifies this`txbuf, this`rxCrc
      ensures State() == Emit(old(State()), OtherSlot(name, f, tag, details))
    {
      ghost var s0 := State();
      WriteOtherFlag(name, f);
      WriteDetails(tag, details);
      EmitEmit(s0, OtherFlag(name, f), Details(tag, details));
    }

    /** `sendTMBody` (XMLWriter_v5.cpp:568-633): the three health slots. */
    method SendTmBody()
      requires |txbuf| + |HealthNodes(Slots())| <= TXBUFSIZE
      modifies this`txbuf, this`rxCrc
      ensures State() == Emit(old(State()), HealthNodes(Slots()))
    {
      ghost var s0 := State();
      ghost var h := Slots();
      HealthNodesInTurn(h);
      ghost var one, two := SlotNodes(h, 1), SlotNodes(h, 2);
      WriteFirstSlot();
      assert Slots() == h;
      WriteOtherSlot(stateFlag2, flag2, STATEMESS2_TAG, details2);
      assert Slots() == h;
      EmitEmit(s0, one, two);
      WriteOtherSlot(stateFlag3, flag3, STATEMESS3_TAG, details3);
      assert Slots() == h;
      EmitEmit(s0, one + two, SlotNodes(h, 3));
    }

    /** The text of a `TM` frame after its head: the health slots, the `Length` node and the closing tag. */
    method WriteTmText(ghost s0: Link, ghost head: seq<byte>, length: nat)
      requires State() == Bump(Emit(s0, head))
      requires |txbuf| + |HealthNodes(Slots()) + Node(LENGTH_TAG, Decimal(length)) + Close(TM_TAG)| <= TXBUFSIZE
      modifies this`txbuf, this`rxCrc
      ensures State() == Bump(Emit(s0, head + HealthNodes(Slots()) + Node(LENGTH_TAG, Decimal(length)) + Close(TM_TAG)))
    {
      ghost var slots := Slots();
      ghost var h := HealthNodes(slots);
      SendTmBody();
      assert Slots() == slots;
      EmitEmit(s0, head, h);
      var buf := Decimal(length);
      WriteNode(LENGTH_TAG, buf);
      assert Slots() == slots;
      EmitEmit(s0, head + h, Node(LENGTH_TAG, buf));
      TagClose(TM_TAG);
      assert Slots() == slots;
      EmitEmit(s0, head + h + Node(LENGTH_TAG, buf), Close(TM_TAG));
    }

    /** The text part of `TM` and `TMhouse` (XMLWriter_v5.cpp:380-392, 428-436), announcing `length` bytes. */
    method TmFrame(length: nat)
      requires messCount < COUNT_WRAP && |txbuf| + |TmBody(messCount, instrument, Slots(), length)| <= TXBUFSIZE
      modifies this`out, this`txbuf, this`rxCrc, this`messCount
      ensures State() == Frame(old(State()), TmBody(old(messCount), instrument, Slots(), length))
    {
      ghost var s0 := State();
      ghost var slots := Slots();
      WriteHead(TM_TAG);
      assert Slots() == slots;
      WriteTmText(s0, Head(TM_TAG, s0.count, instrument), length);
      assert Slots() == slots;
      Finish();
      assert Slots() == slots;
    }

    /**
     * `TM` (XMLWriter_v5.cpp:374-396): with no telemetry bytes, `TMhouse`;
     * otherwise the frame announcing them and their binary section.
     */
    method TM()
      requires TmHeld() && messCount < COUNT_WRAP
      requires |txbuf| + |TmBody(messCount, instrument, Slots(), tmbufLen)| <= TXBUFSIZE
      modifies this`out, this`txbuf, this`rxCrc, this`messCount, this`tmbuf, this`tmbufLen
      ensures State() == Telemetry(old(State()), TmBody(old(messCount), instrument, Slots(), |old(tmbuf)|), old(tmbuf))
      ensures TmHeld() && tmbuf == []
    {
      if tmbufLen == 0 {
        TMhouse();
        return;
      }
      TmWithData();
    }

    /** `TM` once there are telemetry bytes: the frame, then `sendBin`. */
    method TmWithData()
      requires TmHeld() && tmbufLen > 0 && messCount < COUNT_WRAP
      requires |txbuf| + |TmBody(messCount, instrument, Slots(), tmbufLen)| <= TXBUFSIZE
      modifies this`out, this`txbuf, this`rxCrc, this`messCount, this`tmbuf, this`tmbufLen
      ensures State() == Telemetry(old(State()), TmBody(old(messCount), instrument, Slots(), |old(tmbuf)|), old(tmbuf))
      ensures TmHeld() && tmbuf == []
    {
      ghost var data := tmbuf;
      ghost var slots := Slots();
      TmFrame(tmbufLen);
      assert Slots() == slots;
      ghost var f := State();
      if tmbufLen != 0 {
        SendBin();
        assert Slots() == slots;
      }
      BinSectionOfData(data);
      assert State() == Print(f, Section(data));
    }

    /**
     * `TM_String` (XMLWriter_v5.cpp:398-423): a frame with one flag and a
     * message, and a binary section with no data.
     */
    method TMString(stateFlag: StateFlag, message: seq<byte>)
      requires messCount < COUNT_WRAP && |txbuf| + |TmStringBody(messCount, instrument, stateFlag, message)| <= TXBUFSIZE
      modifies this`out, this`txbuf, this`rxCrc, this`messCount
      ensures State() == Telemetry(old(State()), TmStringBody(old(messCount), instrument, stateFlag, message), [])
    {
      ghost var s0 := State();
      ghost var head := Head(TM_TAG, s0.count, instrument);
      WriteHead(TM_TAG);
      WriteStringText(s0, head, stateFlag, message);
      Finish();
      SendEmptyBin();
      EmptySectionAfterReset();
    }

    /** The text of a `TM_String` frame after its head. */
    method WriteStringText(ghost s0: Link, ghost head: seq<byte>, stateFlag: StateFlag, message: seq<byte>)
      requires State() == Bump(Emit(s0, head))
      requires |txbuf| + |Node(STATEFLAG1_TAG, StringFlagWord(stateFlag)) + Node(STATEMESS1_TAG, message)
        + Node(LENGTH_TAG, ZERO_WORD) + Close(TM_TAG)| <= TXBUFSIZE
      modifies this`txbuf, this`rxCrc
      ensures State() == Bump(Emit(s0, head + Node(STATEFLAG1_TAG, StringFlagWord(stateFlag)) + Node(STATEMESS1_TAG, message)
        + Node(LENGTH_TAG, ZERO_WORD) + Close(TM_TAG)))
    {
      ghost var a := Node(STATEFLAG1_TAG, StringFlagWord(stateFlag));
      if stateFlag == FINE {
        WriteNode(STATEFLAG1_TAG, FINE_WORD);
      } else if stateFlag == WARN {
        WriteNode(STATEFLAG1_TAG, WARN_WORD);
      } else if stateFlag == CRIT {
        WriteNode(STATEFLAG1_TAG, CRIT_WORD);
      } else {
        WriteNode(STATEFLAG1_TAG, UNKN_WORD);
      }
      EmitEmit(s0, head, a);
      WriteNode(STATEMESS1_TAG, message);
      EmitEmit(s0, head + a, Node(STATEMESS1_TAG, message));
      WriteNode(LENGTH_TAG, ZERO_WORD);
      EmitEmit(s0, head + a + Node(STATEMESS1_TAG, message), Node(LENGTH_TAG, ZERO_WORD));
      TagClose(TM_TAG);
      EmitEmit(s0, head + a + Node(STATEMESS1_TAG, message) + Node(LENGTH_TAG, ZERO_WORD), Close(TM_TAG));
    }

    /**
     * `TMhouse` (XMLWriter_v5.cpp:425-447): the frame announcing no
     * telemetry bytes, then `START`, the two bytes of `reset_crc` and `END`.
     * The low byte is `reset_crc & 0xFF`; the source's `&&` is a finding.
     */
    method TMhouse()
      requires messCount < COUNT_WRAP && |txbuf| + |TmBody(messCount, instrument, Slots(), 0)| <= TXBUFSIZE
      modifies this`out, this`txbuf, this`rxCrc, this`messCount
      ensures State() == Telemetry(old(State()), TmBody(old(messCount), instrument, Slots(), 0), [])
    {
      ghost var slots := Slots();
      TmFrame(0);
      assert Slots() == slots;
      HouseSection();
      assert Slots() == slots;
    }

    /** The section `TMhouse` prints: `START`, the two bytes of `reset_crc`, `END`, which is the section of no data. */
    method HouseSection()
      modifies this`out
      ensures State() == Print(old(State()), Section([]))
    {
      ghost var o := out;
      out := out + START_MARK;
      PrintCrcPair(CRC_POLY);
      out := out + END_MARK;
      PrintThree(o, START_MARK, CrcPair(CRC_POLY), END_MARK);
      EmptySectionAfterReset();
    }

    /**
     * `sendBin` (XMLWriter_v5.cpp:486-525): `START`, then the telemetry
     * bytes through `crcUpdate` from a reset register and out with whatever
     * was unsent, then the two bytes of their CRC and `END`.  The `uint8_t`
     * counter wraps for more than 255 bytes, but the loop ends only when the
     * buffer runs empty, so every byte goes.
     */
    method SendBin()
      requires TmHeld() && |txbuf| + |tmbuf| <= TXBUFSIZE && (txbuf != [] || tmbuf != [])
      modifies this`out, this`txbuf, this`rxCrc, this`tmbuf, this`tmbufLen
      ensures State() == Link(old(out) + BinSection(old(txbuf), old(tmbuf)), IDLE, old(messCount))
      ensures TmHeld() && tmbuf == []
    {
      ghost var data, pending, o := tmbuf, txbuf, out;
      CrcReset();
      out := out + START_MARK;
      ghost var s0 := State();
      ghost var k := 0;
      var i := 0;
      while i < tmbufLen
        invariant i < 256 && k <= |data| && tmbuf == data[k..] && tmbufLen == |data|
        invariant tmbufLen < 256 ==> i == k
        invariant |txbuf| + |tmbuf| <= TXBUFSIZE
        invariant State() == Emit(s0, data[..k])
        decreases |tmbuf|
      {
        if tmbuf != [] {
          var inchar := tmbuf[0];
          tmbuf := tmbuf[1..];
          PushNext(s0, data, k, inchar);
          k := k + 1;
        } else {
          break;
        }
        i := (i + 1) % 256;
      }
      assert data[..k] == data;
      tmbufLen := 0;
      var binCrc := rxCrc;
      SendBuf();
      CrcReset();
      PrintCrcPair(binCrc);
      out := out + END_MARK;
      PrintFour(o, START_MARK, pending + data, CrcPair(binCrc), END_MARK);
    }

    /** `sendEmptyBin` (XMLWriter_v5.cpp:527-551): `START`, the two bytes of the register, `END`; the register is reset. */
    method SendEmptyBin()
      modifies this`out, this`rxCrc
      ensures State() == Link(old(out) + EmptySection(old(rxCrc)), WriterSpec.Tx(old(txbuf), CRC_POLY), old(messCount))
    {
      var binCrc := rxCrc;
      CrcReset();
      ghost var o := out;
      out := out + START_MARK;
      PrintCrcPair(binCrc);
      out := out + END_MARK;
      PrintThree(o, START_MARK, CrcPair(binCrc), END_MARK);
    }

    /** `binCrc >> 8`, then `binCrc & 0xFF`, written straight to `_stream`. */
    method PrintCrcPair(binCrc: bv16)
      modifies this`out
      ensures out == old(out) + CrcPair(binCrc)
    {
      var send := (binCrc as int / 256) as byte;
      out := out + [send];
      send := (binCrc as int % 256) as byte;
      out := out + [send];
    }

    // -------------------------------------------------------------------
    // The telemetry buffer
    // -------------------------------------------------------------------

    /** `addTm(uint8_t)` (XMLWriter_v5.cpp:636-648): 1, and nothing added, when `tmbuf` is full. */
    method AddTmByte(inChar: byte) returns (err: nat)
      requires TmHeld()
      modifies this`tmbuf, this`tmbufLen
      ensures TmHeld() && err <= 1 && (tmbuf, err != 0) == AddBytes(old(tmbuf), [inChar])
    {
      if tmbufLen < TXBUFSIZE {
        tmbuf := tmbuf + [inChar];
        tmbufLen := tmbufLen + 1;
        return 0;
      } else {
        return 1;
      }
    }

    /** `addTm(uint16_t)` (XMLWriter_v5.cpp:650-673): both bytes, high first, or neither. */
    method AddTmWord(inWord: nat) returns (err: nat)
      requires inWord < 0x1_0000 && TmHeld()
      modifies this`tmbuf, this`tmbufLen
      ensures TmHeld() && err <= 1 && (tmbuf, err != 0) == AddBytes(old(tmbuf), BigEndian(inWord, 2))
    {
      BigEndianTwo(inWord);
      if tmbufLen + 1 < TXBUFSIZE {
        var outChar := (inWord / 256) as byte;
        tmbuf := tmbuf + [outChar];
        tmbufLen := tmbufLen + 1;
        outChar := (inWord % 256) as byte;
        tmbuf := tmbuf + [outChar];
        tmbufLen := tmbufLen + 1;
        assert tmbuf == old(tmbuf) + BigEndian(inWord, 2);
        return 0;
      } else {
        return 1;
      }
    }

    /** `addTm(uint32_t)` (XMLWriter_v5.cpp:675-707): all four bytes, highest first, or none. */
    method AddTmDouble(inDouble: nat) returns (err: nat)
      requires inDouble < 0x1_0000_0000 && TmHeld()
      modifies this`tmbuf, this`tmbufLen
      ensures TmHeld() && err <= 1 && (tmbuf, err != 0) == AddBytes(old(tmbuf), BigEndian(inDouble, 4))
    {
      BigEndianFour(inDouble);
      if tmbufLen + 3 < TXBUFSIZE {
        var outChar := (inDouble / 0x100_0000) as byte;
        tmbuf := tmbuf + [outChar];
        tmbufLen := tmbufLen + 1;
        outChar := (inDouble / 0x1_0000 % 256) as byte;
        tmbuf := tmbuf + [outChar];
        tmbufLen := tmbufLen + 1;
        outChar := (inDouble / 256 % 256) as byte;
        tmbuf := tmbuf + [outChar];
        tmbufLen := tmbufLen + 1;
        outChar := (inDouble % 256) as byte;
        tmbuf := tmbuf + [outChar];
        tmbufLen := tmbufLen + 1;
        assert tmbuf == old(tmbuf) + BigEndian(inDouble, 4);
        return 0;
      } else {
        return 1;
      }
    }

    /**
     * `addTm(String)` (XMLWriter_v5.cpp:709-721) with a counter as wide as
     * the string: the bytes one by one until one does not fit.  The
     * source's `uint8_t` counter is a finding.
     */
    method AddTmText(inStr: seq<byte>) returns (err: nat)
      requires TmHeld()
      modifies this`tmbuf, this`tmbufLen
      ensures TmHeld() && err <= 1 && (tmbuf, err != 0) == AddText(old(tmbuf), inStr)
    {
      err := 0;
      var i := 0;
      while i < |inStr|
        invariant i <= |inStr| && TmHeld() && tmbuf == old(tmbuf) + inStr[..i] && err == 0
      {
        err := AddTmByte(inStr[i]);
        if err != 0 {
          break;
        }
        assert inStr[..i + 1] == inStr[..i] + [inStr[i]];
        i := i + 1;
      }
      assert i == |inStr| ==> inStr[..i] == inStr;
    }

    /** `remTm` (XMLWriter_v5.cpp:748-752): the oldest telemetry byte, taken out. */
    method RemTm() returns (b: byte)
      requires TmHeld() && tmbufLen > 0
      modifies this`tmbuf, this`tmbufLen
      ensures TmHeld() && b == old(tmbuf)[0] && tmbuf == old(tmbuf)[1..]
    {
      tmbufLen := tmbufLen - 1;
      b := tmbuf[0];
      tmbuf := tmbuf[1..];
    }

    /** `clearTm` (XMLWriter_v5.cpp:754-758). */
    method ClearTm()
      modifies this`tmbuf, this`tmbufLen
      ensures TmHeld() && tmbuf == []
    {
      tmbuf := [];
      tmbufLen := 0;
    }

    /** `getTmLen` (XMLWriter_v5.cpp:760-763): the number of telemetry bytes held. */
    method GetTmLen() returns (n: nat)
      requires TmHeld()
      ensures n == |tmbuf| && n <= TXBUFSIZE
    {
      n := tmbufLen;
    }
  }
}
