/**
 * The telecommand fields of the reader and the parsing methods of
 * Telecommand.cpp that walk them.
 *
 * In the C++ code these are members of `XMLReader`; here they form their own
 * class, which the reader owns and fills from the binary section of a TC
 * message.  Each method is proved against the functions of `TelecommandSpec`.
 */
module Telecommand {
  import opened Ascii
  import opened TelecommandSpec

  class TelecommandBuffer {
    /** `tc_buffer`: MAX_TC_SIZE + 1 bytes. */
    var buffer: seq<byte>
    /** `tc_length`: the declared length of the last binary section. */
    var length: nat
    /** `num_tcs`: the number of `;` in the last binary section. */
    var numTcs: nat
    /** `curr_tc`: the number of statements `GetTelecommand` has been asked for. */
    var currTc: nat
    /** `tc_index`: the cursor. */
    var index: nat

    function State(): TcState
      reads this
    {
      TcState(buffer, length, numTcs, currTc, index)
    }

    ghost predicate Valid()
      reads this
    {
      Layout(State())
    }

    /** The zero-initialised members of a new reader (XMLReader_v5.h:104-107, 163). */
    constructor ()
      ensures Terminated(State())
      ensures buffer == seq(MAX_TC_SIZE + 1, i => NUL) && length == 0 && numTcs == 0 && currTc == 0 && index == 0
    {
      buffer := seq(MAX_TC_SIZE + 1, i => NUL);
      length, numTcs, currTc, index := 0, 0, 0, 0;
    }

    /**
     * The copy loop and the delimiter check of one element, with at most
     * `span` bytes of text (Telecommand.cpp:78-96).
     */
    method ScanElement(span: nat, last: bool) returns (delimited: bool, text: seq<byte>)
      requires Terminated(State())
      modifies this`index
      ensures Terminated(State())
      ensures Element(delimited, text, index) == ReadElement(buffer, length, old(index), span, last)
    {
      var start := index;
      var maxIndex := index + span;
      text := [];
      while index < maxIndex && index < length
        invariant start <= index <= length && index <= maxIndex
        invariant text == buffer[start..index]
        invariant RunEnd(buffer, length, start, span) == RunEnd(buffer, length, index, maxIndex - index)
      {
        if IsSeparator(buffer[index]) {
          break;
        }
        text := text + [buffer[index]];
        index := index + 1;
      }
      if buffer[index] == COMMA || (buffer[index] == SEMICOLON && last) {
        index := index + 1;
        delimited := true;
      } else {
        delimited := false;
      }
    }

    /**
     * The `for` loop shared by the getters: read `m` elements, keeping each
     * text whose delimiter and conversion succeed, and stop at the first
     * failure (Telecommand.cpp:77-104).
     */
    method GetElements(c: Converter, m: nat) returns (ok: bool, texts: seq<seq<byte>>)
      requires Terminated(State())
      modifies this`index
      ensures Terminated(State()) && old(index) <= index
      ensures Elements(ok, texts, index) == ReadElements(buffer, length, old(index), c, m)
    {
      AcceptableMembers(c);
      ok, texts := ScanElements(c, Acceptable(c), m);
    }

    /**
     * The loop of `GetElements`, for a set `acc` that holds exactly the texts
     * the conversion of `c` accepts.
     */
    method ScanElements(c: Converter, ghost acc: iset<seq<byte>>, m: nat) returns (ok: bool, texts: seq<seq<byte>>)
      requires Terminated(State())
      requires forall text {:trigger Accepts(c, text)} :: text in acc <==> Accepts(c, text)
      modifies this`index
      ensures Terminated(State()) && old(index) <= index
      ensures Elements(ok, texts, index) == ReadElementsWith(buffer, length, old(index), Window(c), acc, m)
    {
      ScannedStart(buffer, length, index, Window(c), acc, m);
      ghost var start := index;
      texts := [];
      ok := true;
      while |texts| < m
        invariant Terminated(State())
        invariant Scanned(buffer, length, start, index, Window(c), acc, m, texts)
      {
        var kept;
        ok, kept := ScanNext(c, acc, start, m, texts);
        if !ok {
          return;
        }
        texts := kept;
      }
      ScannedDone(buffer, length, start, index, Window(c), acc, m, texts);
    }

    /** One turn of the loop: read an element, and keep its text when it is delimited and converts. */
    method ScanNext(c: Converter, ghost acc: iset<seq<byte>>, ghost start: nat, m: nat, texts: seq<seq<byte>>)
      returns (ok: bool, kept: seq<seq<byte>>)
      requires Terminated(State()) && |texts| < m
      requires forall text {:trigger Accepts(c, text)} :: text in acc <==> Accepts(c, text)
      requires Scanned(buffer, length, start, index, Window(c), acc, m, texts)
      modifies this`index
      ensures Terminated(State())
      ensures ok ==> Scanned(buffer, length, start, index, Window(c), acc, m, kept) && |kept| == |texts| + 1
      ensures !ok ==> ReadElementsWith(buffer, length, start, Window(c), acc, m) == Elements(false, texts, index)
    {
      ghost var here := index;
      var delimited, text := ScanElement(Window(c), |texts| == m - 1);
      var accepted := Admit(c, acc, text);
      ok := delimited && accepted;
      if ok {
        ScannedAdvance(buffer, length, start, here, Window(c), acc, m, texts, Element(delimited, text, index));
        kept := texts + [text];
      } else {
        ScannedFail(buffer, length, start, here, Window(c), acc, m, texts, Element(delimited, text, index));
        kept := texts;
      }
    }

    /** The `sscanf` test of one element text. */
    method Admit(c: Converter, ghost acc: iset<seq<byte>>, text: seq<byte>) returns (accepted: bool)
      requires forall text {:trigger Accepts(c, text)} :: text in acc <==> Accepts(c, text)
      ensures accepted <==> text in acc
    {
      accepted := Accepts(c, text);
    }

    /** The values of a successful integer read, or of the elements read before a failure. */
    method GetIntegers(k: IntKind, m: nat) returns (ok: bool, values: seq<int>)
      requires Terminated(State())
      modifies this`index
      ensures Terminated(State()) && old(index) <= index
      ensures var r := ReadElements(buffer, length, old(index), Integer(k), m);
              ok == r.ok && index == r.index && |values| == |r.texts|
              && forall i | 0 <= i < |values| :: Convert(k, r.texts[i]) == Some(values[i])
      ensures ok ==> |values| == m
      ensures forall i | 0 <= i < |values| :: InRange(k, values[i])
    {
      var texts;
      ghost var start := index;
      ok, texts := GetElements(Integer(k), m);
      ReadElementsAccepted(buffer, length, start, Integer(k), m);
      assert forall i | 0 <= i < |texts| :: texts[i] in texts;
      values := Values(k, texts);
    }

    /** `Get_uint8` (Telecommand.cpp:71-105): elements of at most 3 characters, each at most 255. */
    method GetUint8(m: nat) returns (ok: bool, values: seq<int>)
      requires Terminated(State())
      modifies this`index
      ensures Terminated(State()) && old(index) <= index
      ensures var r := ReadElements(buffer, length, old(index), Integer(U8), m);
              ok == r.ok && index == r.index && |values| == |r.texts|
              && forall i | 0 <= i < |values| :: Convert(U8, r.texts[i]) == Some(values[i])
      ensures ok ==> |values| == m
      ensures forall i | 0 <= i < |values| :: 0 <= values[i] <= 255
    {
      ok, values := GetIntegers(U8, m);
    }

    /** `Get_uint16` (Telecommand.cpp:107-141): elements of at most 5 characters, each at most 65535. */
    method GetUint16(m: nat) returns (ok: bool, values: seq<int>)
      requires Terminated(State())
      modifies this`index
      ensures Terminated(State()) && old(index) <= index
      ensures var r := ReadElements(buffer, length, old(index), Integer(U16), m);
              ok == r.ok && index == r.index && |values| == |r.texts|
              && forall i | 0 <= i < |values| :: Convert(U16, r.texts[i]) == Some(values[i])
      ensures ok ==> |values| == m
      ensures forall i | 0 <= i < |values| :: 0 <= values[i] <= 65535
    {
      ok, values := GetIntegers(U16, m);
    }

    /** `Get_uint32` (Telecommand.cpp:143-176): elements of at most 10 characters, no range check beyond `%u`. */
    method GetUint32(m: nat) returns (ok: bool, values: seq<int>)
      requires Terminated(State())
      modifies this`index
      ensures Terminated(State()) && old(index) <= index
      ensures var r := ReadElements(buffer, length, old(index), Integer(U32), m);
              ok == r.ok && index == r.index && |values| == |r.texts|
              && forall i | 0 <= i < |values| :: Convert(U32, r.texts[i]) == Some(values[i])
      ensures ok ==> |values| == m
      ensures forall i | 0 <= i < |values| :: 0 <= values[i] <= UINT_MAX
    {
      ok, values := GetIntegers(U32, m);
    }

    /** `Get_int8` (Telecommand.cpp:178-212): elements of at most 4 characters, each in [-128, 127]. */
    method GetInt8(m: nat) returns (ok: bool, values: seq<int>)
      requires Terminated(State())
      modifies this`index
      ensures Terminated(State()) && old(index) <= index
      ensures var r := ReadElements(buffer, length, old(index), Integer(I8), m);
              ok == r.ok && index == r.index && |values| == |r.texts|
              && forall i | 0 <= i < |values| :: Convert(I8, r.texts[i]) == Some(values[i])
      ensures ok ==> |values| == m
      ensures forall i | 0 <= i < |values| :: -128 <= values[i] <= 127
    {
      ok, values := GetIntegers(I8, m);
    }

    /** `Get_int16` (Telecommand.cpp:214-248): elements of at most 6 characters, each in [-32768, 32767]. */
    method GetInt16(m: nat) returns (ok: bool, values: seq<int>)
      requires Terminated(State())
      modifies this`index
      ensures Terminated(State()) && old(index) <= index
      ensures var r := ReadElements(buffer, length, old(index), Integer(I16), m);
              ok == r.ok && index == r.index && |values| == |r.texts|
              && forall i | 0 <= i < |values| :: Convert(I16, r.texts[i]) == Some(values[i])
      ensures ok ==> |values| == m
      ensures forall i | 0 <= i < |values| :: -32768 <= values[i] <= 32767
    {
      ok, values := GetIntegers(I16, m);
    }

    /** `Get_int32` (Telecommand.cpp:250-283): elements of at most 11 characters, no range check beyond `%d`. */
    method GetInt32(m: nat) returns (ok: bool, values: seq<int>)
      requires Terminated(State())
      modifies this`index
      ensures Terminated(State()) && old(index) <= index
      ensures var r := ReadElements(buffer, length, old(index), Integer(I32), m);
              ok == r.ok && index == r.index && |values| == |r.texts|
              && forall i | 0 <= i < |values| :: Convert(I32, r.texts[i]) == Some(values[i])
      ensures ok ==> |values| == m
      ensures forall i | 0 <= i < |values| :: INT_MIN <= values[i] <= INT_MAX
    {
      ok, values := GetIntegers(I32, m);
    }

    /**
     * `Get_float` (Telecommand.cpp:285-319): elements of at most 15
     * characters that `%f` accepts.  The float values are not modelled; the
     * texts are returned instead.
     */
    method GetFloat(m: nat) returns (ok: bool, texts: seq<seq<byte>>)
      requires Terminated(State())
      modifies this`index
      ensures Terminated(State()) && old(index) <= index
      ensures Elements(ok, texts, index) == ReadElements(buffer, length, old(index), Float, m)
      ensures ok ==> |texts| == m
      ensures forall i | 0 <= i < |texts| :: |texts[i]| <= 15 && ScansFloat(texts[i])
    {
      ghost var start := index;
      ok, texts := GetElements(Float, m);
      ReadElementsAccepted(buffer, length, start, Float, m);
      assert forall i | 0 <= i < |texts| :: texts[i] in texts;
    }

    /**
     * `ClearTC` (Telecommand.cpp:322-325): skip the rest of an errant
     * statement, through its `;`.
     */
    method ClearTC()
      requires Layout(State())
      modifies this`index
      ensures Layout(State())
      ensures index == ClearEnd(buffer, length, old(index))
      ensures old(index) <= index <= length
    {
      while index < length
        invariant old(index) <= index <= length
        invariant ClearEnd(buffer, length, old(index)) == ClearEnd(buffer, length, index)
        decreases length - index
      {
        var b := buffer[index];
        index := index + 1;
        if b == SEMICOLON {
          break;
        }
      }
    }

    /**
     * `GetTelecommand` (Telecommand.cpp:19-65): read the id of the next
     * statement and the parameters of the three test commands.
     */
    method GetTelecommand() returns (status: TcStatus, id: Option<int>)
      requires Terminated(State())
      modifies this`index, this`currTc
      ensures TcResult(status, State(), id) == GetTelecommandF(old(State()))
      ensures status == NO_TCs <==> old(currTc) == numTcs
      ensures currTc == (old(currTc) + 1) % 256
      ensures old(index) <= index
    {
      ghost var t0 := State();
      var atEnd := currTc == numTcs;
      currTc := (currTc + 1) % 256;
      ghost var t1 := State();
      if atEnd {
        return NO_TCs, None;
      }
      var ok, ids := GetUint8(1);
      if !ok {
        ClearTC();
        return TC_ERROR, None;
      }
      var tc := ids[0];
      ghost var t2 := State();
      assert t2 == t1.(index := ReadElements(buffer, length, t0.index, Integer(U8), 1).index);
      SkipParameters(tc);
      return READ_TC, Some(tc);
    }

    /** The test dispatch of `GetTelecommand` (Telecommand.cpp:36-62): read and drop the parameters of ids 1, 2 and 3. */
    method SkipParameters(tc: int)
      requires Terminated(State())
      modifies this`index
      ensures State() == Dispatch(old(State()), tc)
    {
      if tc == 1 {
        var _, _ := GetUint8(1);
      } else if tc == 2 {
        var _, _ := GetUint8(2);
      } else if tc == 3 {
        var _, _ := GetFloat(2);
      }
    }
  }
}
