# StrateoleXML in Dafny

This project models the XML link between a Strateole 2 instrument and the
Zephyr on-board computer. Three parts make up the model:

- **The reader** (`XMLReader_v5.cpp`) takes a byte stream one character at a
  time. It folds every byte into a CRC-16 register. It recognises frames of
  the following shape, with a tab before each field:

  ```
  <KIND>
  	<Name>value</Name>
  </KIND>
  <CRC>digits</CRC>
  ```

  It then parses the ten stored rows into message results. For a
  telecommand (`TC`) message it goes on to read the binary section
  `START … <two CRC bytes> END`.
- **The telecommand decoder** (`Telecommand.cpp`) walks a cursor over the
  binary section. The section holds statements of the form `id,p1,…,pn;`.
  Each element text is copied into a small buffer and converted with
  `sscanf`.
- **The writer** (`XMLWriter_v5.cpp`) builds frames in `txbuf` while
  folding every byte into its own CRC register. It prints the buffer, the
  `<CRC>` line and, for telemetry, a binary section. The telemetry bytes
  come from the `tmbuf` queue.

The modules are as follows:

- `Ascii` holds bytes, C strings, the decimal formatting of Arduino's
  `String(n)`/`print(n, DEC)` and the `sscanf` conversions.
- `Crc16` holds the shared CRC byte step. It is proved equal to the
  bit-serial and the table-driven CRC-16/0x1021, and the fold over a byte
  string is proved injective in its seed.
- `InstInfo` holds the instrument identifiers.
- `TelecommandSpec` and `Telecommand` model the decoder. The class
  `Telecommand.TelecommandBuffer` holds `tc_buffer`, `tc_length`, `num_tcs`,
  `curr_tc` and `tc_index`, and its methods are proved against the
  functions of `TelecommandSpec`.
- `ReaderSpec` and `Reader` model the reader. The class `Reader.XmlReader`
  holds the input stream, the CRC register, the rows and the message
  results. Every reading method ends in a state described by a
  `ReaderSpec` function of the stream it started from.
- `WriterSpec` and `Writer` model the writer. The class `Writer.XmlWriter`
  holds the output stream `out`, `txbuf`, `rx_crc`, `messCount`, the health
  slots and `tmbuf`. Every method states its new snapshot as a `WriterSpec`
  function of the old one.
- `RoundTrip` relates the two sides. A frame of readable fields written by
  the writer is read back field by field, with the CRC the reader
  computes.
- `Findings` holds the code as written where it departs from its evident
  intent (see "Findings").

Where the description of the system and the code disagree, the model
follows the code:

- The description says the reader checks the CRC it reads against the
  register. In the code that comparison is commented out
  (`XMLReader_v5.cpp:425`, `:477`), so the model reads the CRC and does not
  compare it.
- The description implies that the writer's frames can be read by the
  reader. This is not the case:
  - the writer's frame tags (`IMR`, `IMAck`, `TCAck`, `S`, `RA`, `TM`) are
    unknown to `MessageTypeOpen` (`RoundTrip.WriterFrameRejected`);
  - several of its field names do not fit a reader row
    (`RoundTrip.WriterLongNames`).
- The writer sends the binary-section CRC high byte first. Its comment says
  the low byte goes first, and the reader takes the low byte first
  (`RoundTrip.SectionReadBack`, `RoundTrip.SwappedAgrees`). The reader does
  not compare this value either.
- A GPS message whose `Quality` is 0 is refused, as the code does.

In six places the code departs from its evident intent (see "Findings").
There the main model follows the corrected behaviour, and the code as
written is kept in `Findings` beside it:

- the constructor resets the reader (`Reader.XmlReader.constructor`);
- a failed parse resets the reader (`Reader.XmlReader.GetNewMessage`);
- a field name is bounded by the row size 8, not by `MAX_MSG_FIELDS`, and a
  frame of more than ten fields fails (`Reader.XmlReader.ReadField`,
  `ReaderSpec.Fields`);
- a telecommand element is copied into at most `Window` bytes, not
  `Window + 1` (`Telecommand.TelecommandBuffer.ScanElement`);
- the section of no data ends in the CRC byte 0x21, not 1
  (`Writer.XmlWriter.HouseSection`);
- `addTm(String)` counts past 255 (`Writer.XmlWriter.AddTmText`).

Each member that follows a corrected behaviour is named under "Left out".

## Model

| member | source | states |
|---|---|---|
| Ascii.CView | XMLReader_v5.cpp:144-154 | what `strcmp`/`sscanf` see of a row: a NUL-free prefix of it, ending at its first NUL |
| Ascii.CViewOfCString | XMLReader_v5.cpp:144 | a row without a NUL is seen whole |
| Ascii.Decimal | XMLWriter_v5.cpp:276 | `String(n)`: a non-empty run of digits with no leading zero |
| Ascii.DecimalValue | XMLWriter_v5.cpp:276 | the digits of `Decimal(n)` have the value `n` |
| Ascii.DecimalLength | XMLWriter_v5.cpp:384 | a number below 10^k takes at most k digits (at least one) |
| Ascii.DigitPrefix | XMLReader_v5.cpp:145 | the length of the digit run `%u` consumes: all digits, and the next byte is not one |
| Ascii.DigitPrefixOfDigits | XMLReader_v5.cpp:145 | a digit run followed by a non-digit is consumed exactly |
| Ascii.ScanNumber | XMLReader_v5.cpp:145 | a `%u` conversion succeeds exactly when the text starts with a digit; it consumes at least one byte and the value is at most `UINT_MAX` |
| Ascii.ScanUnsigned | XMLReader_v5.cpp:199 | `sscanf(…, "%u") == 1` exactly when the text starts with a digit; the value is at most `UINT_MAX` |
| Ascii.ScanSigned | Telecommand.cpp:250-283 | `sscanf(…, "%d") == 1` exactly when the text starts with a digit or with a sign and a digit; the value is within 32 bits |
| Ascii.DecimalRoundTrip | XMLReader_v5.cpp:145 | `%u` reads back the count the writer formats, consuming exactly its digits |
| Ascii.TripleRoundTrip | XMLReader_v5.cpp:228-237 | `"%u<sep>%u<sep>%u"` reads back a triple written with a separator that is not a digit |
| Ascii.CountAppend | XMLReader_v5.cpp:452 | the `;` count of a section adds up over concatenation |
| Crc16.UpdateIsTable | XMLReader_v5.cpp:46-52 | the C byte step of the register is the table-driven CRC-16/0x1021 update |
| Crc16.UpdateIsBitwise | XMLWriter_v5.cpp:247-255 | the C byte step is the bit-serial CRC-16/0x1021 update |
| Crc16.BitwiseIsTable | XMLReader_v5.cpp:46-52 | the bit-serial and the table-driven updates agree on every register and byte |
| Crc16.EightShiftsIsTableStep | XMLReader_v5.cpp:46-52 | eight shift-and-xor steps equal the closed-form table step |
| Crc16.UnshiftShift | XMLReader_v5.cpp:46-52 | one bit step can be undone |
| Crc16.ShiftXorInjective | XMLReader_v5.cpp:46-52 | different registers stay different after one bit step |
| Crc16.EightShiftsInjective | XMLReader_v5.cpp:46-52 | different registers stay different after eight bit steps |
| Crc16.UpdateInjective | XMLReader_v5.cpp:46-52 | for a fixed byte, different registers give different registers |
| Crc16.FoldSnoc | XMLReader_v5.cpp:34-57 | folding one more byte is one more step |
| Crc16.FoldAppend | XMLReader_v5.cpp:34-57 | the register after `s + t` continues from the register after `s` |
| Crc16.FoldInjective | XMLReader_v5.cpp:59-61 | two different seeds never give the same register over the same bytes |
| InstInfo.InstId | XMLReader_v5.cpp:18 | an identifier is a C string of 1 to 7 bytes |
| InstInfo.InstIdInjective | XMLReader_v5.cpp:154 | different instruments have different identifiers |
| TelecommandSpec.Convert | Telecommand.cpp:99-100 | the conversion and range check of an element: a value in the getter's range exactly when `sscanf` converts the text to one |
| TelecommandSpec.BufferSize | Telecommand.cpp:73-78 | `int_buffer` holds the window plus the terminator |
| TelecommandSpec.RunEnd | Telecommand.cpp:81-87 | the copy loop stops within the window, the section, and at the first separator (corrected to `Window` bytes; see Findings) |
| TelecommandSpec.ReadElement | Telecommand.cpp:76-97 | an element's text fits its window; when delimited, the cursor is just past a `,` (or a `;` for the last element) (corrected window) |
| TelecommandSpec.ReadElementsWith | Telecommand.cpp:77-104 | the getter loop: at most `m` texts, exactly `m` on success, and the cursor just past a separator |
| TelecommandSpec.ReadElementsAccepted | Telecommand.cpp:99-101 | every kept text fits the window and converts |
| TelecommandSpec.ElementFits | Telecommand.cpp:73-89 | with the window of the comments, a text and its terminator fit `int_buffer` |
| TelecommandSpec.ClearEnd | Telecommand.cpp:322-325 | `ClearTC` stops just past the first `;` from the cursor, or at `tc_length` when there is none |
| TelecommandSpec.Skip | Telecommand.cpp:36-62 | a getter moves only the cursor, forward |
| TelecommandSpec.Dispatch | Telecommand.cpp:36-62 | the test dispatch reads parameters only for ids 1, 2 and 3 |
| TelecommandSpec.GetTelecommandF | Telecommand.cpp:19-65 | `NO_TCs` exactly when every counted statement was read; `TC_ERROR` exactly when the id does not parse, the statement then skipped; `READ_TC` with an id ≤ 255; `curr_tc` advances modulo 256 in every case |
| TelecommandSpec.Join | Telecommand.cpp:92 | the ground segment's statement text: each element ends with `,`, the last with `;` |
| TelecommandSpec.JoinHolds | Telecommand.cpp:77-104 | a joined statement laid in the buffer is found element by element |
| TelecommandSpec.ElementsRoundTrip | Telecommand.cpp:77-104 | the getter loop reads back, in order, the plain texts the ground segment joined, and ends just past the `;` |
| TelecommandSpec.DecimalIsPlain | Telecommand.cpp:78 | the decimal text of an in-range value fits the integer getter's window and converts back to it |
| TelecommandSpec.UnsignedRoundTrip | Telecommand.cpp:71-176 | the unsigned getters return the values written, in order, and leave the cursor past the statement |
| Telecommand.TelecommandBuffer.constructor | XMLReader_v5.h:104-107 | all fields zero, the buffer all NUL |
| Telecommand.TelecommandBuffer.ScanElement | Telecommand.cpp:78-96 | the copy loop and delimiter check end where `ReadElement` says (corrected window) |
| Telecommand.TelecommandBuffer.GetElements | Telecommand.cpp:77-104 | the getter loop ends where `ReadElements` says, the cursor only moving forward (corrected window) |
| Telecommand.TelecommandBuffer.ScanElements | Telecommand.cpp:77-104 | the loop over the elements ends where `ReadElementsWith` says (corrected window) |
| Telecommand.TelecommandBuffer.GetIntegers | Telecommand.cpp:71-283 | the integer getters' shared body: the texts `ReadElements` keeps, converted, each in range, `m` of them on success (corrected window) |
| Telecommand.TelecommandBuffer.GetUint8 | Telecommand.cpp:71-105 | `Get_uint8`: the elements `ReadElements` finds, each value in [0, 255], `m` of them on success (corrected window of 3) |
| Telecommand.TelecommandBuffer.GetUint16 | Telecommand.cpp:107-141 | `Get_uint16`: values in [0, 65535] (corrected window of 5) |
| Telecommand.TelecommandBuffer.GetUint32 | Telecommand.cpp:143-176 | `Get_uint32`: values in [0, `UINT_MAX`] (corrected window of 10) |
| Telecommand.TelecommandBuffer.GetInt8 | Telecommand.cpp:178-212 | `Get_int8`: values in [-128, 127] (corrected window of 4) |
| Telecommand.TelecommandBuffer.GetInt16 | Telecommand.cpp:214-248 | `Get_int16`: values in [-32768, 32767] (corrected window of 6) |
| Telecommand.TelecommandBuffer.GetInt32 | Telecommand.cpp:250-283 | `Get_int32`: values within 32 bits (corrected window of 11) |
| Telecommand.TelecommandBuffer.GetFloat | Telecommand.cpp:285-319 | `Get_float`: texts of at most 15 bytes that `%f` converts (corrected window) |
| Telecommand.TelecommandBuffer.ClearTC | Telecommand.cpp:322-325 | the cursor moves to `ClearEnd`, forward and within the section |
| Telecommand.TelecommandBuffer.GetTelecommand | Telecommand.cpp:19-65 | status, id and new fields as `GetTelecommandF` gives them |
| Telecommand.TelecommandBuffer.SkipParameters | Telecommand.cpp:36-62 | the parameters read for ids 1, 2 and 3 (one and two `uint8_t`, two floats) are consumed, any other id reads nothing |
| ReaderSpec.KindName | XMLReader_v5.h:29-35 | each kind's tag is a C string of 2 to 5 bytes |
| ReaderSpec.KindOf | XMLReader_v5.cpp:304-321 | the `strcmp` chain never yields "no message" |
| ReaderSpec.SpecificChar | XMLReader_v5.cpp:485-496 | `ReadSpecificChar` succeeds exactly when the next byte is the one expected, and takes that byte whenever there is one |
| ReaderSpec.LeadThen | XMLReader_v5.cpp:498-556 | the tag read shared by both tag readers: started exactly when the lead byte matches, at most `size - 1` bytes kept, at least one byte taken |
| ReaderSpec.Until | XMLReader_v5.cpp:506-524 | a bounded read up to a stop byte keeps at most `limit` bytes |
| ReaderSpec.OpeningTag | XMLReader_v5.cpp:498-525 | `ReadOpeningTag`: `<`, at most `size - 1` bytes, `>` |
| ReaderSpec.ClosingTag | XMLReader_v5.cpp:529-556 | `ReadClosingTag`: `/`, at most `size - 1` bytes, `>` |
| ReaderSpec.Field | XMLReader_v5.cpp:341-379 | `ReadField` consumes part of the stream; a name shorter than a row, a value of at most 15 bytes |
| ReaderSpec.FieldValue | XMLReader_v5.cpp:350-375 | a field value keeps at most 15 bytes |
| ReaderSpec.Rows | XMLReader_v5.h:157-159 | the ten rows of `fields` or `fieldValues`, row i holding the i-th stored text |
| ReaderSpec.Fields | XMLReader_v5.cpp:86-99 | the field loop stores at most ten rows; on success names and values pair up and the next byte is not a tab (corrected: row size 8 and a bound of ten fields; see Findings) |
| ReaderSpec.DropJunk | XMLReader_v5.cpp:287-300 | bytes before the first `<` are skipped, none of them a `<` |
| ReaderSpec.TypeOpen | XMLReader_v5.cpp:285-324 | `MessageTypeOpen` keeps a tag shorter than a row |
| ReaderSpec.TypeClose | XMLReader_v5.cpp:326-339 | `MessageTypeClose` reads no text and consumes part of the stream (the accepted input is in `RoundTrip.CloseReadBack`) |
| ReaderSpec.VerifyCrc | XMLReader_v5.cpp:381-426 | `ReadVerifyCRC`: on success a value of at most 0xFFFF; on failure nothing past what was folded |
| ReaderSpec.CrcDigits | XMLReader_v5.cpp:394-409 | at most five CRC digits are kept |
| ReaderSpec.ParseGps | XMLReader_v5.cpp:211-279 | a GPS message parses only with the ten expected names, a date and time within their ranges, and a non-zero quality kept modulo 256 |
| ReaderSpec.ParseMessage | XMLReader_v5.cpp:139-208 | success needs `Msg` with a `%u` id of at most 0xFFFF, and, except for GPS, `Inst` naming this instrument; a TC length is at most `MAX_TC_SIZE` |
| ReaderSpec.ParseKind | XMLReader_v5.cpp:156-205 | each kind succeeds only with its own third field name; only the six non-GPS kinds succeed |
| ReaderSpec.ParseModeOf | XMLReader_v5.cpp:157-175 | conversely, an IM message with `Mode` and a mode code parses and sets exactly that mode |
| ReaderSpec.ParseAckOf | XMLReader_v5.cpp:176-190 | conversely, an ack message with `Ack` and `ACK` or `NAK` parses and sets exactly that ack |
| ReaderSpec.ParseLengthOf | XMLReader_v5.cpp:194-202 | conversely, a TC message with `Length` and a length of at most `MAX_TC_SIZE` parses and sets exactly that length |
| ReaderSpec.ParseMessageOf | XMLReader_v5.cpp:139-156 | conversely, a non-GPS message with `Msg` and an id of at most 0xFFFF and `Inst` naming this instrument parses as its third row says, with that id |
| ReaderSpec.ParseGpsOf | XMLReader_v5.cpp:211-279 | conversely, the expected names, a date and time in range, six readings and a non-zero quality parse to exactly that GPS data |
| ReaderSpec.ParseGpsMessageOf | XMLReader_v5.cpp:139-150 | conversely, a GPS message with `Msg` and an id and well-formed rows parses, with that id and its GPS data |
| ReaderSpec.BinarySection | XMLReader_v5.cpp:428-478 | `ReadBinarySection` consumes part of the stream |
| ReaderSpec.SectionBody | XMLReader_v5.cpp:441-477 | at most `tc_length` data bytes after `START` |
| ReaderSpec.SectionTail | XMLReader_v5.cpp:464-475 | the two CRC bytes make a value of at most 0xFFFF |
| ReaderSpec.StoreSection | XMLReader_v5.cpp:448-459 | the data is stored at the start of `tc_buffer` and the bytes after it are untouched |
| ReaderSpec.SectionState | XMLReader_v5.cpp:457-461 | after a section the telecommand fields are in range, and NUL-terminated when it was read |
| ReaderSpec.FrameText | XMLReader_v5.cpp:79-106 | on success a known kind and at most ten paired rows |
| ReaderSpec.TextBody | XMLReader_v5.cpp:85-106 | the fields and closing tag keep the kind and at most ten paired rows |
| ReaderSpec.AfterText | XMLReader_v5.cpp:108-129 | after the text part: a success keeps a known kind, `tc_length` matches the telecommand fields, and `crc_result` is the one saved after the text |
| ReaderSpec.AfterCrc | XMLReader_v5.cpp:117-129 | after the CRC tag: the same three facts |
| ReaderSpec.GetNewMessage | XMLReader_v5.cpp:73-133 | a successful read leaves a known kind, and `tc_length` matches the telecommand fields |
| ReaderSpec.AfterParse | XMLReader_v5.cpp:119-129 | a successful TC read leaves a NUL-terminated section, with cursor and statement count at 0 |
| ReaderSpec.RowsStore | XMLReader_v5.cpp:370-372 | storing a field in the next row is appending it to the rows |
| ReaderSpec.UntilOf | XMLReader_v5.cpp:506-524 | text then the stop byte is read back as that text |
| ReaderSpec.LeadThenOf | XMLReader_v5.cpp:498-525 | `<name>` is read back as `name` |
| ReaderSpec.FieldOf | XMLReader_v5.cpp:341-379 | a readable field as the writer emits it is read back, name and value |
| ReaderSpec.FieldsOf | XMLReader_v5.cpp:86-99 | up to ten readable fields are read back, in order |
| ReaderSpec.TooManyFieldsRejected | XMLReader_v5.cpp:86-99 | with a bound on the rows, an eleventh field fails the frame after ten rows are stored |
| ReaderSpec.FieldsFull | XMLReader_v5.cpp:86-99 | once the readable fields have taken the last free rows, a further tab fails the frame with every one of them stored |
| ReaderSpec.DropJunkSuffix | XMLReader_v5.cpp:287-300 | skipping junk leaves a suffix of the stream |
| Reader.XmlReader.constructor | XMLReader_v5.cpp:27-31 | a reader in the reset state (corrected; see Findings), with zeroed results and telecommand fields |
| Reader.XmlReader.ReadNextChar | XMLReader_v5.cpp:34-57 | a byte is taken exactly when the stream is not empty, and folded into the register |
| Reader.XmlReader.ResetReader | XMLReader_v5.cpp:59-71 | the register back to `crc_poly`, no rows, an empty `message_buff` |
| Reader.XmlReader.ReadSpecificChar | XMLReader_v5.cpp:485-496 | reads as `SpecificChar` says |
| Reader.XmlReader.ReadUntil | XMLReader_v5.cpp:506-524 | the bounded loop reads as `Until` says, folding every byte |
| Reader.XmlReader.ReadOpeningTag | XMLReader_v5.cpp:498-525 | reads as `OpeningTag` says |
| Reader.XmlReader.ReadClosingTag | XMLReader_v5.cpp:529-556 | reads as `ClosingTag` says |
| Reader.XmlReader.ReadTag | XMLReader_v5.cpp:498-556 | the shared tag loop reads as `LeadThen` says, folding every byte |
| Reader.XmlReader.ReadLiteral | XMLReader_v5.cpp:435-439 | reads a fixed text as `Literal` says |
| Reader.XmlReader.MessageTypeOpen | XMLReader_v5.cpp:285-324 | junk skipped, the tag read and its kind stored, as `TypeOpen` says |
| Reader.XmlReader.ReadField | XMLReader_v5.cpp:341-379 | the row stored and the stream left as `Field` says, with the row size 8 (corrected; the code passes 10) |
| Reader.XmlReader.ReadFieldAfterTab | XMLReader_v5.cpp:86-99 | one turn of the field loop: a byte taken, and on success one more row stored in order (corrected row size and bound) |
| Reader.XmlReader.ReadFieldValue | XMLReader_v5.cpp:350-375 | the value and closing tag read as `FieldValue` says |
| Reader.XmlReader.MessageTypeClose | XMLReader_v5.cpp:326-339 | reads as `TypeClose` says |
| Reader.XmlReader.ReadVerifyCrc | XMLReader_v5.cpp:381-426 | reads as `VerifyCrc` says |
| Reader.XmlReader.ReadCrcTags | XMLReader_v5.cpp:389-413 | reads as `CrcDigits` says |
| Reader.XmlReader.ReadFields | XMLReader_v5.cpp:85-99 | the rows and the stream as `Fields` gives them (corrected row size and bound) |
| Reader.XmlReader.ParseMessage | XMLReader_v5.cpp:139-208 | verdict and results as `ReaderSpec.ParseMessage` gives them |
| Reader.XmlReader.ParseKindField | XMLReader_v5.cpp:156-205 | verdict and results as `ParseKind` gives them |
| Reader.XmlReader.ParseGpsMessage | XMLReader_v5.cpp:211-279 | verdict and GPS data as `ParseGps` gives them |
| Reader.XmlReader.ReadBinarySection | XMLReader_v5.cpp:428-478 | buffer, count and stream as `BinarySection` gives them |
| Reader.XmlReader.CopySection | XMLReader_v5.cpp:448-456 | the copy loop stores the data and counts its `;` |
| Reader.XmlReader.ReadSectionBody | XMLReader_v5.cpp:441-477 | the data, the CRC bytes and `END`, as `SectionBody` says, with the telecommand fields as `SectionState` gives them |
| Reader.XmlReader.ReadSectionTail | XMLReader_v5.cpp:464-475 | the two CRC bytes and `END`, as `SectionTail` says |
| Reader.XmlReader.GetNewMessage | XMLReader_v5.cpp:73-133 | verdict, stream, results and telecommand fields as `ReaderSpec.GetNewMessage` gives them; the reader is reset after every read |
| Reader.XmlReader.ReadMessage | XMLReader_v5.cpp:73-130 | the read before the final reset, as `ReaderSpec.GetNewMessage` gives it |
| Reader.XmlReader.ReadText | XMLReader_v5.cpp:79-106 | the opening tag, the fields and the closing tag, as `FrameText` says |
| Reader.XmlReader.ReadTextBody | XMLReader_v5.cpp:85-106 | the fields and the closing tag, as `TextBody` says |
| Reader.XmlReader.ReadAfterText | XMLReader_v5.cpp:108-121 | the CRC tag and what follows, as `AfterText` says |
| Reader.XmlReader.ReadAfterCrc | XMLReader_v5.cpp:117-129 | the parse and what follows, as `AfterCrc` says |
| Reader.XmlReader.ReadSectionIfTc | XMLReader_v5.cpp:123-129 | the binary section of a parsed `TC` message, as `AfterParse` says |
| WriterSpec.Feed | XMLWriter_v5.cpp:214-243 | the bytes `crcUpdate(data)` feeds: the first byte always, then up to the first NUL, at most `limit` |
| WriterSpec.CTextFeeds | XMLWriter_v5.cpp:231-243 | the text of a C string is what the 100-byte feed takes from it in memory |
| WriterSpec.CTextOfCString | XMLWriter_v5.cpp:231-243 | a C string is fed whole up to 100 bytes, and the empty string feeds one NUL |
| WriterSpec.Trim | XMLWriter_v5.cpp:287-288 | `String::trim`: no white space left at either end |
| WriterSpec.TrimInstId | XMLWriter_v5.cpp:285-290 | trimming leaves every instrument identifier as it is |
| WriterSpec.ArrayText | XMLWriter_v5.cpp:145-151 | the char-array value up to its first NUL, at most `length` bytes |
| WriterSpec.NextCount | XMLWriter_v5.cpp:278-281 | the message count stays in [1, 65533] |
| WriterSpec.AdvanceCycles | XMLWriter_v5.cpp:278-281 | any number of frames leaves the count in [1, 65533] |
| WriterSpec.PushPush | XMLWriter_v5.cpp:245-262 | pushing bytes one after another is pushing them together, the register folded over all of them |
| WriterSpec.EmitEmit | XMLWriter_v5.cpp:99-181 | two emissions in a row are one emission of both texts |
| WriterSpec.HealthNodesInTurn | XMLWriter_v5.cpp:568-633 | the health nodes are slot 1's, then slot 2's, then slot 3's |
| WriterSpec.CrcPair | XMLWriter_v5.cpp:512-516 | the two section bytes, high first, make the register |
| WriterSpec.BinSectionOfData | XMLWriter_v5.cpp:486-525 | with `txbuf` empty, `sendBin` sends the section of its data |
| WriterSpec.EmptySectionAfterReset | XMLWriter_v5.cpp:527-551 | `sendEmptyBin` after `writeCRC` sends the section of no data |
| WriterSpec.BigEndian | XMLWriter_v5.cpp:650-707 | a number as `w` bytes |
| WriterSpec.ValueBigEndian | XMLWriter_v5.cpp:650-707 | the bytes `addTm` queues, highest first, have the value queued |
| WriterSpec.AddNumberReadBack | XMLWriter_v5.cpp:636-707 | a numeric `addTm` fails exactly when the bytes do not fit, then adds nothing; otherwise the queue grows by bytes of that value |
| WriterSpec.AddText | XMLWriter_v5.cpp:709-721 | `addTm(String)`: fails exactly when the string does not fit; the queue only grows, by the whole string when it fits (corrected counter; see Findings) |
| Writer.XmlWriter.constructor | XMLWriter_v5.cpp:45-56 | an idle writer: empty `txbuf`, register at `reset_crc`, empty telemetry queue |
| Writer.XmlWriter.Reset | XMLWriter_v5.cpp:58-62 | `txbuf` emptied and the register reset |
| Writer.XmlWriter.SetStateFlags | XMLWriter_v5.cpp:64-73 | only slot `num` (1 to 3) changes |
| Writer.XmlWriter.SetStateFlagValue | XMLWriter_v5.cpp:76-85 | only slot `num` (1 to 3) changes |
| Writer.XmlWriter.SetStateDetails | XMLWriter_v5.cpp:88-97 | only slot `num` (1 to 3) changes |
| Writer.XmlWriter.CrcUpdate | XMLWriter_v5.cpp:245-262 | the byte pushed to `txbuf` and folded into the register |
| Writer.XmlWriter.CrcUpdateUpTo | XMLWriter_v5.cpp:221-227 | the loop pushes exactly the bytes `Feed` takes |
| Writer.XmlWriter.CrcUpdateBytes | XMLWriter_v5.cpp:214-229 | 1 and nothing pushed for a zero length, else the fed bytes and 0 |
| Writer.XmlWriter.CrcUpdateText | XMLWriter_v5.cpp:231-243 | the bytes of the string, up to 100 |
| Writer.XmlWriter.CrcReset | XMLWriter_v5.cpp:264-267 | the register back to `reset_crc` |
| Writer.XmlWriter.CrcValue | XMLWriter_v5.cpp:269-272 | the register |
| Writer.XmlWriter.TagOpen | XMLWriter_v5.cpp:99-105 | `<tag>\n` pushed |
| Writer.XmlWriter.TagClose | XMLWriter_v5.cpp:107-118 | `</tag>\n` pushed |
| Writer.XmlWriter.WriteNode | XMLWriter_v5.cpp:120-137 | `\t<tag>value</tag>\n` pushed |
| Writer.XmlWriter.WriteNodeArray | XMLWriter_v5.cpp:139-157 | the node with the array's text pushed |
| Writer.XmlWriter.WriteNodeByte | XMLWriter_v5.cpp:159-171 | the node with the one byte as its value pushed |
| Writer.XmlWriter.WriteCrc | XMLWriter_v5.cpp:183-195 | the `<CRC>` line of the register printed outside `txbuf`, then the register reset |
| Writer.XmlWriter.SendBuf | XMLWriter_v5.cpp:197-212 | `txbuf` printed in order and emptied |
| Writer.XmlWriter.MsgNode | XMLWriter_v5.cpp:274-283 | the `Msg` node of the count pushed, the count advanced and returned |
| Writer.XmlWriter.InstNode | XMLWriter_v5.cpp:285-290 | the `Inst` node of the instrument pushed |
| Writer.XmlWriter.WriteHead | XMLWriter_v5.cpp:294-296 | `tagOpen`, `msgNode`, `instNode`: the head pushed and the count advanced |
| Writer.XmlWriter.WriteVersions | XMLWriter_v5.cpp:297-299 | the three version nodes pushed after the head |
| Writer.XmlWriter.WriteAck | XMLWriter_v5.cpp:311-315 | the `Ack` node pushed, `ACK` or `NACK` |
| Writer.XmlWriter.AckFrame | XMLWriter_v5.cpp:305-319 | the acknowledgement frame sent with its CRC line |
| Writer.XmlWriter.Finish | XMLWriter_v5.cpp:301-302 | `sendBuf` then `writeCRC`: the text and its CRC line sent, the register reset |
| Writer.XmlWriter.IMR | XMLWriter_v5.cpp:292-303 | the `IMR` frame sent, with its CRC line |
| Writer.XmlWriter.IMAck | XMLWriter_v5.cpp:305-319 | the `IMAck` frame with `ACK` or `NACK` |
| Writer.XmlWriter.TCAck | XMLWriter_v5.cpp:553-566 | the `TCAck` frame with `ACK` or `NACK` |
| Writer.XmlWriter.S | XMLWriter_v5.cpp:321-329 | the `S` frame |
| Writer.XmlWriter.RA | XMLWriter_v5.cpp:331-348 | the `RA` frame for RACHUTS; for any other instrument nothing changes |
| Writer.XmlWriter.SendTmBody | XMLWriter_v5.cpp:568-633 | the three health slots pushed in turn |
| Writer.XmlWriter.WriteFirstFlag | XMLWriter_v5.cpp:570-585 | the first slot's flag node pushed |
| Writer.XmlWriter.WriteOtherFlag | XMLWriter_v5.cpp:590-625 | the second or third slot's flag node pushed |
| Writer.XmlWriter.WriteDetails | XMLWriter_v5.cpp:586-628 | a slot's details node pushed |
| Writer.XmlWriter.WriteFirstSlot | XMLWriter_v5.cpp:570-588 | slot 1's nodes pushed |
| Writer.XmlWriter.WriteOtherSlot | XMLWriter_v5.cpp:590-628 | slot 2's or slot 3's nodes pushed |
| Writer.XmlWriter.WriteTmText | XMLWriter_v5.cpp:382-387 | the health slots, the `Length` node and the closing tag pushed after the head |
| Writer.XmlWriter.TmFrame | XMLWriter_v5.cpp:380-392 | the `TM` text announcing `length` bytes, sent with its CRC line |
| Writer.XmlWriter.TM | XMLWriter_v5.cpp:374-396 | with telemetry: the frame, then the section of the queued bytes, the queue emptied; without: `TMhouse` |
| Writer.XmlWriter.TmWithData | XMLWriter_v5.cpp:381-395 | the frame announcing the queued bytes, then their section; the queue emptied |
| Writer.XmlWriter.TMString | XMLWriter_v5.cpp:398-423 | the `TM` frame with one flag word and the message, then the empty section |
| Writer.XmlWriter.WriteStringText | XMLWriter_v5.cpp:404-418 | the flag word, the message, a `Length` of 0 and the closing tag pushed after the head |
| Writer.XmlWriter.TMhouse | XMLWriter_v5.cpp:425-447 | the `TM` frame announcing no data, then the section of no data (corrected; see Findings) |
| Writer.XmlWriter.HouseSection | XMLWriter_v5.cpp:437-446 | `START`, the two bytes of `reset_crc`, `END`: the section of no data (corrected; see Findings) |
| Writer.XmlWriter.SendBin | XMLWriter_v5.cpp:486-525 | `START`, whatever `txbuf` held, the queued bytes, their CRC high byte first, `END`; the queue emptied |
| Writer.XmlWriter.SendEmptyBin | XMLWriter_v5.cpp:527-551 | `START`, the register's two bytes, `END`; the register reset |
| Writer.XmlWriter.PrintCrcPair | XMLWriter_v5.cpp:512-516 | the two CRC bytes printed, high byte first |
| Writer.XmlWriter.AddTmByte | XMLWriter_v5.cpp:636-648 | one byte queued, or 1 and nothing when full |
| Writer.XmlWriter.AddTmWord | XMLWriter_v5.cpp:650-673 | both bytes, high first, or neither |
| Writer.XmlWriter.AddTmDouble | XMLWriter_v5.cpp:675-707 | all four bytes, highest first, or none |
| Writer.XmlWriter.AddTmText | XMLWriter_v5.cpp:709-721 | the string's bytes as `AddText` gives them (corrected counter) |
| Writer.XmlWriter.RemTm | XMLWriter_v5.cpp:748-752 | the oldest queued byte, taken out |
| Writer.XmlWriter.ClearTm | XMLWriter_v5.cpp:754-758 | the queue emptied |
| Writer.XmlWriter.GetTmLen | XMLWriter_v5.cpp:760-763 | the number of queued bytes, at most `TXBUFSIZE` |
| RoundTrip.NodeIsField | XMLWriter_v5.cpp:120-132 | a `writeNode` is a field in the reader's grammar |
| RoundTrip.ValueText | XMLWriter_v5.cpp:126 | a short C-string value is fed whole and seen whole |
| RoundTrip.NodeReadBack | XMLReader_v5.cpp:341-379 | `ReadField` reads a written node back, name and value |
| RoundTrip.NodesAreFields | XMLReader_v5.cpp:86-99 | written nodes of fitting names and values are readable fields |
| RoundTrip.LongNameRejected | XMLReader_v5.cpp:498-525 | a written node whose name has 8 or more bytes fails `ReadField` |
| RoundTrip.WriterLongName | XMLWriter_v5.cpp:297-299 | `SWVersion`, `ZProtocolVersion`, `StateFlag1-3` and `StateMess1-3` are 8 bytes or longer |
| RoundTrip.WriterLongNames | XMLWriter_v5.cpp:292-303 | those nodes cannot be read |
| RoundTrip.KindOfName | XMLReader_v5.cpp:304-321 | a kind's tag is recognised as that kind |
| RoundTrip.OpenReadBack | XMLReader_v5.cpp:285-324 | a written opening tag is read back with its kind |
| RoundTrip.CloseReadBack | XMLReader_v5.cpp:326-339 | a written closing tag of the same kind is accepted |
| RoundTrip.FrameTextReadBack | XMLReader_v5.cpp:79-106 | the text of a frame of readable fields is read back, kind, names and values |
| RoundTrip.FrameSent | XMLWriter_v5.cpp:183-212 | a frame goes out as its text followed by the `<CRC>` line of the text's CRC |
| RoundTrip.CrcDigitsOfLine | XMLReader_v5.cpp:394-409 | the CRC digits the writer prints are read back |
| RoundTrip.CrcLineReadBack | XMLReader_v5.cpp:381-426 | the writer's CRC line is read back with the register's value |
| RoundTrip.FrameReadBack | XMLReader_v5.cpp:73-116 | a written frame is read back, and the CRC read equals the CRC the reader folds over the same bytes |
| RoundTrip.WriterKindsUnknown | XMLReader_v5.cpp:304-321 | none of the writer's frame tags is a kind the reader knows |
| RoundTrip.WriterFrameRejected | XMLReader_v5.cpp:80-83 | a frame the writer sends fails `GetNewMessage` at its opening tag |
| RoundTrip.LiteralOf | XMLReader_v5.cpp:435-439 | a fixed text is read back |
| RoundTrip.Swapped | XMLReader_v5.cpp:464-475 | the value the reader assembles from two bytes sent high first, at most 0xFFFF |
| RoundTrip.SectionReadBack | XMLReader_v5.cpp:428-478 | a section of the writer is read back: its data, and the CRC with its bytes swapped |
| RoundTrip.SwappedAgrees | XMLWriter_v5.cpp:508-516 | the swapped value equals the register exactly when its two bytes are equal |
| Findings.FirstCrcAsWritten | XMLReader_v5.cpp:27-31 | the first frame's `crc_result`, from 0, never equals the one from `crc_poly` |
| Findings.FirstCrcDiffers | XMLReader_v5.cpp:27-31 | for every frame whose text is read, the `crc_result` the model keeps is not the first frame's as written |
| Findings.FieldAsWritten | XMLReader_v5.cpp:348 | `ReadField` as written takes names of up to 9 bytes |
| Findings.FieldOverflowsRow | XMLReader_v5.cpp:348 | a name of 8 or 9 bytes is taken, and with its terminator overflows an 8-byte row |
| Findings.SwVersionOverflowsRow | XMLWriter_v5.cpp:298 | the writer's `SWVersion` node is such a name |
| Findings.FieldsAsWritten | XMLReader_v5.cpp:86-99 | the field loop as written, with no bound on the rows |
| Findings.FieldsAsWrittenOf | XMLReader_v5.cpp:86-99 | as written, every readable field gets a row, past the tenth |
| Findings.ElevenFields | XMLReader_v5.cpp:86-99 | eleven fields: more than ten rows as written, a failed frame corrected |
| Findings.ElementAsWritten | Telecommand.cpp:76-84 | the copy loop as written, with `Window + 1` bytes |
| Findings.ElementOverflows | Telecommand.cpp:81-89 | as written, an undelimited run fills `int_buffer` with no room for the terminator |
| Findings.Uint8Overflow | Telecommand.cpp:71-105 | `0001;` makes `Get_uint8` write `int_buffer[4]` |
| Findings.LogicalAnd | XMLWriter_v5.cpp:442 | C's `&&` of two integers: 1 exactly when both are non-zero |
| Findings.HouseSectionAsWritten | XMLWriter_v5.cpp:436-446 | `START`, 0x10, 0x01, `END`: the section `TMhouse` sends as written |
| Findings.HouseSectionDiffers | XMLWriter_v5.cpp:442 | the second CRC byte is 1, where the low byte is 0x21 |
| Findings.AddTextAsWritten | XMLWriter_v5.cpp:709-721 | `addTm(String)` with its `uint8_t` counter |
| Findings.LongTextFills | XMLWriter_v5.cpp:713-719 | a string of 256 bytes or more makes the counter wrap until the queue is full, and fails |
| Findings.LongTextDiffers | XMLWriter_v5.cpp:709-721 | 256 bytes fit an empty queue, yet the loop as written fails |
| Findings.ShortTextAsWritten | XMLWriter_v5.cpp:709-721 | for strings under 256 bytes, as written and corrected agree |
| Findings.LeftoverAsWritten | XMLReader_v5.cpp:73-133 | what a call as written leaves for the next: at most ten rows, and something only after the frame's text was read |
| Findings.LeftoverOnlyOnFailure | XMLReader_v5.cpp:119 | whenever the reader as written keeps rows or a register, the corrected read has failed |
| Findings.LeftoverAfterFailedParse | XMLReader_v5.cpp:119 | a failed parse leaves the frame's rows counted |
| Findings.NoMsgRejected | XMLReader_v5.cpp:144 | a first row other than `Msg` fails the parse |
| Findings.StaleRowsExample | XMLReader_v5.cpp:119 | an `SW` frame with only `<Id>1</Id>` leaves one stale row for the next frame |

## Left out

- Timeouts: the reader's `millis()` deadlines are modelled as the end of the input. A byte that would arrive after the deadline is a byte the model never sees.
- `rx_stream->flush()` (XMLReader_v5.cpp:92 and after) concerns output on Arduino streams. It is not modelled as draining the input.
- The log stream (`_log`), `Serial` prints in `GetTelecommand`, and the `#ifdef LOG` branches are output only, and are left out.
- Floating point is left out:
  - `Get_float` and the GPS readings are checked for whether `%f` converts them, not for the float value;
  - `addTmTemp`, `addTmGPS` and `addTmVolt` (XMLWriter_v5.cpp:723-746) are not part of this model, because their helpers `tempFloat2Bin`, `latLongFloat2Bin` and `voltInt2Short` live in a file that is not part of this model.
- The commented-out `TM(bin, len)` and `sendBin(bin, len)` (XMLWriter_v5.cpp:350-372, 449-484) are not modelled.
- Arduino `String` is modelled as its bytes. `String(n)` is the decimal text. `c_str()` of a string without NUL is that string.
- The null check of `crcUpdate(uint8_t*, length)` (XMLWriter_v5.cpp:216) has no counterpart: a byte sequence cannot be null.
- Writer.XmlWriter.CrcUpdate: requires room in `txbuf`. The overwrite of the oldest byte by a full `CircularBuffer` is not modelled. The same holds for the frame methods built on it, which require their text to fit.
- Writer.XmlWriter.RemTm: requires a non-empty queue. `shift()` on an empty `CircularBuffer` is undefined behaviour in the library.
- WriterSpec.Feed: the empty C string is taken to be followed by a NUL. `crcUpdate(const char*)` reads the byte after the terminator of an empty string.
- Writer.XmlWriter.TMString: the message is taken as a C string.
- Writer.XmlWriter.MsgNode: `messCount` is a global shared by all writers in the source, and a field of the writer here.
- Writer.XmlWriter.CrcUpdate: `txbuf` is a file-scope global (XMLWriter_v5.cpp:33) shared by all writers in the source, and a field of the writer here. The same holds for every method that fills or drains it.
- Ascii.ScanNumber: the `%u` conversion without white space before the number or a leading sign, as for `Ascii.ScanUnsigned`.
- Ascii.ScanUnsigned: white space before the number and a leading sign, both of which `sscanf("%u")` accepts, are not modelled. Every text the writer produces starts with a digit. Ascii.ScanSigned is the same for white space.
- Reader.XmlReader.GetNewMessage: resets the reader after a failed parse, which the code does not do (see Findings). The code as written is `Findings.LeftoverAsWritten`.
- Reader.XmlReader.constructor: resets the reader, which the code does not do (see Findings).
- Telecommand.TelecommandBuffer.GetTelecommand: requires the telecommand fields to be `Terminated`: a NUL at `tc_buffer[tc_length]` and the cursor within the section. The constructor and every successful binary section establish this (`ReaderSpec.AfterParse`), and the getters keep it. The code has no such guard. After a TC frame whose section fails, `tc_length` is already the new length (XMLReader_v5.cpp:194-202), while the cursor and counters are reset only after `START` (XMLReader_v5.cpp:447-449) and the NUL is written only after a full section (XMLReader_v5.cpp:453-456); the delimiter check (Telecommand.cpp:89) then reads the stale byte at `tc_buffer[tc_length]` and may move the cursor past `tc_length`. Calls in that state are not modelled. The same requirement holds for `SkipParameters`, for `ClearTC` (which requires the cursor within the section), and for `ScanElement`, `GetElements`, `ScanElements`, `GetIntegers` and the seven getters `GetUint8` to `GetFloat`.
- TelecommandSpec.RunEnd: the code's copy loop runs while `tc_index <= max_index` (Telecommand.cpp:81), so it copies up to `Window + 1` bytes and then writes the terminator one byte past its buffer. The model copies at most `Window` bytes. As written, `0001;` read by `Get_uint8` copies four digits and yields 1, where the model fails the element; for a run of digits followed by a separator, the code's cursor can end one byte further on. The code as written is `Findings.Uint8Overflow`.
- TelecommandSpec.ReadElement: built on `RunEnd`, so it is the corrected window of `Window` bytes, not the code's `Window + 1`.
- Telecommand.TelecommandBuffer.ScanElement: the corrected window of `Window` bytes (see `TelecommandSpec.RunEnd`).
- Telecommand.TelecommandBuffer.GetElements: the corrected window of `Window` bytes (see `TelecommandSpec.RunEnd`).
- Telecommand.TelecommandBuffer.ScanElements: the corrected window of `Window` bytes (see `TelecommandSpec.RunEnd`).
- Telecommand.TelecommandBuffer.GetIntegers: the corrected window of `Window` bytes (see `TelecommandSpec.RunEnd`).
- Telecommand.TelecommandBuffer.GetUint8: reads at most 3 bytes per element, where the code reads up to 4 (see `TelecommandSpec.RunEnd`). `SkipParameters`, `GetTelecommand` and `TelecommandSpec.GetTelecommandF` inherit this for ids 1 and 2.
- Telecommand.TelecommandBuffer.GetUint16: reads at most 5 bytes per element, where the code reads up to 6 (see `TelecommandSpec.RunEnd`).
- Telecommand.TelecommandBuffer.GetUint32: reads at most 10 bytes per element, where the code reads up to 11 (see `TelecommandSpec.RunEnd`).
- Telecommand.TelecommandBuffer.GetInt8: reads at most 4 bytes per element, where the code reads up to 5 (see `TelecommandSpec.RunEnd`).
- Telecommand.TelecommandBuffer.GetInt16: reads at most 6 bytes per element, where the code reads up to 7 (see `TelecommandSpec.RunEnd`).
- Telecommand.TelecommandBuffer.GetInt32: reads at most 11 bytes per element, where the code reads up to 12 (see `TelecommandSpec.RunEnd`).
- Telecommand.TelecommandBuffer.GetFloat: reads at most 15 bytes per element, where the code reads up to 16 (see `TelecommandSpec.RunEnd`). `SkipParameters`, `GetTelecommand` and `TelecommandSpec.GetTelecommandF` inherit this for id 3.
- ReaderSpec.Fields: the code's field loop has no bound on the number of fields and writes past its ten rows (XMLReader_v5.cpp:86-99); the model fails the frame on an eleventh field. Each row's name is bounded by the row size 8, where the code passes `MAX_MSG_FIELDS`, 10 (XMLReader_v5.cpp:348), so a name of 8 or 9 bytes, which the code stores past its row before failing on the 8-byte closing tag (XMLReader_v5.cpp:369), fails at once here. `FrameText`, `TextBody`, `GetNewMessage` and `ReadMessage` inherit both corrections. The code as written is `Findings.FieldOverflowsRow` and `Findings.ElevenFields`.
- ReaderSpec.Field: the name is bounded by the row size 8, not by the 10 the code passes (see `ReaderSpec.Fields`).
- Reader.XmlReader.ReadField: the name is bounded by the row size 8, not by the 10 the code passes, and a free row is required, which the corrected field loop ensures (see `ReaderSpec.Fields`).
- Reader.XmlReader.ReadFieldAfterTab: the corrected row size and the bound of ten fields (see `ReaderSpec.Fields`).
- Reader.XmlReader.ReadFields: the corrected row size and the bound of ten fields (see `ReaderSpec.Fields`).
- WriterSpec.AddText: the code counts the string's bytes with a `uint8_t` (XMLWriter_v5.cpp:712), which wraps at 256, so for a string of 256 bytes or more the loop starts over at the first byte and runs on until the queue is full and the call fails. The model counts without bound. The code as written is `Findings.AddTextAsWritten`.
- Writer.XmlWriter.AddTmText: the corrected counter (see `WriterSpec.AddText`).
- Writer.XmlWriter.HouseSection: the code sends `reset_crc && 0x00FF`, that is 1, as the section's second byte (XMLWriter_v5.cpp:442); the model sends `reset_crc & 0x00FF`, 0x21. The code as written is `Findings.HouseSectionAsWritten`.
- TelecommandSpec.GetTelecommandF: reads the parameters of ids 1, 2 and 3 with the corrected windows (see `Telecommand.TelecommandBuffer.GetUint8` and `GetFloat`), and is defined on `Terminated` fields only (see `Telecommand.TelecommandBuffer.GetTelecommand`).
- Writer.XmlWriter.TM: on an empty queue ends in the corrected section of no data (see `Writer.XmlWriter.HouseSection`).
- Writer.XmlWriter.TMhouse: ends in the corrected section of no data (see `Writer.XmlWriter.HouseSection`). `Writer.XmlWriter.TM` inherits this on an empty queue.
- The reader never compares the CRC it reads with its register, because that comparison is commented out in the source (XMLReader_v5.cpp:425, 477). The model reads and returns the value only.

## Findings

| source | as written | input that shows it | evidently intended | confidence | as-written member | corrected member |
|---|---|---|---|---|---|---|
| XMLReader_v5.cpp:27-31 | the constructor never calls `ResetReader`, so `working_crc` starts at 0 | any first frame | the first frame's CRC starts from `crc_poly`, as every later one does; since the comparison is commented out, the only effect is the first frame's `crc_result` | not executed | Findings.FirstCrcDiffers | Reader.XmlReader.constructor |
| XMLReader_v5.cpp:348 | `ReadOpeningTag(fields[num_fields], MAX_MSG_FIELDS)` allows 9 name bytes into an 8-byte row | a field named `SWVersion` | the row size, 8, as the bound, so a name of 8 bytes or more fails the field (`RoundTrip.LongNameRejected`) | not executed | Findings.FieldOverflowsRow | Reader.XmlReader.ReadField |
| XMLReader_v5.cpp:86-99 | the field loop never checks `num_fields` against `MAX_MSG_FIELDS` | a frame of eleven fields | fail the frame rather than write past the rows (`ReaderSpec.TooManyFieldsRejected`) | not executed | Findings.ElevenFields | ReaderSpec.Fields |
| Telecommand.cpp:78-89 | `tc_index <= max_index` copies `Window + 1` bytes, and the terminator then lands past `int_buffer` | section `0001;` read by `Get_uint8` | at most `Window` bytes, so the terminator fits, and every value in range still reads back (`TelecommandSpec.UnsignedRoundTrip`) | not executed | Findings.Uint8Overflow | Telecommand.TelecommandBuffer.ScanElement |
| XMLWriter_v5.cpp:442 | `reset_crc && 0x00FF` sends 1 as the low CRC byte | any `TMhouse` call | `reset_crc & 0x00FF`, that is 0x21, the section every other sender of no data sends (`WriterSpec.EmptySectionAfterReset`) | not executed | Findings.HouseSectionDiffers | Writer.XmlWriter.HouseSection |
| XMLWriter_v5.cpp:713 | the `uint8_t` loop counter wraps for strings of 256 bytes or more | a 256-byte string on an empty queue | every byte of the string, or an error only when it does not fit (`WriterSpec.AddText`) | not executed | Findings.LongTextDiffers | Writer.XmlWriter.AddTmText |
| XMLReader_v5.cpp:119 | a failed parse returns without `ResetReader`, so its rows and register carry over | an `SW` frame whose only field is `<Id>1</Id>` | reset on every way out, as every other failure does | not executed | Findings.StaleRowsExample | Reader.XmlReader.GetNewMessage |
