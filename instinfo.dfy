/**
 * The instruments of the Strateole 2 gondola and the identifiers they go by on
 * the wire (InstInfo.h:13-21, XMLReader_v5.cpp:18).
 */
module InstInfo {
  import opened Ascii

  datatype Instrument = FLOATS | RACHUTS | LPC | RATS

  /** `inst_ids[inst]`: the text of the `Inst` field that names the instrument. */
  function InstId(inst: Instrument): (id: seq<byte>)
    ensures 0 < |id| < 8 && IsCString(id)
  {
    match inst
    case FLOATS => Bytes("FLOATS")
    case RACHUTS => Bytes("RACHUTS")
    case LPC => Bytes("LPC")
    case RATS => Bytes("RATS")
  }

  /** Different instruments have different identifiers, so the `Inst` check tells them apart. */
  lemma InstIdInjective(a: Instrument, b: Instrument)
    requires a != b
    ensures InstId(a) != InstId(b)
  {
  }
}
