/**
 * The decoded form of one APRS-IS line, as the handlers read it. Decoding
 * itself belongs to an external parser and is not modelled: a handler is
 * given `Option<Packet>`, with `None` standing for a decode error.
 */
module Packets {
  import opened Wrappers
  import opened Text

  /** A callsign with its SSID; an empty SSID is not printed. */
  datatype Callsign = Callsign(call: string, ssid: string)

  /** `Display` of a callsign: `CALL` or `CALL-SSID`. */
  function CallsignText(c: Callsign): string {
    if c.ssid == "" then c.call else c.call + "-" + c.ssid
  }

  /** One entry of the digipeater path. */
  datatype Via =
    | ViaCallsign(callsign: Callsign, heard: bool)
    | ViaQConstruct(construct: string)

  /** How an entry of the path is printed in the acknowledgement: the `*`
      marker of a heard digipeater is dropped. */
  function ViaText(v: Via): string {
    match v
    case ViaCallsign(c, _) => CallsignText(c)
    case ViaQConstruct(q) => q
  }

  /** The information field, as far as the handlers look into it. */
  datatype Payload =
    | Message(addressee: string, text: string, id: Option<string>)
    | OtherData

  datatype Packet = Packet(
    from: Callsign,
    to: Option<Callsign>,
    via: seq<Via>,
    dataType: char,
    payload: Payload)
}
