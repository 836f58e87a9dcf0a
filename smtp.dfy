/**
 * The e-mail gateway extension: an APRS message addressed to an allowed
 * recipient, from an allowed sender, whose text is `<email> <content>`,
 * is sent as an e-mail through the configured SMTP relay, and answered
 * with an APRS acknowledgement when it carried a message number. The
 * decoder and the mail library are outside the model: the decoded packet
 * is an input, and each library step's success is given by a `Mailer`.
 */
module Smtp {
  import opened Wrappers
  import opened Text
  import opened Packets
  import opened Extensions

  datatype Config = Config(
    enabled: bool,
    smtpServer: string,
    smtpUsername: string,
    smtpPassword: string,
    allowedSenders: seq<string>,
    allowedRecipients: seq<string>,
    allowedReceiverEmails: seq<string>,
    fromEmail: string)

  function DefaultConfig(): Config {
    Config(false, "smtp.example.com:25", "smtp@example.com", "smtp_password", ["N0CALL"], ["EMAIL"], [],
           "https://github.com/ta3pks/aprs-agent <aprs@nodomain.com>")
  }

  datatype ConfigError = NoSenderOrRecipient

  /** `SmtpEmailer::new`, with its panic as an error. */
  function New(cfg: Config): (r: Result<(), ConfigError>)
    ensures r.Ok? <==> |cfg.allowedSenders| > 0 && |cfg.allowedRecipients| > 0
  {
    if cfg.allowedSenders == [] || cfg.allowedRecipients == [] then Err(NoSenderOrRecipient) else Ok(())
  }

  lemma DefaultsAccepted()
    ensures New(DefaultConfig()).Ok?
  {
  }

  /** `list.iter().any(|s| s.to_uppercase() == x.to_uppercase())`. */
  function AnyMatch(list: seq<string>, x: string): (r: bool)
    ensures r <==> exists i | 0 <= i < |list| :: SameIgnoringCase(list[i], x)
  {
    if list == [] then false
    else if Upper(list[0]) == Upper(x) then true
    else
      var r := AnyMatch(list[1..], x);
      assert forall i | 0 < i < |list| :: list[i] == list[1..][i - 1];
      r
  }

  // ---------------------------------------------------------------------
  // The gate chain

  /** Why `handle` gives up, in the order the checks are made. */
  datatype Stop =
    | Undecodable | NotMessageType | NoDestination | SenderNotAllowed | NotAMessage
    | RecipientNotAllowed | NoSpaceInBody | ReceiverEmailNotAllowed
    | InvalidFromEmail | InvalidReceiverEmail | BuildFailed
    | InvalidServer | RelayFailed | InvalidPort | SendFailed

  /** A message that passed every allow-list. */
  datatype Request = Request(
    to: Callsign, sender: Callsign, via: seq<Via>, email: string, content: string, id: Option<string>)

  /** The checks `handle` makes before it touches the mail library. The
      addressee is compared after upper-casing both sides; the source makes
      that same comparison twice in a row, which the model makes once. */
  function Admit(cfg: Config, decoded: Option<Packet>): (r: Result<Request, Stop>)
    ensures r.Ok? <==>
      && decoded.Some?
      && decoded.value.dataType == ':'
      && decoded.value.to.Some?
      && (exists i | 0 <= i < |cfg.allowedSenders| :: SameIgnoringCase(cfg.allowedSenders[i], decoded.value.from.call))
      && decoded.value.payload.Message?
      && (exists i | 0 <= i < |cfg.allowedRecipients| ::
            SameIgnoringCase(cfg.allowedRecipients[i], decoded.value.payload.addressee))
      && ' ' in decoded.value.payload.text
      && (cfg.allowedReceiverEmails == [] || AnyMatch(cfg.allowedReceiverEmails, SplitOnce(decoded.value.payload.text, ' ').value.0))
    ensures r.Ok? ==>
      && r.value.email + " " + r.value.content == decoded.value.payload.text
      && ' ' !in r.value.email
      && r.value.to == decoded.value.to.value
      && r.value.sender == decoded.value.from
      && r.value.via == decoded.value.via
      && r.value.id == decoded.value.payload.id
  {
    match decoded
    case None => Err(Undecodable)
    case Some(p) =>
      if p.dataType != ':' then Err(NotMessageType)
      else if p.to.None? then Err(NoDestination)
      else if !AnyMatch(cfg.allowedSenders, p.from.call) then Err(SenderNotAllowed)
      else if !p.payload.Message? then Err(NotAMessage)
      else if !AnyMatch(cfg.allowedRecipients, p.payload.addressee) then Err(RecipientNotAllowed)
      else
        match SplitOnce(p.payload.text, ' ')
        case None => Err(NoSpaceInBody)
        case Some((email, content)) =>
          if cfg.allowedReceiverEmails != [] && !AnyMatch(cfg.allowedReceiverEmails, email) then
            Err(ReceiverEmailNotAllowed)
          else Ok(Request(p.to.value, p.from, p.via, email, content, p.payload.id))
  }

  /** The receiver is the text before the first space, the content all of
      the rest, spaces included. */
  lemma BodySplit(email: string, content: string)
    requires ' ' !in email
    ensures SplitOnce(email + " " + content, ' ') == Some((email, content))
  {
    SplitOnceAt(email, ' ', content);
  }

  // ---------------------------------------------------------------------
  // The relay setting

  /** `smtp_server.split_once(':')`: host before the first colon, port after. */
  function SplitServer(server: string): (r: Option<(string, string)>)
    ensures r.Some? <==> ':' in server
    ensures r.Some? ==> r.value.0 + ":" + r.value.1 == server && ':' !in r.value.0
  {
    SplitOnce(server, ':')
  }

  /** `u16::from_str`: an optional `+`, then at least one digit, with a
      value that fits 16 bits. */
  function ParsePort(s: string): (r: Option<nat>)
    ensures r.Some? ==> r.value < 0x1_0000
    ensures r.Some? ==> var d := if |s| > 0 && s[0] == '+' then s[1..] else s; ParseNat(d) == r
    ensures var d := if |s| > 0 && s[0] == '+' then s[1..] else s;
      ParseNat(d).Some? && ParseNat(d).value < 0x1_0000 ==> r == ParseNat(d)
  {
    var digits := if |s| > 0 && s[0] == '+' then s[1..] else s;
    match ParseNat(digits)
    case None => None
    case Some(n) => if n < 0x1_0000 then Some(n) else None
  }

  /** Every 16-bit port, written in decimal with or without `+`, parses to
      itself; a larger number does not parse. */
  lemma PortRoundTrip(p: nat)
    ensures p < 0x1_0000 ==> ParsePort(NatToString(p)) == Some(p) && ParsePort("+" + NatToString(p)) == Some(p)
    ensures p >= 0x1_0000 ==> ParsePort(NatToString(p)) == None
  {
    NatRoundTrip(p);
    assert ("+" + NatToString(p))[1..] == NatToString(p);
  }

  lemma DefaultServer()
    ensures SplitServer(DefaultConfig().smtpServer) == Some(("smtp.example.com", "25"))
  {
    var host := "smtp.example.com";
    assert ':' !in host;
    assert DefaultConfig().smtpServer == host + [':'] + "25";
    SplitOnceAt(host, ':', "25");
  }

  // ---------------------------------------------------------------------
  // The acknowledgement

  /** The path as printed: each entry's text, joined by commas. */
  function PathText(via: seq<Via>): string {
    Join(seq(|via|, i requires 0 <= i < |via| => ViaText(via[i])), ",")
  }

  /** The message part of the acknowledgement: the addressee field, padded
      to nine characters, then `:ack` and the message number. */
  function AckMessage(addressee: string, id: string): string {
    PadRight(addressee, 9) + ":ack" + id + "\n"
  }

  /** The acknowledgement line: sent in the name of the message's
      destination, with the sender in the destination field, the path the
      message came by, and the sender again as the message's addressee. */
  function AckLine(r: Request, id: string): string {
    CallsignText(r.to) + ">" + CallsignText(r.sender) + "," + PathText(r.via) + "::"
      + AckMessage(CallsignText(r.sender), id)
  }

  function TrimEnd(s: string): (r: string)
    ensures r <= s
  {
    if s != [] && s[|s| - 1] == ' ' then TrimEnd(s[..|s| - 1]) else s
  }

  /** Reads an acknowledgement message: the addressee without its padding,
      and the message number. */
  function ParseAckMessage(m: string): Option<(string, string)> {
    if |m| >= 14 && m[9..13] == ":ack" && m[|m| - 1] == '\n' then Some((TrimEnd(m[..9]), m[13..|m| - 1]))
    else None
  }

  lemma {:induction false} TrimPadding(s: string, n: nat)
    requires s == [] || s[|s| - 1] != ' '
    ensures TrimEnd(s + seq(n, _ => ' ')) == s
  {
    if n > 0 {
      var t := s + seq(n, _ => ' ');
      assert t[..|t| - 1] == s + seq(n - 1, _ => ' ');
      TrimPadding(s, n - 1);
    } else {
      assert s + seq(0, _ => ' ') == s;
    }
  }

  /** For an addressee of at most nine characters that does not end in a
      space, the acknowledgement carries the addressee in a field exactly
      nine characters wide, and a reader recovers it and the message number. */
  lemma AckRoundTrip(addressee: string, id: string)
    requires |addressee| <= 9 && (addressee == [] || addressee[|addressee| - 1] != ' ')
    ensures |PadRight(addressee, 9)| == 9
    ensures ParseAckMessage(AckMessage(addressee, id)) == Some((addressee, id))
  {
    var m := AckMessage(addressee, id);
    var pad := seq(9 - |addressee|, _ => ' ');
    assert PadRight(addressee, 9) == addressee + pad;
    assert m[..9] == addressee + pad;
    assert m[9..13] == ":ack";
    assert m[13..|m| - 1] == id;
    TrimPadding(addressee, 9 - |addressee|);
  }

  /** The acknowledgement ends with its message part and a single newline. */
  lemma AckLineShape(r: Request, id: string)
    ensures var a := AckLine(r, id); var m := AckMessage(CallsignText(r.sender), id);
      |a| > |m| && a[|a| - |m|..] == m && a[|a| - 1] == '\n'
  {
  }

  // ---------------------------------------------------------------------
  // One call of `handle`

  /** The outcome of each step of the mail library. */
  datatype Mailer = Mailer(
    fromParses: bool,
    receiverParses: string -> bool,
    builds: bool,
    relays: string -> bool,
    delivers: bool)

  datatype Email = Email(to: string, content: string, host: string, port: nat)

  datatype Outcome =
    | Rejected(reason: Stop)
    | SentWithoutAck(email: Email)
    | Acknowledged(email: Email, ack: seq<byte>)

  /** `SmtpEmailer::handle` after decoding: gate, build, relay, send, then
      acknowledge when the message carried a number. */
  function Handle(cfg: Config, decoded: Option<Packet>, mailer: Mailer): (o: Outcome)
    ensures Admit(cfg, decoded).Err? ==> o == Rejected(Admit(cfg, decoded).error)
    ensures !o.Rejected? <==>
      && Admit(cfg, decoded).Ok?
      && mailer.fromParses && mailer.receiverParses(Admit(cfg, decoded).value.email) && mailer.builds
      && SplitServer(cfg.smtpServer).Some?
      && mailer.relays(SplitServer(cfg.smtpServer).value.0)
      && ParsePort(SplitServer(cfg.smtpServer).value.1).Some?
      && mailer.delivers
    ensures !o.Rejected? ==>
      o.email == Email(Admit(cfg, decoded).value.email, Admit(cfg, decoded).value.content,
                       SplitServer(cfg.smtpServer).value.0, ParsePort(SplitServer(cfg.smtpServer).value.1).value)
    ensures o.Acknowledged? <==> !o.Rejected? && Admit(cfg, decoded).value.id.Some?
    ensures o.Acknowledged? ==>
      o.ack == Utf8(AckLine(Admit(cfg, decoded).value, Admit(cfg, decoded).value.id.value))
  {
    match Admit(cfg, decoded)
    case Err(stop) => Rejected(stop)
    case Ok(req) =>
      if !mailer.fromParses then Rejected(InvalidFromEmail)
      else if !mailer.receiverParses(req.email) then Rejected(InvalidReceiverEmail)
      else if !mailer.builds then Rejected(BuildFailed)
      else
        match SplitServer(cfg.smtpServer)
        case None => Rejected(InvalidServer)
        case Some((host, port)) =>
          if !mailer.relays(host) then Rejected(RelayFailed)
          else
            match ParsePort(port)
            case None => Rejected(InvalidPort)
            case Some(n) =>
              if !mailer.delivers then Rejected(SendFailed)
              else
                var email := Email(req.email, req.content, host, n);
                match req.id
                case None => SentWithoutAck(email)
                case Some(id) => Acknowledged(email, Utf8(AckLine(req, id)))
  }

  /** What `handle` returns to the registry. */
  function Response(o: Outcome): Option<seq<byte>> {
    if o.Acknowledged? then Some(o.ack) else None
  }

  /** The gateway as the registry sees it, for a given decoder. */
  function AsExtension(cfg: Config, decode: string -> Option<Packet>, mailer: Mailer): Extension {
    Extension("smtp", false, line => Response(Handle(cfg, decode(line), mailer)), Ignores)
  }

  /** The registry writes the acknowledgement exactly as built: it is never
      empty and already ends in a newline. */
  lemma AckWrittenUnchanged(cfg: Config, decode: string -> Option<Packet>, mailer: Mailer, line: string)
    ensures Contribution(AsExtension(cfg, decode, mailer), line) == Response(Handle(cfg, decode(line), mailer))
  {
    var o := Handle(cfg, decode(line), mailer);
    if o.Acknowledged? {
      var req := Admit(cfg, decode(line)).value;
      var a := AckLine(req, req.id.value);
      AckLineShape(req, req.id.value);
      Utf8Ends(a);
    }
  }
}
