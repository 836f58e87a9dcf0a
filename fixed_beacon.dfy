/**
 * The fixed-position beacon: an extension that, once it is given a writer
 * to the APRS-IS server, periodically emits one position report without
 * timestamp (`!` data type) built from its configuration. It never answers
 * incoming lines.
 */
module FixedBeacon {
  import opened Wrappers
  import opened Text
  import opened Extensions

  datatype Config = Config(
    enabled: bool,
    ssid: string,
    lat: string,
    lon: string,
    symbolTable: char,
    symbol: char,
    comment: string,
    beaconIntervalMins: nat)

  function DefaultConfig(): Config {
    Config(false, "N0CALL-10", "3800.00N", "02700.00E", '/', '-', "https://github.com/ta3pks/aprs-agent", 15)
  }

  /** The reasons `FixedBeacon::new` refuses a configuration. */
  datatype ConfigError =
    | NotEnabled | SsidTooLong | LatTooLong | LonTooLong | LatHemisphere | LonHemisphere

  /** `s.chars().last().unwrap_or('\0')`. */
  function LastChar(s: string): char {
    if s == [] then 0 as char else s[|s| - 1]
  }

  /** The checks of `FixedBeacon::new`, in order; lengths are in bytes. */
  function Validate(cfg: Config): (r: Result<(), ConfigError>)
    ensures r.Ok? <==>
      && cfg.enabled
      && |Utf8(cfg.ssid)| <= 9 && |Utf8(cfg.lat)| <= 8 && |Utf8(cfg.lon)| <= 9
      && cfg.lat != [] && cfg.lat[|cfg.lat| - 1] in {'N', 'S'}
      && cfg.lon != [] && cfg.lon[|cfg.lon| - 1] in {'E', 'W'}
    ensures r.Err? ==> (r.error == NotEnabled <==> !cfg.enabled)
  {
    if !cfg.enabled then Err(NotEnabled)
    else if |Utf8(cfg.ssid)| > 9 then Err(SsidTooLong)
    else if |Utf8(cfg.lat)| > 8 then Err(LatTooLong)
    else if |Utf8(cfg.lon)| > 9 then Err(LonTooLong)
    else if LastChar(cfg.lat) !in {'N', 'S'} then Err(LatHemisphere)
    else if LastChar(cfg.lon) !in {'E', 'W'} then Err(LonHemisphere)
    else Ok(())
  }

  /** For ASCII fields, the byte limits are character limits. */
  lemma AsciiValidation(cfg: Config)
    requires IsAscii(cfg.ssid) && IsAscii(cfg.lat) && IsAscii(cfg.lon)
    ensures Validate(cfg).Ok? <==>
      && cfg.enabled && |cfg.ssid| <= 9 && |cfg.lat| <= 8 && |cfg.lon| <= 9
      && LastChar(cfg.lat) in {'N', 'S'} && LastChar(cfg.lon) in {'E', 'W'}
  {
    AsciiUtf8Length(cfg.ssid);
    AsciiUtf8Length(cfg.lat);
    AsciiUtf8Length(cfg.lon);
  }

  /** The defaults are refused only because the beacon is off by default;
      switched on, they pass every check. */
  lemma DefaultsValidOnceEnabled()
    ensures !DefaultConfig().enabled
    ensures Validate(DefaultConfig().(enabled := true)).Ok?
  {
    DefaultFieldsAscii();
    AsciiValidation(DefaultConfig().(enabled := true));
  }

  lemma DefaultFieldsAscii()
    ensures IsAscii(DefaultConfig().ssid) && IsAscii(DefaultConfig().lat) && IsAscii(DefaultConfig().lon)
  {
  }

  /** The length checks are upper bounds only: a latitude shorter than the
      eight characters of the fixed format is still accepted. */
  lemma ShortLatitudeAccepted()
    ensures Validate(DefaultConfig().(enabled := true, lat := "38N")).Ok?
  {
    DefaultFieldsAscii();
    var lat := "38N";
    assert IsAscii(lat);
    AsciiValidation(DefaultConfig().(enabled := true, lat := lat));
  }

  // ---------------------------------------------------------------------
  // The position report

  /** Everything between the source callsign and the position. */
  const Header: string := "AP4GNT,TCPID*,qAC,APRSAGENT:!"

  /** The line `send` writes, before it is turned into bytes. */
  function PositionPacket(cfg: Config): string {
    Upper(cfg.ssid) + ">" + Header + cfg.lat + [cfg.symbolTable] + cfg.lon + [cfg.symbol] + cfg.comment + "\n"
  }

  /** The fields a receiver reads back from a beacon line. */
  datatype PositionReport = PositionReport(
    source: string, lat: string, symbolTable: char, lon: string, symbol: char, comment: string)

  /** Reads a beacon line in the fixed format: the source up to the first
      `>`, the fixed header, an 8-character latitude, the symbol table, a
      9-character longitude, the symbol, a comment, and the newline. */
  function ParsePositionPacket(line: string): Option<PositionReport> {
    match SplitOnce(line, '>')
    case None => None
    case Some((source, rest)) =>
      if |rest| >= |Header| + 20 && rest[..|Header|] == Header && rest[|rest| - 1] == '\n' then
        var body := rest[|Header|..|rest| - 1];
        Some(PositionReport(source, body[..8], body[8], body[9..18], body[18], body[19..]))
      else None
  }

  lemma UpperKeepsOther(s: string, c: char)
    requires c !in s && !('A' <= c <= 'Z')
    ensures c !in Upper(s)
  {
    forall i | 0 <= i < |s| ensures Upper(s)[i] != c {
      assert s[i] != c;
    }
  }

  /** A beacon whose latitude and longitude have the full fixed widths
      reads back as the upper-cased callsign and the configured fields. */
  lemma PositionRoundTrip(cfg: Config)
    requires |cfg.lat| == 8 && |cfg.lon| == 9 && '>' !in cfg.ssid
    ensures ParsePositionPacket(PositionPacket(cfg))
      == Some(PositionReport(Upper(cfg.ssid), cfg.lat, cfg.symbolTable, cfg.lon, cfg.symbol, cfg.comment))
  {
    var src := Upper(cfg.ssid);
    var body := cfg.lat + [cfg.symbolTable] + cfg.lon + [cfg.symbol] + cfg.comment;
    var rest := Header + body + "\n";
    UpperKeepsOther(cfg.ssid, '>');
    assert PositionPacket(cfg) == src + ['>'] + rest;
    SplitOnceAt(src, '>', rest);
    assert rest[..|Header|] == Header;
    assert rest[|Header|..|rest| - 1] == body;
    assert body[..8] == cfg.lat;
    assert body[9..18] == cfg.lon;
    assert body[19..] == cfg.comment;
  }

  /** The bytes handed to the writer form exactly one line. */
  lemma PacketIsOneLine(cfg: Config)
    requires '\n' !in cfg.ssid && '\n' !in cfg.lat && '\n' !in cfg.lon && '\n' !in cfg.comment
    requires cfg.symbolTable != '\n' && cfg.symbol != '\n'
    ensures var b := Utf8(PositionPacket(cfg)); b != [] && b[|b| - 1] == LF
    ensures '\n' !in PositionPacket(cfg)[..|PositionPacket(cfg)| - 1]
  {
    var p := PositionPacket(cfg);
    Utf8Ends(p);
    UpperKeepsOther(cfg.ssid, '\n');
    var line := Upper(cfg.ssid) + ">" + Header + cfg.lat + [cfg.symbolTable] + cfg.lon + [cfg.symbol] + cfg.comment;
    assert p == line + "\n";
    assert p[..|p| - 1] == line;
  }

  // ---------------------------------------------------------------------
  // The extension object

  datatype SendError = ChannelClosed

  /** `FixedBeacon` with its inner state. `workersSpawned` counts the tasks
      `start` has launched; a task raises `isWorkerRunning` only once it
      begins to run. */
  class Beacon {
    const cfg: Config
    var ownWriter: Option<Sender>
    var isWorkerRunning: bool
    var workersSpawned: nat

    /** The object `new` builds once every check has passed. */
    constructor (cfg: Config)
      requires Validate(cfg).Ok?
      ensures this.cfg == cfg && ownWriter == None && !isWorkerRunning && workersSpawned == 0
    {
      this.cfg := cfg;
      ownWriter := None;
      isWorkerRunning := false;
      workersSpawned := 0;
    }

    /** `FixedBeacon::new`, with its panics as errors. */
    static method New(cfg: Config) returns (r: Result<Beacon, ConfigError>)
      ensures r.Ok? <==> Validate(cfg).Ok?
      ensures r.Err? ==> Validate(cfg) == Err(r.error)
      ensures r.Ok? ==>
        fresh(r.value) && r.value.cfg == cfg && r.value.ownWriter == None
        && !r.value.isWorkerRunning && r.value.workersSpawned == 0
    {
      var v := Validate(cfg);
      if v.Err? {
        return Err(v.error);
      }
      var b := new Beacon(cfg);
      return Ok(b);
    }

    /** `set_own_writer`: keeps the new writer, and launches a worker unless
        one has already reported that it is running. */
    method SetOwnWriter(w: Sender)
      modifies this
      ensures ownWriter == Some(w)
      ensures isWorkerRunning == old(isWorkerRunning)
      ensures workersSpawned == if old(isWorkerRunning) then old(workersSpawned) else old(workersSpawned) + 1
    {
      ownWriter := Some(w);
      if !isWorkerRunning {
        Start();
      }
    }

    /** `start`: spawns the worker task. */
    method Start()
      modifies this
      ensures workersSpawned == old(workersSpawned) + 1
      ensures ownWriter == old(ownWriter) && isWorkerRunning == old(isWorkerRunning)
    {
      workersSpawned := workersSpawned + 1;
    }

    /** The first statement of a spawned worker, so it runs only once
        `Start` has spawned one. */
    method WorkerBegins()
      requires workersSpawned > 0
      modifies this
      ensures isWorkerRunning
      ensures ownWriter == old(ownWriter) && workersSpawned == old(workersSpawned)
    {
      isWorkerRunning := true;
    }

    /** `send`: nothing to do without a writer; otherwise the position
        report goes to the writer's channel, which fails once closed. */
    method Send(channelOpen: bool) returns (r: Result<Option<seq<byte>>, SendError>)
      ensures ownWriter == None ==> r == Ok(None)
      ensures ownWriter != None && channelOpen ==> r == Ok(Some(Utf8(PositionPacket(cfg))))
      ensures ownWriter != None && !channelOpen ==> r == Err(ChannelClosed)
    {
      if ownWriter == None {
        return Ok(None);
      }
      var package := PositionPacket(cfg);
      if !channelOpen {
        return Err(ChannelClosed);
      }
      return Ok(Some(Utf8(package)));
    }
  }

  /** The beacon as the registry sees it: not spawnable, answering nothing,
      and keeping the writer it is given. */
  function AsExtension(w: Option<Sender>): Extension {
    Extension("fixed_beacon", false, _ => None, Keeps(w))
  }

  /** `handle` answers `None` to every line, so the beacon adds nothing to
      a dispatch; binding a writer replaces the one the registry's view of
      the beacon keeps. Launching the worker is `Beacon.SetOwnWriter`'s part. */
  lemma BeaconIsSilent(w: Option<Sender>, s: Sender, line: string)
    ensures Contribution(AsExtension(w), line) == None
    ensures Extensions.SetOwnWriter(AsExtension(w), s) == AsExtension(Some(s))
  {
  }

  /** Registering the beacon never changes what a dispatch writes. */
  lemma BeaconAddsNothing(a: seq<Extension>, w: Option<Sender>, b: seq<Extension>, line: string)
    ensures Responses(a + [AsExtension(w)] + b, line) == Responses(a + b, line)
  {
    BeaconIsSilent(w, Sender(0), line);
    SilentHandlerWritesNothing(a, AsExtension(w), b, line);
  }
}
