/**
 * The logger extension: it decides, for each line from the APRS-IS
 * server, whether to print it, and never answers. The decision looks at
 * comment lines, a keyword filter, and include/exclude lists of APRS data
 * type identifiers; the printed text itself is left out, only which kind
 * of message is printed is kept.
 */
module Logger {
  import opened Wrappers
  import opened Text
  import opened Packets
  import opened Extensions

  datatype Config = Config(
    enabled: bool,
    logComments: bool,
    filterByMessageType: seq<char>,
    excludeByMessageType: seq<char>,
    keywordFilter: seq<string>)

  /** The data type identifiers logged by default. */
  const DefaultTypes: seq<char> := [
    '!', '/', '\\', '@', '~', '`', '^', '&', '*', '(', ')', '_', '-', '=',
    '+', '[', ']', '{', '}', '|', ';', ':', '"', '<', '>', '?', '.']

  function DefaultConfig(): Config {
    Config(true, true, DefaultTypes, [], [])
  }

  /** What one call of `handle` prints: the line (`log`), a decode error
      (`error`), a warning about conflicting filters (`warn`), or nothing. */
  datatype Outcome = Logged | Errored | Warned | Silent

  predicate IsComment(line: string) {
    |line| > 0 && line[0] == '#'
  }

  /** Some keyword, lower-cased, occurs in the lower-cased line. */
  function AnyKeyword(line: string, keywords: seq<string>): (r: bool)
    ensures r <==> exists i | 0 <= i < |keywords| :: Occurs(Lower(keywords[i]), Lower(line))
  {
    if keywords == [] then false
    else if Contains(Lower(line), Lower(keywords[0])) then true
    else
      var r := AnyKeyword(line, keywords[1..]);
      assert forall i | 0 < i < |keywords| :: keywords[i] == keywords[1..][i - 1];
      r
  }

  /** `Logger::handle`, given the decoder's verdict on the line. */
  function Decide(line: string, cfg: Config, decoded: Option<Packet>): (r: Outcome)
    ensures IsComment(line) && cfg.logComments ==> r == Logged
    ensures !(IsComment(line) && cfg.logComments) && decoded.None? ==> r == Errored
    ensures !(IsComment(line) && cfg.logComments) && decoded.Some? && cfg.keywordFilter != [] ==>
      (r == Logged <==> exists i | 0 <= i < |cfg.keywordFilter| :: Occurs(Lower(cfg.keywordFilter[i]), Lower(line)))
      && r != Warned
    ensures !(IsComment(line) && cfg.logComments) && decoded.Some? && cfg.keywordFilter == [] ==>
      var t := decoded.value.dataType;
      && (r == Logged <==> (cfg.filterByMessageType == [] || t in cfg.filterByMessageType) && t !in cfg.excludeByMessageType)
      && (r == Warned <==> cfg.filterByMessageType != [] && t in cfg.filterByMessageType && t in cfg.excludeByMessageType)
    ensures r == Errored ==> decoded.None?
  {
    if IsComment(line) && cfg.logComments then Logged
    else
      match decoded
      case None => Errored
      case Some(p) =>
        if cfg.keywordFilter != [] then
          if AnyKeyword(line, cfg.keywordFilter) then Logged else Silent
        else if cfg.filterByMessageType == [] || p.dataType in cfg.filterByMessageType then
          if p.dataType in cfg.excludeByMessageType then
            if cfg.filterByMessageType != [] then Warned else Silent
          else Logged
        else Silent
  }

  /** With the defaults, every comment line is logged, and a decoded line is
      logged exactly when its data type is one of the listed ones; nothing
      is ever warned about. */
  lemma DefaultDecision(line: string, p: Packet)
    ensures DefaultConfig().enabled && DefaultConfig().logComments
    ensures Decide(line, DefaultConfig(), Some(p))
      == if IsComment(line) || p.dataType in DefaultTypes then Logged else Silent
  {
  }

  /** A keyword filter takes over: the type lists no longer matter. */
  lemma KeywordsOverrideTypes(line: string, cfg: Config, p: Packet, only: seq<char>, except: seq<char>)
    requires cfg.keywordFilter != []
    ensures Decide(line, cfg, Some(p))
      == Decide(line, cfg.(filterByMessageType := only, excludeByMessageType := except), Some(p))
  {
  }

  /** The logger as the registry sees it: spawned, answering nothing. */
  function AsExtension(): Extension {
    Extension("logger", true, _ => None, Ignores)
  }

  /** Registering the logger never changes what a dispatch writes. */
  lemma LoggerAddsNothing(a: seq<Extension>, b: seq<Extension>, line: string)
    ensures Responses(a + [AsExtension()] + b, line) == Responses(a + b, line)
  {
    SpawnableWritesNothing(a, AsExtension(), b, line);
  }
}
