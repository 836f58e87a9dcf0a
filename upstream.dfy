/**
 * The session with the APRS-IS server: connect, log in with the callsign,
 * its passcode and a budlist filter of the allowed callsigns, then pass
 * every line read to the downstream connection store, verbatim and in
 * order, until the stream ends or fails; then wait a second and start
 * over. A failed connect or login write stops the relay.
 *
 * The lines read here go only to the downstream subscribers: this loop
 * does not dispatch them to the extension registry, and its write half is
 * never used after the login.
 */
module Upstream {
  import opened Wrappers
  import opened Text
  import opened ExtensionServer

  // ---------------------------------------------------------------------
  // The login line

  const Version: string := "vers APRS-AGENT 0.1 filter b/"

  /** The login line, with the passcode computed from the callsign outside
      the model. */
  function LoginLine(callsign: string, passcode: int, allowed: seq<string>): string {
    "user " + callsign + " " + Credentials(passcode, allowed) + "\n"
  }

  /** `pass <passcode> vers APRS-AGENT 0.1 filter b/<allowed, joined by />`. */
  function Credentials(passcode: int, allowed: seq<string>): string {
    "pass " + IntToString(passcode) + " " + Version + Join(allowed, "/")
  }

  datatype Login = Login(callsign: string, passcode: int, allowed: seq<string>)

  /** How the server reads a login line of this form. */
  function ParseLogin(line: string): Option<Login> {
    if |line| < 6 || line[..5] != "user " || line[|line| - 1] != '\n' then None
    else
      match SplitOnce(line[5..|line| - 1], ' ')
      case None => None
      case Some((callsign, rest)) =>
        match ParseCredentials(rest)
        case None => None
        case Some((p, allowed)) => Some(Login(callsign, p, allowed))
  }

  /** The part after the callsign: passcode, version and filter. */
  function ParseCredentials(rest: string): Option<(int, seq<string>)> {
    if |rest| < 5 || rest[..5] != "pass " then None
    else
      match SplitOnce(rest[5..], ' ')
      case None => None
      case Some((pass, tail)) =>
        if |tail| < |Version| || tail[..|Version|] != Version then None
        else
          match ParseInt(pass)
          case None => None
          case Some(p) => Some((p, SplitAll(tail[|Version|..], '/')))
  }

  /** The login line carries the callsign, the passcode and the allowed
      callsigns so that they can be read back, provided the callsign has no
      space, and there is at least one allowed callsign and none contains
      `/`. */
  lemma LoginRoundTrip(callsign: string, passcode: int, allowed: seq<string>)
    requires ' ' !in callsign
    requires |allowed| > 0 && forall i | 0 <= i < |allowed| :: '/' !in allowed[i]
    ensures ParseLogin(LoginLine(callsign, passcode, allowed)) == Some(Login(callsign, passcode, allowed))
  {
    var line := LoginLine(callsign, passcode, allowed);
    var rest := Credentials(passcode, allowed);
    var inner := callsign + [' '] + rest;
    assert line == "user " + inner + "\n";
    Unwrap("user ", inner, "\n");
    SplitOnceAt(callsign, ' ', rest);
    CredentialsRoundTrip(passcode, allowed);
  }

  lemma CredentialsRoundTrip(passcode: int, allowed: seq<string>)
    requires |allowed| > 0 && forall i | 0 <= i < |allowed| :: '/' !in allowed[i]
    ensures ParseCredentials(Credentials(passcode, allowed)) == Some((passcode, allowed))
  {
    var pass := IntToString(passcode);
    var filter := Join(allowed, "/");
    var rest := "pass " + pass + " " + Version + filter;
    var tail := pass + [' '] + (Version + filter);
    NoSpaceInNumber(passcode);
    assert rest == "pass " + tail;
    assert rest[..5] == "pass ";
    assert rest[5..] == tail;
    SplitOnceAt(pass, ' ', Version + filter);
    assert (Version + filter)[..|Version|] == Version;
    assert (Version + filter)[|Version|..] == filter;
    IntRoundTrip(passcode);
    SplitJoin(allowed, '/');
  }

  lemma NoSpaceInNumber(i: int)
    ensures ' ' !in IntToString(i)
  {
    var s := IntToString(i);
    if i < 0 {
      assert forall k | 1 <= k < |s| :: s[k] == NatToString(-i)[k - 1];
    }
  }

  /** With no allowed callsigns the filter is empty: `b/` and nothing after. */
  lemma EmptyAllowList(passcode: int)
    ensures Credentials(passcode, []) == "pass " + IntToString(passcode) + " " + Version
  {
    var head := "pass " + IntToString(passcode) + " " + Version;
    assert Join([], "/") == [];
    assert head + [] == head;
  }

  // ---------------------------------------------------------------------
  // One session

  /** The result of `lines.next_line()`. */
  datatype Read = ReadFailed | EndOfStream | Got(line: string)

  /** The lines a session relays: those of the longest run of successful
      reads at the start. */
  function Relayed(results: seq<Read>): (r: seq<string>)
    ensures |r| <= |results|
    ensures forall j | 0 <= j < |r| :: results[j] == Got(r[j])
    ensures |r| < |results| ==> !results[|r|].Got?
  {
    if results == [] || !results[0].Got? then []
    else
      var rest := Relayed(results[1..]);
      assert forall j | 0 < j <= |rest| :: results[j] == results[1..][j - 1];
      [results[0].line] + rest
  }

  /** Only one run of lines has those three properties. */
  lemma {:induction false} RelayedUnique(results: seq<Read>, lines: seq<string>)
    requires |lines| <= |results|
    requires forall j | 0 <= j < |lines| :: results[j] == Got(lines[j])
    requires |lines| < |results| ==> !results[|lines|].Got?
    ensures Relayed(results) == lines
  {
    if lines != [] {
      assert results[0] == Got(lines[0]);
      assert forall j | 0 <= j < |lines[1..]| :: results[1..][j] == Got(lines[1..][j]) by {
        forall j | 0 <= j < |lines[1..]| ensures results[1..][j] == Got(lines[1..][j]) {
          assert results[1..][j] == results[j + 1];
        }
      }
      if |lines| < |results| {
        assert results[1..][|lines[1..]|] == results[|lines|];
      }
      RelayedUnique(results[1..], lines[1..]);
      assert lines == [lines[0]] + lines[1..];
    }
  }

  lemma DeliveredAllOne(store: map<string, Mailbox>, msg: string)
    ensures DeliveredAll(store, [msg]) == Delivered(store, msg)
  {
    assert [msg][1..] == [];
  }

  /** The inner read loop: each line read is broadcast to the store, until
      the first failed or empty read. */
  method Session(store: ConStore, results: seq<Read>) returns (n: nat)
    modifies store
    ensures n == |Relayed(results)|
    ensures store.store == DeliveredAll(old(store.store), Relayed(results))
  {
    ghost var s0 := store.store;
    ghost var sent: seq<string> := [];
    n := 0;
    while n < |results| && results[n].Got?
      invariant n <= |results| && |sent| == n
      invariant forall j | 0 <= j < n :: results[j] == Got(sent[j])
      invariant store.store == DeliveredAll(s0, sent)
    {
      ghost var before := store.store;
      store.Broadcast(results[n].line);
      DeliveredAllAppend(s0, sent, [results[n].line]);
      DeliveredAllOne(before, results[n].line);
      sent := sent + [results[n].line];
      n := n + 1;
    }
    RelayedUnique(results, sent);
  }

  /** Every subscriber whose mailbox is open receives the session's lines,
      verbatim and in the order they were read; nothing else changes. */
  lemma SessionReachesEverySubscriber(store: map<string, Mailbox>, results: seq<Read>, k: string)
    requires k in store && !store[k].closed
    ensures k in DeliveredAll(store, Relayed(results))
    ensures DeliveredAll(store, Relayed(results))[k].queue == store[k].queue + Relayed(results)
  {
    DeliveredAllSpec(store, Relayed(results));
  }

  // ---------------------------------------------------------------------
  // The reconnect loop

  /** What happens on one connection: whether connecting and writing the
      login line succeed, and what is then read. */
  datatype Attempt = Attempt(connects: bool, loginWritten: bool, results: seq<Read>)

  /** The two fatal errors. */
  datatype Panic = ConnectFailed | LoginFailed

  /** Lines relayed, sessions completed, and the fatal error, if any, that
      stops the loop. */
  datatype Run = Run(relayed: seq<string>, sessions: nat, panic: Option<Panic>)

  /** The reconnect loop over the connections given. It has no exit of its
      own: it stops only on a fatal error, or here when the given
      connections run out. */
  function RunOf(attempts: seq<Attempt>): (r: Run)
    ensures r.sessions <= |attempts|
  {
    if attempts == [] then Run([], 0, None)
    else if !attempts[0].connects then Run([], 0, Some(ConnectFailed))
    else if !attempts[0].loginWritten then Run([], 0, Some(LoginFailed))
    else
      var rest := RunOf(attempts[1..]);
      Run(Relayed(attempts[0].results) + rest.relayed, rest.sessions + 1, rest.panic)
  }

  /** The lines of the given sessions, one session after the other. */
  function RelayedAll(attempts: seq<Attempt>): seq<string> {
    if attempts == [] then [] else Relayed(attempts[0].results) + RelayedAll(attempts[1..])
  }

  lemma {:induction false} RelayedAllSnoc(attempts: seq<Attempt>, a: Attempt)
    ensures RelayedAll(attempts + [a]) == RelayedAll(attempts) + Relayed(a.results)
  {
    if attempts == [] {
      assert [a][1..] == [];
    } else {
      assert (attempts + [a])[1..] == attempts[1..] + [a];
      RelayedAllSnoc(attempts[1..], a);
    }
  }

  /** A session ended by the server never stops the relay: it reconnects
      until a connect or login fails. Every attempt before the fatal one
      connected, logged in and relayed its lines in turn; without a fatal
      error every attempt ran a session. */
  lemma {:induction false} ReconnectsUntilFatal(attempts: seq<Attempt>)
    ensures RunOf(attempts).sessions <= |attempts|
    ensures RunOf(attempts).panic.None? <==> forall j | 0 <= j < |attempts| :: attempts[j].connects && attempts[j].loginWritten
    ensures RunOf(attempts).panic.None? ==> RunOf(attempts).sessions == |attempts|
    ensures forall j | 0 <= j < RunOf(attempts).sessions :: attempts[j].connects && attempts[j].loginWritten
    ensures RunOf(attempts).relayed == RelayedAll(attempts[..RunOf(attempts).sessions])
    ensures RunOf(attempts).panic.Some? ==>
      RunOf(attempts).sessions < |attempts|
      && !(attempts[RunOf(attempts).sessions].connects && attempts[RunOf(attempts).sessions].loginWritten)
    ensures RunOf(attempts).panic.Some? ==>
      RunOf(attempts).panic == Some(if attempts[RunOf(attempts).sessions].connects then LoginFailed else ConnectFailed)
  {
    if attempts != [] && attempts[0].connects && attempts[0].loginWritten {
      var rest := attempts[1..];
      ReconnectsUntilFatal(rest);
      assert forall j | 1 <= j < |attempts| :: attempts[j] == rest[j - 1];
      var n := RunOf(rest).sessions;
      var taken := attempts[..n + 1];
      assert taken[0] == attempts[0];
      assert taken[1..] == rest[..n];
    } else {
      assert attempts[..0] == [];
    }
  }

  /** A failed connect or login ends the loop with what was done before it. */
  lemma RunStops(attempts: seq<Attempt>, i: nat, done: seq<string>, k: nat)
    requires i < |attempts| && !(attempts[i].connects && attempts[i].loginWritten)
    ensures var r := RunOf(attempts[i..]);
      Run(done + r.relayed, k + r.sessions, r.panic)
      == Run(done, k, Some(if attempts[i].connects then LoginFailed else ConnectFailed))
  {
    assert attempts[i..][0] == attempts[i];
    assert done + [] == done;
  }

  /** The run, from where the loop leaves off: after `i` sessions, either
      out of connections or at a failing one. */
  lemma RunAt(attempts: seq<Attempt>, i: nat)
    requires i <= |attempts|
    requires forall j | 0 <= j < i :: attempts[j].connects && attempts[j].loginWritten
    requires i < |attempts| ==> !(attempts[i].connects && attempts[i].loginWritten)
    ensures RunOf(attempts) == Run(RelayedAll(attempts[..i]), i,
      if i == |attempts| then None else Some(if attempts[i].connects then LoginFailed else ConnectFailed))
  {
    ReconnectsUntilFatal(attempts);
  }

  /** The reconnect loop of `start_server`: connect, write `login`, relay
      a session, sleep a second, and again, until a connect or login write
      fails or the given connections run out. */
  method Reconnect(store: ConStore, login: string, attempts: seq<Attempt>)
    returns (panic: Option<Panic>, logins: seq<string>, pauses: nat)
    modifies store
    ensures pauses <= |attempts|
    ensures store.store == DeliveredAll(old(store.store), RelayedAll(attempts[..pauses]))
    ensures forall j | 0 <= j < pauses :: attempts[j].connects && attempts[j].loginWritten
    ensures pauses < |attempts| ==> !(attempts[pauses].connects && attempts[pauses].loginWritten)
    ensures panic == if pauses == |attempts| then None
      else Some(if attempts[pauses].connects then LoginFailed else ConnectFailed)
    ensures |logins| == pauses && forall j | 0 <= j < |logins| :: logins[j] == login
  {
    ghost var s0 := store.store;
    ghost var done: seq<string> := [];
    var i := 0;
    pauses := 0;
    logins := [];
    assert attempts[..0] == [];
    while i < |attempts|
      invariant i <= |attempts| && pauses == i
      invariant store.store == DeliveredAll(s0, done)
      invariant done == RelayedAll(attempts[..i])
      invariant forall j | 0 <= j < i :: attempts[j].connects && attempts[j].loginWritten
      invariant |logins| == pauses && forall j | 0 <= j < |logins| :: logins[j] == login
    {
      var a := attempts[i];
      if !a.connects || !a.loginWritten {
        panic := Some(if a.connects then LoginFailed else ConnectFailed);
        return;
      }
      logins := logins + [login];
      var _ := Session(store, a.results);
      DeliveredAllAppend(s0, done, Relayed(a.results));
      assert attempts[..i + 1] == attempts[..i] + [a];
      RelayedAllSnoc(attempts[..i], a);
      done := done + Relayed(a.results);
      pauses := pauses + 1;
      i := i + 1;
    }
    panic := None;
  }

  /** `start_server`: the login line, then the reconnect loop. Returns the
      fatal error, the login lines written, and the number of one-second
      pauses taken. */
  method StartServer(store: ConStore, callsign: string, passcode: int, allowed: seq<string>, attempts: seq<Attempt>)
    returns (panic: Option<Panic>, logins: seq<string>, pauses: nat)
    modifies store
    ensures pauses <= |attempts|
    ensures RunOf(attempts) == Run(RelayedAll(attempts[..pauses]), pauses, panic)
    ensures store.store == DeliveredAll(old(store.store), RelayedAll(attempts[..pauses]))
    ensures forall j | 0 <= j < pauses :: attempts[j].connects && attempts[j].loginWritten
    ensures pauses < |attempts| ==> !(attempts[pauses].connects && attempts[pauses].loginWritten)
    ensures panic == if pauses == |attempts| then None
      else Some(if attempts[pauses].connects then LoginFailed else ConnectFailed)
    ensures |logins| == pauses && forall j | 0 <= j < |logins| :: logins[j] == LoginLine(callsign, passcode, allowed)
  {
    var login := LoginLine(callsign, passcode, allowed);
    panic, logins, pauses := Reconnect(store, login, attempts);
    RunAt(attempts, pauses);
  }
}
