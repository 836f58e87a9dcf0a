/**
 * The downstream broadcast server: local subscribers connect over TCP and
 * receive a copy of every line relayed from the APRS-IS server as a
 * `data <line>` frame, and may send `ping` to get `pong <unix time>`.
 * Each subscriber has a mailbox registered in a shared store under its
 * peer address; a session ends on a read error, end of stream, an empty
 * or unknown command, a failed write, a closed mailbox, or ten seconds
 * without any event, and always deregisters its address.
 */
module ExtensionServer {
  import opened Wrappers
  import opened Text
  import opened Sinks

  // ---------------------------------------------------------------------
  // The connection store

  /** A peer address; the store is keyed by its printed form. */
  datatype SocketAddr = SocketAddr(host: string, port: nat)

  /** `SocketAddr::to_string`, for the host part as printed. */
  function AddrKey(a: SocketAddr): string {
    a.host + ":" + NatToString(a.port)
  }

  /** A subscriber's unbounded mailbox: the messages queued for it, and
      whether its receiving end has gone away (a send then fails). */
  datatype Mailbox = Mailbox(queue: seq<string>, closed: bool)

  /** `UnboundedSender::send(msg).ok()`: a closed mailbox is left as it was. */
  function Deliver(m: Mailbox, msg: string): Mailbox {
    if m.closed then m else m.(queue := m.queue + [msg])
  }

  /** The store after one broadcast. */
  function Delivered(store: map<string, Mailbox>, msg: string): (r: map<string, Mailbox>)
    ensures r.Keys == store.Keys
  {
    map k | k in store :: Deliver(store[k], msg)
  }

  /** The store after broadcasting `msgs`, one after the other. */
  function DeliveredAll(store: map<string, Mailbox>, msgs: seq<string>): (r: map<string, Mailbox>)
    ensures r.Keys == store.Keys
  {
    if msgs == [] then store else DeliveredAll(Delivered(store, msgs[0]), msgs[1..])
  }

  /** Every broadcast reaches every registered mailbox exactly once and in
      order; a closed mailbox is skipped without disturbing the others; no
      entry is added or removed. */
  lemma {:induction false} DeliveredAllSpec(store: map<string, Mailbox>, msgs: seq<string>)
    ensures DeliveredAll(store, msgs).Keys == store.Keys
    ensures forall k | k in store ::
      DeliveredAll(store, msgs)[k] == if store[k].closed then store[k] else store[k].(queue := store[k].queue + msgs)
  {
    if msgs != [] {
      var next := Delivered(store, msgs[0]);
      DeliveredAllSpec(next, msgs[1..]);
      forall k | k in store
        ensures DeliveredAll(store, msgs)[k]
          == if store[k].closed then store[k] else store[k].(queue := store[k].queue + msgs)
      {
        assert [msgs[0]] + msgs[1..] == msgs;
      }
    } else {
      forall k | k in store ensures store[k].queue + msgs == store[k].queue {
      }
    }
  }

  lemma DeliveredAllAppend(store: map<string, Mailbox>, a: seq<string>, b: seq<string>)
    ensures DeliveredAll(store, a + b) == DeliveredAll(DeliveredAll(store, a), b)
    decreases |a|
  {
    if a != [] {
      assert (a + b)[0] == a[0] && (a + b)[1..] == a[1..] + b;
      DeliveredAllAppend(Delivered(store, a[0]), a[1..], b);
    } else {
      assert a + b == b;
    }
  }

  /** `ConStore`: the shared map from peer address to mailbox. */
  class ConStore {
    var store: map<string, Mailbox>

    constructor ()
      ensures store == map[]
    {
      store := map[];
    }

    /** `ConStore::add`: inserts, replacing any mailbox under that address. */
    method Add(addr: SocketAddr, mailbox: Mailbox)
      modifies this
      ensures store == old(store)[AddrKey(addr) := mailbox]
    {
      store := store[AddrKey(addr) := mailbox];
    }

    /** `ConStore::remove`: drops that address only; absent is a no-op. */
    method Remove(addr: SocketAddr)
      modifies this
      ensures store == old(store) - {AddrKey(addr)}
    {
      store := store - {AddrKey(addr)};
    }

    /** `ConStore::broadcast`: one copy of `msg` to every mailbox, visited in
        no particular order; a failed send is ignored. */
    method Broadcast(msg: string)
      modifies this
      ensures store == Delivered(old(store), msg)
    {
      var pending := store.Keys;
      var next := store;
      while pending != {}
        invariant pending <= store.Keys && next.Keys == store.Keys
        invariant forall k | k in store ::
          next[k] == if k in pending then store[k] else Deliver(store[k], msg)
        decreases pending
      {
        var k :| k in pending;
        next := next[k := Deliver(store[k], msg)];
        pending := pending - {k};
      }
      store := next;
    }
  }

  /** A mailbox held under a key of its own gets every broadcast, and the
      other entries fare exactly as they would without it. */
  lemma {:induction false} SubscriberIsolated(rest: map<string, Mailbox>, key: string, m: Mailbox, msgs: seq<string>)
    requires key !in rest
    ensures DeliveredAll(rest[key := m], msgs)
      == DeliveredAll(rest, msgs)[key := if m.closed then m else m.(queue := m.queue + msgs)]
    decreases |msgs|
  {
    if msgs == [] {
      assert m.(queue := m.queue + msgs) == m;
    } else {
      var x, tail := msgs[0], msgs[1..];
      var m' := Deliver(m, x);
      assert Delivered(rest[key := m], x) == Delivered(rest, x)[key := m'];
      SubscriberIsolated(Delivered(rest, x), key, m', tail);
      assert m.queue + [x] + tail == m.queue + msgs;
      assert (if m'.closed then m' else m'.(queue := m'.queue + tail))
        == (if m.closed then m else m.(queue := m.queue + msgs));
    }
  }

  /** What one connection's lifetime does to the store: once `handler` has
      added its mailbox, every broadcast reaches it, in order; the other
      entries receive exactly what they would have without it, except that
      an earlier mailbox under the same address is replaced; removing it on
      exit leaves them so. */
  lemma ConnectionLifetime(store: map<string, Mailbox>, addr: SocketAddr, m: Mailbox, msgs: seq<string>)
    ensures var key := AddrKey(addr); var during := DeliveredAll(store[key := m], msgs);
      && key in during
      && during[key] == (if m.closed then m else m.(queue := m.queue + msgs))
      && during - {key} == DeliveredAll(store - {key}, msgs)
  {
    var key := AddrKey(addr);
    var rest := store - {key};
    assert rest[key := m] == store[key := m];
    SubscriberIsolated(rest, key, m, msgs);
    var after := DeliveredAll(rest, msgs);
    assert key !in after;
    assert after[key := if m.closed then m else m.(queue := m.queue + msgs)] - {key} == after;
  }

  // ---------------------------------------------------------------------
  // The line protocol

  datatype ClientCmd = Ping

  datatype ExtServerError = InvalidCmd(cmd: string)

  /** `ClientCmd::from_str`: only the exact word `ping` is a command. */
  function ParseClientCmd(s: string): (r: Result<ClientCmd, ExtServerError>)
    ensures r.Ok? <==> s == "ping"
    ensures r.Err? ==> r.error == InvalidCmd(s)
  {
    if s == "ping" then Ok(Ping) else Err(InvalidCmd(s))
  }

  function ClientCmdText(c: ClientCmd): string {
    "ping"
  }

  lemma ClientCmdRoundTrip(c: ClientCmd)
    ensures ParseClientCmd(ClientCmdText(c)) == Ok(c)
  {
  }

  datatype ServerCmd = Pong | Data(msg: string)

  /** `Display for ServerCmd`, with the clock reading `now` for a pong. */
  function FormatServerCmd(cmd: ServerCmd, now: nat): string {
    match cmd
    case Pong => "pong " + NatToString(now)
    case Data(m) => "data " + m
  }

  /** What a subscriber reads from one server line. */
  datatype Frame = PongAt(time: nat) | DataLine(msg: string)

  /** A subscriber's reading of a server line (without its newline). */
  function ParseServerLine(s: string): Option<Frame> {
    if |s| >= 5 && s[..5] == "pong " then
      match ParseNat(s[5..])
      case None => None
      case Some(t) => Some(PongAt(t))
    else if |s| >= 5 && s[..5] == "data " then Some(DataLine(s[5..]))
    else None
  }

  function Meaning(cmd: ServerCmd, now: nat): Frame {
    match cmd
    case Pong => PongAt(now)
    case Data(m) => DataLine(m)
  }

  /** A subscriber recovers from each server line the time of a pong and
      the exact relayed line of a data frame. */
  lemma ServerCmdRoundTrip(cmd: ServerCmd, now: nat)
    ensures ParseServerLine(FormatServerCmd(cmd, now)) == Some(Meaning(cmd, now))
  {
    var s := FormatServerCmd(cmd, now);
    match cmd
    case Pong =>
      assert s[..5] == "pong " && s[5..] == NatToString(now);
      NatRoundTrip(now);
    case Data(m) =>
      assert s[..5] == "data " && s[5..] == m;
  }

  // ---------------------------------------------------------------------
  // One subscriber session

  /** The result of `lines.next_line()`. */
  datatype ReadResult = ReadError | EndOfStream | Line(text: string)

  /** What wakes the session's `select!`: the peer or the mailbox
      (`None`: every sender is gone). */
  datatype Input = FromClient(read: ReadResult) | FromMailbox(msg: Option<string>)

  /** An input and the unix time, in seconds, at which it arrives. */
  datatype Event = Event(at: nat, input: Input)

  /** Seconds without an event after which the session gives up. */
  const IdleTimeout: nat := 10

  /** Why a session ended. */
  datatype Exit =
    | ReadFailed | ClientClosed | EmptyLine | InvalidCommand(line: string)
    | WriteFailed | MailboxClosed | TimedOut

  datatype Reaction = Reply(frame: string) | Stop(exit: Exit)

  /** One turn of the session loop: the `get_cmd!` rules for a client line,
      the data frame for a mailbox message. */
  function React(input: Input, now: nat): Reaction {
    match input
    case FromClient(ReadError) => Stop(ReadFailed)
    case FromClient(EndOfStream) => Stop(ClientClosed)
    case FromClient(Line(s)) =>
      if s == "" then Stop(EmptyLine)
      else if ParseClientCmd(s).Err? then Stop(InvalidCommand(s))
      else Reply(FormatServerCmd(Pong, now) + "\n")
    case FromMailbox(None) => Stop(MailboxClosed)
    case FromMailbox(Some(m)) => Reply(FormatServerCmd(Data(m), now) + "\n")
  }

  /** The frames a session writes, in order, and why it ends. */
  datatype Transcript = Transcript(frames: seq<string>, exit: Exit)

  /** A session whose previous event came at `last`, facing `events`, with a
      socket that accepts `budget` more writes. When the events run out
      nothing more happens, so the idle timer fires. */
  function Conversation(events: seq<Event>, last: nat, budget: Option<nat>): (t: Transcript)
    ensures |t.frames| <= |events|
  {
    if events == [] then Transcript([], TimedOut)
    else
      match Turn(events[0], last, budget)
      case Stop(x) => Transcript([], x)
      case Reply(f) =>
        var rest := Conversation(events[1..], events[0].at, Spend(budget));
        Transcript([f] + rest.frames, rest.exit)
  }

  /** One pass of the session loop: the idle timer if it fires first, else
      the event's reaction, which fails if the socket takes no more writes. */
  function Turn(e: Event, last: nat, budget: Option<nat>): Reaction {
    if e.at >= last + IdleTimeout then Stop(TimedOut)
    else
      match React(e.input, e.at)
      case Stop(x) => Stop(x)
      case Reply(f) => if budget == Some(0) then Stop(WriteFailed) else Reply(f)
  }

  function Concat(frames: seq<string>): string {
    if frames == [] then "" else frames[0] + Concat(frames[1..])
  }

  lemma {:induction false} ConcatAppend(a: seq<string>, b: seq<string>)
    ensures Concat(a + b) == Concat(a) + Concat(b)
  {
    if a != [] {
      assert (a + b)[1..] == a[1..] + b;
      ConcatAppend(a[1..], b);
    } else {
      assert a + b == b;
    }
  }

  /** Every frame a session writes is a newline-terminated pong or data frame. */
  lemma {:induction false} FramesAreWellFormed(events: seq<Event>, last: nat, budget: Option<nat>)
    ensures forall f | f in Conversation(events, last, budget).frames ::
      |f| > 0 && f[|f| - 1] == '\n' && ParseServerLine(f[..|f| - 1]).Some?
    decreases |events|
  {
    if events != [] && events[0].at < last + IdleTimeout {
      var e := events[0];
      match React(e.input, e.at)
      case Stop(_) =>
      case Reply(f) =>
        if budget != Some(0) {
          FramesAreWellFormed(events[1..], e.at, Spend(budget));
          assert f[..|f| - 1] == FormatServerCmd(if e.input.FromClient? then Pong else Data(e.input.msg.value), e.at);
          ServerCmdRoundTrip(if e.input.FromClient? then Pong else Data(e.input.msg.value), e.at);
        }
    }
  }

  /** Each event comes within the idle timeout of the one before it. */
  predicate Timely(events: seq<Event>, last: nat) {
    && (events != [] ==> events[0].at < last + IdleTimeout)
    && forall j | 0 < j < |events| :: events[j].at < events[j - 1].at + IdleTimeout
  }

  /** No event ends the session. */
  predicate AllReplied(events: seq<Event>) {
    forall j | 0 <= j < |events| :: React(events[j].input, events[j].at).Reply?
  }

  lemma TimelyTail(events: seq<Event>, last: nat)
    requires events != [] && Timely(events, last)
    ensures Timely(events[1..], events[0].at)
  {
    forall j | 0 < j < |events[1..]| ensures events[1..][j].at < events[1..][j - 1].at + IdleTimeout {
      assert events[1..][j] == events[j + 1] && events[1..][j - 1] == events[j];
    }
    if |events| > 1 {
      assert events[1..][0] == events[1];
    }
  }

  /** A session kept busy by events less than ten seconds apart, none of
      which ends it, answers each of them in turn and ends only by the idle
      timeout once they stop. */
  lemma {:induction false} KeptAlive(events: seq<Event>, last: nat)
    requires Timely(events, last) && AllReplied(events)
    ensures Conversation(events, last, None).exit == TimedOut
    ensures |Conversation(events, last, None).frames| == |events|
    ensures forall j | 0 <= j < |events| ::
      Conversation(events, last, None).frames[j] == React(events[j].input, events[j].at).frame
  {
    if events != [] {
      TimelyTail(events, last);
      assert AllReplied(events[1..]) by {
        forall j | 0 <= j < |events[1..]| ensures React(events[1..][j].input, events[1..][j].at).Reply? {
          assert events[1..][j] == events[j + 1];
        }
      }
      KeptAlive(events[1..], events[0].at);
      assert events[0].at < last + IdleTimeout;
      assert React(events[0].input, events[0].at).Reply?;
      var rest := Conversation(events[1..], events[0].at, Spend(None));
      var t := Conversation(events, last, None);
      assert t == Transcript([React(events[0].input, events[0].at).frame] + rest.frames, rest.exit);
      forall j | 0 <= j < |events| ensures t.frames[j] == React(events[j].input, events[j].at).frame {
        if j > 0 {
          assert events[1..][j - 1] == events[j];
        }
      }
    }
  }

  /** A client that pings at least every ten seconds, and receives nothing
      else, stays connected and gets one pong per ping, carrying the time
      at which that ping was answered. */
  lemma PingsKeepAlive(events: seq<Event>, last: nat)
    requires Timely(events, last)
    requires forall j | 0 <= j < |events| :: events[j].input == FromClient(Line("ping"))
    ensures Conversation(events, last, None).exit == TimedOut
    ensures |Conversation(events, last, None).frames| == |events|
    ensures forall j | 0 <= j < |events| ::
      var f := Conversation(events, last, None).frames[j];
      f == "pong " + NatToString(events[j].at) + "\n"
      && ParseServerLine(f[..|f| - 1]) == Some(PongAt(events[j].at))
  {
    KeptAlive(events, last);
    var t := Conversation(events, last, None);
    forall j | 0 <= j < |events|
      ensures ParseServerLine(t.frames[j][..|t.frames[j]| - 1]) == Some(PongAt(events[j].at))
    {
      assert t.frames[j][..|t.frames[j]| - 1] == FormatServerCmd(Pong, events[j].at);
      ServerCmdRoundTrip(Pong, events[j].at);
    }
  }

  /** Mailbox messages that keep coming within the timeout are written as
      data frames, one each, in mailbox order. */
  lemma MailboxOrder(events: seq<Event>, last: nat)
    requires Timely(events, last)
    requires forall j | 0 <= j < |events| :: events[j].input.FromMailbox? && events[j].input.msg.Some?
    ensures Conversation(events, last, None).frames
      == seq(|events|, j requires 0 <= j < |events| => "data " + events[j].input.msg.value + "\n")
  {
    KeptAlive(events, last);
  }

  /** A line that is empty or not `ping` ends the session at once. */
  lemma BadLineEndsSession(e: Event, rest: seq<Event>, last: nat, budget: Option<nat>, s: string)
    requires e.at < last + IdleTimeout && e.input == FromClient(Line(s)) && s != "ping"
    ensures Conversation([e] + rest, last, budget) == Transcript([], if s == "" then EmptyLine else InvalidCommand(s))
  {
  }

  /** Every way the first event can end a session, each with its reason;
      a session ends at its first event with nothing written exactly when
      that event is not answered. */
  lemma StopReasons(e: Event, rest: seq<Event>, last: nat, budget: Option<nat>)
    ensures var t := Conversation([e] + rest, last, budget);
      && (e.at >= last + IdleTimeout ==> t == Transcript([], TimedOut))
      && (e.at < last + IdleTimeout ==>
        && (e.input == FromClient(ReadError) ==> t == Transcript([], ReadFailed))
        && (e.input == FromClient(EndOfStream) ==> t == Transcript([], ClientClosed))
        && (e.input == FromClient(Line("")) ==> t == Transcript([], EmptyLine))
        && (e.input.FromClient? && e.input.read.Line? && e.input.read.text !in {"", "ping"} ==>
              t == Transcript([], InvalidCommand(e.input.read.text)))
        && (e.input == FromMailbox(None) ==> t == Transcript([], MailboxClosed))
        && ((e.input == FromClient(Line("ping")) || (e.input.FromMailbox? && e.input.msg.Some?)) && budget == Some(0) ==>
              t == Transcript([], WriteFailed)))
      && (t.frames == [] <==> Turn(e, last, budget).Stop?)
  {
    assert ([e] + rest)[0] == e;
    assert ([e] + rest)[1..] == rest;
  }

  /** A session never writes more than its socket accepts; running out ends
      it with a write failure. */
  lemma {:induction false} WritesWithinBudget(events: seq<Event>, last: nat, k: nat)
    ensures |Conversation(events, last, Some(k)).frames| <= k
    ensures (|Conversation(events, last, Some(k)).frames| == k && k < |events| && Timely(events, last) && AllReplied(events))
      ==> Conversation(events, last, Some(k)).exit == WriteFailed
    decreases |events|
  {
    if events != [] && events[0].at < last + IdleTimeout && React(events[0].input, events[0].at).Reply? && k > 0 {
      WritesWithinBudget(events[1..], events[0].at, k - 1);
      if Timely(events, last) && AllReplied(events) {
        TimelyTail(events, last);
        assert AllReplied(events[1..]) by {
          forall j | 0 <= j < |events[1..]| ensures React(events[1..][j].input, events[1..][j].at).Reply? {
            assert events[1..][j] == events[j + 1];
          }
        }
      }
    }
  }

  /** A transcript preceded by the frames already written. */
  function Prefixed(done: seq<string>, t: Transcript): Transcript {
    Transcript(done + t.frames, t.exit)
  }

  /** An event that stops the session leaves only the frames already written. */
  lemma StopStep(events: seq<Event>, i: nat, last: nat, budget: Option<nat>, done: seq<string>)
    requires i < |events| && Turn(events[i], last, budget).Stop?
    ensures Prefixed(done, Conversation(events[i..], last, budget))
      == Transcript(done, Turn(events[i], last, budget).exit)
  {
    assert events[i..][0] == events[i];
    assert done + [] == done;
  }

  /** An event answered with frame `f` moves `f` to the frames already written. */
  lemma ReplyStep(events: seq<Event>, i: nat, last: nat, budget: Option<nat>, done: seq<string>, f: string)
    requires i < |events| && Turn(events[i], last, budget) == Reply(f)
    ensures Prefixed(done, Conversation(events[i..], last, budget))
      == Prefixed(done + [f], Conversation(events[i + 1..], events[i].at, Spend(budget)))
    ensures Concat(done + [f]) == Concat(done) + f
  {
    assert events[i..][0] == events[i];
    assert events[i..][1..] == events[i + 1..];
    var rest := Conversation(events[i + 1..], events[i].at, Spend(budget));
    assert Conversation(events[i..], last, budget) == Transcript([f] + rest.frames, rest.exit);
    assert done + ([f] + rest.frames) == (done + [f]) + rest.frames;
    ConcatAppend(done, [f]);
    assert Concat([f]) == f + Concat([]);
  }

  /** Running out of events ends the session on the idle timer. */
  lemma EndStep(events: seq<Event>, last: nat, budget: Option<nat>, done: seq<string>)
    ensures Prefixed(done, Conversation(events[|events|..], last, budget)) == Transcript(done, TimedOut)
  {
    assert events[|events|..] == [];
    assert done + [] == done;
  }

  /** One pass of the loop body, writing the reply if there is one. */
  method Serve(e: Event, last: nat, w: Sink<char>) returns (r: Reaction)
    modifies w
    ensures r == Turn(e, last, old(w.Budget()))
    ensures r.Reply? ==> w.written == old(w.written) + r.frame && w.Budget() == Spend(old(w.Budget()))
    ensures r.Stop? ==> w.written == old(w.written) && w.Budget() == old(w.Budget())
  {
    if e.at >= last + IdleTimeout {
      return Stop(TimedOut);
    }
    r := React(e.input, e.at);
    if r.Reply? {
      var ok := w.WriteAll(r.frame);
      if !ok {
        r := Stop(WriteFailed);
      }
    }
  }

  /** The `handler` task for one accepted connection: its mailbox is
      added to the store on entry and removed on exit. */
  method Handler(store: ConStore, addr: SocketAddr, start: nat, events: seq<Event>, w: Sink<char>)
    returns (exit: Exit)
    modifies store, w
    ensures store.store == old(store.store) - {AddrKey(addr)}
    ensures var t := Conversation(events, start, old(w.Budget()));
      w.written == old(w.written) + Concat(t.frames) && exit == t.exit
  {
    store.Add(addr, Mailbox([], false));
    exit := Session(start, events, w);
    store.Remove(addr);
  }

  /** The handler's loop over the events of one connection. */
  method Session(start: nat, events: seq<Event>, w: Sink<char>) returns (exit: Exit)
    modifies w
    ensures var t := Conversation(events, start, old(w.Budget()));
      w.written == old(w.written) + Concat(t.frames) && exit == t.exit
  {
    ghost var b0 := w.Budget();
    ghost var w0 := w.written;
    ghost var done: seq<string> := [];
    var i := 0;
    var last: nat := start;
    exit := TimedOut;
    assert events[0..] == events;
    while i < |events|
      invariant 0 <= i <= |events|
      invariant w.written == w0 + Concat(done)
      invariant Conversation(events, start, b0) == Prefixed(done, Conversation(events[i..], last, w.Budget()))
    {
      ghost var budget := w.Budget();
      var r := Serve(events[i], last, w);
      if r.Stop? {
        StopStep(events, i, last, budget, done);
        exit := r.exit;
        break;
      }
      ReplyStep(events, i, last, budget, done, r.frame);
      done := done + [r.frame];
      last := events[i].at;
      i := i + 1;
    }
    if i == |events| {
      EndStep(events, last, w.Budget(), done);
    }
  }
}
