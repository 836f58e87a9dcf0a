/**
 * The extension dispatch pipeline: an ordered registry of handlers, each
 * asked in turn about every line read from the APRS-IS server. A spawnable
 * handler is run fire-and-forget; the response of any other handler is
 * normalised (empty responses dropped, a missing trailing newline added)
 * and written back to the server before the next handler runs. The first
 * failed write ends dispatch of that line.
 */
module Extensions {
  import opened Wrappers
  import opened Text
  import opened Sinks

  /** The sending half of a back-channel to the APRS-IS server, told apart
      by the number of the upstream connection it was made for. */
  datatype Sender = Sender(channel: nat)

  /** What a handler does with `set_own_writer`: the trait's default ignores
      the sender; a handler that originates its own traffic keeps it. */
  datatype WriterSlot = Ignores | Keeps(current: Option<Sender>)

  /** A registered handler, seen through the capabilities dispatch uses:
      its name, whether it is spawned, its response to a line, and what it
      does with a back-channel sender. */
  datatype Extension = Extension(
    name: string,
    spawnable: bool,
    handle: string -> Option<seq<byte>>,
    slot: WriterSlot)

  datatype IoError = WriteFailed

  /** A handler that keeps the trait's defaults: not spawnable, and
      `set_own_writer` does nothing. */
  function WithDefaults(name: string, handle: string -> Option<seq<byte>>): Extension {
    Extension(name, false, handle, Ignores)
  }

  /** `Extension::set_own_writer` on one handler. */
  function SetOwnWriter(e: Extension, s: Sender): (r: Extension)
    ensures r.name == e.name && r.spawnable == e.spawnable && r.handle == e.handle
    ensures e.slot.Ignores? ==> r == e
    ensures e.slot.Keeps? ==> r.slot == Keeps(Some(s))
  {
    match e.slot
    case Ignores => e
    case Keeps(_) => e.(slot := Keeps(Some(s)))
  }

  lemma DefaultsAreInert(name: string, handle: string -> Option<seq<byte>>, s: Sender)
    ensures !WithDefaults(name, handle).spawnable
    ensures SetOwnWriter(WithDefaults(name, handle), s) == WithDefaults(name, handle)
  {
  }

  // ---------------------------------------------------------------------
  // What one line does to the upstream writer

  /** The bytes actually written for a handler's response: nothing for
      `None` or an empty buffer, otherwise the buffer with its trailing
      newline guaranteed. */
  function Normalise(res: Option<seq<byte>>): (r: Option<seq<byte>>)
    ensures r.Some? <==> res.Some? && res.value != []
    ensures r.Some? ==> |res.value| <= |r.value| <= |res.value| + 1
    ensures r.Some? ==> r.value[..|res.value|] == res.value && r.value[|r.value| - 1] == LF
    ensures r.Some? ==> (|r.value| == |res.value| <==> res.value[|res.value| - 1] == LF)
  {
    match res
    case None => None
    case Some(b) =>
      if b == [] then None
      else if b[|b| - 1] == LF then Some(b)
      else Some(b + [LF])
  }

  lemma NormaliseIdempotent(res: Option<seq<byte>>)
    ensures Normalise(Normalise(res)) == Normalise(res)
  {
  }

  /** What a handler contributes to the writer for `line`: a spawnable
      handler's result is discarded. */
  function Contribution(e: Extension, line: string): (r: Option<seq<byte>>)
    ensures e.spawnable ==> r.None?
  {
    if e.spawnable then None else Normalise(e.handle(line))
  }

  function AsSeq<T>(o: Option<T>): seq<T> {
    match o
    case None => []
    case Some(x) => [x]
  }

  /** The buffers written for `line`, one per contributing handler, in
      registration order. */
  function Responses(exts: seq<Extension>, line: string): (r: seq<seq<byte>>)
    ensures |r| <= |exts|
    ensures forall j | 0 <= j < |r| :: r[j] != []
  {
    if exts == [] then [] else AsSeq(Contribution(exts[0], line)) + Responses(exts[1..], line)
  }

  function Flatten(bufs: seq<seq<byte>>): seq<byte> {
    if bufs == [] then [] else bufs[0] + Flatten(bufs[1..])
  }

  /** The result of dispatching one line: the bytes written, whether a
      write failed, how many handlers were reached, and how many writes
      succeeded. */
  datatype Dispatched = Dispatched(written: seq<byte>, failed: bool, consulted: nat, writes: nat)

  /** Dispatch of `line` to `exts` against a writer that accepts `budget`
      more writes (`None`: all of them). */
  function Dispatch(exts: seq<Extension>, line: string, budget: Option<nat>): (d: Dispatched)
    ensures d.consulted <= |exts|
    ensures !d.failed ==> d.consulted == |exts|
  {
    if exts == [] then Dispatched([], false, 0, 0)
    else
      match Contribution(exts[0], line)
      case None =>
        var rest := Dispatch(exts[1..], line, budget);
        rest.(consulted := rest.consulted + 1)
      case Some(b) =>
        if budget == Some(0) then Dispatched([], true, 1, 0)
        else
          var rest := Dispatch(exts[1..], line, Spend(budget));
          Dispatched(b + rest.written, rest.failed, rest.consulted + 1, rest.writes + 1)
  }

  lemma {:induction false} FlattenAppend(a: seq<seq<byte>>, b: seq<seq<byte>>)
    ensures Flatten(a + b) == Flatten(a) + Flatten(b)
  {
    if a != [] {
      assert (a + b)[1..] == a[1..] + b;
      FlattenAppend(a[1..], b);
    } else {
      assert a + b == b;
    }
  }

  /** Handlers are consulted in registration order: the responses of two
      lists of handlers, one after the other, are those of the joined list. */
  lemma {:induction false} ResponsesAppend(a: seq<Extension>, b: seq<Extension>, line: string)
    ensures Responses(a + b, line) == Responses(a, line) + Responses(b, line)
  {
    if a != [] {
      assert (a + b)[0] == a[0];
      assert (a + b)[1..] == a[1..] + b;
      ResponsesAppend(a[1..], b, line);
    } else {
      assert a + b == b;
    }
  }

  /** Registering a handler adds its contribution after all earlier ones. */
  lemma RegisterAddsLast(exts: seq<Extension>, e: Extension, line: string)
    ensures Responses(exts + [e], line) == Responses(exts, line) + AsSeq(Contribution(e, line))
  {
    ResponsesAppend(exts, [e], line);
    assert [e][1..] == [];
  }

  /** A spawnable handler never causes bytes to be written: removing it
      changes nothing that reaches the writer. */
  lemma SpawnableWritesNothing(a: seq<Extension>, e: Extension, b: seq<Extension>, line: string)
    requires e.spawnable
    ensures Responses(a + [e] + b, line) == Responses(a + b, line)
  {
    SilentHandlerWritesNothing(a, e, b, line);
  }

  /** More generally, a handler that contributes nothing for `line` can be
      removed without changing what a dispatch of `line` writes. */
  lemma SilentHandlerWritesNothing(a: seq<Extension>, e: Extension, b: seq<Extension>, line: string)
    requires Contribution(e, line).None?
    ensures Responses(a + [e] + b, line) == Responses(a + b, line)
  {
    ResponsesAppend(a + [e], b, line);
    RegisterAddsLast(a, e, line);
    assert Responses(a + [e], line) == Responses(a, line);
    ResponsesAppend(a, b, line);
  }

  /** Without a write failure, the bytes written are the normalised
      responses of the non-spawnable handlers, in registration order. */
  lemma {:induction false} DispatchSucceeds(exts: seq<Extension>, line: string, budget: Option<nat>)
    requires budget == None || |Responses(exts, line)| <= budget.value
    ensures Dispatch(exts, line, budget)
      == Dispatched(Flatten(Responses(exts, line)), false, |exts|, |Responses(exts, line)|)
  {
    if exts != [] {
      match Contribution(exts[0], line)
      case None =>
        assert Responses(exts, line) == Responses(exts[1..], line);
        DispatchSucceeds(exts[1..], line, budget);
      case Some(b) =>
        var rest := Responses(exts[1..], line);
        assert Responses(exts, line) == [b] + rest;
        assert Flatten([b] + rest) == b + Flatten(rest);
        DispatchSucceeds(exts[1..], line, Spend(budget));
    }
  }

  /** When the writer accepts only `k` of the responses, the first `k` are
      written, the handler whose response fails is the last one reached,
      and the handlers after it are never consulted. */
  lemma {:induction false} DispatchFails(exts: seq<Extension>, line: string, k: nat)
    requires k < |Responses(exts, line)|
    ensures var d := Dispatch(exts, line, Some(k));
      && d.failed
      && d.written == Flatten(Responses(exts, line)[..k])
      && d.writes == k
      && 0 < d.consulted
      && Contribution(exts[d.consulted - 1], line).Some?
      && |Responses(exts[..d.consulted], line)| == k + 1
    decreases |exts|, 1
  {
    if Contribution(exts[0], line).None? {
      FailsPastSilent(exts, line, k);
    } else {
      FailsPastWriter(exts, line, k);
    }
  }

  /** The conclusion of `DispatchFails`. */
  predicate FailsAt(exts: seq<Extension>, line: string, k: nat) {
    var d := Dispatch(exts, line, Some(k));
    && k < |Responses(exts, line)|
    && d.failed
    && d.written == Flatten(Responses(exts, line)[..k])
    && d.writes == k
    && 0 < d.consulted <= |exts|
    && Contribution(exts[d.consulted - 1], line).Some?
    && |Responses(exts[..d.consulted], line)| == k + 1
  }

  /** `DispatchFails` when the first handler contributes nothing. */
  lemma {:induction false} FailsPastSilent(exts: seq<Extension>, line: string, k: nat)
    requires k < |Responses(exts, line)| && Contribution(exts[0], line).None?
    ensures FailsAt(exts, line, k)
    decreases |exts|, 0
  {
    assert Responses(exts, line) == Responses(exts[1..], line);
    DispatchFails(exts[1..], line, k);
    var d := Dispatch(exts, line, Some(k));
    var d' := Dispatch(exts[1..], line, Some(k));
    assert d.consulted == d'.consulted + 1;
    assert exts[..d.consulted] == [exts[0]] + exts[1..][..d'.consulted];
    ResponsesAppend([exts[0]], exts[1..][..d'.consulted], line);
    assert Responses([exts[0]], line) == [];
  }

  /** `DispatchFails` when the first handler has a response. */
  lemma {:induction false} FailsPastWriter(exts: seq<Extension>, line: string, k: nat)
    requires k < |Responses(exts, line)| && Contribution(exts[0], line).Some?
    ensures FailsAt(exts, line, k)
    decreases |exts|, 0
  {
    var b := Contribution(exts[0], line).value;
    var r := Responses(exts, line);
    assert r == [b] + Responses(exts[1..], line);
    assert Responses([exts[0]], line) == [b] + Responses([], line);
    if k == 0 {
      assert exts[..1] == [exts[0]];
    } else {
      DispatchFails(exts[1..], line, k - 1);
      var d := Dispatch(exts, line, Some(k));
      var d' := Dispatch(exts[1..], line, Some(k - 1));
      assert r[..k] == [b] + Responses(exts[1..], line)[..k - 1];
      assert Flatten(r[..k]) == b + Flatten(Responses(exts[1..], line)[..k - 1]);
      assert exts[..d.consulted] == [exts[0]] + exts[1..][..d'.consulted];
      ResponsesAppend([exts[0]], exts[1..][..d'.consulted], line);
    }
  }

  /** A dispatch that had already written `prefix` and reached `n`
      handlers before it went on as `d`. */
  function After(prefix: seq<byte>, n: nat, m: nat, d: Dispatched): Dispatched {
    Dispatched(prefix + d.written, d.failed, n + d.consulted, m + d.writes)
  }

  /** Dispatch from handler `i` on, one handler unfolded. */
  lemma DispatchStep(exts: seq<Extension>, i: nat, line: string, budget: Option<nat>)
    requires i < |exts|
    ensures Contribution(exts[i], line).None? ==>
      Dispatch(exts[i..], line, budget) == After([], 1, 0, Dispatch(exts[i + 1..], line, budget))
    ensures Contribution(exts[i], line).Some? && budget == Some(0) ==>
      Dispatch(exts[i..], line, budget) == Dispatched([], true, 1, 0)
    ensures Contribution(exts[i], line).Some? && budget != Some(0) ==>
      Dispatch(exts[i..], line, budget)
        == After(Contribution(exts[i], line).value, 1, 1, Dispatch(exts[i + 1..], line, Spend(budget)))
  {
    assert exts[i..][0] == exts[i];
    assert exts[i..][1..] == exts[i + 1..];
  }

  /** One more handler done: what it wrote moves from the rest of the
      dispatch to the part already done. */
  lemma AfterStep(done: seq<byte>, i: nat, m: nat, exts: seq<Extension>, line: string, budget: Option<nat>,
                  c: Option<seq<byte>>, next: Option<nat>)
    requires i < |exts| && c == Contribution(exts[i], line)
    requires c.None? || budget != Some(0)
    requires next == if c.Some? then Spend(budget) else budget
    ensures After(done, i, m, Dispatch(exts[i..], line, budget))
      == After(done + Flatten(AsSeq(c)), i + 1, m + |AsSeq(c)|, Dispatch(exts[i + 1..], line, next))
  {
    DispatchStep(exts, i, line, budget);
    if c.Some? {
      WriterStep(done, c.value, i, m, Dispatch(exts[i + 1..], line, Spend(budget)));
    } else {
      assert done + Flatten([]) == done;
    }
  }

  /** `AfterStep` for a handler that writes `b`. */
  lemma WriterStep(done: seq<byte>, b: seq<byte>, i: nat, m: nat, rest: Dispatched)
    ensures After(done, i, m, After(b, 1, 1, rest)) == After(done + Flatten(AsSeq(Some(b))), i + 1, m + 1, rest)
  {
    assert Flatten([b]) == b + Flatten([]);
    assert done + b + rest.written == done + (b + rest.written);
  }

  /** One handler's turn in `broadcast`: a spawnable handler is started
      with its own copy of the line and its result is never used; another
      handler's normalised response, if any, is written to `w`. */
  method Offer(e: Extension, line: string, w: Sink<byte>) returns (ok: bool)
    modifies w
    ensures ok <==> Contribution(e, line).None? || old(w.Budget()) != Some(0)
    ensures ok ==> w.written == old(w.written) + Flatten(AsSeq(Contribution(e, line)))
    ensures !ok ==> w.written == old(w.written)
    ensures w.Budget() == if ok && Contribution(e, line).Some? then Spend(old(w.Budget())) else old(w.Budget())
    ensures w.writes == if ok && Contribution(e, line).Some? then old(w.writes) + 1 else old(w.writes)
  {
    if e.spawnable {
      ok := true;
      assert AsSeq(Contribution(e, line)) == [];
    } else {
      var out := Normalise(e.handle(line));
      if out.Some? {
        ok := w.WriteAll(out.value);
        assert Flatten([out.value]) == out.value + Flatten([]);
      } else {
        ok := true;
      }
    }
  }

  // ---------------------------------------------------------------------
  // The registry

  /** `set_own_writers`' effect on the list: every handler, in order, is
      handed the same sender. */
  function BindAll(exts: seq<Extension>, s: Sender): (r: seq<Extension>)
    ensures |r| == |exts|
  {
    seq(|exts|, i requires 0 <= i < |exts| => SetOwnWriter(exts[i], s))
  }

  /** Binding a sender leaves the list, its order and every handler's
      behaviour as they were; each handler that keeps a sender now holds
      this one, and each that ignores it is untouched. */
  lemma BindAllKeepsHandlers(exts: seq<Extension>, s: Sender, line: string)
    ensures forall i | 0 <= i < |exts| ::
      BindAll(exts, s)[i].name == exts[i].name && BindAll(exts, s)[i].spawnable == exts[i].spawnable
    ensures forall i | 0 <= i < |exts| && exts[i].slot.Keeps? :: BindAll(exts, s)[i].slot == Keeps(Some(s))
    ensures forall i | 0 <= i < |exts| && exts[i].slot.Ignores? :: BindAll(exts, s)[i] == exts[i]
    ensures Responses(BindAll(exts, s), line) == Responses(exts, line)
  {
    ResponsesUnchanged(exts, BindAll(exts, s), line);
  }

  lemma {:induction false} ResponsesUnchanged(a: seq<Extension>, b: seq<Extension>, line: string)
    requires |a| == |b|
    requires forall i | 0 <= i < |a| :: a[i].spawnable == b[i].spawnable && a[i].handle == b[i].handle
    ensures Responses(a, line) == Responses(b, line)
  {
    if a != [] {
      ResponsesUnchanged(a[1..], b[1..], line);
    }
  }

  /** The loop of `ExtensionRegistry::broadcast`: each handler in turn is
      offered the line, until a write fails. */
  method OfferAll(exts: seq<Extension>, line: string, w: Sink<byte>) returns (r: Result<(), IoError>, consulted: nat)
    modifies w
    ensures var d := Dispatch(exts, line, old(w.Budget()));
      && w.written == old(w.written) + d.written
      && (r.Err? <==> d.failed)
      && consulted == d.consulted
      && w.writes == old(w.writes) + d.writes
  {
    var i := 0;
    ghost var b0 := w.Budget();
    ghost var w0 := w.written;
    ghost var n0 := w.writes;
    ghost var budget := b0;
    ghost var done: seq<byte> := [];
    ghost var m: nat := 0;
    assert exts[0..] == exts;
    assert [] + Dispatch(exts, line, b0).written == Dispatch(exts, line, b0).written;
    while i < |exts|
      invariant 0 <= i <= |exts|
      invariant budget == w.Budget()
      invariant w.written == w0 + done && w.writes == n0 + m
      invariant Dispatch(exts, line, b0) == After(done, i, m, Dispatch(exts[i..], line, budget))
    {
      var ok := Offer(exts[i], line, w);
      if !ok {
        DispatchStep(exts, i, line, budget);
        r, consulted := Err(WriteFailed), i + 1;
        return;
      }
      ghost var c := Contribution(exts[i], line);
      AfterStep(done, i, m, exts, line, budget, c, w.Budget());
      done := done + Flatten(AsSeq(c));
      m := m + |AsSeq(c)|;
      budget := w.Budget();
      i := i + 1;
    }
    r, consulted := Ok(()), i;
  }

  /** The process-wide list of extensions, filled at start-up. */
  class Registry {
    var extensions: seq<Extension>

    constructor ()
      ensures extensions == []
    {
      extensions := [];
    }

    /** `ExtensionRegistry::register`: the new handler goes last. */
    method Register(e: Extension)
      modifies this
      ensures extensions == old(extensions) + [e]
    {
      extensions := extensions + [e];
    }

    /** `ExtensionRegistry::broadcast`: runs every handler on `line`, in
        order, writing each normalised response to `w`. Returns the error of
        the first failed write, and how many handlers were reached. */
    method Broadcast(line: string, w: Sink<byte>) returns (r: Result<(), IoError>, consulted: nat)
      modifies w
      ensures var d := Dispatch(extensions, line, old(w.Budget()));
        && w.written == old(w.written) + d.written
        && (r.Err? <==> d.failed)
        && consulted == d.consulted
        && w.writes == old(w.writes) + d.writes
      ensures w.Budget() == SpendN(old(w.Budget()), Dispatch(extensions, line, old(w.Budget())).writes)
    {
      ghost var n0 := w.writes;
      r, consulted := OfferAll(extensions, line, w);
      RemainingAfter(w.failAt, n0, w.writes - n0);
    }

    /** `ExtensionRegistry::set_own_writers`: hands a clone of `s` to every
        handler, in registration order. */
    method SetOwnWriters(s: Sender)
      modifies this
      ensures extensions == BindAll(old(extensions), s)
    {
      var i := 0;
      ghost var before := extensions;
      while i < |extensions|
        invariant 0 <= i <= |extensions| == |before|
        invariant extensions[..i] == BindAll(before, s)[..i]
        invariant extensions[i..] == before[i..]
      {
        extensions := extensions[i := SetOwnWriter(extensions[i], s)];
        i := i + 1;
      }
      assert extensions == extensions[..i];
    }
  }
}
