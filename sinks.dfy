/**
 * The write half of a socket, as the relay uses it. Here `write_all`
 * either writes the whole buffer or fails having written nothing; a real
 * socket may have sent part of the buffer before failing. A sink is given a failure point: the
 * write call with that index, and every call after it, fails and writes
 * nothing. Without a failure point every write succeeds.
 */
module Sinks {
  import opened Wrappers

  class Sink<T> {
    /** Everything written so far, in order. */
    var written: seq<T>
    /** How many `write_all` calls have succeeded. */
    var writes: nat
    /** Index of the first write call that fails, if any. */
    const failAt: Option<nat>

    constructor (failAt: Option<nat>)
      ensures written == [] && writes == 0 && this.failAt == failAt
    {
      written := [];
      writes := 0;
      this.failAt := failAt;
    }

    /** How many more writes will succeed; `None` for all of them. */
    function Budget(): (b: Option<nat>)
      reads this
      ensures b == None <==> failAt == None
    {
      Remaining(failAt, writes)
    }

    method WriteAll(data: seq<T>) returns (ok: bool)
      modifies this
      ensures ok <==> old(Budget()) != Some(0)
      ensures written == if ok then old(written) + data else old(written)
      ensures writes == if ok then old(writes) + 1 else old(writes)
      ensures Budget() == if ok then Spend(old(Budget())) else old(Budget())
    {
      ok := failAt.None? || writes < failAt.value;
      if ok {
        written := written + data;
        writes := writes + 1;
      }
    }
  }

  /** The budget of a sink failing at `failAt` once `writes` writes have
      succeeded. */
  function Remaining(failAt: Option<nat>, writes: nat): Option<nat> {
    match failAt
    case None => None
    case Some(k) => Some(if writes <= k then k - writes else 0)
  }

  /** Each successful write spends one unit of the budget. */
  lemma {:induction false} RemainingAfter(failAt: Option<nat>, n: nat, m: nat)
    ensures Remaining(failAt, n + m) == SpendN(Remaining(failAt, n), m)
  {
    if m > 0 {
      RemainingAfter(failAt, n, m - 1);
    }
  }

  /** The budget after `n` more successful writes. */
  function SpendN(b: Option<nat>, n: nat): Option<nat> {
    if n == 0 then b else Spend(SpendN(b, n - 1))
  }

  /** The budget after one more successful write. */
  function Spend(b: Option<nat>): Option<nat> {
    match b
    case None => None
    case Some(k) => Some(if k > 0 then k - 1 else 0)
  }
}
