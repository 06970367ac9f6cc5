/** The `timer` service: the list of pending `$timeout` handles, so that they
    can all be cancelled when a dashboard is (re)loaded. The calls to
    `$timeout.cancel` are recorded, in order, in `cancelled`. */
module Timer {
  import opened Seqs

  /** A `$timeout` promise, identified by a number. */
  type Handle = nat

  class Timer {
    var timers: seq<Handle>
    var cancelled: seq<Handle>

    constructor ()
      ensures timers == [] && cancelled == []
    {
      timers, cancelled := [], [];
    }

    /** `register(promise)`: remember it and hand it back. */
    method Register(p: Handle) returns (r: Handle)
      modifies this
      ensures r == p
      ensures timers == old(timers) + [p]
      ensures cancelled == old(cancelled)
    {
      timers := timers + [p];
      r := p;
    }

    /** `cancel(promise)`: forget every occurrence of it, keep the others in
        order, and cancel it. */
    method Cancel(p: Handle)
      modifies this
      ensures timers == Without(old(timers), p)
      ensures p !in timers && forall q :: q in old(timers) && q != p ==> q in timers
      ensures cancelled == old(cancelled) + [p]
    {
      timers := Without(timers, p);
      cancelled := cancelled + [p];
    }

    /** `cancel_all()`: cancel every pending handle, in order, and forget them. */
    method CancelAll()
      modifies this
      ensures timers == []
      ensures cancelled == old(cancelled) + old(timers)
    {
      var pending := timers;
      for i := 0 to |pending|
        invariant cancelled == old(cancelled) + pending[..i]
      {
        assert pending[..i + 1] == pending[..i] + [pending[i]];
        cancelled := cancelled + [pending[i]];
      }
      assert pending[..|pending|] == pending;
      timers := [];
    }
  }
}
