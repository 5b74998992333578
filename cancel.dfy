/** The shared cancellation flag of a sizing job (`Arc<AtomicBool>`).

    The flag is shared between the job table and the running worker, so it is
    an object: whoever holds a reference sees a `Store` made through another.
    A store made by another thread while the worker runs cannot be expressed
    in a sequential model; instead the token carries `visibleAfter`, the number
    of further loads that still read `false` before such a store is seen
    (`None`: no other thread cancels during this run). The flag only ever goes
    from `false` to `true`, so every load after the first `true` reads `true`. */
module Cancel {
  import opened Common

  /** Loads still reading `false` after `n` more loads, given `left` now. */
  function Consume(left: Option<nat>, n: nat): (r: Option<nat>)
    ensures left.None? <==> r.None?
    ensures left.Some? && left.value <= n ==> r == Some(0)
    ensures left.Some? && n <= left.value ==> r == Some(left.value - n)
  {
    match left
    case None => None
    case Some(k) => Some(if k >= n then k - n else 0)
  }

  /** How many of `n` consecutive loads read `false`, given `left` loads remain before cancellation. */
  function Budget(left: Option<nat>, n: nat): (r: nat)
    ensures r <= n
    ensures left.None? ==> r == n
    ensures left.Some? ==> r == Min(left.value, n)
  {
    match left
    case None => n
    case Some(k) => if k < n then k else n
  }

  class CancelToken {
    /** The value of the atomic flag. */
    var canceled: bool
    /** Environment: loads still reading `false` before another thread's store is seen. */
    var visibleAfter: Option<nat>

    /** `Arc::new(AtomicBool::new(false))`. */
    constructor (visibleAfter: Option<nat>)
      ensures !canceled && this.visibleAfter == visibleAfter
    {
      canceled := false;
      this.visibleAfter := visibleAfter;
    }

    /** Number of loads that will still read `false` (`None`: all of them). */
    function LoadsLeft(): (r: Option<nat>)
      reads this
      ensures canceled ==> r == Some(0)
    {
      if canceled then Some(0) else visibleAfter
    }

    /** `cancel.store(true, SeqCst)`. */
    method Store()
      modifies this
      ensures canceled && LoadsLeft() == Some(0)
    {
      canceled := true;
    }

    /** `cancel.load(SeqCst)`. */
    method Load() returns (c: bool)
      modifies this
      ensures c == (old(LoadsLeft()) == Some(0))
      ensures c ==> canceled
      ensures !c ==> !canceled
      ensures old(canceled) ==> canceled
      ensures LoadsLeft() == Consume(old(LoadsLeft()), 1)
    {
      if canceled {
        c := true;
      } else {
        match visibleAfter
        case None =>
          c := false;
        case Some(k) =>
          if k == 0 {
            canceled := true;
            c := true;
          } else {
            visibleAfter := Some(k - 1);
            c := false;
          }
      }
    }
  }
}
