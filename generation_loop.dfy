/**
 * The generation loop (tsp_cl_full.py, run_impl, lines 84-99): the kernel is
 * enqueued once per generation with no read-back in between, and the host
 * waits on the last event only if at least one dispatch was issued. The
 * kernel's effect is an uninterpreted step on the device state.
 */
module GenerationLoop {
  import opened Wrappers

  /** The state after n dispatches, each applied to the previous one's result. */
  function Iterate<S>(step: S -> S, s: S, n: nat): S
  {
    if n == 0 then s else step(Iterate(step, s, n - 1))
  }

  /** `range(generations)` is empty when generations <= 0. */
  function Dispatches(generations: int): nat
  {
    if generations > 0 then generations else 0
  }

  /** The event returned by the dispatch of one generation. */
  datatype Event = Event(generation: nat)

  /**
   * Runs `generations` dispatches in order. `execEvt` is the last dispatch's
   * event (None when nothing was dispatched), `issued` the events in the
   * order they were enqueued, and `waited` whether the host blocked on
   * `execEvt`.
   */
  method DispatchLoop<S>(step: S -> S, s0: S, generations: int)
    returns (s: S, execEvt: Option<Event>, issued: seq<Event>, waited: bool)
    ensures s == Iterate(step, s0, Dispatches(generations))
    ensures |issued| == Dispatches(generations)
    ensures forall i :: 0 <= i < |issued| ==> issued[i] == Event(i)
    ensures execEvt == if generations > 0 then Some(Event(generations - 1)) else None
    ensures waited <==> generations > 0
  {
    s := s0;
    execEvt := None;
    issued := [];
    var i := 0;
    while i < generations
      invariant 0 <= i <= Dispatches(generations)
      invariant s == Iterate(step, s0, i)
      invariant |issued| == i
      invariant forall j :: 0 <= j < i ==> issued[j] == Event(j)
      invariant execEvt == if i > 0 then Some(Event(i - 1)) else None
    {
      s := step(s);
      execEvt := Some(Event(i));
      issued := issued + [Event(i)];
      i := i + 1;
    }
    waited := false;
    if execEvt.Some? {
      waited := true;
    }
  }

  /** A property every step preserves holds after any number of dispatches. */
  lemma {:induction false} IteratePreserves<S>(step: S -> S, inv: S -> bool, s: S, n: nat)
    requires inv(s)
    requires forall x :: inv(x) ==> inv(step(x))
    ensures inv(Iterate(step, s, n))
  {
    if n > 0 {
      IteratePreserves(step, inv, s, n - 1);
    }
  }
}
