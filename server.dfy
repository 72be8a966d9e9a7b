/**
 * `Server.Completion`: counts the asynchronous processors still running and
 * asks the main looper to quit once all of them have finished, or as soon as
 * one of them finished with a fatal error.
 */
module Server {

  /** The two fields of a `Completion`. */
  datatype CompletionState = CompletionState(running: int, fatalError: bool)

  /** A new `Completion(n)`: n processors running, no fatal error seen. */
  function Initial(n: int): (s: CompletionState)
    ensures s.running == n && !s.fatalError
  {
    CompletionState(n, false)
  }

  /** The state after one `addCompleted(fatal)` call, and whether that call asks the looper to quit. */
  function Completed(s: CompletionState, fatal: bool): (r: (CompletionState, bool))
    ensures r.0.running == s.running - 1
    ensures r.0.fatalError <==> s.fatalError || fatal
    ensures r.1 <==> r.0.running == 0 || r.0.fatalError
  {
    var next := CompletionState(s.running - 1, s.fatalError || fatal);
    (next, next.running == 0 || next.fatalError)
  }

  /** The state after a series of completions, oldest first. */
  function CompletedAll(s: CompletionState, fatals: seq<bool>): CompletionState
    decreases |fatals|
  {
    if fatals == [] then s
    else CompletedAll(Completed(s, fatals[0]).0, fatals[1..])
  }

  /** For each call of a series, whether it asks the looper to quit. */
  function QuitRequests(s: CompletionState, fatals: seq<bool>): (qs: seq<bool>)
    ensures |qs| == |fatals|
    decreases |fatals|
  {
    if fatals == [] then []
    else [Completed(s, fatals[0]).1] + QuitRequests(Completed(s, fatals[0]).0, fatals[1..])
  }

  /** Every call decrements `running` by one, and `fatalError` is set iff some call was fatal. */
  lemma {:induction false} CompletedAllCounts(s: CompletionState, fatals: seq<bool>)
    ensures CompletedAll(s, fatals).running == s.running - |fatals|
    ensures CompletedAll(s, fatals).fatalError <==> s.fatalError || true in fatals
    decreases |fatals|
  {
    if fatals != [] {
      CompletedAllCounts(Completed(s, fatals[0]).0, fatals[1..]);
      assert fatals == [fatals[0]] + fatals[1..];
    }
  }

  /** Once a fatal completion has been seen, every later call asks the looper to quit. */
  lemma {:induction false} FatalIsSticky(s: CompletionState, fatals: seq<bool>)
    requires s.fatalError
    ensures CompletedAll(s, fatals).fatalError
    ensures forall k :: 0 <= k < |fatals| ==> QuitRequests(s, fatals)[k]
    decreases |fatals|
  {
    if fatals != [] {
      FatalIsSticky(Completed(s, fatals[0]).0, fatals[1..]);
    }
  }

  /**
   * With n processors that all finish without a fatal error, no call before
   * the n-th asks to quit and the n-th one does.
   */
  lemma {:induction false} QuitOnLastCompletion(n: nat, fatals: seq<bool>)
    requires |fatals| == n && n > 0
    requires forall k :: 0 <= k < n ==> !fatals[k]
    ensures forall k :: 0 <= k < n - 1 ==> !QuitRequests(Initial(n), fatals)[k]
    ensures QuitRequests(Initial(n), fatals)[n - 1]
  {
    QuitCountdown(Initial(n), fatals);
  }

  lemma {:induction false} QuitCountdown(s: CompletionState, fatals: seq<bool>)
    requires !s.fatalError && s.running == |fatals| > 0
    requires forall k :: 0 <= k < |fatals| ==> !fatals[k]
    ensures forall k :: 0 <= k < |fatals| - 1 ==> !QuitRequests(s, fatals)[k]
    ensures QuitRequests(s, fatals)[|fatals| - 1]
    decreases |fatals|
  {
    var next := Completed(s, fatals[0]).0;
    if |fatals| > 1 {
      QuitCountdown(next, fatals[1..]);
    }
  }

  /** A `Completion` object; `quitRequests` counts the calls of `Looper.quitSafely` it made. */
  class Completion {
    var running: int
    var fatalError: bool
    var quitRequests: nat

    function State(): CompletionState
      reads this
    {
      CompletionState(running, fatalError)
    }

    constructor (running: int)
      ensures State() == Initial(running) && quitRequests == 0
    {
      this.running := running;
      this.fatalError := false;
      this.quitRequests := 0;
    }

    method AddCompleted(fatalError: bool)
      modifies this
      ensures State() == Completed(old(State()), fatalError).0
      ensures quitRequests == old(quitRequests) + if Completed(old(State()), fatalError).1 then 1 else 0
    {
      running := running - 1;
      if fatalError {
        this.fatalError := true;
      }
      if running == 0 || this.fatalError {
        quitRequests := quitRequests + 1;
      }
    }
  }
}
