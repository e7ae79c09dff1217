/**
 * The retry policy shared by `ZhihuCommon.get` and `ZhihuCommon.post`, as a
 * function of the class-wide "last request failed" flag and of the answers
 * the transport would give to the five attempts of one call.
 *
 * A call is described by the events it produces: `Slept` for each
 * `time.sleep(10)`, `Attempted(ok)` for each transport attempt.
 */
module Retry {
  import opened Wrappers
  import opened Web

  /** At most this many attempts per call. */
  const MaxTries: nat := 5

  datatype Event = Slept | Attempted(ok: bool)

  /** What one call gives: its result, its events, and the flag it leaves behind. */
  datatype RunOutcome<R> = RunOutcome(result: Result<R, Exception>, events: seq<Event>, failFlag: bool)

  /** The index of the first attempt from `from` on that answers, or `|answers|` when none does. */
  function FirstAnswer<R>(answers: seq<Attempt<R>>, from: nat): (k: nat)
    requires from <= |answers|
    ensures from <= k <= |answers|
    ensures forall j | from <= j < k :: answers[j].Raised?
    ensures k < |answers| ==> answers[k].Responded?
    decreases |answers| - from
  {
    if from == |answers| || answers[from].Responded? then from else FirstAnswer(answers, from + 1)
  }

  /** The pause before attempt `j` of a call that found the flag `f` and whose earlier attempts failed. */
  function PauseBefore(f: bool, j: nat): seq<Event>
  {
    if j == 0 && !f then [] else [Slept]
  }

  /** The events of the first `n` attempts of a call that found the flag `f`, when all of them fail. */
  function FailedEvents(f: bool, n: nat): seq<Event>
  {
    if n == 0 then [] else FailedEvents(f, n - 1) + PauseBefore(f, n - 1) + [Attempted(false)]
  }

  /**
   * What one call of `get` or `post` returns or raises: the first answer,
   * or `NoActiveException` once all five attempts have failed.
   */
  function RetryResult<R>(answers: seq<Attempt<R>>): Result<R, Exception>
    requires |answers| == MaxTries
  {
    var k := FirstAnswer(answers, 0);
    if k < MaxTries then Success(answers[k].value) else Failure(NoActiveException)
  }

  /**
   * A call answers iff some attempt responds, and then with the response of
   * the first attempt that does; after five raised attempts it raises
   * `NoActiveException`, never one of the transport's own exceptions.
   */
  lemma RetryResultSpec<R>(answers: seq<Attempt<R>>)
    requires |answers| == MaxTries
    ensures RetryResult(answers).Success? <==> exists k | 0 <= k < MaxTries :: answers[k].Responded?
    ensures RetryResult(answers).Success? ==>
      exists k | 0 <= k < MaxTries ::
        answers[k] == Responded(RetryResult(answers).value) && forall j | 0 <= j < k :: answers[j].Raised?
    ensures RetryResult(answers).Failure? ==> RetryResult(answers).error == NoActiveException
  {
    var k := FirstAnswer(answers, 0);
    if k < MaxTries {
      assert answers[k] == Responded(RetryResult(answers).value);
    }
  }

  /**
   * One call of `get` or `post` that finds the shared flag equal to `flag`:
   * attempts fail until the first that answers, each preceded by a sleep
   * while the flag is set. After five failures the `else` branch of the loop
   * runs a bare `raise`; no exception is being handled by then, so Python
   * raises a RuntimeError rather than the last transport error.
   */
  function Run<R>(flag: bool, answers: seq<Attempt<R>>): (o: RunOutcome<R>)
    requires |answers| == MaxTries
    ensures o.failFlag <==> o.result.Failure?
    ensures o.result == RetryResult(answers)
  {
    var k := FirstAnswer(answers, 0);
    if k < MaxTries then
      RunOutcome(Success(answers[k].value), FailedEvents(flag, k) + PauseBefore(flag, k) + [Attempted(true)], false)
    else
      RunOutcome(Failure(NoActiveException), FailedEvents(flag, MaxTries), true)
  }

  // ---------------------------------------------------------------------
  // Reading a sequence of events
  // ---------------------------------------------------------------------

  function Attempts(ev: seq<Event>): nat
  {
    if ev == [] then 0 else Attempts(ev[..|ev| - 1]) + (if ev[|ev| - 1].Attempted? then 1 else 0)
  }

  function Sleeps(ev: seq<Event>): nat
  {
    if ev == [] then 0 else Sleeps(ev[..|ev| - 1]) + (if ev[|ev| - 1] == Slept then 1 else 0)
  }

  /** The shared flag after the events `ev`, starting from `f`: whether the latest attempt failed. */
  function FlagAfter(f: bool, ev: seq<Event>): bool
  {
    if ev == [] then f
    else match ev[|ev| - 1]
      case Slept => FlagAfter(f, ev[..|ev| - 1])
      case Attempted(ok) => !ok
  }

  /**
   * The backoff discipline, starting from flag `f`: a sleep is taken only
   * while the flag is set and is followed by an attempt, and an attempt is
   * preceded by a sleep exactly when the flag is set at that moment.
   */
  ghost predicate Spaced(f: bool, ev: seq<Event>)
  {
    forall i | 0 <= i < |ev| :: SpacedAt(f, ev, i)
  }

  /** The discipline at event `i` of `ev`. */
  ghost predicate SpacedAt(f: bool, ev: seq<Event>, i: nat)
    requires i < |ev|
  {
    if ev[i] == Slept then i + 1 < |ev| && ev[i + 1].Attempted? && FlagAfter(f, ev[..i])
    else (i > 0 && ev[i - 1] == Slept) == FlagAfter(f, ev[..i])
  }

  lemma {:induction false} CountsAppend(x: seq<Event>, y: seq<Event>)
    ensures Attempts(x + y) == Attempts(x) + Attempts(y)
    ensures Sleeps(x + y) == Sleeps(x) + Sleeps(y)
    decreases |y|
  {
    if y == [] {
      assert x + y == x;
    } else {
      CountsAppend(x, y[..|y| - 1]);
      assert (x + y)[..|x + y| - 1] == x + y[..|y| - 1];
    }
  }

  lemma {:induction false} FlagAfterAppend(f: bool, x: seq<Event>, y: seq<Event>)
    ensures FlagAfter(f, x + y) == FlagAfter(FlagAfter(f, x), y)
    decreases |y|
  {
    if y == [] {
      assert x + y == x;
    } else {
      FlagAfterAppend(f, x, y[..|y| - 1]);
      assert (x + y)[..|x + y| - 1] == x + y[..|y| - 1];
    }
  }

  /** The discipline holds of a whole history when it holds of each of two consecutive parts. */
  lemma SpacedAppend(f: bool, x: seq<Event>, y: seq<Event>)
    requires Spaced(f, x) && Spaced(FlagAfter(f, x), y)
    ensures Spaced(f, x + y)
  {
    forall i | 0 <= i < |x + y| ensures SpacedAt(f, x + y, i) {
      if i < |x| {
        SpacedAppendLeft(f, x, y, i);
      } else {
        SpacedAppendRight(f, x, y, i - |x|);
      }
    }
  }

  lemma SpacedAppendLeft(f: bool, x: seq<Event>, y: seq<Event>, i: nat)
    requires i < |x| && SpacedAt(f, x, i)
    ensures SpacedAt(f, x + y, i)
  {
    var xy := x + y;
    assert xy[..i] == x[..i];
    assert xy[i] == x[i];
    if i > 0 { assert xy[i - 1] == x[i - 1]; }
    if x[i] == Slept { assert xy[i + 1] == x[i + 1]; }
  }

  lemma SpacedAppendRight(f: bool, x: seq<Event>, y: seq<Event>, j: nat)
    requires j < |y| && Spaced(f, x) && SpacedAt(FlagAfter(f, x), y, j)
    ensures SpacedAt(f, x + y, |x| + j)
  {
    var xy := x + y;
    var i := |x| + j;
    assert xy[..i] == x + y[..j];
    FlagAfterAppend(f, x, y[..j]);
    assert xy[i] == y[j];
    if y[j] == Slept { assert xy[i + 1] == y[j + 1]; }
    if j > 0 {
      assert xy[i - 1] == y[j - 1];
    } else if |x| > 0 {
      assert SpacedAt(f, x, |x| - 1);
      assert xy[i - 1] == x[|x| - 1];
    }
  }

  // ---------------------------------------------------------------------
  // What one call does
  // ---------------------------------------------------------------------

  /** The sleeps among `FailedEvents(f, n)`: one before each attempt, but none before the first if `f` is clear. */
  function FailedSleeps(f: bool, n: nat): nat
  {
    if n == 0 then 0 else (if f then 1 else 0) + n - 1
  }

  lemma {:induction false} FailedEventsCounts(f: bool, n: nat)
    ensures Attempts(FailedEvents(f, n)) == n
    ensures Sleeps(FailedEvents(f, n)) == FailedSleeps(f, n)
  {
    if n > 0 {
      FailedEventsCounts(f, n - 1);
      PauseCounts(f, n - 1);
      var x, p := FailedEvents(f, n - 1), PauseBefore(f, n - 1);
      CountsAppend(x, p);
      CountsAppend(x + p, [Attempted(false)]);
      assert Attempts([Attempted(false)]) == 1 && Sleeps([Attempted(false)]) == 0 by {
        assert [Attempted(false)][..0] == [];
      }
    }
  }

  /**
   * When attempts 0 to k - 1 fail and attempt k answers, the call returns
   * that answer after exactly k + 1 attempts and clears the flag; it sleeps
   * before every attempt after a failed one, and before the first attempt
   * iff it found the flag set.
   */
  lemma RunFirstAnswer<R>(f: bool, a: seq<Attempt<R>>, k: nat)
    requires |a| == MaxTries && k < MaxTries
    requires forall j | 0 <= j < k :: a[j].Raised?
    requires a[k].Responded?
    ensures Run(f, a).result == Success(a[k].value)
    ensures Run(f, a).events == FailedEvents(f, k) + PauseBefore(f, k) + [Attempted(true)]
    ensures !Run(f, a).failFlag
    ensures Attempts(Run(f, a).events) == k + 1
    ensures Sleeps(Run(f, a).events) == (if f then 1 else 0) + k
  {
    FirstAnswerAt(a, k);
    AnsweredCounts(f, k);
  }

  /** `FirstAnswer` finds the attempt `k` when all before it fail and it answers (or is past the end). */
  lemma FirstAnswerAt<R>(a: seq<Attempt<R>>, k: nat)
    requires k <= |a|
    requires forall j | 0 <= j < k :: a[j].Raised?
    requires k < |a| ==> a[k].Responded?
    ensures FirstAnswer(a, 0) == k
  {
  }

  /** The attempts and sleeps of `k` failures followed by one answer. */
  lemma AnsweredCounts(f: bool, k: nat)
    ensures Attempts(FailedEvents(f, k) + PauseBefore(f, k) + [Attempted(true)]) == k + 1
    ensures Sleeps(FailedEvents(f, k) + PauseBefore(f, k) + [Attempted(true)]) == (if f then 1 else 0) + k
  {
    FailedEventsCounts(f, k);
    PauseCounts(f, k);
    CountsAppend(FailedEvents(f, k), PauseBefore(f, k));
    CountsAppend(FailedEvents(f, k) + PauseBefore(f, k), [Attempted(true)]);
    assert Attempts([Attempted(true)]) == 1 && Sleeps([Attempted(true)]) == 0 by {
      assert [Attempted(true)][..0] == [];
    }
  }

  /** The pause before attempt `j` is one sleep, or none before the first attempt when the flag is clear. */
  lemma PauseCounts(f: bool, j: nat)
    ensures Attempts(PauseBefore(f, j)) == 0
    ensures Sleeps(PauseBefore(f, j)) == if j == 0 && !f then 0 else 1
  {
    if !(j == 0 && !f) {
      assert PauseBefore(f, j)[..0] == [];
    }
  }

  /** A call answers iff one of its five attempts answers. */
  lemma RunSucceedsIff<R>(f: bool, a: seq<Attempt<R>>)
    requires |a| == MaxTries
    ensures Run(f, a).result.Success? <==> exists k | 0 <= k < MaxTries :: a[k].Responded?
  {
    var k := FirstAnswer(a, 0);
    if k == MaxTries {
      forall j | 0 <= j < MaxTries ensures a[j].Raised? {}
    }
  }

  /**
   * When all five attempts fail, the call makes all five, leaves the flag
   * set, and raises `NoActiveException`, which is not the transport's error.
   */
  lemma RunAllFail<R>(f: bool, a: seq<Attempt<R>>)
    requires |a| == MaxTries
    requires forall j | 0 <= j < MaxTries :: a[j].Raised?
    ensures Run(f, a).result == Failure(NoActiveException)
    ensures Run(f, a).events == FailedEvents(f, MaxTries)
    ensures forall e :: Run(f, a).result != Failure(TransportError(e))
    ensures Run(f, a).failFlag
    ensures Attempts(Run(f, a).events) == MaxTries
    ensures Sleeps(Run(f, a).events) == (if f then 1 else 0) + MaxTries - 1
  {
    FirstAnswerAt(a, MaxTries);
    FailedEventsCounts(f, MaxTries);
  }

  /** No call makes more than five attempts. */
  lemma RunAttemptsBound<R>(f: bool, a: seq<Attempt<R>>)
    requires |a| == MaxTries
    ensures Attempts(Run(f, a).events) <= MaxTries
  {
    var k := FirstAnswer(a, 0);
    if k < MaxTries {
      RunFirstAnswer(f, a, k);
    } else {
      RunAllFail(f, a);
    }
  }

  /** A run of failed attempts keeps the backoff discipline and leaves the flag set iff it made an attempt or found it set. */
  lemma {:induction false} FailedEventsSpaced(f: bool, n: nat)
    ensures Spaced(f, FailedEvents(f, n))
    ensures FlagAfter(f, FailedEvents(f, n)) == (n > 0 || f)
  {
    if n > 0 {
      FailedEventsSpaced(f, n - 1);
      var g := n - 1 > 0 || f;
      var step := PauseBefore(f, n - 1) + [Attempted(false)];
      PauseThenAttemptSpaced(g, false);
      assert PauseBefore(f, n - 1) == if g then [Slept] else [];
      assert FailedEvents(f, n) == FailedEvents(f, n - 1) + step;
      SpacedAppend(f, FailedEvents(f, n - 1), step);
      FlagAfterAppend(f, FailedEvents(f, n - 1), step);
    }
  }

  /** One attempt, preceded by a sleep iff the flag `g` is set, keeps the discipline. */
  lemma PauseThenAttemptSpaced(g: bool, ok: bool)
    ensures Spaced(g, (if g then [Slept] else []) + [Attempted(ok)])
    ensures FlagAfter(g, (if g then [Slept] else []) + [Attempted(ok)]) == !ok
  {
    var step := (if g then [Slept] else []) + [Attempted(ok)];
    forall i | 0 <= i < |step| ensures SpacedAt(g, step, i) {
      if i == 0 {
        assert step[..i] == [];
      } else {
        assert step[..i] == [Slept];
      }
    }
  }

  /** Failed attempts followed by one that answers keep the discipline and leave the flag clear. */
  lemma AnsweredEventsSpaced(f: bool, k: nat)
    ensures Spaced(f, FailedEvents(f, k) + PauseBefore(f, k) + [Attempted(true)])
    ensures !FlagAfter(f, FailedEvents(f, k) + PauseBefore(f, k) + [Attempted(true)])
  {
    FailedEventsSpaced(f, k);
    var g := k > 0 || f;
    var step := PauseBefore(f, k) + [Attempted(true)];
    assert PauseBefore(f, k) == if g then [Slept] else [];
    PauseThenAttemptSpaced(g, true);
    assert FailedEvents(f, k) + PauseBefore(f, k) + [Attempted(true)] == FailedEvents(f, k) + step;
    SpacedAppend(f, FailedEvents(f, k), step);
    FlagAfterAppend(f, FailedEvents(f, k), step);
  }

  /**
   * A call keeps the backoff discipline, and the flag it leaves is the flag
   * its events leave: set iff its last attempt failed.
   */
  lemma RunSpaced<R>(f: bool, a: seq<Attempt<R>>)
    requires |a| == MaxTries
    ensures Spaced(f, Run(f, a).events)
    ensures FlagAfter(f, Run(f, a).events) == Run(f, a).failFlag
  {
    var k := FirstAnswer(a, 0);
    if k < MaxTries {
      RunFirstAnswer(f, a, k);
      AnsweredEventsSpaced(f, k);
    } else {
      RunAllFail(f, a);
      FailedEventsSpaced(f, MaxTries);
    }
  }

  /**
   * A process history that keeps the discipline from a cleared flag still
   * keeps it after one more call that finds the flag that history left.
   */
  lemma HistoryExtends<R>(history: seq<Event>, a: seq<Attempt<R>>)
    requires |a| == MaxTries && Spaced(false, history)
    ensures var o := Run(FlagAfter(false, history), a);
      && Spaced(false, history + o.events)
      && FlagAfter(false, history + o.events) == o.failFlag
      && Sleeps(history + o.events) == Sleeps(history) + Sleeps(o.events)
  {
    var f := FlagAfter(false, history);
    var o := Run(f, a);
    RunSpaced(f, a);
    SpacedAppend(false, history, o.events);
    FlagAfterAppend(false, history, o.events);
    CountsAppend(history, o.events);
  }
}
