/** One API call: the retry loop, against any server and network. */
module Transport {
  import opened Text

  datatype ErrorCode = IdempotencyInProgress | OtherCode(name: string)

  /** What one send gives back. */
  datatype Outcome = Response(status: int, code: ErrorCode) | TimedOut | Disconnected

  datatype Failure =
    | HttpFailure(status: int, code: ErrorCode)
    | TimeoutFailure(possiblyApplied: bool)
    | ConnectionFailure(possiblyApplied: bool)
    | InvalidIdempotencyKey

  /** How a call ends; NothingToRaise is `raise last_exc` with last_exc still None. */
  datatype Result = Success(status: int) | Raised(failure: Failure) | NothingToRaise

  datatype Loop = Loop(result: Result, sends: nat, slept: nat)

  // ---------------------------------------------------------------------
  // The loop over a stream of outcomes
  // ---------------------------------------------------------------------

  /** `_request` from attempt number `attempt` on. */
  function Attempts(
      n: int, attempt: nat, lastExc: Option<Failure>, waits: nat, outs: nat -> Outcome, marked: bool): Loop
    decreases n - attempt, 1
  {
    if attempt >= n then
      Loop(if lastExc.Some? then Raised(lastExc.value) else NothingToRaise, attempt, 0)
    else
      match outs(attempt)
      case TimedOut => Failed(n, attempt, TimeoutFailure(marked), waits, outs, marked)
      case Disconnected => Failed(n, attempt, ConnectionFailure(marked), waits, outs, marked)
      case Response(status, code) =>
        if status == 429 then Loop(Raised(HttpFailure(429, code)), attempt + 1, 0)
        else if status >= 500 then Failed(n, attempt, HttpFailure(status, code), waits, outs, marked)
        else if status >= 400 then
          if code.IdempotencyInProgress? && waits < 2 then
            var rest := Attempts(n, attempt + 1, lastExc, waits + 1, outs, marked);
            rest.(slept := rest.slept + Pow2(waits))
          else Loop(Raised(HttpFailure(status, code)), attempt + 1, 0)
        else Loop(Success(status), attempt + 1, 0)
  }

  /** A failed attempt: the last raises, any other is followed by a pause and the next. */
  function Failed(n: int, attempt: nat, failure: Failure, waits: nat, outs: nat -> Outcome, marked: bool): Loop
    requires attempt < n
    decreases n - attempt, 0
  {
    if attempt < n - 1 then
      var rest := Attempts(n, attempt + 1, Some(failure), waits, outs, marked);
      rest.(slept := rest.slept + Pow2(attempt))
    else Loop(Raised(failure), attempt + 1, 0)
  }

  function Calls(n: int, outs: nat -> Outcome, marked: bool): Loop {
    Attempts(n, 0, None, 0, outs, marked)
  }

  // ---------------------------------------------------------------------
  // What the loop means, said of the outcomes alone
  // ---------------------------------------------------------------------

  /** The 4xx answers that mean an identical request is still executing. */
  predicate IsInProgress(o: Outcome) {
    o.Response? && 400 <= o.status < 500 && o.status != 429 && o.code.IdempotencyInProgress?
  }

  /** 5xx answers and transport errors: what a safe call retries. */
  predicate IsFailure(o: Outcome) {
    !o.Response? || o.status >= 500
  }

  function FailureOf(o: Outcome, marked: bool): Failure {
    match o
    case Response(status, code) => HttpFailure(status, code)
    case TimedOut => TimeoutFailure(marked)
    case Disconnected => ConnectionFailure(marked)
  }

  /** How many of the first k outcomes are in-progress answers. */
  function InProgressBefore(outs: nat -> Outcome, k: nat): nat {
    if k == 0 then 0 else InProgressBefore(outs, k - 1) + if IsInProgress(outs(k - 1)) then 1 else 0
  }

  /** The latest failure among the first k outcomes. */
  function LatestFailure(outs: nat -> Outcome, k: nat, marked: bool): Option<Failure> {
    if k == 0 then None
    else if IsFailure(outs(k - 1)) then Some(FailureOf(outs(k - 1), marked))
    else LatestFailure(outs, k - 1, marked)
  }

  /** Outcome t settles a call of n attempts. */
  predicate Settles(n: int, outs: nat -> Outcome, t: nat) {
    if IsFailure(outs(t)) then t == n - 1
    else if IsInProgress(outs(t)) then InProgressBefore(outs, t) >= 2
    else true
  }

  function Verdict(o: Outcome, marked: bool): Result {
    if o.Response? && o.status < 400 then Success(o.status) else Raised(FailureOf(o, marked))
  }

  /** The meaning of a call: the first settling outcome decides it; failing that, the latest failure
      is raised after all n sends, and nothing when there was none. */
  predicate Means(n: int, outs: nat -> Outcome, marked: bool, loop: Loop) {
    if loop.sends > 0 && loop.sends <= n && Settles(n, outs, loop.sends - 1) then
      && loop.result == Verdict(outs(loop.sends - 1), marked)
      && forall t: nat :: t < loop.sends - 1 ==> !Settles(n, outs, t)
    else
      && loop.sends == (if n > 0 then n else 0)
      && (forall t: nat :: t < loop.sends ==> !Settles(n, outs, t))
      && loop.result == (match LatestFailure(outs, loop.sends, marked)
                         case Some(f) => Raised(f)
                         case None => NothingToRaise)
  }

  lemma {:induction false} AttemptsMean(n: int, attempt: nat, outs: nat -> Outcome, marked: bool)
    requires attempt == 0 || attempt <= n
    requires forall t: nat :: t < attempt ==> !Settles(n, outs, t)
    requires InProgressBefore(outs, attempt) <= 2
    ensures var lastExc, waits := LatestFailure(outs, attempt, marked), InProgressBefore(outs, attempt);
            Means(n, outs, marked, Attempts(n, attempt, lastExc, waits, outs, marked))
    decreases n - attempt
  {
    if attempt < n && !Settles(n, outs, attempt) {
      AttemptsMean(n, attempt + 1, outs, marked);
    }
  }

  /** The loop computes its meaning, for every number of attempts and every stream of outcomes. */
  lemma CallsMean(n: int, outs: nat -> Outcome, marked: bool)
    ensures Means(n, outs, marked, Calls(n, outs, marked))
  {
    AttemptsMean(n, 0, outs, marked);
  }

  lemma {:induction false} AllInProgress(outs: nat -> Outcome, k: nat)
    ensures InProgressBefore(outs, k) <= k
    ensures InProgressBefore(outs, k) == k <==> forall t: nat :: t < k ==> IsInProgress(outs(t))
  {
    if k > 0 { AllInProgress(outs, k - 1); }
  }

  /** Where nothing settles, every outcome is a failure or one of two waits. */
  lemma {:induction false} Unsettled(n: int, outs: nat -> Outcome, k: nat, marked: bool)
    requires forall t: nat :: t < k ==> !Settles(n, outs, t)
    ensures InProgressBefore(outs, k) <= 2
    ensures LatestFailure(outs, k, marked).None? <==> InProgressBefore(outs, k) == k
  {
    if k > 0 {
      Unsettled(n, outs, k - 1, marked);
      AllInProgress(outs, k - 1);
      assert !Settles(n, outs, k - 1);
    }
  }

  /** A call ends in a response or a DataForgeError, except exactly when all of at most two attempts
      were answered "in progress": then it raises None. */
  lemma EndsWithoutError(n: int, outs: nat -> Outcome, marked: bool)
    ensures Calls(n, outs, marked).result.NothingToRaise? <==>
            n <= 2 && forall t: nat :: t < n ==> IsInProgress(outs(t))
  {
    var loop := Calls(n, outs, marked);
    CallsMean(n, outs, marked);
    var k: nat := if n > 0 then n else 0;
    AllInProgress(outs, k);
    if loop.result.NothingToRaise? {
      Unsettled(n, outs, k, marked);
    } else if n <= 2 && forall t: nat :: t < n ==> IsInProgress(outs(t)) {
      forall t: nat | t < k ensures !Settles(n, outs, t) { AllInProgress(outs, t); }
      Unsettled(n, outs, k, marked);
    }
  }

  /** When the last send was an in-progress wait, the error raised is the latest failure before it. */
  lemma FallThroughRaisesLatestFailure(n: int, outs: nat -> Outcome, marked: bool)
    requires n > 0
    requires forall t: nat :: t < n ==> !Settles(n, outs, t)
    ensures var loop := Calls(n, outs, marked);
            && loop.sends == n && IsInProgress(outs(n - 1))
            && (match LatestFailure(outs, n - 1, marked)
                case Some(f) => loop.result == Raised(f)
                case None => loop.result.NothingToRaise? && n <= 2)
  {
    CallsMean(n, outs, marked);
    assert !Settles(n, outs, n - 1);
    Unsettled(n, outs, n, marked);
  }

  /** An in-progress answer leaves the loop as itself only after exactly two in-progress waits. */
  lemma InProgressRaisedAfterTwoWaits(n: int, outs: nat -> Outcome, marked: bool, status: int)
    requires Calls(n, outs, marked).result == Raised(HttpFailure(status, IdempotencyInProgress))
    requires 400 <= status < 500 && status != 429
    ensures var sends := Calls(n, outs, marked).sends;
            sends >= 3 && IsInProgress(outs(sends - 1)) && InProgressBefore(outs, sends - 1) == 2
  {
    var loop := Calls(n, outs, marked);
    CallsMean(n, outs, marked);
    if loop.sends > 0 && loop.sends <= n && Settles(n, outs, loop.sends - 1) {
      Unsettled(n, outs, loop.sends - 1, marked);
      AllInProgress(outs, loop.sends - 1);
    } else {
      FailuresAreFailures(outs, loop.sends, marked);
    }
  }

  lemma {:induction false} FailuresAreFailures(outs: nat -> Outcome, k: nat, marked: bool)
    ensures var f := LatestFailure(outs, k, marked); f.Some? && f.value.HttpFailure? ==> f.value.status >= 500
  {
    if k > 0 { FailuresAreFailures(outs, k - 1, marked); }
  }

  // ---------------------------------------------------------------------
  // Sends and sleeps
  // ---------------------------------------------------------------------

  lemma {:induction false} SendsFrom(
      n: int, a: nat, lastExc: Option<Failure>, w: nat, outs: nat -> Outcome, marked: bool)
    requires a <= n
    ensures var loop := Attempts(n, a, lastExc, w, outs, marked);
            a <= loop.sends <= n && (a < n ==> a < loop.sends)
    decreases n - a
  {
    if a < n {
      SendsFrom(n, a + 1, Some(FailureOf(outs(a), marked)), w, outs, marked);
      SendsFrom(n, a + 1, lastExc, w + 1, outs, marked);
    }
  }

  /** From attempt a on, with w waits made, the loop sleeps at most this much more. */
  lemma {:induction false} SleepFrom(
      n: int, a: nat, lastExc: Option<Failure>, w: nat, outs: nat -> Outcome, marked: bool)
    requires w <= a && w <= 2 && a < n && n >= 2
    ensures Attempts(n, a, lastExc, w, outs, marked).slept + Pow2(a) <= Pow2(n - 1) + if w == 2 then 0 else 2
    decreases n - a
  {
    PowGrows(a, n - 1);
    if a >= 1 { PowGrows(1, a); }
    if a == n - 1 {
      assert Attempts(n, n, lastExc, w + 1, outs, marked).slept == 0;
    } else {
      SleepFrom(n, a + 1, Some(FailureOf(outs(a), marked)), w, outs, marked);
      if w < 2 { SleepFrom(n, a + 1, lastExc, w + 1, outs, marked); }
    }
  }

  lemma {:induction false} PowGrows(a: nat, b: nat)
    requires a <= b
    ensures Pow2(a) <= Pow2(b)
  {
    if a < b { PowGrows(a, b - 1); }
  }

  /** At most n sends, and at most 2^(n-1)+1 seconds of sleep (one second when n is 1). */
  lemma CallsAreBounded(n: int, outs: nat -> Outcome, marked: bool)
    requires n >= 1
    ensures var loop := Calls(n, outs, marked);
            1 <= loop.sends <= n && loop.slept <= if n == 1 then 1 else Pow2(n - 1) + 1
  {
    SendsFrom(n, 0, None, 0, outs, marked);
    if n == 1 {
      assert forall e :: Attempts(1, 1, e, 1, outs, marked).slept == 0;
    } else {
      SleepFrom(n, 0, None, 0, outs, marked);
    }
  }

  /** The pause after outcome t, if the call goes on: 2^t seconds after a failure, and after in-progress answers one
      second and then two. */
  function PauseAfter(outs: nat -> Outcome, t: nat): nat {
    if IsFailure(outs(t)) then Pow2(t) else Pow2(InProgressBefore(outs, t))
  }

  function Pauses(outs: nat -> Outcome, from: nat, to: nat): nat
    decreases to - from
  {
    if from >= to then 0 else PauseAfter(outs, from) + Pauses(outs, from + 1, to)
  }

  lemma {:induction false} SleepsFrom(n: int, a: nat, outs: nat -> Outcome, marked: bool)
    requires a < n && InProgressBefore(outs, a) <= 2
    ensures var loop := Attempts(n, a, LatestFailure(outs, a, marked), InProgressBefore(outs, a), outs, marked);
      loop.sends > a && loop.slept == Pauses(outs, a, if Settles(n, outs, loop.sends - 1) then loop.sends - 1 else n)
    decreases n - a
  {
    if !Settles(n, outs, a) && a + 1 < n {
      SleepsFrom(n, a + 1, outs, marked);
      SendsFrom(n, a + 1, LatestFailure(outs, a + 1, marked), InProgressBefore(outs, a + 1), outs, marked);
    }
  }

  /** The call sleeps exactly the pauses after its outcomes, but for one that settles it. */
  lemma SleepsExactly(n: int, outs: nat -> Outcome, marked: bool)
    requires n >= 1
    ensures var loop := Calls(n, outs, marked);
      loop.sends > 0 && loop.slept == Pauses(outs, 0, if Settles(n, outs, loop.sends - 1) then loop.sends - 1 else n)
  {
    SleepsFrom(n, 0, outs, marked);
  }

  /** The slowest stream: busy once, failing, and busy again on the last attempt. */
  function Slowest(n: int): nat -> Outcome {
    t => if t == 0 || t == n - 1 then Response(409, IdempotencyInProgress) else TimedOut
  }

  lemma {:induction false} SlowestFrom(n: int, a: nat, lastExc: Option<Failure>, marked: bool)
    requires 1 <= a < n
    ensures Attempts(n, a, lastExc, 1, Slowest(n), marked).slept + Pow2(a) == Pow2(n - 1) + 2
    decreases n - a
  {
    if a < n - 1 {
      SlowestFrom(n, a + 1, Some(FailureOf(TimedOut, marked)), marked);
    } else {
      assert Attempts(n, n, lastExc, 2, Slowest(n), marked).slept == 0;
    }
  }

  /** The bound is attained. */
  lemma BoundAttained(n: int, marked: bool)
    requires n >= 1
    ensures Calls(n, Slowest(n), marked).slept == if n == 1 then 1 else Pow2(n - 1) + 1
  {
    if n >= 2 {
      SlowestFrom(n, 1, None, marked);
    } else {
      assert Attempts(1, 1, None, 1, Slowest(1), marked).slept == 0;
    }
  }

  // ---------------------------------------------------------------------
  // What a number of tries comes to
  // ---------------------------------------------------------------------

  /** The call goes on after outcome t: a failure, or one of the first two in-progress answers. */
  predicate Passes(outs: nat -> Outcome, t: nat) {
    IsFailure(outs(t)) || (IsInProgress(outs(t)) && InProgressBefore(outs, t) < 2)
  }

  predicate FirstSuccess(outs: nat -> Outcome, t: nat) {
    outs(t).Response? && outs(t).status < 400 && forall u: nat :: u < t ==> Passes(outs, u)
  }

  /** Success if and only if one of n outcomes is a success and all before it pass; then there are no further sends.
      On failures only, n sends and the last failure. */
  ghost predicate Tries(n: int, outs: nat -> Outcome, marked: bool, loop: Loop) {
    && (loop.result.Success? <==> exists t: nat :: t < n && FirstSuccess(outs, t))
    && (forall t: nat :: t < n && FirstSuccess(outs, t) ==>
          loop.sends == t + 1 && loop.result == Success(outs(t).status))
    && (n >= 1 && (forall t: nat :: t < n ==> IsFailure(outs(t))) ==>
          loop.sends == n && loop.result == Raised(FailureOf(outs(n - 1), marked)))
  }

  lemma CallsTry(n: int, outs: nat -> Outcome, marked: bool)
    ensures Tries(n, outs, marked, Calls(n, outs, marked))
  {
    var loop := Calls(n, outs, marked);
    CallsMean(n, outs, marked);
    forall t: nat | t < n && FirstSuccess(outs, t)
      ensures loop.sends == t + 1 && loop.result == Success(outs(t).status)
    {
      assert Settles(n, outs, t);
      forall u: nat | u < t ensures !Settles(n, outs, u) { assert Passes(outs, u); }
    }
    if loop.result.Success? {
      var t := loop.sends - 1;
      forall u: nat | u < t ensures Passes(outs, u) { assert !Settles(n, outs, u); }
      assert t < n && FirstSuccess(outs, t);
    }
  }
}
