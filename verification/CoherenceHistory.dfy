/** What the phases of readers, the entries, the log and the drops of a run say of its steps. */
module CoherenceHistory {
  import opened Text
  import opened CacheKeys
  import opened FileStore
  import opened StoredKeys
  import opened Coherence

  // ---------------------------------------------------------------------
  // Prefixes of a run
  // ---------------------------------------------------------------------

  ghost function Before(s: State, steps: seq<Step>, t: nat): State
    requires t <= |steps|
  {
    Run(s, steps[..t])
  }

  lemma {:induction false} AllowedPrefix(s: State, steps: seq<Step>, t: nat)
    requires Allowed(s, steps) && t <= |steps|
    ensures Allowed(s, steps[..t])
  {
    if t < |steps| {
      var n := |steps| - 1;
      AllowedPrefix(s, steps[..n], t);
      assert steps[..n][..t] == steps[..t];
    } else {
      assert steps[..t] == steps;
    }
  }

  lemma {:induction false} OneStep(s: State, steps: seq<Step>, t: nat)
    requires Allowed(s, steps) && t < |steps|
    ensures Enabled(Before(s, steps, t), steps[t])
    ensures Before(s, steps, t + 1) == Do(Before(s, steps, t), steps[t])
  {
    AllowedPrefix(s, steps, t + 1);
    assert steps[..t + 1][..t] == steps[..t];
  }

  /** A step takes one unit of time and removes no task. */
  lemma {:induction false} StepPasses(s: State, step: Step)
    requires Enabled(s, step)
    ensures var t := Do(s, step);
      && t.now == s.now + 1 && t.place == s.place && |t.readers| >= |s.readers| && |t.writers| >= |s.writers|
      && (forall i :: 0 <= i < |s.readers| ==> t.readers[i].request == s.readers[i].request)
  {}

  lemma {:induction false} ReaderUntouched(s: State, step: Step, i: nat)
    requires Enabled(s, step) && i < |s.readers| && !Own(step, i)
    ensures i < |Do(s, step).readers| && Do(s, step).readers[i] == s.readers[i]
  {}

  lemma {:induction false} LogStep(s: State, step: Step)
    requires Enabled(s, step)
    ensures Do(s, step).log == s.log + if step.Apply? then [Applied(step.w, s.now)] else []
  {}

  lemma {:induction false} DropsStep(s: State, step: Step, w: nat)
    requires Enabled(s, step) && w < |Do(s, step).writers|
    ensures Do(s, step).writers[w].drops ==
            if w >= |s.writers| then [] else s.writers[w].drops + if step == Drop(w) then [s.now] else []
  {}

  lemma {:induction false} TimePasses(s: State, steps: seq<Step>)
    requires Allowed(s, steps)
    ensures var t := Run(s, steps);
      t.now == s.now + |steps| && |t.readers| >= |s.readers| && |t.writers| >= |s.writers| && t.place == s.place
  {
    if steps != [] {
      var n := |steps| - 1;
      TimePasses(s, steps[..n]);
      StepPasses(Run(s, steps[..n]), steps[n]);
    }
  }

  // ---------------------------------------------------------------------
  // What a reader's steps say of its phase
  // ---------------------------------------------------------------------

  /** A step that reader i itself takes. */
  predicate Own(step: Step, i: nat) {
    step in {Hit(i), Miss(i), FetchPage(i), FetchFail(i), Fallback(i), Store(i), StoreFail(i)}
  }

  /** The last step that reader i took, or -1. */
  function LastOwn(steps: seq<Step>, i: nat): (t: int)
    ensures -1 <= t < |steps|
  {
    if steps == [] then -1
    else
      var n := |steps| - 1;
      if Own(steps[n], i) then n else LastOwn(steps[..n], i)
  }

  /** How many writes had been applied when reader i's fetch began. */
  ghost function BeganAt(s: State, steps: seq<Step>, i: nat): nat {
    if steps == [] then 0
    else
      var n := |steps| - 1;
      if steps[n] == Miss(i) then |Before(s, steps, n).log| else BeganAt(s, steps[..n], i)
  }

  function PagesOf(server: Server, r: Request): seq<Page> {
    if r in server then server[r] else []
  }

  /** For each page that reader i fetched since its fetch began: all pages the API held for it just then. */
  ghost function Seen(s: State, steps: seq<Step>, i: nat, r: Request): seq<seq<Page>> {
    if steps == [] then []
    else
      var n := |steps| - 1;
      if steps[n] == Miss(i) then []
      else Seen(s, steps[..n], i, r)
           + if steps[n] == FetchPage(i) then [PagesOf(Before(s, steps, n).server, r)] else []
  }

  /** Fetch k got page k of what the API held then, and there was a further page. */
  predicate GotPages(seen: seq<seq<Page>>, got: seq<Page>) {
    |got| == |seen| && forall k :: 0 <= k < |seen| ==> k + 1 < |seen[k]| && got[k] == seen[k][k]
  }

  /** The last fetch got the last page of what the API held then, or found no page any more. */
  predicate GotAll(seen: seq<seq<Page>>, got: seq<Page>) {
    && seen != []
    && var n := |seen| - 1;
       && |seen[n]| <= n + 1
       && |got| == (if |seen[n]| == n + 1 then n + 1 else n)
       && GotPages(seen[..n], got[..n])
       && (|got| == n + 1 ==> got[n] == seen[n][n])
  }

  predicate Holds(s: State, p: Path, got: seq<Page>) {
    p in s.cache && s.cache[p].pages == got
  }

  /** The step that reader i took before step t was a failing fetch. */
  predicate FailedBefore(steps: seq<Step>, t: nat, i: nat)
    requires t <= |steps|
  {
    var u := LastOwn(steps[..t], i);
    u >= 0 && steps[u] == FetchFail(i)
  }

  /** At step t reader i was answered: with what its file held just before, or with all that its fetch got. */
  ghost predicate AnsweredAt(s: State, steps: seq<Step>, t: nat, i: nat, r: Request, got: seq<Page>)
    requires t < |steps|
  {
    || (steps[t] == Hit(i) && LastOwn(steps[..t], i) == -1 && Holds(Before(s, steps, t), s.place(r), got))
    || (steps[t] == Fallback(i) && FailedBefore(steps, t, i) && Holds(Before(s, steps, t), s.place(r), got))
    || (steps[t] == Store(i) && GotAll(Seen(s, steps[..t], i, r), got))
  }

  /** At step t reader i raised: its fetch had failed and its file held nothing, or its answer could not be stored. */
  ghost predicate RaisedAt(s: State, steps: seq<Step>, t: nat, i: nat, r: Request)
    requires t < |steps|
  {
    || (steps[t] == StoreFail(i) && exists got :: GotAll(Seen(s, steps[..t], i, r), got))
    || (steps[t] == Fallback(i) && FailedBefore(steps, t, i) && s.place(r) !in Before(s, steps, t).cache)
  }

  ghost predicate Told(s: State, steps: seq<Step>, i: nat, r: Request, phase: ReadPhase) {
    var t := LastOwn(steps, i);
    match phase
    case Asked => t == -1
    case Fetching(got, since) =>
      && t >= 0 && (steps[t] == Miss(i) || steps[t] == FetchPage(i))
      && since == BeganAt(s, steps, i) && GotPages(Seen(s, steps, i, r), got)
    case Fetched(got, since) =>
      t >= 0 && steps[t] == FetchPage(i) && since == BeganAt(s, steps, i) && GotAll(Seen(s, steps, i, r), got)
    case Failed => t >= 0 && steps[t] == FetchFail(i)
    case Answered(got) => t >= 0 && AnsweredAt(s, steps, t, i, r, got)
    case Raised => t >= 0 && RaisedAt(s, steps, t, i, r)
  }

  lemma NextPageGot(seen: seq<seq<Page>>, got: seq<Page>, since: nat, pages: seq<Page>)
    requires GotPages(seen, got)
    ensures match NextPage(got, since, pages)
            case Fetching(rows, at) => at == since && GotPages(seen + [pages], rows)
            case Fetched(rows, at) => at == since && GotAll(seen + [pages], rows)
            case _ => false
  {
    assert (seen + [pages])[..|seen|] == seen;
    if |got| < |pages| {
      assert (got + [pages[|got|]])[..|got|] == got;
    } else {
      assert got[..|got|] == got;
    }
  }

  /** In every run each reader's phase is what the steps it took make it. */
  lemma {:induction false} ReaderHistory(s: State, steps: seq<Step>, i: nat)
    requires Allowed(s, steps) && |s.readers| <= i < |Run(s, steps).readers|
    ensures var reader := Run(s, steps).readers[i]; Told(s, steps, i, reader.request, reader.phase)
  {
    var n := |steps| - 1;
    var init, step := steps[..n], steps[n];
    var b := Run(s, init);
    if i < |b.readers| {
      ReaderHistory(s, init, i);
      if Own(step, i) {
        OwnStep(s, steps, i);
      } else {
        OtherStep(s, steps, i);
      }
    } else {
      NotYet(s, init, i);
      NewReader(b, step, i);
    }
  }

  lemma {:induction false} NewReader(s: State, step: Step, i: nat)
    requires Enabled(s, step) && |s.readers| <= i < |Do(s, step).readers|
    ensures Do(s, step).readers[i].phase.Asked? && !Own(step, i)
  {}

  /** A reader that has not started has taken no step. */
  lemma {:induction false} NotYet(s: State, steps: seq<Step>, i: nat)
    requires Allowed(s, steps) && i >= |Run(s, steps).readers|
    ensures LastOwn(steps, i) == -1
  {
    if steps != [] {
      var n := |steps| - 1;
      StepPasses(Run(s, steps[..n]), steps[n]);
      NotYet(s, steps[..n], i);
    }
  }

  lemma {:induction false} OtherStep(s: State, steps: seq<Step>, i: nat)
    requires Allowed(s, steps) && steps != []
    requires var b := Run(s, steps[..|steps| - 1]);
      i < |b.readers| && !Own(steps[|steps| - 1], i)
      && Told(s, steps[..|steps| - 1], i, b.readers[i].request, b.readers[i].phase)
    ensures var reader := Run(s, steps).readers[i]; Told(s, steps, i, reader.request, reader.phase)
  {
    var n := |steps| - 1;
    var t := LastOwn(steps[..n], i);
    var b := Run(s, steps[..n]);
    ReaderUntouched(b, steps[n], i);
    if t >= 0 {
      assert steps[..n][..t] == steps[..t] && steps[..n][t] == steps[t];
      assert FailedBefore(steps, t, i) == FailedBefore(steps[..n], t, i);
    }
    assert Seen(s, steps, i, b.readers[i].request) == Seen(s, steps[..n], i, b.readers[i].request);
  }

  lemma {:induction false} OwnStep(s: State, steps: seq<Step>, i: nat)
    requires Allowed(s, steps) && steps != []
    requires var b := Run(s, steps[..|steps| - 1]);
      i < |b.readers| && Own(steps[|steps| - 1], i)
      && Told(s, steps[..|steps| - 1], i, b.readers[i].request, b.readers[i].phase)
    ensures var reader := Run(s, steps).readers[i]; Told(s, steps, i, reader.request, reader.phase)
  {
    var n := |steps| - 1;
    var b, step := Run(s, steps[..n]), steps[n];
    TimePasses(s, steps[..n]);
    var reader := b.readers[i];
    if step.FetchPage? {
      var seen := Seen(s, steps[..n], i, reader.request);
      NextPageGot(seen, reader.phase.got, reader.phase.since, b.server[reader.request]);
    }
  }

  /** A reader has raised if and only if its last step was a fallback to an empty file, or a store that failed. */
  lemma {:induction false} RaisedExactlyWhen(s: State, steps: seq<Step>, i: nat)
    requires Allowed(s, steps) && |s.readers| <= i < |Run(s, steps).readers|
    ensures var reader, t := Run(s, steps).readers[i], LastOwn(steps, i);
      reader.phase.Raised? <==> t >= 0 && RaisedAt(s, steps, t, i, reader.request)
  {
    ReaderHistory(s, steps, i);
  }

  // ---------------------------------------------------------------------
  // What an answer can differ by
  // ---------------------------------------------------------------------

  lemma {:induction false} HeldAfterAnswer(b: State, step: Step, i: nat, got: seq<Page>)
    requires Enabled(b, step) && i < |b.readers| && step in {Hit(i), Fallback(i), Store(i)}
    requires Do(b, step).readers[i].phase == Answered(got)
    ensures Holds(Do(b, step), b.place(b.readers[i].request), got) && Do(b, step).server == b.server
  {}

  /** Once answered, a reader stays so. */
  lemma {:induction false} AnswerStays(s: State, steps: seq<Step>, i: nat, t: nat)
    requires Allowed(s, steps) && t <= |steps| && i < |Run(s, steps[..t]).readers|
    requires LastOwn(steps, i) < t
    ensures i < |Run(s, steps).readers| && Run(s, steps).readers[i] == Run(s, steps[..t]).readers[i]
  {
    if t == |steps| {
      assert steps[..t] == steps;
    } else {
      var n := |steps| - 1;
      assert steps[..n][..t] == steps[..t];
      AnswerStays(s, steps[..n], i, t);
      ReaderUntouched(Run(s, steps[..n]), steps[n], i);
    }
  }

  lemma {:induction false} LastOwnStarted(s: State, steps: seq<Step>, i: nat)
    requires Allowed(s, steps) && LastOwn(steps, i) >= 0
    ensures i < |Run(s, steps[..LastOwn(steps, i)]).readers|
  {
    var t := LastOwn(steps, i);
    LastOwnOwn(steps, i);
    OneStep(s, steps, t);
  }

  lemma {:induction false} LastOwnOwn(steps: seq<Step>, i: nat)
    ensures var t := LastOwn(steps, i); t >= 0 ==> Own(steps[t], i)
  {
    if steps != [] { LastOwnOwn(steps[..|steps| - 1], i); }
  }

  /** Once answered, what the reader got is what its file held at the end of that step. */
  lemma {:induction false} AnswerWasHeld(s: State, steps: seq<Step>, i: nat, got: seq<Page>)
    requires Allowed(s, steps) && |s.readers| <= i < |Run(s, steps).readers|
    requires Run(s, steps).readers[i].phase == Answered(got)
    ensures var t, r := LastOwn(steps, i), Run(s, steps).readers[i].request;
      && t >= 0 && AnsweredAt(s, steps, t, i, r, got)
      && Holds(Before(s, steps, t + 1), s.place(r), got)
      && Before(s, steps, t + 1).server == Before(s, steps, t).server
  {
    var t := LastOwn(steps, i);
    ReaderHistory(s, steps, i);
    LastOwnStarted(s, steps, i);
    OneStep(s, steps, t);
    StepPasses(Before(s, steps, t), steps[t]);
    AnswerStays(s, steps, i, t + 1);
    HeldAfterAnswer(Before(s, steps, t), steps[t], i, got);
    AllowedPrefix(s, steps, t);
    TimePasses(s, steps[..t]);
  }

  /** For reads that are kept apart, what a reader was answered differs from what the API held at that step only by
      one of the four causes. */
  lemma {:induction false} AnswersDifferOnlyByRaces(
      place: Request -> Path, server: Server, steps: seq<Step>, ok: iset<Request>, i: nat, got: seq<Page>)
    requires KeptApart(place, ok) && Allowed(Start(place, server), steps) && StartsAmong(steps, ok)
    requires i < |Run(Start(place, server), steps).readers|
    requires Run(Start(place, server), steps).readers[i].phase == Answered(got)
    ensures var s, t := Start(place, server), LastOwn(steps, i);
      var r := Run(s, steps).readers[i].request;
      && t >= 0 && AnsweredAt(s, steps, t, i, r, got)
      && var after := Before(s, steps, t + 1);
         Current(after, r, got)
         || (after.place(r) in after.cache
             && exists j, q :: Touches(after, j, r) && Cause(after, after.place(r), j, q))
  {
    var s, t := Start(place, server), LastOwn(steps, i);
    var r := Run(s, steps).readers[i].request;
    AnswerWasHeld(s, steps, i, got);
    RequestAmong(s, steps, ok, i);
    AllowedPrefix(s, steps, t + 1);
    TimePasses(s, steps[..t + 1]);
    assert forall step <- steps[..t + 1] :: step in steps;
    if !Current(Before(s, steps, t + 1), r, got) {
      KeptReadsGoStaleOnlyByRaces(place, server, steps[..t + 1], ok, r);
    }
  }

  lemma {:induction false} RequestAmong(s: State, steps: seq<Step>, ok: iset<Request>, i: nat)
    requires StateAmong(s, ok) && OwnPrefixes(s) && Allowed(s, steps) && StartsAmong(steps, ok)
    requires i < |Run(s, steps).readers|
    ensures Run(s, steps).readers[i].request in ok
  {
    RunStaysAmong(s, steps, ok);
    assert Run(s, steps).readers[i] in Run(s, steps).readers;
  }

  // ---------------------------------------------------------------------
  // Where entries, applications and drops come from
  // ---------------------------------------------------------------------

  /** Step t stored the entry: all that the reader's fetch got, for its own read, at that time. */
  ghost predicate StoredBy(s: State, steps: seq<Step>, t: nat, p: Path, e: Entry) {
    && t < |steps| && steps[t].Store?
    && var i := steps[t].r;
       && |s.readers| <= i && s.place(e.source) == p && e.stored == s.now + t
       && e.since == BeganAt(s, steps[..t], i) && GotAll(Seen(s, steps[..t], i, e.source), e.pages)
  }

  lemma {:induction false} StoredStays(s: State, steps: seq<Step>, n: nat, t: nat, p: Path, e: Entry)
    requires n <= |steps| && StoredBy(s, steps[..n], t, p, e)
    ensures StoredBy(s, steps, t, p, e)
  {
    assert steps[..n][..t] == steps[..t];
  }

  /** Every entry is what some read's fetch got, stored at that step. */
  lemma {:induction false} EntriesWereStored(s: State, steps: seq<Step>, p: Path)
    requires Allowed(s, steps) && s.cache == map[] && s.readers == [] && p in Run(s, steps).cache
    ensures exists t :: StoredBy(s, steps, t, p, Run(s, steps).cache[p])
  {
    var n := |steps| - 1;
    var b, step := Run(s, steps[..n]), steps[n];
    TimePasses(s, steps[..n]);
    if step.Store? && p == b.place(b.readers[step.r].request) {
      ReaderHistory(s, steps[..n], step.r);
      assert StoredBy(s, steps, n, p, Run(s, steps).cache[p]);
    } else {
      assert p in b.cache && Run(s, steps).cache[p] == b.cache[p];
      EntriesWereStored(s, steps[..n], p);
      var t: nat :| StoredBy(s, steps[..n], t, p, b.cache[p]);
      StoredStays(s, steps, n, t, p, b.cache[p]);
    }
  }

  /** The step stores at the file, or drops a prefix that reaches it. */
  ghost predicate Moves(s: State, step: Step, p: Path)
    requires Enabled(s, step)
  {
    match step
    case Store(r) => s.place(s.readers[r].request) == p
    case Drop(w) => Reaches(s.writers[w].prefixes[|s.writers[w].drops|], p)
    case _ => false
  }

  lemma {:induction false} EntryStays(s: State, step: Step, p: Path)
    requires Enabled(s, step) && !Moves(s, step, p)
    ensures Lookup(Do(s, step).cache, p) == Lookup(s.cache, p)
  {}

  ghost predicate MovedAt(s: State, steps: seq<Step>, u: nat, p: Path)
    requires u < |steps|
  {
    Enabled(Before(s, steps, u), steps[u]) && Moves(Before(s, steps, u), steps[u], p)
  }

  /** What a file holds changes only by a step that stores there or drops a prefix reaching it. */
  lemma {:induction false} EntriesStay(s: State, steps: seq<Step>, t: nat, p: Path)
    requires Allowed(s, steps) && t <= |steps|
    requires forall u :: t <= u < |steps| ==> !MovedAt(s, steps, u, p)
    ensures Lookup(Run(s, steps).cache, p) == Lookup(Before(s, steps, t).cache, p)
  {
    if t == |steps| {
      assert steps[..t] == steps;
    } else {
      var n := |steps| - 1;
      forall u | t <= u < n ensures !MovedAt(s, steps[..n], u, p) {
        assert steps[..n][..u] == steps[..u] && !MovedAt(s, steps, u, p);
      }
      EntriesStay(s, steps[..n], t, p);
      assert steps[..n][..t] == steps[..t] && !MovedAt(s, steps, n, p);
      EntryStays(Before(s, steps, n), steps[n], p);
    }
  }

  /** Step t is application number j. */
  ghost predicate AppliedBy(s: State, steps: seq<Step>, t: nat, j: nat, a: Applied) {
    && t < |steps| && steps[t].Apply? && steps[t].w == a.writer && a.at == s.now + t
    && |Before(s, steps, t).log| == j
  }

  lemma {:induction false} AppliedStays(s: State, steps: seq<Step>, n: nat, t: nat, j: nat, a: Applied)
    requires n <= |steps| && AppliedBy(s, steps[..n], t, j, a)
    ensures AppliedBy(s, steps, t, j, a)
  {
    assert steps[..n][..t] == steps[..t];
  }

  lemma {:induction false} LogWasApplied(s: State, steps: seq<Step>, j: nat)
    requires Allowed(s, steps) && s.log == [] && j < |Run(s, steps).log|
    ensures exists t :: AppliedBy(s, steps, t, j, Run(s, steps).log[j])
  {
    var n := |steps| - 1;
    var b := Run(s, steps[..n]);
    TimePasses(s, steps[..n]);
    LogStep(b, steps[n]);
    if j < |b.log| {
      LogWasApplied(s, steps[..n], j);
      var t: nat :| AppliedBy(s, steps[..n], t, j, b.log[j]);
      AppliedStays(s, steps, n, t, j, b.log[j]);
    } else {
      assert AppliedBy(s, steps, n, j, Run(s, steps).log[j]);
    }
  }

  /** Step t is writer w's drop number q. */
  ghost predicate DroppedBy(s: State, steps: seq<Step>, t: nat, w: nat, q: nat, at: nat) {
    && t < |steps| && steps[t] == Drop(w) && at == s.now + t
    && w < |Before(s, steps, t).writers| && |Before(s, steps, t).writers[w].drops| == q
  }

  lemma {:induction false} DroppedStays(s: State, steps: seq<Step>, n: nat, t: nat, w: nat, q: nat, at: nat)
    requires n <= |steps| && DroppedBy(s, steps[..n], t, w, q, at)
    ensures DroppedBy(s, steps, t, w, q, at)
  {
    assert steps[..n][..t] == steps[..t];
  }

  lemma {:induction false} DropsWereMade(s: State, steps: seq<Step>, w: nat, q: nat)
    requires Allowed(s, steps) && s.writers == []
    requires w < |Run(s, steps).writers| && q < |Run(s, steps).writers[w].drops|
    ensures exists t :: DroppedBy(s, steps, t, w, q, Run(s, steps).writers[w].drops[q])
  {
    var n := |steps| - 1;
    var b := Run(s, steps[..n]);
    TimePasses(s, steps[..n]);
    DropsStep(b, steps[n], w);
    if w < |b.writers| && q < |b.writers[w].drops| {
      DropsWereMade(s, steps[..n], w, q);
      var t: nat :| DroppedBy(s, steps[..n], t, w, q, b.writers[w].drops[q]);
      DroppedStays(s, steps, n, t, w, q, b.writers[w].drops[q]);
    } else {
      assert DroppedBy(s, steps, n, w, q, Run(s, steps).writers[w].drops[q]);
    }
  }

  // ---------------------------------------------------------------------
  // What a writer's steps say of its phase
  // ---------------------------------------------------------------------

  /** A step that moves writer w on, besides an application. */
  predicate Turn(step: Step, w: nat) {
    step in {Answer(w), Abort(w), Drop(w), Finish(w)}
  }

  /** The last such step of writer w, or -1. */
  function LastTurn(steps: seq<Step>, w: nat): (t: int)
    ensures -1 <= t < |steps|
  {
    if steps == [] then -1
    else
      var n := |steps| - 1;
      if Turn(steps[n], w) then n else LastTurn(steps[..n], w)
  }

  /** Step t started writer w: a refresh or a write, of this scope. */
  ghost predicate StartedBy(s: State, steps: seq<Step>, t: nat, w: nat, refresh: bool, scope: Scope) {
    && t < |steps| && steps[t] == (if refresh then StartRefresh(scope) else StartWrite(scope))
    && |Before(s, steps, t).writers| == w
  }

  /** A write awaits the API until it answers or gives up; a refresh drops from the start, and neither awaits nor
      gives up. */
  predicate PhaseTold(steps: seq<Step>, w: nat, refresh: bool, phase: WritePhase) {
    var t := LastTurn(steps, w);
    match phase
    case InFlight => !refresh && t == -1
    case Aborted => !refresh && t >= 0 && steps[t] == Abort(w)
    case Dropping => if t >= 0 then steps[t] == Drop(w) || (!refresh && steps[t] == Answer(w)) else refresh
    case Returned => t >= 0 && steps[t] == Finish(w)
  }

  lemma {:induction false} StartedStays(
      s: State, steps: seq<Step>, n: nat, t: nat, w: nat, refresh: bool, scope: Scope)
    requires n <= |steps| && StartedBy(s, steps[..n], t, w, refresh, scope)
    ensures StartedBy(s, steps, t, w, refresh, scope)
  {
    assert steps[..n][..t] == steps[..t];
  }

  /** A step leaves a writer's kind, scope and prefixes alone, and moves only the phase of its own writer. */
  lemma {:induction false} WriterKept(s: State, step: Step, w: nat)
    requires Enabled(s, step) && w < |s.writers|
    ensures w < |Do(s, step).writers|
    ensures var a, b := s.writers[w], Do(s, step).writers[w];
      && b.refresh == a.refresh && b.scope == a.scope && b.prefixes == a.prefixes
      && (!Turn(step, w) ==> b.phase == a.phase)
  {}

  lemma {:induction false} NewWriter(s: State, step: Step, w: nat)
    requires Enabled(s, step) && |s.writers| <= w < |Do(s, step).writers|
    ensures w == |s.writers|
    ensures var b := Do(s, step).writers[w];
      && step == (if b.refresh then StartRefresh(b.scope) else StartWrite(b.scope))
      && b.phase == (if b.refresh then Dropping else InFlight) && b.prefixes == PrefixesOf(b.scope)
  {}

  /** A writer that has not started has made no step. */
  lemma {:induction false} NoTurnYet(s: State, steps: seq<Step>, w: nat)
    requires Allowed(s, steps) && w >= |Run(s, steps).writers|
    ensures LastTurn(steps, w) == -1
  {
    if steps != [] {
      var n := |steps| - 1;
      StepPasses(Run(s, steps[..n]), steps[n]);
      NoTurnYet(s, steps[..n], w);
    }
  }

  lemma {:induction false} TurnTold(s: State, steps: seq<Step>, w: nat)
    requires Allowed(s, steps) && steps != []
    requires var b := Run(s, steps[..|steps| - 1]);
      w < |b.writers| && PhaseTold(steps[..|steps| - 1], w, b.writers[w].refresh, b.writers[w].phase)
    ensures var a := Run(s, steps).writers[w]; PhaseTold(steps, w, a.refresh, a.phase)
  {
    WriterKept(Run(s, steps[..|steps| - 1]), steps[|steps| - 1], w);
  }

  /** In every run each writer began as its kind does, keeps the prefixes of its scope, and its phase is what its
      steps make it. */
  lemma {:induction false} WriterHistory(s: State, steps: seq<Step>, w: nat)
    requires Allowed(s, steps) && |s.writers| <= w < |Run(s, steps).writers|
    ensures var writer := Run(s, steps).writers[w];
      && (exists t :: StartedBy(s, steps, t, w, writer.refresh, writer.scope))
      && writer.prefixes == PrefixesOf(writer.scope) && PhaseTold(steps, w, writer.refresh, writer.phase)
  {
    var n := |steps| - 1;
    var b, step := Run(s, steps[..n]), steps[n];
    var writer := Run(s, steps).writers[w];
    if w < |b.writers| {
      WriterHistory(s, steps[..n], w);
      WriterKept(b, step, w);
      TurnTold(s, steps, w);
      var t: nat :| StartedBy(s, steps[..n], t, w, writer.refresh, writer.scope);
      StartedStays(s, steps, n, t, w, writer.refresh, writer.scope);
    } else {
      NewWriter(b, step, w);
      NoTurnYet(s, steps[..n], w);
      assert StartedBy(s, steps, n, w, writer.refresh, writer.scope);
    }
  }
}
