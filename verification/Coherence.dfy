/** Reads and writes of one cache and one API, interleaved at every await. */
module Coherence {
  import opened Text
  import opened CacheKeys
  import opened FileStore
  import opened StoredKeys

  type Page = string

  /** What the API holds: for each cacheable read, the pages that fetch it. */
  type Server = map<Request, seq<Page>>

  /** A stored result and the read that stored it; `since` is how many writes were applied when its fetch began,
      `stored` when it was written. */
  datatype Entry = Entry(pages: seq<Page>, source: Request, since: nat, stored: nat)

  datatype ReadPhase =
    | Asked
    | Fetching(got: seq<Page>, since: nat)
    | Fetched(got: seq<Page>, since: nat)
    | Failed
    | Answered(got: seq<Page>)
    | Raised

  datatype Reader = Reader(request: Request, phase: ReadPhase)

  datatype WritePhase = InFlight | Dropping | Returned | Aborted

  /** What a write declares to touch. */
  datatype Scope = Scope(kind: WriteScope, project: Option<int>, version: Option<int>)

  /** A write, or the dropping half of a refresh; `drops` holds the times at which the first prefixes were dropped. */
  datatype Writer = Writer(
    refresh: bool, scope: Scope, prefixes: seq<seq<string>>, phase: WritePhase, drops: seq<nat>)

  datatype Applied = Applied(writer: nat, at: nat)

  /** `place` says where the cache keeps a read's entry. */
  datatype State = State(
    place: Request -> Path, now: nat, server: Server, log: seq<Applied>, cache: map<Path, Entry>,
    readers: seq<Reader>, writers: seq<Writer>)

  datatype Step =
    | StartRead(request: Request)
    | Hit(r: nat)
    | Miss(r: nat)
    | FetchPage(r: nat)
    | FetchFail(r: nat)
    | Fallback(r: nat)
    | Store(r: nat)
    | StoreFail(r: nat)
    | StartWrite(scope: Scope)
    | Apply(w: nat, after: Server)
    | Answer(w: nat)
    | Abort(w: nat)
    | Drop(w: nat)
    | Finish(w: nat)
    | StartRefresh(scope: Scope)

  predicate Touched(scope: Scope, r: Request) {
    InScope(scope.kind, scope.project, scope.version, r)
  }

  function PrefixesOf(scope: Scope): seq<seq<string>> {
    PrefixesFor(scope.kind, scope.project, scope.version)
  }

  /** The write changed nothing outside the scope it declares. */
  ghost predicate Confined(scope: Scope, before: Server, after: Server) {
    forall r :: !Touched(scope, r) ==> Lookup(before, r) == Lookup(after, r)
  }

  ghost predicate Enabled(s: State, step: Step) {
    match step
    case StartRead(_) => true
    case Hit(r) => r < |s.readers| && s.readers[r].phase.Asked? && s.place(s.readers[r].request) in s.cache
    case Miss(r) => r < |s.readers| && s.readers[r].phase.Asked?
    case FetchPage(r) => r < |s.readers| && s.readers[r].phase.Fetching? && s.readers[r].request in s.server
    case FetchFail(r) => r < |s.readers| && s.readers[r].phase.Fetching?
    case Fallback(r) => r < |s.readers| && s.readers[r].phase.Failed?
    case Store(r) => r < |s.readers| && s.readers[r].phase.Fetched?
    case StoreFail(r) => r < |s.readers| && s.readers[r].phase.Fetched?
    case StartWrite(_) => true
    case Apply(w, after) =>
      w < |s.writers| && !s.writers[w].refresh && Confined(s.writers[w].scope, s.server, after)
    case Answer(w) => w < |s.writers| && s.writers[w].phase.InFlight? && exists a <- s.log :: a.writer == w
    case Abort(w) => w < |s.writers| && s.writers[w].phase.InFlight?
    case Drop(w) => w < |s.writers| && s.writers[w].phase.Dropping? && |s.writers[w].drops| < |s.writers[w].prefixes|
    case Finish(w) => w < |s.writers| && s.writers[w].phase.Dropping? && |s.writers[w].drops| == |s.writers[w].prefixes|
    case StartRefresh(_) => true
  }

  function WithReader(s: State, r: nat, phase: ReadPhase): State
    requires r < |s.readers|
  {
    s.(now := s.now + 1, readers := s.readers[r := s.readers[r].(phase := phase)])
  }

  function WithWriter(s: State, w: nat, writer: Writer): State
    requires w < |s.writers|
  {
    s.(now := s.now + 1, writers := s.writers[w := writer])
  }

  function Unreached(cache: map<Path, Entry>, prefix: seq<string>): map<Path, Entry> {
    map p | p in cache && !Reaches(prefix, p) :: cache[p]
  }

  /** One page of the paging loop: the last page the API announces, or an empty one, ends it. */
  function NextPage(got: seq<Page>, since: nat, pages: seq<Page>): ReadPhase {
    var rows := if |got| < |pages| then got + [pages[|got|]] else got;
    if |got| + 1 >= |pages| then Fetched(rows, since) else Fetching(rows, since)
  }

  function Do(s: State, step: Step): State
    requires Enabled(s, step)
  {
    match step
    case StartRead(request) => s.(now := s.now + 1, readers := s.readers + [Reader(request, Asked)])
    case Hit(r) => WithReader(s, r, Answered(s.cache[s.place(s.readers[r].request)].pages))
    case Miss(r) => WithReader(s, r, Fetching([], |s.log|))
    case FetchPage(r) =>
      var reader := s.readers[r];
      WithReader(s, r, NextPage(reader.phase.got, reader.phase.since, s.server[reader.request]))
    case FetchFail(r) => WithReader(s, r, Failed)
    case Fallback(r) =>
      var p := s.place(s.readers[r].request);
      WithReader(s, r, if p in s.cache then Answered(s.cache[p].pages) else Raised)
    case Store(r) =>
      var reader := s.readers[r];
      var entry := Entry(reader.phase.got, reader.request, reader.phase.since, s.now);
      WithReader(s, r, Answered(reader.phase.got)).(cache := s.cache[s.place(reader.request) := entry])
    case StoreFail(r) => WithReader(s, r, Raised)
    case StartWrite(scope) =>
      s.(now := s.now + 1, writers := s.writers + [Writer(false, scope, PrefixesOf(scope), InFlight, [])])
    case Apply(w, after) => s.(now := s.now + 1, server := after, log := s.log + [Applied(w, s.now)])
    case Answer(w) => WithWriter(s, w, s.writers[w].(phase := Dropping))
    case Abort(w) => WithWriter(s, w, s.writers[w].(phase := Aborted))
    case Drop(w) =>
      var writer := s.writers[w];
      var dropped := writer.(drops := writer.drops + [s.now]);
      WithWriter(s, w, dropped).(cache := Unreached(s.cache, writer.prefixes[|writer.drops|]))
    case Finish(w) => WithWriter(s, w, s.writers[w].(phase := Returned))
    case StartRefresh(scope) =>
      s.(now := s.now + 1, writers := s.writers + [Writer(true, scope, PrefixesOf(scope), Dropping, [])])
  }

  // ---------------------------------------------------------------------
  // Runs
  // ---------------------------------------------------------------------

  ghost predicate Allowed(s: State, steps: seq<Step>) {
    steps == [] ||
    (var n := |steps| - 1; Allowed(s, steps[..n]) && Enabled(Run(s, steps[..n]), steps[n]))
  }

  ghost function Run(s: State, steps: seq<Step>): State {
    if steps == [] then s
    else
      var n := |steps| - 1;
      var before := Run(s, steps[..n]);
      if Enabled(before, steps[n]) then Do(before, steps[n]) else before
  }

  function Start(place: Request -> Path, server: Server): State {
    State(place, 0, server, [], map[], [], [])
  }

  /** Extending a run by one step. */
  lemma {:induction false} RunStep(s: State, steps: seq<Step>, step: Step)
    requires Allowed(s, steps) && Enabled(Run(s, steps), step)
    ensures Allowed(s, steps + [step]) && Run(s, steps + [step]) == Do(Run(s, steps), step)
  {
    assert (steps + [step])[..|steps|] == steps;
  }

  // ---------------------------------------------------------------------
  // The invariant
  // ---------------------------------------------------------------------

  /** The pages are the API's current answer to the read. */
  predicate Current(s: State, r: Request, pages: seq<Page>) {
    r in s.server && s.server[r] == pages
  }

  /** The read's file holds something else than the API's current answer. */
  predicate Stale(s: State, r: Request) {
    s.place(r) in s.cache && !Current(s, r, s.cache[s.place(r)].pages)
  }

  /** Application number j is of a write that touches the read. */
  predicate Touches(s: State, j: nat, r: Request) {
    j < |s.log| && s.log[j].writer < |s.writers| && Touched(s.writers[s.log[j].writer].scope, r)
  }

  /** A touching write was applied after the first `since` applications. */
  ghost predicate Overtaken(s: State, r: Request, since: nat) {
    exists j :: since <= j && Touches(s, j, r)
  }

  ghost predicate LogInv(s: State) {
    forall a <- s.log :: a.writer < |s.writers| && a.at < s.now
  }

  predicate WriterInv(s: State, writer: Writer) {
    && |writer.drops| <= |writer.prefixes|
    && (writer.phase.InFlight? || writer.phase.Aborted? ==> writer.drops == [])
    && (writer.phase.Returned? ==> |writer.drops| == |writer.prefixes|)
    && (forall q :: 0 <= q < |writer.drops| ==> writer.drops[q] < s.now)
  }

  /** An entry is at its read's file, and current for that read unless overtaken since. */
  ghost predicate EntryInv(s: State, p: Path)
    requires p in s.cache
  {
    var e := s.cache[p];
    && s.place(e.source) == p && e.since <= |s.log| && e.stored < s.now
    && (Current(s, e.source, e.pages) || Overtaken(s, e.source, e.since))
  }

  /** An entry that a dropped prefix reaches was stored after the drop. */
  predicate DropInv(s: State, writer: Writer, p: Path)
    requires p in s.cache
  {
    forall q :: 0 <= q < |writer.drops| && q < |writer.prefixes| && Reaches(writer.prefixes[q], p) ==>
      writer.drops[q] < s.cache[p].stored
  }

  ghost predicate ReaderInv(s: State, reader: Reader) {
    match reader.phase
    case Fetching(got, since) =>
      since <= |s.log| &&
      (got == [] || (reader.request in s.server && got <= s.server[reader.request])
       || Overtaken(s, reader.request, since))
    case Fetched(got, since) =>
      since <= |s.log| && (Current(s, reader.request, got) || Overtaken(s, reader.request, since))
    case _ => true
  }

  ghost predicate Inv(s: State) {
    && LogInv(s)
    && (forall writer <- s.writers :: WriterInv(s, writer))
    && (forall p <- s.cache.Keys :: EntryInv(s, p))
    && (forall writer <- s.writers, p <- s.cache.Keys :: DropInv(s, writer, p))
    && (forall reader <- s.readers :: ReaderInv(s, reader))
  }

  /** The log only grows and writers keep their scopes, so what was overtaken stays so. */
  lemma OvertakenStays(s: State, t: State, r: Request, since: nat)
    requires s.log <= t.log && |s.writers| <= |t.writers|
    requires forall w :: 0 <= w < |s.writers| ==> t.writers[w].scope == s.writers[w].scope
    ensures Overtaken(s, r, since) ==> Overtaken(t, r, since)
  {
    if Overtaken(s, r, since) {
      var j :| since <= j && Touches(s, j, r);
      assert Touches(t, j, r);
    }
  }

  /** Where the API is untouched, the entries kept and the readers not stepped keep their parts of the invariant. */
  lemma {:induction false} Framed(s: State, t: State)
    requires Inv(s) && t.place == s.place && t.server == s.server && t.log == s.log && t.now > s.now
    requires |s.writers| <= |t.writers|
    requires forall w :: 0 <= w < |s.writers| ==> t.writers[w].scope == s.writers[w].scope
    ensures LogInv(t)
    ensures forall p | p in s.cache && p in t.cache && t.cache[p] == s.cache[p] :: EntryInv(t, p)
    ensures forall reader <- s.readers :: ReaderInv(t, reader)
    ensures forall writer <- s.writers :: WriterInv(t, writer)
  {
    forall x, since | Overtaken(s, x, since) ensures Overtaken(t, x, since) { OvertakenStays(s, t, x, since); }
    forall p | p in s.cache && p in t.cache && t.cache[p] == s.cache[p] ensures EntryInv(t, p) {
      assert EntryInv(s, p);
    }
    forall reader | reader in s.readers ensures ReaderInv(t, reader) { assert ReaderInv(s, reader); }
    forall writer | writer in s.writers ensures WriterInv(t, writer) { assert WriterInv(s, writer); }
  }

  lemma {:induction false} DropsFramed(s: State, t: State)
    requires Inv(s) && forall p <- t.cache.Keys :: p in s.cache && t.cache[p] == s.cache[p]
    ensures forall writer <- s.writers, p <- t.cache.Keys :: DropInv(t, writer, p)
  {
    forall writer, p | writer in s.writers && p in t.cache.Keys ensures DropInv(t, writer, p) {
      assert DropInv(s, writer, p);
    }
  }

  lemma {:induction false} ReaderStep(s: State, step: Step, r: nat)
    requires Inv(s) && Enabled(s, step) && r < |s.readers|
    requires step in {Hit(r), Miss(r), FetchPage(r), FetchFail(r), Fallback(r), StoreFail(r)}
    ensures Inv(Do(s, step))
  {
    var t := Do(s, step);
    Framed(s, t);
    DropsFramed(s, t);
    SteppedReader(s, step, r);
    forall x | x in t.readers ensures ReaderInv(t, x) {
      if x !in s.readers { assert x == t.readers[r]; }
    }
  }

  lemma {:induction false} SteppedReader(s: State, step: Step, r: nat)
    requires Inv(s) && Enabled(s, step) && r < |s.readers|
    requires step in {Hit(r), Miss(r), FetchPage(r), FetchFail(r), Fallback(r), StoreFail(r)}
    ensures ReaderInv(Do(s, step), Do(s, step).readers[r])
  {
    var t, reader := Do(s, step), s.readers[r];
    assert ReaderInv(s, reader);
    if step.FetchPage? {
      OvertakenStays(s, t, reader.request, reader.phase.since);
    }
  }

  lemma {:induction false} StoreStep(s: State, r: nat)
    requires Inv(s) && Enabled(s, Store(r))
    ensures Inv(Do(s, Store(r)))
  {
    var t, reader := Do(s, Store(r)), s.readers[r];
    Framed(s, t);
    assert ReaderInv(s, reader);
    OvertakenStays(s, t, reader.request, reader.phase.since);
    forall writer, p | writer in t.writers && p in t.cache.Keys ensures DropInv(t, writer, p) {
      assert WriterInv(s, writer);
      if p != s.place(reader.request) { assert DropInv(s, writer, p); }
    }
  }

  lemma {:induction false} WriterStep(s: State, step: Step, w: nat)
    requires Inv(s) && Enabled(s, step) && w < |s.writers|
    requires step in {Answer(w), Abort(w), Finish(w)}
    ensures Inv(Do(s, step))
  {
    var t := Do(s, step);
    Framed(s, t);
    assert WriterInv(s, s.writers[w]);
    forall writer | writer in t.writers ensures WriterInv(t, writer) {
      if writer !in s.writers { assert writer == t.writers[w]; }
    }
    forall writer, p | writer in t.writers && p in t.cache.Keys ensures DropInv(t, writer, p) {
      SteppedDrops(s, t, w, writer, p);
    }
  }

  lemma {:induction false} SteppedDrops(s: State, t: State, w: nat, writer: Writer, p: Path)
    requires Inv(s) && w < |s.writers| && t.cache == s.cache && p in s.cache.Keys
    requires writer in s.writers || writer.(phase := s.writers[w].phase) == s.writers[w]
    ensures DropInv(t, writer, p)
  {
    assert DropInv(s, if writer in s.writers then writer else s.writers[w], p);
  }

  lemma {:induction false} DroppedAfter(s: State, w: nat, writer: Writer, p: Path)
    requires Inv(s) && Enabled(s, Drop(w)) && writer in Do(s, Drop(w)).writers && p in Do(s, Drop(w)).cache
    ensures DropInv(Do(s, Drop(w)), writer, p)
  {
    var mine := s.writers[w];
    assert p in s.cache.Keys;
    if writer in s.writers {
      assert DropInv(s, writer, p);
    } else {
      assert DropInv(s, mine, p);
      assert writer.drops == mine.drops + [s.now] && !Reaches(mine.prefixes[|mine.drops|], p);
    }
  }

  lemma {:induction false} DropStep(s: State, w: nat)
    requires Inv(s) && Enabled(s, Drop(w))
    ensures Inv(Do(s, Drop(w)))
  {
    var t := Do(s, Drop(w));
    Framed(s, t);
    assert WriterInv(s, s.writers[w]);
    forall writer | writer in t.writers ensures WriterInv(t, writer) {
      if writer !in s.writers { assert writer == t.writers[w]; }
    }
    forall writer, p | writer in t.writers && p in t.cache.Keys ensures DropInv(t, writer, p) {
      DroppedAfter(s, w, writer, p);
    }
  }

  lemma {:induction false} StartStep(s: State, step: Step)
    requires Inv(s) && Enabled(s, step) && (step.StartRead? || step.StartWrite? || step.StartRefresh?)
    ensures Inv(Do(s, step))
  {
    var t := Do(s, step);
    Framed(s, t);
    DropsFramed(s, t);
  }

  lemma {:induction false} ApplyStep(s: State, step: Step)
    requires Inv(s) && Enabled(s, step) && step.Apply?
    ensures Inv(Do(s, step))
  {
    var t := Do(s, step);
    forall x, since | Overtaken(s, x, since) ensures Overtaken(t, x, since) { OvertakenStays(s, t, x, since); }
    forall x, since: nat | since <= |s.log| && Lookup(s.server, x) != Lookup(t.server, x)
      ensures Overtaken(t, x, since)
    {
      assert Touches(t, |s.log|, x);
    }
    forall p | p in t.cache ensures EntryInv(t, p) { assert EntryInv(s, p); }
    forall x | x in t.readers ensures ReaderInv(t, x) { assert ReaderInv(s, x); }
    forall writer | writer in t.writers ensures WriterInv(t, writer) { assert WriterInv(s, writer); }
    DropsFramed(s, t);
  }

  /** Every step of every task keeps the invariant. */
  lemma {:induction false} StepKeepsInv(s: State, step: Step)
    requires Inv(s) && Enabled(s, step)
    ensures Inv(Do(s, step))
  {
    match step {
      case StartRead(_) => StartStep(s, step);
      case StartWrite(_) => StartStep(s, step);
      case Apply(_, _) => ApplyStep(s, step);
      case StartRefresh(_) => StartStep(s, step);
      case Hit(r) => ReaderStep(s, step, r);
      case Miss(r) => ReaderStep(s, step, r);
      case FetchPage(r) => ReaderStep(s, step, r);
      case FetchFail(r) => ReaderStep(s, step, r);
      case Fallback(r) => ReaderStep(s, step, r);
      case Store(r) => StoreStep(s, r);
      case StoreFail(r) => ReaderStep(s, step, r);
      case Answer(w) => WriterStep(s, step, w);
      case Abort(w) => WriterStep(s, step, w);
      case Drop(w) => DropStep(s, w);
      case Finish(w) => WriterStep(s, step, w);
    }
  }

  lemma {:induction false} RunKeepsInv(s: State, steps: seq<Step>)
    requires Inv(s) && Allowed(s, steps)
    ensures Inv(Run(s, steps))
  {
    if steps != [] {
      var n := |steps| - 1;
      RunKeepsInv(s, steps[..n]);
      StepKeepsInv(Run(s, steps[..n]), steps[n]);
    }
  }

  // ---------------------------------------------------------------------
  // Why a stored entry can be out of date
  // ---------------------------------------------------------------------

  /** Application j, since the entry's fetch began, of a write whose prefix q reaches the entry's file: what came of
      the drop. */
  predicate Cause(s: State, p: Path, j: nat, q: nat)
    requires p in s.cache
  {
    && s.cache[p].since <= j < |s.log| && s.log[j].writer < |s.writers|
    && var entry, applied, writer := s.cache[p], s.log[j].at, s.writers[s.log[j].writer];
       && q < |writer.prefixes| && Reaches(writer.prefixes[q], p)
       && (// the write raised after it was applied
           || writer.phase.Aborted?
           // it has yet to drop the prefix
           || (!writer.phase.Returned? && |writer.drops| <= q)
           // a read begun before it stored after the drop
           || (q < |writer.drops| && applied < writer.drops[q] < entry.stored)
           // the API applied it again after the drop
           || (q < |writer.drops| && writer.drops[q] <= applied))
  }

  /** In every run, each application since an entry's fetch began, of a write that drops a prefix reaching the
      entry's file, has one of these four causes. */
  lemma {:induction false} EveryReachingWriteHasACause(
      place: Request -> Path, server: Server, steps: seq<Step>, p: Path, j: nat, q: nat)
    requires Allowed(Start(place, server), steps)
    requires var s := Run(Start(place, server), steps);
             && p in s.cache && s.cache[p].since <= j < |s.log| && s.log[j].writer < |s.writers|
             && q < |s.writers[s.log[j].writer].prefixes| && Reaches(s.writers[s.log[j].writer].prefixes[q], p)
    ensures Cause(Run(Start(place, server), steps), p, j, q)
  {
    var s := Run(Start(place, server), steps);
    RunKeepsInv(Start(place, server), steps);
    var writer := s.writers[s.log[j].writer];
    assert WriterInv(s, writer) && DropInv(s, writer, p);
  }

  /** No prefix of application j's write reaches the file. */
  predicate OutOfReach(s: State, p: Path, j: nat)
    requires j < |s.log| && s.log[j].writer < |s.writers|
  {
    !Reached(s.writers[s.log[j].writer].prefixes, p)
  }

  /** In every run, what a read's file holds differs from the API only if another read stored it there, or a
      touching write was applied since the fetch began, and either no prefix of that write reaches the file or each
      that does has one of the four causes. */
  lemma {:induction false} StaleEntriesHaveACause(
      place: Request -> Path, server: Server, steps: seq<Step>, r: Request)
    requires Allowed(Start(place, server), steps) && Stale(Run(Start(place, server), steps), r)
    ensures var s := Run(Start(place, server), steps);
      var p := s.place(r);
      || s.cache[p].source != r
      || exists j :: s.cache[p].since <= j && Touches(s, j, r)
           && (OutOfReach(s, p, j) || exists q :: Cause(s, p, j, q))
  {
    var s := Run(Start(place, server), steps);
    var p := s.place(r);
    RunKeepsInv(Start(place, server), steps);
    assert EntryInv(s, p);
    if s.cache[p].source == r {
      var j :| s.cache[p].since <= j && Touches(s, j, r);
      if !OutOfReach(s, p, j) {
        var prefixes := s.writers[s.log[j].writer].prefixes;
        var q :| 0 <= q < |prefixes| && Reaches(prefixes[q], p);
        EveryReachingWriteHasACause(place, server, steps, p, j, q);
      }
    }
  }

  /** Once a write or a refresh has dropped a prefix, whatever is at a file that it reaches was stored after the drop:
      so also the snapshot that a refresh falls back on. */
  lemma {:induction false} DroppedBeforeStored(
      place: Request -> Path, server: Server, steps: seq<Step>, w: nat, q: nat, p: Path)
    requires Allowed(Start(place, server), steps)
    requires var s := Run(Start(place, server), steps);
             && w < |s.writers| && q < |s.writers[w].drops| && q < |s.writers[w].prefixes|
             && Reaches(s.writers[w].prefixes[q], p) && p in s.cache
    ensures var s := Run(Start(place, server), steps); s.writers[w].drops[q] < s.cache[p].stored
  {
    var s := Run(Start(place, server), steps);
    RunKeepsInv(Start(place, server), steps);
    assert DropInv(s, s.writers[w], p);
  }

  /** After a write returned, that holds of every file its prefixes reach. */
  lemma {:induction false} ReturnedWriteDropped(
      place: Request -> Path, server: Server, steps: seq<Step>, w: nat, q: nat, p: Path)
    requires Allowed(Start(place, server), steps)
    requires var s := Run(Start(place, server), steps);
             && w < |s.writers| && s.writers[w].phase.Returned? && q < |s.writers[w].prefixes|
             && Reaches(s.writers[w].prefixes[q], p) && p in s.cache
    ensures var s := Run(Start(place, server), steps);
            q < |s.writers[w].drops| && s.writers[w].drops[q] < s.cache[p].stored
  {
    var s := Run(Start(place, server), steps);
    RunKeepsInv(Start(place, server), steps);
    assert WriterInv(s, s.writers[w]);
    DroppedBeforeStored(place, server, steps, w, q, p);
  }

  // ---------------------------------------------------------------------
  // With reads that the cache keeps apart
  // ---------------------------------------------------------------------

  ghost predicate StartsAmong(steps: seq<Step>, ok: iset<Request>) {
    forall step <- steps :: step.StartRead? ==> step.request in ok
  }

  /** Readers and entries are of the given reads. */
  ghost predicate StateAmong(s: State, ok: iset<Request>) {
    && (forall reader <- s.readers :: reader.request in ok)
    && (forall p <- s.cache.Keys :: s.cache[p].source in ok)
  }

  /** Writers drop the prefixes of their scopes. */
  ghost predicate OwnPrefixes(s: State) {
    forall writer <- s.writers :: writer.prefixes == PrefixesOf(writer.scope)
  }

  lemma {:induction false} StepStaysAmong(s: State, step: Step, ok: iset<Request>)
    requires StateAmong(s, ok) && Enabled(s, step) && (step.StartRead? ==> step.request in ok)
    ensures StateAmong(Do(s, step), ok)
  {
    if step.Store? { assert s.readers[step.r] in s.readers; }
    var t := Do(s, step);
    forall reader | reader in t.readers ensures reader.request in ok {
      var i :| 0 <= i < |t.readers| && t.readers[i] == reader;
      if i < |s.readers| { assert s.readers[i] in s.readers; }
    }
  }

  lemma {:induction false} StepKeepsPrefixes(s: State, step: Step)
    requires OwnPrefixes(s) && Enabled(s, step)
    ensures OwnPrefixes(Do(s, step))
  {
    var t := Do(s, step);
    forall writer | writer in t.writers ensures writer.prefixes == PrefixesOf(writer.scope) {
      var i :| 0 <= i < |t.writers| && t.writers[i] == writer;
      if i < |s.writers| { assert s.writers[i] in s.writers; }
    }
  }

  lemma {:induction false} RunStaysAmong(s: State, steps: seq<Step>, ok: iset<Request>)
    requires StateAmong(s, ok) && OwnPrefixes(s) && Allowed(s, steps) && StartsAmong(steps, ok)
    ensures StateAmong(Run(s, steps), ok) && OwnPrefixes(Run(s, steps)) && Run(s, steps).place == s.place
  {
    if steps != [] {
      var n := |steps| - 1;
      assert steps[n] in steps && forall step <- steps[..n] :: step in steps;
      RunStaysAmong(s, steps[..n], ok);
      StepStaysAmong(Run(s, steps[..n]), steps[n], ok);
      StepKeepsPrefixes(Run(s, steps[..n]), steps[n]);
    }
  }

  /** With reads that have files of their own, reached by the drops of their scopes, only the four causes are left:
      an entry that differs from the API is due to a race, a write that raised, or one applied again. */
  lemma {:induction false} KeptReadsGoStaleOnlyByRaces(
      place: Request -> Path, server: Server, steps: seq<Step>, ok: iset<Request>, r: Request)
    requires KeptApart(place, ok) && r in ok
    requires Allowed(Start(place, server), steps) && StartsAmong(steps, ok)
    requires Stale(Run(Start(place, server), steps), r)
    ensures var s := Run(Start(place, server), steps);
      exists j, q :: Touches(s, j, r) && Cause(s, s.place(r), j, q)
  {
    var s := Run(Start(place, server), steps);
    var p := s.place(r);
    RunKeepsInv(Start(place, server), steps);
    RunStaysAmong(Start(place, server), steps, ok);
    StaleEntriesHaveACause(place, server, steps, r);
    assert p in s.cache.Keys && EntryInv(s, p);
    assert s.cache[p].source == r;
    var j :| s.cache[p].since <= j && Touches(s, j, r) && (OutOfReach(s, p, j) || exists q :: Cause(s, p, j, q));
    var scope := s.writers[s.log[j].writer].scope;
    assert InScope(scope.kind, scope.project, scope.version, r);
    assert !OutOfReach(s, p, j);
    var q :| Cause(s, p, j, q);
  }

  // ---------------------------------------------------------------------
  // Exactly when a read can go out of date without a further write
  // ---------------------------------------------------------------------

  predicate ApplyFree(steps: seq<Step>) {
    forall step <- steps :: !step.Apply?
  }

  /** What a fetch that has got some pages comes to, if the API stays as it is. */
  function Completed(got: seq<Page>, pages: seq<Page>): seq<Page> {
    if |got| < |pages| then got + pages[|got|..] else got
  }

  /** What a read in flight will store. */
  function Pending(s: State, reader: Reader): Option<seq<Page>> {
    match reader.phase
    case Fetching(got, _) =>
      if reader.request in s.server then Some(Completed(got, s.server[reader.request])) else None
    case Fetched(got, _) => Some(got)
    case _ => None
  }

  /** The read in flight will store something at r's file that is not the API's answer to r. */
  predicate Doomed(s: State, reader: Reader, r: Request) {
    && s.place(reader.request) == s.place(r)
    && Pending(s, reader).Some? && !Current(s, r, Pending(s, reader).value)
  }

  /** Another read with the same file has another answer. */
  predicate Misfiled(s: State, other: Request, r: Request) {
    s.place(other) == s.place(r) && other in s.server && !Current(s, r, s.server[other])
  }

  predicate AtRisk(s: State, r: Request) {
    || Stale(s, r)
    || (exists reader <- s.readers :: Doomed(s, reader, r))
    || (exists other <- s.server.Keys :: Misfiled(s, other, r))
  }

  lemma {:induction false} CompletedStep(got: seq<Page>, pages: seq<Page>, since: nat)
    ensures match NextPage(got, since, pages)
            case Fetching(more, _) => Completed(more, pages) == Completed(got, pages)
            case Fetched(rows, _) => rows == Completed(got, pages)
            case _ => false
  {
    if |got| < |pages| {
      assert pages[|got|..] == [pages[|got|]] + pages[|got| + 1..];
    }
  }

  lemma {:induction false} SoundReader(s: State, step: Step, r: Request, i: nat)
    requires Enabled(s, step) && !step.Apply? && !AtRisk(s, r) && i < |Do(s, step).readers|
    ensures !Doomed(Do(s, step), Do(s, step).readers[i], r)
  {
    if i < |s.readers| {
      var before := s.readers[i];
      assert before in s.readers && !Doomed(s, before, r);
      if step.FetchPage? && step.r == i {
        CompletedStep(before.phase.got, s.server[before.request], before.phase.since);
      }
      if step.Miss? && step.r == i && before.request in s.server.Keys {
        assert !Misfiled(s, before.request, r);
        assert Completed([], s.server[before.request]) == s.server[before.request];
      }
    }
  }

  lemma {:induction false} SoundStep(s: State, step: Step, r: Request)
    requires Enabled(s, step) && !step.Apply? && !AtRisk(s, r)
    ensures !AtRisk(Do(s, step), r)
  {
    var t := Do(s, step);
    forall reader | reader in t.readers ensures !Doomed(t, reader, r) {
      var i :| 0 <= i < |t.readers| && t.readers[i] == reader;
      SoundReader(s, step, r, i);
    }
    if step.Store? {
      assert s.readers[step.r] in s.readers && !Doomed(s, s.readers[step.r], r);
    }
    forall other | other in t.server.Keys ensures !Misfiled(t, other, r) {
      assert !Misfiled(s, other, r);
    }
  }

  lemma {:induction false} SoundRun(s: State, steps: seq<Step>, r: Request)
    requires Allowed(s, steps) && ApplyFree(steps) && !AtRisk(s, r)
    ensures !AtRisk(Run(s, steps), r)
  {
    if steps != [] {
      var n := |steps| - 1;
      assert steps[n] in steps && forall step <- steps[..n] :: step in steps;
      SoundRun(s, steps[..n], r);
      SoundStep(Run(s, steps[..n]), steps[n], r);
    }
  }

  function PagesLeft(s: State, i: nat): nat {
    if i < |s.readers| && s.readers[i].phase.Fetching? && s.readers[i].request in s.server then
      var got, pages := s.readers[i].phase.got, s.server[s.readers[i].request];
      if |got| < |pages| then |pages| - |got| + 1 else 1
    else 0
  }

  /** The doomed read's own remaining steps: fetch to the end, then store. */
  lemma {:induction false} DoomedStores(s: State, prior: seq<Step>, i: nat, r: Request) returns (steps: seq<Step>)
    requires Allowed(s, prior) && ApplyFree(prior)
    requires var t := Run(s, prior); i < |t.readers| && Doomed(t, t.readers[i], r)
    ensures Allowed(s, steps) && ApplyFree(steps) && Stale(Run(s, steps), r)
    decreases PagesLeft(Run(s, prior), i)
  {
    var t := Run(s, prior);
    var reader := t.readers[i];
    if reader.phase.Fetched? {
      RunStep(s, prior, Store(i));
      steps := prior + [Store(i)];
    } else {
      CompletedStep(reader.phase.got, t.server[reader.request], reader.phase.since);
      RunStep(s, prior, FetchPage(i));
      steps := DoomedStores(s, prior + [FetchPage(i)], i, r);
    }
  }

  /** A new read of a misfiled request. */
  lemma {:induction false} MisfiledStores(s: State, other: Request, r: Request) returns (steps: seq<Step>)
    requires Misfiled(s, other, r)
    ensures Allowed(s, steps) && ApplyFree(steps) && Stale(Run(s, steps), r)
  {
    var i := |s.readers|;
    assert Run(s, []) == s;
    RunStep(s, [], StartRead(other));
    var started := Do(s, StartRead(other));
    assert [] + [StartRead(other)] == [StartRead(other)];
    RunStep(s, [StartRead(other)], Miss(i));
    var missed := Do(started, Miss(i));
    assert missed.readers[i] == Reader(other, Fetching([], |s.log|));
    assert Completed([], s.server[other]) == s.server[other];
    assert Doomed(missed, missed.readers[i], r);
    steps := DoomedStores(s, [StartRead(other)] + [Miss(i)], i, r);
  }

  /** With no further write applied, a read can be served something out of date if and only if its file already holds
      that, a read in flight will store it there, or another read with the same file has another answer. */
  lemma {:induction false} OutOfDateExactlyWhen(s: State, r: Request)
    ensures (exists steps :: Allowed(s, steps) && ApplyFree(steps) && Stale(Run(s, steps), r)) <==> AtRisk(s, r)
  {
    if steps :| Allowed(s, steps) && ApplyFree(steps) && Stale(Run(s, steps), r) {
      if !AtRisk(s, r) {
        SoundRun(s, steps, r);
      }
    }
    if AtRisk(s, r) {
      assert Run(s, []) == s;
      if Stale(s, r) {
        assert Allowed(s, []) && ApplyFree([]);
      } else if reader :| reader in s.readers && Doomed(s, reader, r) {
        var i :| 0 <= i < |s.readers| && s.readers[i] == reader;
        var steps := DoomedStores(s, [], i, r);
      } else {
        var other :| other in s.server.Keys && Misfiled(s, other, r);
        var steps := MisfiledStores(s, other, r);
      }
    }
  }

  /** Step i of the run is the store of a read with the file. */
  ghost predicate StoresAt(s: State, steps: seq<Step>, i: nat, p: Path) {
    && i < |steps| && steps[i].Store?
    && var before := Run(s, steps[..i]);
       steps[i].r < |before.readers| && before.place(before.readers[steps[i].r].request) == p
  }

  lemma {:induction false} StoresStay(s: State, steps: seq<Step>, n: nat, i: nat, p: Path)
    requires n <= |steps| && StoresAt(s, steps[..n], i, p)
    ensures StoresAt(s, steps, i, p)
  {
    assert steps[..n][..i] == steps[..i];
  }

  /** A file that is not in the cache comes back only through the store of a read whose file it is. */
  lemma {:induction false} OnlyReadsStore(s: State, steps: seq<Step>, p: Path)
    requires Allowed(s, steps) && p !in s.cache && p in Run(s, steps).cache
    ensures exists i :: StoresAt(s, steps, i, p)
  {
    var n := |steps| - 1;
    if p in Run(s, steps[..n]).cache {
      OnlyReadsStore(s, steps[..n], p);
      var i: nat :| StoresAt(s, steps[..n], i, p);
      StoresStay(s, steps, n, i, p);
    } else {
      assert StoresAt(s, steps, n, p);
    }
  }

  /** A read with the file is between its fetch and its store. */
  predicate InFlightAt(s: State, reader: Reader, p: Path) {
    s.place(reader.request) == p && (reader.phase.Fetching? || reader.phase.Fetched?)
  }

  /** The documented promise, with its condition: when a write drops a prefix that reaches a read's file, while no
      read with that file is between its fetch and its store, and no other read with the file has another answer, the
      file is gone, and what it next holds stays current until a further write applies. */
  lemma {:induction false} QuietDropKeepsPromise(s: State, w: nat, r: Request, steps: seq<Step>)
    requires Enabled(s, Drop(w)) && Reaches(s.writers[w].prefixes[|s.writers[w].drops|], s.place(r))
    requires forall reader <- s.readers :: !InFlightAt(s, reader, s.place(r))
    requires forall other <- s.server.Keys :: !Misfiled(s, other, r)
    requires Allowed(Do(s, Drop(w)), steps) && ApplyFree(steps)
    ensures s.place(r) !in Do(s, Drop(w)).cache
    ensures !Stale(Run(Do(s, Drop(w)), steps), r)
  {
    var t := Do(s, Drop(w));
    forall reader | reader in t.readers ensures !Doomed(t, reader, r) {
      assert !InFlightAt(s, reader, s.place(r));
    }
    forall other | other in t.server.Keys ensures !Misfiled(t, other, r) {
      assert !Misfiled(s, other, r);
    }
    SoundRun(t, steps, r);
  }

  // ---------------------------------------------------------------------
  // Runs in which the promise fails
  // ---------------------------------------------------------------------

  const LISTING := Projects(1, 100)
  const GLOBAL := Scope(GlobalScope, None, None)

  function Listing(pages: seq<Page>): Server {
    map[LISTING := pages]
  }

  /** The drop of a write to the project listing reaches the listing's file. */
  predicate PlacesListing(place: Request -> Path) {
    Reaches(["projects"], place(LISTING))
  }

  lemma TreePlacesListing()
    ensures PlacesListing(OnTree())
  {
    LeadingNames(LISTING);
    AbsoluteExactlyWhen(LISTING);
    LeadingSegments(LISTING);
    NumberPart(100);
    SplitJoin(Parts(LISTING), ':');
    assert FAMILIES[17] == "projects";
    var s := Segments(Key(LISTING));
    assert ["projects"] <= s;
    assert Dec(100)[0] in Dec(100);
    ReachesKey(["projects"], s, 1);
  }

  lemma ListingIsTouched(before: seq<Page>, after: seq<Page>)
    ensures PrefixesOf(GLOBAL) == [["projects"]] && Confined(GLOBAL, Listing(before), Listing(after))
  {}

  lemma {:induction false} Extend(s: State, steps: seq<Step>, t: State, step: Step, next: State)
    returns (longer: seq<Step>)
    requires Allowed(s, steps) && Run(s, steps) == t && Enabled(t, step) && Do(t, step) == next
    ensures Allowed(s, longer) && Run(s, longer) == next && longer == steps + [step]
  {
    RunStep(s, steps, step);
    longer := steps + [step];
  }

  function ReadingState(t: State, passed: nat, phase: ReadPhase): State {
    t.(now := t.now + passed, readers := [Reader(LISTING, phase)])
  }

  lemma {:induction false} ReadMissed(s: State, steps: seq<Step>, t: State) returns (longer: seq<Step>)
    requires Allowed(s, steps) && Run(s, steps) == t && t.readers == []
    ensures Allowed(s, longer) && steps <= longer
    ensures Run(s, longer) == ReadingState(t, 2, Fetching([], |t.log|))
  {
    longer := Extend(s, steps, t, StartRead(LISTING), ReadingState(t, 1, Asked));
    longer := Extend(s, longer, ReadingState(t, 1, Asked), Miss(0), ReadingState(t, 2, Fetching([], |t.log|)));
  }

  /** One read of the listing, begun and gone through its first page. */
  lemma {:induction false} ReadFirstPage(s: State, steps: seq<Step>, t: State, pages: seq<Page>)
    returns (longer: seq<Step>)
    requires Allowed(s, steps) && Run(s, steps) == t && t.readers == [] && t.server == Listing(pages)
    ensures Allowed(s, longer) && steps <= longer
    ensures Run(s, longer) == ReadingState(t, 3, NextPage([], |t.log|, pages))
  {
    longer := ReadMissed(s, steps, t);
    var missed, paged := ReadingState(t, 2, Fetching([], |t.log|)), ReadingState(t, 3, NextPage([], |t.log|, pages));
    longer := Extend(s, longer, missed, FetchPage(0), paged);
  }

  /** The state with one more write of the listing, in the given phase. */
  function WithWrite(t: State, phase: WritePhase, drops: seq<nat>): State {
    t.(writers := t.writers + [Writer(false, GLOBAL, [["projects"]], phase, drops)])
  }

  function AppliedState(t: State, pages: seq<Page>): State {
    WithWrite(t, InFlight, []).(
      now := t.now + 2, server := Listing(pages), log := t.log + [Applied(|t.writers|, t.now + 1)])
  }

  /** One write of the listing, begun and applied. */
  lemma {:induction false} WriteApplied(s: State, steps: seq<Step>, t: State, before: seq<Page>, after: seq<Page>)
    returns (longer: seq<Step>)
    requires Allowed(s, steps) && Run(s, steps) == t && t.server == Listing(before)
    ensures Allowed(s, longer) && Run(s, longer) == AppliedState(t, after)
    ensures longer == steps + [StartWrite(GLOBAL), Apply(|t.writers|, Listing(after))]
  {
    ListingIsTouched(before, after);
    var t1 := WithWrite(t, InFlight, []).(now := t.now + 1);
    longer := Extend(s, steps, t, StartWrite(GLOBAL), t1);
    longer := Extend(s, longer, t1, Apply(|t.writers|, Listing(after)), AppliedState(t, after));
  }

  /** The state t once a write has set the listing, dropped its prefix and returned. */
  function Written(t: State, pages: seq<Page>): State {
    var applied := AppliedState(t, pages);
    WithWrite(t, Returned, [applied.now + 1]).(
      now := applied.now + 3, server := applied.server, log := applied.log, cache := Unreached(t.cache, ["projects"]))
  }

  lemma {:induction false} LastWriterStep(t: State, from: Writer, to: Writer)
    ensures (t.writers + [from])[|t.writers| := to] == t.writers + [to]
  {}

  /** The whole write: applied, answered, its prefix dropped, returned. */
  lemma {:induction false} WholeWrite(s: State, steps: seq<Step>, t: State, before: seq<Page>, after: seq<Page>)
    returns (longer: seq<Step>)
    requires Allowed(s, steps) && Run(s, steps) == t && t.server == Listing(before)
    ensures Allowed(s, longer) && Run(s, longer) == Written(t, after)
    ensures steps <= longer && |longer| > |steps| + 1 && longer[|steps| + 1] == Apply(|t.writers|, Listing(after))
  {
    var w, applied := |t.writers|, AppliedState(t, after);
    longer := WriteApplied(s, steps, t, before, after);
    assert applied.log[|t.log|].writer == w;
    var inFlight := Writer(false, GLOBAL, [["projects"]], InFlight, []);
    var dropping := inFlight.(phase := Dropping);
    var dropped := dropping.(drops := [applied.now + 1]);
    LastWriterStep(t, inFlight, dropping);
    var t1 := applied.(now := applied.now + 1, writers := t.writers + [dropping]);
    longer := Extend(s, longer, applied, Answer(w), t1);
    LastWriterStep(t, dropping, dropped);
    var t2 := t1.(now := t1.now + 1, writers := t.writers + [dropped], cache := Unreached(t.cache, ["projects"]));
    assert dropping.drops + [t1.now] == [t1.now];
    longer := Extend(s, longer, t1, Drop(w), t2);
    LastWriterStep(t, dropped, dropped.(phase := Returned));
    longer := Extend(s, longer, t2, Finish(w), Written(t, after));
  }

  /** A read of a one-page listing, from its start to its store. */
  function ReadState(t: State, page: Page): State {
    t.(now := t.now + 4, readers := [Reader(LISTING, Answered([page]))],
       cache := t.cache[t.place(LISTING) := Entry([page], LISTING, |t.log|, t.now + 3)])
  }

  lemma OnePage(page: Page, since: nat)
    ensures NextPage([], since, [page]) == Fetched([page], since)
  {
    assert [] + [page] == [page];
  }

  lemma {:induction false} StoreRead(t: State, page: Page)
    requires t.readers == []
    ensures var fetched := t.(now := t.now + 3, readers := [Reader(LISTING, Fetched([page], |t.log|))]);
            Enabled(fetched, Store(0)) && Do(fetched, Store(0)) == ReadState(t, page)
  {}

  lemma {:induction false} WholeRead(s: State, steps: seq<Step>, t: State, page: Page) returns (longer: seq<Step>)
    requires Allowed(s, steps) && Run(s, steps) == t && t.readers == [] && t.server == Listing([page])
    ensures Allowed(s, longer) && Run(s, longer) == ReadState(t, page) && steps <= longer
  {
    longer := ReadFirstPage(s, steps, t, [page]);
    OnePage(page, |t.log|);
    var t1 := t.(now := t.now + 3, readers := [Reader(LISTING, Fetched([page], |t.log|))]);
    StoreRead(t, page);
    longer := Extend(s, longer, t1, Store(0), ReadState(t, page));
  }

  /** A read that fetched before the write stores after the write has dropped and returned. */
  lemma {:induction false} RacingRead(place: Request -> Path, x: Page, y: Page) returns (steps: seq<Step>)
    requires x != y && PlacesListing(place)
    ensures Allowed(Start(place, Listing([x])), steps)
    ensures var s := Run(Start(place, Listing([x])), steps);
            Stale(s, LISTING) && |s.writers| == 1 && s.writers[0].phase.Returned? && |s.log| == 1
  {
    var s0 := Start(place, Listing([x]));
    steps := ReadFirstPage(s0, [], s0, [x]);
    var t1 := s0.(now := 3, readers := [Reader(LISTING, Fetched([x], 0))]);
    assert [] + [x] == [x];
    assert Run(s0, steps) == t1;
    steps := WholeWrite(s0, steps, t1, [x], [y]);
    var t2 := Written(t1, [y]);
    steps := Extend(s0, steps, t2, Store(0), Do(t2, Store(0)));
  }

  /** A write that was applied but raised drops nothing, so the old entry stays. */
  lemma {:induction false} AbortedWrite(place: Request -> Path, x: Page, y: Page) returns (steps: seq<Step>)
    requires x != y && PlacesListing(place)
    ensures Allowed(Start(place, Listing([x])), steps)
    ensures var s := Run(Start(place, Listing([x])), steps);
            Stale(s, LISTING) && |s.writers| == 1 && s.writers[0].phase.Aborted? && |s.log| == 1
  {
    var s0 := Start(place, Listing([x]));
    steps := WholeRead(s0, [], s0, x);
    var t1 := ReadState(s0, x);
    steps := WriteApplied(s0, steps, t1, [x], [y]);
    var t2 := AppliedState(t1, [y]);
    steps := Extend(s0, steps, t2, Abort(0), Do(t2, Abort(0)));
  }

  /** Two writes return in turn and a read stores what the second left; then the API applies a late copy of
      the first, to the same effect as before. No write is in flight, and none will drop the entry. */
  lemma {:induction false} LateDuplicate(place: Request -> Path, x: Page, a: Page, b: Page) returns (steps: seq<Step>)
    requires a != b && PlacesListing(place)
    ensures Allowed(Start(place, Listing([x])), steps)
    ensures |steps| > 2 && steps[1] == steps[|steps| - 1] == Apply(0, Listing([a]))
    ensures var s := Run(Start(place, Listing([x])), steps);
      && s.place == place && Stale(s, LISTING) && s.server == Listing([a])
      && s.cache[place(LISTING)].pages == [b] && s.cache[place(LISTING)].since == 2
      && |s.writers| == 2 && s.writers[0].phase.Returned? && s.writers[1].phase.Returned?
      && |s.log| == 3 && s.log[0].writer == 0 && s.log[1].writer == 1 && s.log[2].writer == 0
  {
    var s0 := Start(place, Listing([x]));
    var first := WholeWrite(s0, [], s0, [x], [a]);
    var t1 := Written(s0, [a]);
    var both := WholeWrite(s0, first, t1, [a], [b]);
    var t2 := Written(t1, [b]);
    var read := WholeRead(s0, both, t2, b);
    var t3 := ReadState(t2, b);
    ListingIsTouched([b], [a]);
    var late := Apply(0, Listing([a]));
    steps := Extend(s0, read, t3, late, Do(t3, late));
  }

  /** A two-page read with the write between its pages. */
  lemma {:induction false} TornFetch(place: Request -> Path, x1: Page, x2: Page, y1: Page, y2: Page, t: State)
    returns (steps: seq<Step>)
    requires t == Start(place, Listing([x1, x2])).(now := 3, readers := [Reader(LISTING, Fetching([x1], 0))])
    ensures Allowed(Start(place, Listing([x1, x2])), steps)
    ensures Run(Start(place, Listing([x1, x2])), steps) == Written(t, [y1, y2])
  {
    var s0 := Start(place, Listing([x1, x2]));
    steps := ReadFirstPage(s0, [], s0, [x1, x2]);
    assert [] + [x1] == [x1];
    assert Run(s0, steps) == t;
    steps := WholeWrite(s0, steps, t, [x1, x2], [y1, y2]);
  }

  /** A read that pages across a write stores a mixture the API never held. */
  lemma {:induction false} TornRead(place: Request -> Path, x1: Page, x2: Page, y1: Page, y2: Page)
    returns (steps: seq<Step>)
    requires x1 != y1 && x2 != y2 && PlacesListing(place)
    ensures Allowed(Start(place, Listing([x1, x2])), steps)
    ensures var s := Run(Start(place, Listing([x1, x2])), steps);
      && place(LISTING) in s.cache && s.cache[place(LISTING)].pages == [x1, y2] && s.server == Listing([y1, y2])
      && Stale(s, LISTING) && |s.writers| == 1 && s.writers[0].phase.Returned? && |s.log| == 1
  {
    var s0 := Start(place, Listing([x1, x2]));
    var t1 := s0.(now := 3, readers := [Reader(LISTING, Fetching([x1], 0))]);
    steps := TornFetch(place, x1, x2, y1, y2, t1);
    var t2 := Written(t1, [y1, y2]);
    var t3 := t2.(now := t2.now + 1, readers := [Reader(LISTING, Fetched([x1, y2], 0))]);
    assert [x1] + [y2] == [x1, y2];
    steps := Extend(s0, steps, t2, FetchPage(0), t3);
    steps := Extend(s0, steps, t3, Store(0), Do(t3, Store(0)));
  }
}
