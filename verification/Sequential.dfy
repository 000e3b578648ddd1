/** Calls made one at a time: exactly which reads the documented promise holds for. */
module Sequential {
  import opened Text
  import opened CacheKeys
  import opened FileStore
  import opened StoredKeys
  import opened Service

  // ---------------------------------------------------------------------
  // Runs of whole calls
  // ---------------------------------------------------------------------

  /** What the API holds: a payload for each cacheable read. */
  type Holdings = map<Request, Payload>

  /** One call of the service, run to its end; `after` is what the API holds once a write is applied. */
  datatype Call =
    | Read(r: Request, useCache: bool, asked: int, reachable: bool, answered: int, ttl: int)
    | Write(scope: WriteScope, project: Option<int>, version: Option<int>, after: Holdings)
    | RejectedWrite
    | DropAll(scope: WriteScope, project: Option<int>, version: Option<int>)

  datatype World = World(files: Files, directories: set<Path>, server: Holdings)

  function AnswerOf(w: World, c: Call): Answer
    requires c.Read?
  {
    if c.reachable && c.r in w.server then Fetched(w.server[c.r]) else ApiError
  }

  function ResultOf(at: Placement, w: World, c: Call): ReadResult
    requires c.Read?
  {
    Reads(w.files, w.directories, at(c.r), c.useCache, c.asked, AnswerOf(w, c))
  }

  /** The write changes only resources in its declared scope. */
  ghost predicate Honest(w: World, c: Call) {
    c.Write? ==> forall r :: !InScope(c.scope, c.project, c.version, r) ==> Lookup(w.server, r) == Lookup(c.after, r)
  }

  function After(at: Placement, w: World, c: Call): World {
    match c
    case Read(r, _, _, _, answered, ttl) =>
      var result := ResultOf(at, w, c);
      World(FilesAfter(w.files, at(r), result, answered, ttl), DirectoriesAfter(w.directories, at(r), result), w.server)
    case Write(scope, project, version, after) =>
      var prefixes := PrefixesFor(scope, project, version);
      World(FilesKept(w.files, prefixes), DirectoriesKept(w.directories, prefixes), after)
    case RejectedWrite => w
    case DropAll(scope, project, version) =>
      var prefixes := PrefixesFor(scope, project, version);
      World(FilesKept(w.files, prefixes), DirectoriesKept(w.directories, prefixes), w.server)
  }

  ghost predicate HonestRun(at: Placement, w: World, calls: seq<Call>)
    decreases calls
  {
    calls == [] || (Honest(w, calls[0]) && HonestRun(at, After(at, w, calls[0]), calls[1..]))
  }

  function AfterAll(at: Placement, w: World, calls: seq<Call>): World
    decreases calls
  {
    if calls == [] then w else AfterAll(at, After(at, w, calls[0]), calls[1..])
  }

  ghost predicate ReadsAmong(calls: seq<Call>, served: iset<Request>) {
    forall c <- calls :: c.Read? ==> c.r in served
  }

  function Fresh(server: Holdings): World {
    World(map[], {}, server)
  }

  // ---------------------------------------------------------------------
  // What a call leaves alone
  // ---------------------------------------------------------------------

  /** A rejected write changes nothing; a read changes only its own file, and no call but a write changes the API; a
      write or a drop takes the entries of the reads in its scope that do not escape, and no other read's. */
  lemma CallChanges(at: Placement, w: World, c: Call, r: Request)
    ensures var t := After(at, w, c);
      && (c.RejectedWrite? ==> t == w)
      && t.server == (if c.Write? then c.after else w.server)
      && (c.Read? ==> forall p :: p != at(c.r) ==> Lookup(t.files, p) == Lookup(w.files, p))
      && ((c.Write? || c.DropAll?) && NoParents(r) ==>
            Lookup(t.files, FileFor(r)) ==
            if InScope(c.scope, c.project, c.version, r) && !Escapes(r) then None else Lookup(w.files, FileFor(r)))
  {
    if (c.Write? || c.DropAll?) && NoParents(r) {
      EntryAfterDrop(w.files, c.scope, c.project, c.version, r);
    }
  }

  // ---------------------------------------------------------------------
  // The promise, and the condition on the reads that are made
  // ---------------------------------------------------------------------

  /** After any calls one by one, whatever is served for one of the reads is what the API holds for it. */
  ghost predicate AlwaysCurrent(at: Placement, served: iset<Request>) {
    forall server, calls, c: Call ::
      HonestRun(at, Fresh(server), calls) && ReadsAmong(calls, served) && c.Read? && c.r in served ==>
      ServedCurrent(at, AfterAll(at, Fresh(server), calls), c)
  }

  predicate ServedCurrent(at: Placement, w: World, c: Call)
    requires c.Read?
  {
    ResultOf(at, w, c).Served? ==> Lookup(w.server, c.r) == Some(ResultOf(at, w, c).payload)
  }

  /** Every readable entry is what the API holds for the one read whose file it is. */
  ghost predicate Coherent(at: Placement, w: World, served: iset<Request>) {
    forall p :: p in w.files && w.files[p].Readable? ==>
      exists r :: r in served && at(r) == p && Lookup(w.server, r) == Some(w.files[p].entry.payload)
  }

  lemma ReadKeepsCoherence(at: Placement, w: World, c: Call, served: iset<Request>)
    requires KeptApart(at, served) && Coherent(at, w, served) && c.Read? && c.r in served
    ensures Coherent(at, After(at, w, c), served) && ServedCurrent(at, w, c)
  {
    var p := at(c.r);
    if p in w.files && w.files[p].Readable? {
      var r :| r in served && at(r) == p && Lookup(w.server, r) == Some(w.files[p].entry.payload);
      assert r == c.r;
    }
    var after := After(at, w, c);
    forall q | q in after.files && after.files[q].Readable?
      ensures exists r :: r in served && at(r) == q && Lookup(after.server, r) == Some(after.files[q].entry.payload)
    {
      if q != p {
        assert q in w.files && w.files[q] == after.files[q];
      } else {
        assert c.r in served && at(c.r) == q && Lookup(after.server, c.r) == Some(after.files[q].entry.payload);
      }
    }
  }

  lemma DropKeepsCoherence(at: Placement, w: World, c: Call, served: iset<Request>)
    requires KeptApart(at, served) && Coherent(at, w, served) && Honest(w, c) && (c.Write? || c.DropAll?)
    ensures Coherent(at, After(at, w, c), served)
  {
    var after := After(at, w, c);
    forall q | q in after.files && after.files[q].Readable?
      ensures exists r :: r in served && at(r) == q && Lookup(after.server, r) == Some(after.files[q].entry.payload)
    {
      var r :| r in served && at(r) == q && Lookup(w.server, r) == Some(w.files[q].entry.payload);
      assert !InScope(c.scope, c.project, c.version, r);
      assert Lookup(after.server, r) == Some(after.files[q].entry.payload);
    }
  }

  lemma CallKeepsCoherence(at: Placement, w: World, c: Call, served: iset<Request>)
    requires KeptApart(at, served) && Coherent(at, w, served) && Honest(w, c) && (c.Read? ==> c.r in served)
    ensures Coherent(at, After(at, w, c), served)
  {
    match c
    case Read(_, _, _, _, _, _) => ReadKeepsCoherence(at, w, c, served);
    case RejectedWrite =>
    case _ => DropKeepsCoherence(at, w, c, served);
  }

  lemma {:induction false} RunKeepsCoherence(at: Placement, w: World, calls: seq<Call>, served: iset<Request>)
    requires KeptApart(at, served) && Coherent(at, w, served)
    requires HonestRun(at, w, calls) && ReadsAmong(calls, served)
    ensures Coherent(at, AfterAll(at, w, calls), served)
    decreases calls
  {
    if calls != [] {
      assert calls[0] in calls && forall c <- calls[1..] :: c in calls;
      CallKeepsCoherence(at, w, calls[0], served);
      RunKeepsCoherence(at, After(at, w, calls[0]), calls[1..], served);
    }
  }

  // ---------------------------------------------------------------------
  // Where the condition fails, so does the promise
  // ---------------------------------------------------------------------

  function FirstRead(r: Request): Call {
    Read(r, true, 0, true, 0, 60)
  }

  lemma FirstReadStores(at: Placement, server: Holdings, r: Request)
    requires r in server
    ensures var w := After(at, Fresh(server), FirstRead(r));
      w.server == server && w.files == map[at(r) := Readable(CacheEntry(0, 60, server[r]))]
  {}

  /** Two reads with one file: the second is answered with what was fetched for the first. */
  lemma SharedFileMisleads(at: Placement, a: Request, b: Request) returns (server: Holdings, calls: seq<Call>)
    requires a != b && at(a) == at(b)
    ensures HonestRun(at, Fresh(server), calls) && calls == [FirstRead(a)]
    ensures !ServedCurrent(at, AfterAll(at, Fresh(server), calls), FirstRead(b))
  {
    server, calls := map[a := "x", b := "y"], [FirstRead(a)];
    FirstReadStores(at, server, a);
    assert calls[1..] == [];
    assert "x" != "y";
  }

  /** A file no drop reaches: the entry outlives a write that changed what it was fetched from. */
  lemma UnreachedFileMisleads(at: Placement, r: Request, scope: WriteScope, project: Option<int>, version: Option<int>)
    returns (server: Holdings, calls: seq<Call>)
    requires InScope(scope, project, version, r) && !Reached(PrefixesFor(scope, project, version), at(r))
    ensures HonestRun(at, Fresh(server), calls)
    ensures calls == [FirstRead(r), Write(scope, project, version, map[r := "new"])]
    ensures !ServedCurrent(at, AfterAll(at, Fresh(server), calls), FirstRead(r))
  {
    var write := Write(scope, project, version, map[r := "new"]);
    server, calls := map[r := "old"], [FirstRead(r), write];
    FirstReadStores(at, server, r);
    var read := After(at, Fresh(server), FirstRead(r));
    assert calls[1..] == [write] && calls[1..][1..] == [];
    assert Honest(read, write);
    var written := After(at, read, write);
    assert AfterAll(at, written, []) == written;
    assert AfterAll(at, read, [write]) == written;
    assert "old" != "new";
  }

  /** With calls made one at a time, everything served is current if and only if the reads that are made have files
      of their own that the drops of their scopes reach. */
  lemma PromiseExactlyWhen(at: Placement, served: iset<Request>)
    ensures AlwaysCurrent(at, served) <==> KeptApart(at, served)
  {
    if KeptApart(at, served) {
      forall server, calls, c: Call |
        HonestRun(at, Fresh(server), calls) && ReadsAmong(calls, served) && c.Read? && c.r in served
        ensures ServedCurrent(at, AfterAll(at, Fresh(server), calls), c)
      {
        RunKeepsCoherence(at, Fresh(server), calls, served);
        ReadKeepsCoherence(at, AfterAll(at, Fresh(server), calls), c, served);
      }
    } else if a, b :| a in served && b in served && at(a) == at(b) && a != b {
      var server, calls := SharedFileMisleads(at, a, b);
      assert ReadsAmong(calls, served) && FirstRead(b).Read?;
    } else {
      var r, scope, project, version :| r in served && InScope(scope, project, version, r)
        && !Reached(PrefixesFor(scope, project, version), at(r));
      var server, calls := UnreachedFileMisleads(at, r, scope, project, version);
      assert ReadsAmong(calls, served) && FirstRead(r).Read?;
    }
  }

  // ---------------------------------------------------------------------
  // On the file cache
  // ---------------------------------------------------------------------

  /** Plain reads are always served what the API holds. */
  lemma PlainReadsAreCurrent()
    ensures AlwaysCurrent(OnTree(), PlainReads())
  {
    PlainReadsKeptApart();
    PromiseExactlyWhen(OnTree(), PlainReads());
  }

  lemma {:induction false} RunKeepsClean(w: World, calls: seq<Call>)
    requires Clean(w.files, w.directories) && ReadsAmong(calls, PlainReads())
    ensures var t := AfterAll(OnTree(), w, calls); Clean(t.files, t.directories)
    decreases calls
  {
    if calls != [] {
      assert calls[0] in calls && forall c <- calls[1..] :: c in calls;
      if calls[0].Read? {
        StorableExactlyWhen(calls[0].r);
        CleanWritten(w.files, w.directories, Segments(Key(calls[0].r)), Corrupt);
        StaysClean(w, calls[0]);
      }
      RunKeepsClean(After(OnTree(), w, calls[0]), calls[1..]);
    }
  }

  lemma StaysClean(w: World, c: Call)
    requires Clean(w.files, w.directories) && c.Read? && Storable(Segments(Key(c.r)))
    ensures var t := After(OnTree(), w, c); Clean(t.files, t.directories)
  {
    var result := ResultOf(OnTree(), w, c);
    if result.Served? && result.route.FromApi? {
      var entry := Readable(CacheEntry(c.answered, c.ttl, result.payload));
      CleanWritten(w.files, w.directories, Segments(Key(c.r)), entry);
    }
  }

  /** In every run of such reads, a read answers what the API holds at that moment, whichever way it is served; it
      fails exactly when it neither reaches the resource nor has an entry to fall back on, and never to store. */
  lemma SequentialReadsAreCurrent(server: Holdings, calls: seq<Call>, c: Call)
    requires HonestRun(OnTree(), Fresh(server), calls) && ReadsAmong(calls, PlainReads())
    requires c.Read? && c.r in PlainReads()
    ensures var w := AfterAll(OnTree(), Fresh(server), calls);
            var result := ResultOf(OnTree(), w, c);
            && (result.Served? ==> Lookup(w.server, c.r) == Some(result.payload))
            && (result.ReadFailed? <==>
                LastKnownGood(Lookup(w.files, FileFor(c.r))).None? && !(c.reachable && c.r in w.server))
            && !result.StoreFailed?
  {
    PlainReadsAreCurrent();
    RunKeepsClean(Fresh(server), calls);
    var w := AfterAll(OnTree(), Fresh(server), calls);
    assert ServedCurrent(OnTree(), w, c);
    StorableExactlyWhen(c.r);
    CleanWritten(w.files, w.directories, Segments(Key(c.r)), Corrupt);
  }

  /** Without steps to a parent directory, a set of reads is always served what the API holds if and only if none of
      them escapes and no two share a file. */
  lemma ReadsAreCurrentExactlyWhen(served: iset<Request>)
    requires forall r <- served :: NoParents(r)
    ensures AlwaysCurrent(OnTree(), served) <==>
            && (forall r <- served :: !Escapes(r))
            && (forall a, b :: a in served && b in served && FileFor(a) == FileFor(b) ==> a == b)
  {
    PromiseExactlyWhen(OnTree(), served);
    KeptApartExactlyWhen(served);
  }

  /** The search "/x", read, changed by a write that returns, and read again: the old rows are served. */
  lemma EscapingSearchGoesStale(p: int, v: int, text: string) returns (server: Holdings, calls: seq<Call>)
    requires StartsSlash(text) && ':' !in text
    ensures HonestRun(OnTree(), Fresh(server), calls)
    ensures calls == [FirstRead(Search(p, v, text)),
                      Write(VersionScope, Some(p), Some(v), map[Search(p, v, text) := "new"])]
    ensures !ServedCurrent(OnTree(), AfterAll(OnTree(), Fresh(server), calls), FirstRead(Search(p, v, text)))
  {
    AbsoluteSearch(p, v, p, v, text);
    server, calls := UnreachedFileMisleads(OnTree(), Search(p, v, text), VersionScope, Some(p), Some(v));
  }

  /** The searches "a/b" and "a:b": the second is answered with the rows of the first. */
  lemma SlashSearchMisleads(p: int, v: int, x: string, y: string) returns (server: Holdings, calls: seq<Call>)
    requires x != "" && ':' !in x && ':' !in y && !StartsSlash(x) && !StartsSlash(y)
    ensures HonestRun(OnTree(), Fresh(server), calls) && calls == [FirstRead(Search(p, v, x + "/" + y))]
    ensures !ServedCurrent(OnTree(), AfterAll(OnTree(), Fresh(server), calls), FirstRead(Search(p, v, x + ":" + y)))
  {
    SlashSharesFile(p, v, x, y);
    server, calls := SharedFileMisleads(OnTree(), Search(p, v, x + "/" + y), Search(p, v, x + ":" + y));
  }
}
