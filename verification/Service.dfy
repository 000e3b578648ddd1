/** The use cases over one cache: cache-first reads, scope-dropping writes, and the refresh. */
module Service {
  import opened Text
  import opened CacheKeys
  import opened FileStore
  import opened StoredKeys

  /** What awaiting a fetch gives: a payload, or a DataForgeError. */
  datatype Answer = Fetched(payload: Payload) | ApiError

  datatype Route = FromCache | FromApi | LastGood

  /** StoreFailed: the answer came, but the file system refused the entry. */
  datatype ReadResult =
    | Served(payload: Payload, route: Route)
    | ReadFailed
    | StoreFailed

  // ---------------------------------------------------------------------
  // Reads, on any tree and for any key's path
  // ---------------------------------------------------------------------

  predicate Hits(files: Files, p: Path, useCache: bool, asked: int) {
    useCache && Unexpired(Lookup(files, p), asked).Some?
  }

  function Reads(files: Files, directories: set<Path>, p: Path, useCache: bool, asked: int, answer: Answer)
    : ReadResult
  {
    if Hits(files, p, useCache, asked) then Served(Unexpired(Lookup(files, p), asked).value, FromCache)
    else Fetches(files, directories, p, answer)
  }

  /** The result once the fetch is made. */
  function Fetches(files: Files, directories: set<Path>, p: Path, answer: Answer): ReadResult {
    if answer.Fetched? then
      if Unobstructed(files, directories, p) then Served(answer.payload, FromApi) else StoreFailed
    else
      match LastKnownGood(Lookup(files, p))
      case Some(stale) => Served(stale, LastGood)
      case None => ReadFailed
  }

  /** Only an answer that is served is stored. */
  function FilesAfter(files: Files, p: Path, result: ReadResult, answered: int, ttl: int): Files {
    if result.Served? && result.route.FromApi? then files[p := Readable(CacheEntry(answered, ttl, result.payload))]
    else files
  }

  function DirectoriesAfter(directories: set<Path>, p: Path, result: ReadResult): set<Path> {
    if result.Served? && result.route.FromApi? then directories + Ancestors(p) else directories
  }

  // ---------------------------------------------------------------------
  // What a read does, said of the file and the answer
  // ---------------------------------------------------------------------

  predicate HoldsEntry(files: Files, p: Path) {
    p in files && files[p].Readable?
  }

  /** Asked in time: at most the entry's time to live after it was fetched. */
  predicate InTime(files: Files, p: Path, asked: int)
    requires HoldsEntry(files, p)
  {
    asked - files[p].entry.fetchedAt <= files[p].entry.ttlSeconds
  }

  /** Which of the five ways a read takes, and what it serves; exactly one of them. */
  lemma ReadTakes(files: Files, directories: set<Path>, p: Path, useCache: bool, asked: int, answer: Answer)
    ensures var hit := useCache && HoldsEntry(files, p) && InTime(files, p, asked);
      var room := p !in directories && forall d <- files.Keys :: !Below(d, p);
      var result := Reads(files, directories, p, useCache, asked, answer);
      && (hit ==> result == Served(files[p].entry.payload, FromCache))
      && (!hit && answer.Fetched? && room ==> result == Served(answer.payload, FromApi))
      && (!hit && answer.Fetched? && !room ==> result == StoreFailed)
      && (!hit && answer.ApiError? && HoldsEntry(files, p) ==> result == Served(files[p].entry.payload, LastGood))
      && (!hit && answer.ApiError? && !HoldsEntry(files, p) ==> result == ReadFailed)
  {
    AncestorsAre(p);
    assert answer.Fetched? ==>
      (Unobstructed(files, directories, p) <==> p !in directories && forall d <- files.Keys :: !Below(d, p));
  }

  lemma AncestorsAre(p: Path)
    ensures forall d :: d in Ancestors(p) <==> Below(d, p)
  {
    forall d ensures d in Ancestors(p) <==> Below(d, p) {
      if Below(d, p) {
        assert d == Path(p.outside, p.names[..|d.names|]);
      }
    }
  }

  /** A read that stored at time t with time to live ttl, and one of the same key at time u with nothing in between:
      served from the cache if and only if that is asked for and u - t is at most ttl; otherwise from the API, or from
      the old entry if the API fails. */
  lemma StoredThenRead(files: Files, directories: set<Path>, p: Path, first: Payload, t: int, ttl: int,
                       useCache: bool, u: int, answer: Answer)
    requires Unobstructed(files, directories, p) && IsTree(files.Keys, directories)
    ensures var stored := Served(first, FromApi);
      var fs, ds := FilesAfter(files, p, stored, t, ttl), DirectoriesAfter(directories, p, stored);
      Reads(fs, ds, p, useCache, u, answer) ==
        if useCache && u - t <= ttl then Served(first, FromCache)
        else if answer.Fetched? then Served(answer.payload, FromApi)
        else Served(first, LastGood)
  {
    WrittenTree(files, directories, p, Readable(CacheEntry(t, ttl, first)));
    AncestorsAre(p);
  }

  // ---------------------------------------------------------------------
  // Dropping several prefixes
  // ---------------------------------------------------------------------

  function FilesKept(files: Files, prefixes: seq<seq<string>>): Files {
    map f | f in files && !Reached(prefixes, f) :: files[f]
  }

  predicate AtOrBelow(prefix: seq<string>, d: Path) {
    d == Path(false, prefix) || Below(Path(false, prefix), d)
  }

  predicate AtAny(prefixes: seq<seq<string>>, d: Path) {
    exists i :: 0 <= i < |prefixes| && AtOrBelow(prefixes[i], d)
  }

  function DirectoriesKept(directories: set<Path>, prefixes: seq<seq<string>>): set<Path> {
    set d | d in directories && !AtAny(prefixes, d)
  }

  /** What dropping the prefix alone would count. */
  function CountOf(files: Files, directories: set<Path>, prefix: seq<string>): nat {
    if prefix == [] then 0 else Deletions(files, directories, Path(false, prefix), EntryPath(prefix))
  }

  /** The prefixes, in order, that a drop finds something under. */
  function Held(files: Files, directories: set<Path>, prefixes: seq<seq<string>>): seq<seq<string>> {
    if prefixes == [] then []
    else
      var n := |prefixes| - 1;
      Held(files, directories, prefixes[..n])
      + if CountOf(files, directories, prefixes[n]) != 0 then [prefixes[n]] else []
  }

  function Total(files: Files, directories: set<Path>, prefixes: seq<seq<string>>): nat {
    if prefixes == [] then 0
    else
      var n := |prefixes| - 1;
      Total(files, directories, prefixes[..n]) + CountOf(files, directories, prefixes[n])
  }

  lemma ReachedOneMore(prefixes: seq<seq<string>>, i: nat, f: Path)
    requires i < |prefixes|
    ensures Reached(prefixes[..i + 1], f) <==> Reached(prefixes[..i], f) || Reaches(prefixes[i], f)
    ensures AtAny(prefixes[..i + 1], f) <==> AtAny(prefixes[..i], f) || AtOrBelow(prefixes[i], f)
  {
    var before, after := prefixes[..i], prefixes[..i + 1];
    assert after == before + [prefixes[i]];
    assert after[i] == prefixes[i];
    assert forall j :: 0 <= j < i ==> after[j] == before[j];
  }

  lemma FilesOneMore(files: Files, prefixes: seq<seq<string>>, i: nat)
    requires i < |prefixes| && prefixes[i] != []
    ensures FilesLeft(FilesKept(files, prefixes[..i]), Path(false, prefixes[i]), EntryPath(prefixes[i])) ==
            FilesKept(files, prefixes[..i + 1])
  {
    forall f ensures Reached(prefixes[..i + 1], f) <==> Reached(prefixes[..i], f) || Reaches(prefixes[i], f) {
      ReachedOneMore(prefixes, i, f);
    }
  }

  lemma DirectoriesOneMore(directories: set<Path>, prefixes: seq<seq<string>>, i: nat)
    requires i < |prefixes|
    ensures DirectoriesLeft(DirectoriesKept(directories, prefixes[..i]), Path(false, prefixes[i])) ==
            DirectoriesKept(directories, prefixes[..i + 1])
  {
    forall d ensures AtAny(prefixes[..i + 1], d) <==> AtAny(prefixes[..i], d) || AtOrBelow(prefixes[i], d) {
      ReachedOneMore(prefixes, i, d);
    }
  }

  lemma Comparable(a: seq<string>, b: seq<string>, names: seq<string>)
    ensures a <= names && b <= names ==> a <= b || b <= a
  {
    if a <= names && b <= names {
      assert a == names[..|a|] && b == names[..|b|];
    }
  }

  /** Independent prefixes have nothing in common: nothing at or below one is reached by another. */
  lemma Apart(a: seq<string>, b: seq<string>, p: Path)
    requires Addressable(a) && Addressable(b) && !(a <= b) && !(b <= a)
    requires AtOrBelow(b, p) || p == EntryPath(b)
    ensures !AtOrBelow(a, p) && p != EntryPath(a)
  {
    var m, n := |a| - 1, |b| - 1;
    assert a[m] in a && b[n] in b;
    assert a == a[..m] + [a[m]] && b == b[..n] + [b[n]];
    assert EndsWith(a[m] + ".json", ".json") && EndsWith(b[n] + ".json", ".json");
    SameJson(a[m], b[n]);
    Comparable(a, b, p.names);
    NamesUnder(a, b);
    NamesUnder(b, a);
    SnocEqual(a[..m], a[m] + ".json", b[..n], b[n] + ".json");
  }

  /** No addressable prefix leads to another's own file without being a prefix of it. */
  lemma NamesUnder(a: seq<string>, b: seq<string>)
    requires Addressable(a) && Addressable(b) && !(a <= b)
    ensures !(a <= EntryPath(b).names)
  {
    var n, names := |b| - 1, EntryPath(b).names;
    assert EndsWith(names[n], ".json");
    forall k | 0 <= k < |a| ensures !EndsWith(a[k], ".json") {
      assert a[k] in a;
    }
    assert |a| <= n ==> names[..|a|] == b[..|a|];
  }

  predicate AllAddressable(prefixes: seq<seq<string>>) {
    forall i :: 0 <= i < |prefixes| ==> Addressable(prefixes[i])
  }

  lemma StillThere(files: Files, prefixes: seq<seq<string>>, i: nat, f: Path)
    requires i < |prefixes| && Independent(prefixes) && AllAddressable(prefixes)
    requires AtOrBelow(prefixes[i], f) || f == EntryPath(prefixes[i])
    ensures !Reached(prefixes[..i], f)
    ensures !AtAny(prefixes[..i], f)
  {
    forall j | 0 <= j < i ensures !Reaches(prefixes[..i][j], f) && !AtOrBelow(prefixes[..i][j], f) {
      assert prefixes[..i][j] == prefixes[j];
      Apart(prefixes[j], prefixes[i], f);
    }
  }

  /** Dropping the earlier prefixes leaves what the next one counts as it was. */
  lemma CountStill(files: Files, directories: set<Path>, prefixes: seq<seq<string>>, i: nat)
    requires i < |prefixes| && Independent(prefixes) && AllAddressable(prefixes)
    ensures CountOf(FilesKept(files, prefixes[..i]), DirectoriesKept(directories, prefixes[..i]), prefixes[i]) ==
            CountOf(files, directories, prefixes[i])
  {
    var root, leaf := Path(false, prefixes[i]), EntryPath(prefixes[i]);
    var fs, ds := FilesKept(files, prefixes[..i]), DirectoriesKept(directories, prefixes[..i]);
    forall p | AtOrBelow(prefixes[i], p) || p == leaf
      ensures (p in fs <==> p in files) && (AtOrBelow(prefixes[i], p) ==> (p in ds <==> p in directories))
    {
      StillThere(files, prefixes, i, p);
    }
    SameCount(fs.Keys, files.Keys, root);
    SameCount(ds, directories, root);
  }

  lemma OneMore(files: Files, directories: set<Path>, prefixes: seq<seq<string>>, i: nat)
    requires i < |prefixes| && Independent(prefixes) && AllAddressable(prefixes)
    ensures var fs, ds := FilesKept(files, prefixes[..i]), DirectoriesKept(directories, prefixes[..i]);
      var n := prefixes[..i + 1];
      && FilesLeft(fs, Path(false, prefixes[i]), EntryPath(prefixes[i])) == FilesKept(files, n)
      && DirectoriesLeft(ds, Path(false, prefixes[i])) == DirectoriesKept(directories, n)
      && Held(files, directories, n) ==
         Held(files, directories, prefixes[..i]) + (if CountOf(fs, ds, prefixes[i]) != 0 then [prefixes[i]] else [])
      && Total(files, directories, n) == Total(files, directories, prefixes[..i]) + CountOf(fs, ds, prefixes[i])
  {
    FilesOneMore(files, prefixes, i);
    DirectoriesOneMore(directories, prefixes, i);
    CountStill(files, directories, prefixes, i);
    assert prefixes[..i + 1][..i] == prefixes[..i];
  }

  lemma SameCount(a: set<Path>, b: set<Path>, root: Path)
    requires forall p | Below(root, p) :: p in a <==> p in b
    ensures CountJson(a, root) == CountJson(b, root)
  {
    assert (set p | p in a && Below(root, p) && EndsWith(p.names[|p.names| - 1], ".json")) ==
           (set p | p in b && Below(root, p) && EndsWith(p.names[|p.names| - 1], ".json"));
  }

  /** On a clean tree what a scope's drop counts is what it takes. */
  lemma {:induction false} CleanTotal(files: Files, directories: set<Path>, prefixes: seq<seq<string>>, i: nat)
    requires i <= |prefixes| && IsTree(files.Keys, directories) && Clean(files, directories)
    requires Independent(prefixes) && AllAddressable(prefixes)
    ensures var fs, ds := FilesKept(files, prefixes[..i]), DirectoriesKept(directories, prefixes[..i]);
      IsTree(fs.Keys, ds) && Clean(fs, ds) && Total(files, directories, prefixes[..i]) == |files| - |fs|
  {
    if i == 0 {
      assert FilesKept(files, prefixes[..0]) == files && DirectoriesKept(directories, prefixes[..0]) == directories;
    } else {
      var n := i - 1;
      var fs, ds := FilesKept(files, prefixes[..n]), DirectoriesKept(directories, prefixes[..n]);
      CleanTotal(files, directories, prefixes, n);
      AddressablePrefix(prefixes[n]);
      CleanCount(fs, ds, prefixes[n]);
      RemovedTree(fs, ds, Path(false, prefixes[n]), EntryPath(prefixes[n]));
      OneMore(files, directories, prefixes, n);
    }
  }

  lemma HeldLast(files: Files, directories: set<Path>, prefixes: seq<seq<string>>, p: seq<string>)
    requires prefixes != []
    ensures var n := |prefixes| - 1;
      p in Held(files, directories, prefixes) <==>
      p in Held(files, directories, prefixes[..n]) || (p == prefixes[n] && CountOf(files, directories, p) > 0)
  {}

  lemma {:induction false} HeldApart(
      files: Files, directories: set<Path>, prefixes: seq<seq<string>>, p: seq<string>, i: nat)
    requires i < |prefixes| && prefixes[i] == p && forall j :: 0 <= j < |prefixes| && j != i ==> prefixes[j] != p
    ensures p in Held(files, directories, prefixes) <==> CountOf(files, directories, p) > 0
  {
    var n := |prefixes| - 1;
    HeldLast(files, directories, prefixes, p);
    if i < n {
      HeldApart(files, directories, prefixes[..n], p, i);
    } else {
      HeldAmong(files, directories, prefixes[..n]);
      assert p !in prefixes[..n];
    }
  }

  /** The prefixes that held something, in order: those whose own drop counts something, and no other. */
  lemma {:induction false} HeldMeans(files: Files, directories: set<Path>, prefixes: seq<seq<string>>, i: nat)
    requires i < |prefixes| && Independent(prefixes)
    ensures prefixes[i] in Held(files, directories, prefixes) <==> CountOf(files, directories, prefixes[i]) > 0
  {
    forall j | 0 <= j < |prefixes| && j != i ensures prefixes[j] != prefixes[i] {
      assert !(prefixes[i] <= prefixes[j]);
    }
    HeldApart(files, directories, prefixes, prefixes[i], i);
  }

  lemma {:induction false} HeldAmong(files: Files, directories: set<Path>, prefixes: seq<seq<string>>)
    ensures forall p <- Held(files, directories, prefixes) :: p in prefixes
  {
    if prefixes != [] {
      var n := |prefixes| - 1;
      HeldAmong(files, directories, prefixes[..n]);
      assert prefixes == prefixes[..n] + [prefixes[n]];
    }
  }

  /** Where only storable keys were written, a prefix is listed if and only if some entry's key has it. */
  lemma HeldExactlyWhen(files: Files, directories: set<Path>, prefixes: seq<seq<string>>, i: nat)
    requires IsTree(files.Keys, directories) && Clean(files, directories)
    requires i < |prefixes| && Independent(prefixes) && AllAddressable(prefixes)
    ensures prefixes[i] in Held(files, directories, prefixes) <==>
            exists k <- ContentsOf(files).Keys :: prefixes[i] <= k
  {
    var m, prefix := ContentsOf(files), prefixes[i];
    HeldMeans(files, directories, prefixes, i);
    AddressablePrefix(prefix);
    CleanCount(files, directories, prefix);
    DroppedCount(m, prefix);
  }

  lemma DroppedCount(m: Cache, prefix: seq<string>)
    ensures |DropPrefix(m, prefix)| <= |m|
    ensures |DropPrefix(m, prefix)| < |m| <==> exists k <- m.Keys :: prefix <= k
  {
    var kept := DropPrefix(m, prefix);
    var gone := set k | k in m.Keys && prefix <= k;
    assert m.Keys == kept.Keys + gone && kept.Keys !! gone;
    assert |m| == |m.Keys| && |kept| == |kept.Keys|;
    assert gone == {} <==> !exists k <- m.Keys :: prefix <= k;
  }

  predicate Droppable(prefix: seq<string>) {
    Addressable(prefix) && Segments(Join(prefix, ':')) == prefix
  }

  // ---------------------------------------------------------------------
  // The service
  // ---------------------------------------------------------------------

  /** The JSON body of a write's answer, and the two row lists a partial one carries where they are lists. */
  datatype Body = Body(text: Payload, failed: Option<seq<Payload>>, succeeded: Option<seq<Payload>>)

  /** How the API call of a write ends; an empty answer has no body. */
  datatype CallResult = Completed(status: int, body: Option<Body>) | CallFailed

  datatype Rows = Rows(failed: seq<Payload>, succeeded: seq<Payload>)

  datatype WriteResponse = WriteResponse(
    status: string, httpStatus: int, idempotencyKey: string, result: Option<Body>, invalidated: seq<seq<string>>,
    rows: Option<Rows>)

  function ListOr(rows: Option<seq<Payload>>): seq<Payload> {
    if rows.Some? then rows.value else []
  }

  /** The rows are the body's own lists, an absent one counting as empty. */
  predicate RowsOf(body: Body, rows: Rows) {
    && (body.failed.Some? ==> rows.failed == body.failed.value) && (body.failed.None? ==> rows.failed == [])
    && (body.succeeded.Some? ==> rows.succeeded == body.succeeded.value)
    && (body.succeeded.None? ==> rows.succeeded == [])
  }

  /** `idempotency_key or new_idempotency_key()`. */
  function KeyUsed(ownKey: Option<string>, freshKey: string): string {
    if ownKey.Some? && ownKey.value != "" then ownKey.value else freshKey
  }

  /** `_STATUS_BY_CODE`. */
  function StatusName(code: int): string {
    if code == 201 then "created" else if code == 204 then "deleted" else if code == 207 then "partial" else "ok"
  }

  datatype Refreshed = Refreshed(scope: WriteScope, entriesRemoved: int, cacheKey: string, fetchedAt: int)

  datatype RefreshResult = Refresh(done: Refreshed) | RefreshRaised

  function ParseScope(name: string): Option<WriteScope> {
    if name == "global" then Some(GlobalScope)
    else if name == "project" then Some(ProjectScope)
    else if name == "version" then Some(VersionScope)
    else if name == "git" then Some(GitScope)
    else None
  }

  class SemanticService {
    const cache: FileCacheStore
    const ttlSeconds: int

    constructor (store: FileCacheStore, ttl: int)
      ensures cache == store && ttlSeconds == ttl
    {
      cache, ttlSeconds := store, ttl;
    }

    /** `_cached_fetch`; `answer` is what the fetch gives if it is made. Every store operation it makes is on the
        path of this one key. */
    method CachedFetch(key: string, useCache: bool, asked: int, answer: Answer, answered: int)
      returns (result: ReadResult)
      requires cache.Tree()
      modifies cache
      ensures cache.Tree()
      ensures result == Reads(old(cache.files), old(cache.directories), KeyToPath(key), useCache, asked, answer)
      ensures cache.files == FilesAfter(old(cache.files), KeyToPath(key), result, answered, ttlSeconds)
      ensures cache.directories == DirectoriesAfter(old(cache.directories), KeyToPath(key), result)
    {
      result := FetchAt(KeyToPath(key), useCache, asked, answer, answered);
    }

    method FetchAt(path: Path, useCache: bool, asked: int, answer: Answer, answered: int) returns (result: ReadResult)
      requires cache.Tree()
      modifies cache
      ensures cache.Tree()
      ensures result == Reads(old(cache.files), old(cache.directories), path, useCache, asked, answer)
      ensures cache.files == FilesAfter(old(cache.files), path, result, answered, ttlSeconds)
      ensures cache.directories == DirectoriesAfter(old(cache.directories), path, result)
    {
      if useCache {
        var cached := cache.GetAt(path, asked);
        if cached.Some? {
          return Served(cached.value, FromCache);
        }
      }
      if answer.ApiError? {
        var stale := cache.LastKnownGoodAt(path);
        return if stale.Some? then Served(stale.value, LastGood) else ReadFailed;
      }
      var stored := cache.WriteEntry(path, CacheEntry(answered, ttlSeconds, answer.payload));
      result := if stored then Served(answer.payload, FromApi) else StoreFailed;
    }

    /** Drops every prefix of a scope in turn; tells which held something and how much in all. */
    method DropScope(scope: WriteScope, project: Option<int>, version: Option<int>)
      returns (invalidated: seq<seq<string>>, removed: nat)
      requires cache.Tree()
      modifies cache
      ensures cache.Tree()
      ensures var prefixes := PrefixesFor(scope, project, version);
              && cache.files == FilesKept(old(cache.files), prefixes)
              && cache.directories == DirectoriesKept(old(cache.directories), prefixes)
              && invalidated == Held(old(cache.files), old(cache.directories), prefixes)
              && removed == Total(old(cache.files), old(cache.directories), prefixes)
    {
      ScopePrefixesIndependent(scope, project, version);
      var prefixes := PrefixesFor(scope, project, version);
      forall i | 0 <= i < |prefixes| ensures Droppable(prefixes[i]) {
        ScopePrefixesAddressable(scope, project, version, i);
      }
      invalidated, removed := DropEach(prefixes);
    }

    method DropEach(prefixes: seq<seq<string>>) returns (invalidated: seq<seq<string>>, removed: nat)
      requires cache.Tree()
      requires Independent(prefixes) && forall i :: 0 <= i < |prefixes| ==> Droppable(prefixes[i])
      modifies cache
      ensures cache.Tree()
      ensures cache.files == FilesKept(old(cache.files), prefixes)
      ensures cache.directories == DirectoriesKept(old(cache.directories), prefixes)
      ensures invalidated == Held(old(cache.files), old(cache.directories), prefixes)
      ensures removed == Total(old(cache.files), old(cache.directories), prefixes)
    {
      ghost var fs, ds := cache.files, cache.directories;
      invalidated, removed := [], 0;
      assert FilesKept(fs, prefixes[..0]) == fs && DirectoriesKept(ds, prefixes[..0]) == ds;
      for i := 0 to |prefixes|
        invariant cache.Tree()
        invariant cache.files == FilesKept(fs, prefixes[..i]) && cache.directories == DirectoriesKept(ds, prefixes[..i])
        invariant invalidated == Held(fs, ds, prefixes[..i]) && removed == Total(fs, ds, prefixes[..i])
      {
        OneMore(fs, ds, prefixes, i);
        var count := DropOne(prefixes[i]);
        if count != 0 {
          invalidated := invalidated + [prefixes[i]];
        }
        removed := removed + count;
      }
      assert prefixes[..|prefixes|] == prefixes;
    }

    method DropOne(prefix: seq<string>) returns (count: nat)
      requires cache.Tree() && Droppable(prefix)
      modifies cache
      ensures cache.Tree()
      ensures cache.files == FilesLeft(old(cache.files), Path(false, prefix), EntryPath(prefix))
      ensures cache.directories == DirectoriesLeft(old(cache.directories), Path(false, prefix))
      ensures count == CountOf(old(cache.files), old(cache.directories), prefix)
    {
      AddressablePrefix(prefix);
      count := cache.InvalidatePrefix(Join(prefix, ':'));
    }

    /** `_write_op`: the call, then the drops, which a failed call skips. */
    method WriteOp(scope: WriteScope, project: Option<int>, version: Option<int>,
                   ownKey: Option<string>, freshKey: string, call: CallResult) returns (response: Option<WriteResponse>)
      requires cache.Tree()
      modifies cache
      ensures cache.Tree()
      ensures response.None? <==> call.CallFailed?
      ensures call.CallFailed? ==> cache.files == old(cache.files) && cache.directories == old(cache.directories)
      ensures call.Completed? ==>
                && response.value.httpStatus == call.status && response.value.result == call.body
                && (call.status == 201 ==> response.value.status == "created")
                && (call.status == 204 ==> response.value.status == "deleted")
                && (call.status == 207 ==> response.value.status == "partial")
                && (call.status !in {201, 204, 207} ==> response.value.status == "ok")
                && (ownKey.Some? && ownKey.value != "" ==> response.value.idempotencyKey == ownKey.value)
                && (ownKey.None? || ownKey.value == "" ==> response.value.idempotencyKey == freshKey)
                && (response.value.rows.Some? <==> call.status == 207 && call.body.Some?)
                && (response.value.rows.Some? ==> RowsOf(call.body.value, response.value.rows.value))
      ensures call.Completed? ==>
                var prefixes := PrefixesFor(scope, project, version);
                && cache.files == FilesKept(old(cache.files), prefixes)
                && cache.directories == DirectoriesKept(old(cache.directories), prefixes)
                && response.value.invalidated == Held(old(cache.files), old(cache.directories), prefixes)
    {
      var key := KeyUsed(ownKey, freshKey);
      if call.CallFailed? {
        return None;
      }
      var invalidated, _ := DropScope(scope, project, version);
      var rows: Option<Rows> := None;
      if call.status == 207 && call.body.Some? {
        rows := Some(Rows(ListOr(call.body.value.failed), ListOr(call.body.value.succeeded)));
      }
      response := Some(WriteResponse(StatusName(call.status), call.status, key, call.body, invalidated, rows));
    }

    /** `refresh_cache`: drops the scope, then reads the RMD past the cache. */
    method RefreshCache(project: int, version: int, language: string, scopeName: string,
                        asked: int, answer: Answer, answered: int, finished: int) returns (result: RefreshResult)
      requires cache.Tree()
      modifies cache
      ensures cache.Tree()
      ensures scopeName !in ["global", "project", "version", "git"] ==>
                result.RefreshRaised? && cache.files == old(cache.files) && cache.directories == old(cache.directories)
      ensures ParseScope(scopeName).Some? ==>
                var prefixes := PrefixesFor(ParseScope(scopeName).value, Some(project), Some(version));
                var fs, ds := FilesKept(old(cache.files), prefixes), DirectoriesKept(old(cache.directories), prefixes);
                var rmd := KeyToPath(Key(InVersion(project, version, Rmd(language, false))));
                var read := Reads(fs, ds, rmd, false, asked, answer);
                && cache.files == FilesAfter(fs, rmd, read, answered, ttlSeconds)
                && cache.directories == DirectoriesAfter(ds, rmd, read)
                && (result.Refresh? <==> read.Served?)
                && (result.Refresh? ==>
                      result.done.entriesRemoved == Total(old(cache.files), old(cache.directories), prefixes))
      ensures result.Refresh? ==>
                && (scopeName == "global" ==> result.done.scope == GlobalScope)
                && (scopeName == "project" ==> result.done.scope == ProjectScope)
                && (scopeName == "version" ==> result.done.scope == VersionScope)
                && (scopeName == "git" ==> result.done.scope == GitScope)
                && ParseScope(scopeName) == Some(result.done.scope)
                && result.done.cacheKey == Key(InVersion(project, version, Rmd(language, false)))
                && result.done.fetchedAt == finished
    {
      var scope := ParseScope(scopeName);
      if scope.None? {
        return RefreshRaised;
      }
      var _, removed := DropScope(scope.value, Some(project), Some(version));
      var key := Key(InVersion(project, version, Rmd(language, false)));
      var snapshot := CachedFetch(key, false, asked, answer, answered);
      if !snapshot.Served? {
        return RefreshRaised;
      }
      result := Refresh(Refreshed(scope.value, removed, key, finished));
    }
  }

  // ---------------------------------------------------------------------
  // The read right after a write
  // ---------------------------------------------------------------------

  /** The entry that a drop of a scope leaves at a read's file: none if the read is in the scope and does not
      escape, and otherwise the one that was there. */
  lemma EntryAfterDrop(files: Files, scope: WriteScope, project: Option<int>, version: Option<int>, r: Request)
    requires NoParents(r)
    ensures Lookup(FilesKept(files, PrefixesFor(scope, project, version)), FileFor(r)) ==
            if InScope(scope, project, version, r) && !Escapes(r) then None else Lookup(files, FileFor(r))
  {
    ReachedExactlyWhen(scope, project, version, r);
  }

  /** A read right after a write that returned asks the API, with nothing to fall back on, exactly when it is in the
      scope and does not escape, or nothing usable was there before. */
  lemma ReadAfterWrite(files: Files, directories: set<Path>, scope: WriteScope, project: Option<int>,
                       version: Option<int>, r: Request, useCache: bool, asked: int, answer: Answer)
    requires NoParents(r)
    ensures var prefixes := PrefixesFor(scope, project, version);
            var fs, ds := FilesKept(files, prefixes), DirectoriesKept(directories, prefixes);
            Reads(fs, ds, FileFor(r), useCache, asked, answer) ==
              if InScope(scope, project, version, r) && !Escapes(r) then
                if answer.ApiError? then ReadFailed
                else if Unobstructed(fs, ds, FileFor(r)) then Served(answer.payload, FromApi)
                else StoreFailed
              else if Hits(files, FileFor(r), useCache, asked) then
                Served(Unexpired(Lookup(files, FileFor(r)), asked).value, FromCache)
              else if answer.Fetched? then Fetches(fs, ds, FileFor(r), answer)
              else Fetches(files, directories, FileFor(r), answer)
  {
    EntryAfterDrop(files, scope, project, version, r);
  }

  // ---------------------------------------------------------------------
  // What a refresh guarantees
  // ---------------------------------------------------------------------

  function RmdRead(project: int, version: int, language: string): Request {
    InVersion(project, version, Rmd(language, false))
  }

  lemma RmdStays(project: int, version: int, language: string)
    ensures !Escapes(RmdRead(project, version, language))
  {
    var r := RmdRead(project, version, language);
    OneTextIdentifiable(r);
    SplitAround(Parts(r), 3, ':');
    WordParts();
    assert Parts(r)[4..] == ["False"];
    LastSegment(r, Parts(r)[..3] + Split(language, ':'), "False");
  }

  /** With scope version or project the refresh succeeds exactly on an answer that can be stored; with scope global
      or git the old snapshot is still there, so a failing API is reported as refreshed over it. */
  lemma RefreshServes(files: Files, directories: set<Path>, scope: WriteScope, project: int, version: int,
                      language: string, asked: int, answer: Answer)
    requires NoParents(RmdRead(project, version, language))
    ensures var prefixes := PrefixesFor(scope, Some(project), Some(version));
            var p := FileFor(RmdRead(project, version, language));
            var fs, ds := FilesKept(files, prefixes), DirectoriesKept(directories, prefixes);
            Reads(fs, ds, p, false, asked, answer).Served? <==>
            if answer.Fetched? then Unobstructed(fs, ds, p)
            else (scope.GlobalScope? || scope.GitScope?) && LastKnownGood(Lookup(files, p)).Some?
  {
    RmdStays(project, version, language);
    EntryAfterDrop(files, scope, Some(project), Some(version), RmdRead(project, version, language));
  }

  /** Whatever the scope, a refresh that fetched and could store leaves the RMD entry holding what it fetched; after a
      failed fetch the entry is gone with scope version or project, and as before with global or git. */
  lemma RefreshStores(files: Files, directories: set<Path>, scope: WriteScope, project: int, version: int,
                      language: string, asked: int, answer: Answer, answered: int, ttl: int)
    requires NoParents(RmdRead(project, version, language))
    ensures var prefixes := PrefixesFor(scope, Some(project), Some(version));
            var p := FileFor(RmdRead(project, version, language));
            var fs, ds := FilesKept(files, prefixes), DirectoriesKept(directories, prefixes);
            var after := FilesAfter(fs, p, Reads(fs, ds, p, false, asked, answer), answered, ttl);
            Lookup(after, p) ==
              if answer.Fetched? && Unobstructed(fs, ds, p) then
                Some(Readable(CacheEntry(answered, ttl, answer.payload)))
              else if scope.GlobalScope? || scope.GitScope? then Lookup(files, p)
              else None
  {
    RmdStays(project, version, language);
    EntryAfterDrop(files, scope, Some(project), Some(version), RmdRead(project, version, language));
  }
}
