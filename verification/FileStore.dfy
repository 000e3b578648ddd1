/** The file cache: entries on a directory tree addressed by colon-separated keys. */
module FileStore {
  import opened Text
  import opened CacheKeys

  type Payload = string

  datatype CacheEntry = CacheEntry(fetchedAt: int, ttlSeconds: int, payload: Payload)

  /** What a file of the tree reads as: an entry, or nothing usable. */
  datatype File = Readable(entry: CacheEntry) | Corrupt

  // ---------------------------------------------------------------------
  // Paths
  // ---------------------------------------------------------------------

  /** A path below the cache directory, or an absolute one that left it. */
  datatype Path = Path(outside: bool, names: seq<string>)

  const CACHE_DIR := Path(false, [])

  /** The name components of a path text; empty ones and "." vanish. */
  function Components(parts: seq<string>): seq<string> {
    if parts == [] then []
    else (if parts[0] == "" || parts[0] == "." then [] else [parts[0]]) + Components(parts[1..])
  }

  /** `base / text`: an absolute text replaces the base. */
  function Child(base: Path, text: string): Path {
    var names := Components(Split(text, '/'));
    if text != "" && text[0] == '/' then Path(true, names) else Path(base.outside, base.names + names)
  }

  function FileOf(segments: seq<string>): Path
    requires segments != []
  {
    var n := |segments| - 1;
    Child(Child(CACHE_DIR, Join(segments[..n], '/')), segments[n] + ".json")
  }

  function DirectoryOf(segments: seq<string>): Path {
    Child(CACHE_DIR, Join(segments, '/'))
  }

  predicate EndsWith(s: string, suffix: string) {
    |suffix| <= |s| && s[|s| - |suffix|..] == suffix
  }

  /** A segment that stays one path component. */
  predicate PlainName(s: string) {
    s != "" && s != "." && '/' !in s
  }

  /** A segment that names one directory here, and none that looks like an entry file. */
  predicate DirectoryName(s: string) {
    PlainName(s) && s != ".." && !EndsWith(s, ".json")
  }

  predicate Named(segments: seq<string>) {
    && segments != []
    && '/' !in segments[|segments| - 1]
    && (forall i :: 0 <= i < |segments| - 1 ==> PlainName(segments[i]))
  }

  /** Key segments that the tree keeps apart. */
  predicate Storable(segments: seq<string>) {
    && segments != []
    && '/' !in segments[|segments| - 1]
    && (forall i :: 0 <= i < |segments| - 1 ==> DirectoryName(segments[i]))
  }

  predicate Addressable(prefix: seq<string>) {
    prefix != [] && forall s <- prefix :: DirectoryName(s)
  }

  /** A path that is the file of storable segments. */
  predicate IsEntryPath(p: Path) {
    && !p.outside && p.names != []
    && EndsWith(p.names[|p.names| - 1], ".json") && '/' !in p.names[|p.names| - 1]
    && (forall i :: 0 <= i < |p.names| - 1 ==> DirectoryName(p.names[i]))
  }

  /** The segments an entry path was made from. */
  function SegmentsOf(p: Path): (segments: seq<string>)
    requires IsEntryPath(p)
    ensures segments != []
  {
    var n := |p.names| - 1;
    p.names[..n] + [p.names[n][..|p.names[n]| - 5]]
  }

  /** The segments with ".json" put on the last one. */
  function EntryPath(segments: seq<string>): Path
    requires segments != []
  {
    var n := |segments| - 1;
    Path(false, segments[..n] + [segments[n] + ".json"])
  }

  lemma {:induction false} ComponentsOfNames(parts: seq<string>)
    requires forall i :: 0 <= i < |parts| ==> PlainName(parts[i])
    ensures Components(parts) == parts
  {
    if parts != [] {
      ComponentsOfNames(parts[1..]);
    }
  }

  lemma JoinStart(segments: seq<string>, c: char)
    requires segments != [] && segments[0] != ""
    ensures Join(segments, c) != "" && Join(segments, c)[0] == segments[0][0]
  {}

  lemma DirectoryPath(segments: seq<string>)
    requires forall i :: 0 <= i < |segments| ==> PlainName(segments[i])
    ensures DirectoryOf(segments) == Path(false, segments)
  {
    if segments != [] {
      SplitJoin(segments, '/');
      ComponentsOfNames(segments);
      JoinStart(segments, '/');
      assert segments[0][0] in segments[0];
    }
  }

  /** `_key_to_path` on plain segments: one directory a segment, one file for the last. */
  lemma FilePath(segments: seq<string>)
    requires Named(segments)
    ensures FileOf(segments) == EntryPath(segments)
  {
    var n := |segments| - 1;
    var name := segments[n] + ".json";
    DirectoryPath(segments[..n]);
    assert '/' !in name;
    SplitPlain(name, '/');
    ComponentsOfNames([name]);
  }

  lemma SegmentsEntry(segments: seq<string>)
    requires Storable(segments)
    ensures IsEntryPath(EntryPath(segments)) && SegmentsOf(EntryPath(segments)) == segments
  {
    var n := |segments| - 1;
    var name := segments[n] + ".json";
    assert EndsWith(name, ".json") && name[..|name| - 5] == segments[n];
    assert segments[..n] + [segments[n]] == segments;
  }

  lemma EntrySegments(p: Path)
    requires IsEntryPath(p)
    ensures Storable(SegmentsOf(p)) && EntryPath(SegmentsOf(p)) == p
  {
    var n := |p.names| - 1;
    var last := p.names[n];
    assert last[..|last| - 5] + last[|last| - 5..] == last;
    assert p.names[..n] + [last] == p.names;
    forall i | 0 <= i < n ensures DirectoryName(SegmentsOf(p)[i]) {
      assert SegmentsOf(p)[i] == p.names[i];
    }
  }

  lemma SameJson(x: string, y: string)
    ensures x + ".json" == y + ".json" <==> x == y
  {
    assert (x + ".json")[..|x|] == x && (y + ".json")[..|y|] == y;
  }

  lemma SnocEqual(x: seq<string>, p: string, y: seq<string>, q: string)
    ensures x + [p] == y + [q] <==> x == y && p == q
  {
    assert (x + [p])[..|x|] == x && (y + [q])[..|y|] == y;
    assert (x + [p])[|x|] == p && (y + [q])[|y|] == q;
  }

  // ---------------------------------------------------------------------
  // The path of any key
  // ---------------------------------------------------------------------

  predicate StartsSlash(s: string) {
    s != "" && s[0] == '/'
  }

  /** The last segment, or else the text of the others, is an absolute path. */
  predicate Absolute(segments: seq<string>)
    requires segments != []
  {
    var n := |segments| - 1;
    StartsSlash(segments[n]) || StartsSlash(Join(segments[..n], '/'))
  }

  /** The pieces between slashes before the file's own name; an absolute last segment forgets the others. */
  function Lead(segments: seq<string>): seq<string>
    requires segments != []
  {
    var n := |segments| - 1;
    var own := Split(segments[n], '/');
    if StartsSlash(segments[n]) || n == 0 then own[..|own| - 1]
    else Split(Join(segments[..n], '/'), '/') + own[..|own| - 1]
  }

  function LastPiece(segments: seq<string>): string
    requires segments != []
  {
    var own := Split(segments[|segments| - 1], '/');
    own[|own| - 1]
  }

  lemma {:induction false} ComponentsConcat(a: seq<string>, b: seq<string>)
    ensures Components(a + b) == Components(a) + Components(b)
  {
    if a == [] {
      assert a + b == b;
    } else {
      assert (a + b)[1..] == a[1..] + b;
      ComponentsConcat(a[1..], b);
    }
  }

  /** Empty and "." pieces vanish, wherever they stand; any other stays. */
  lemma PieceSkipped(a: seq<string>, piece: string, b: seq<string>)
    ensures piece == "" || piece == "." ==> Components(a + [piece] + b) == Components(a + b)
    ensures piece != "" && piece != "." ==>
              Components(a + [piece] + b) == Components(a) + [piece] + Components(b)
  {
    ComponentsConcat(a + [piece], b);
    ComponentsConcat(a, [piece]);
    ComponentsConcat(a, b);
  }

  lemma NameComponents(last: string)
    ensures var own := Split(last, '/'); var n := |own| - 1;
      Components(Split(last + ".json", '/')) == Components(own[..n]) + [own[n] + ".json"]
  {
    var own := Split(last, '/');
    var n := |own| - 1;
    SplitSuffix(last, ".json", '/');
    ComponentsConcat(own[..n], [own[n] + ".json"]);
  }

  lemma DirectoryComponents(segments: seq<string>)
    ensures DirectoryOf(segments) ==
            Path(StartsSlash(Join(segments, '/')), Components(Split(Join(segments, '/'), '/')))
    ensures segments == [] ==> DirectoryOf(segments) == CACHE_DIR
  {}

  /** The path of a name below a directory. */
  lemma PathOfName(directory: Path, last: string)
    ensures var own := Split(last, '/'); var n := |own| - 1;
      Child(directory, last + ".json") ==
      if StartsSlash(last) then Path(true, Components(own[..n]) + [own[n] + ".json"])
      else Path(directory.outside, directory.names + (Components(own[..n]) + [own[n] + ".json"]))
  {
    NameComponents(last);
    assert StartsSlash(last + ".json") <==> StartsSlash(last);
  }

  /** Where any key's file is. */
  lemma PathOfKey(segments: seq<string>)
    requires segments != []
    ensures FileOf(segments) ==
            Path(Absolute(segments), Components(Lead(segments)) + [LastPiece(segments) + ".json"])
  {
    var n := |segments| - 1;
    var own := Split(segments[n], '/');
    var name := [own[|own| - 1] + ".json"];
    PathOfName(DirectoryOf(segments[..n]), segments[n]);
    DirectoryComponents(segments[..n]);
    if n > 0 && !StartsSlash(segments[n]) {
      var before, lead := Split(Join(segments[..n], '/'), '/'), own[..|own| - 1];
      assert Lead(segments) == before + lead;
      ComponentsConcat(before, lead);
      Associates(Components(before), Components(lead), name);
    }
  }

  lemma LeadOf(init: seq<string>, last: string)
    requires init != [] && !StartsSlash(last)
    ensures var own := Split(last, '/');
      && Lead(init + [last]) == Split(Join(init, '/'), '/') + own[..|own| - 1]
      && LastPiece(init + [last]) == own[|own| - 1]
  {
    assert (init + [last])[..|init|] == init;
  }

  lemma LeadOfNames(init: seq<string>, last: string)
    requires init != [] && (forall s <- init :: '/' !in s) && '/' !in last
    ensures Lead(init + [last]) == init && LastPiece(init + [last]) == last
  {
    LeadOf(init, last);
    SplitPlain(last, '/');
    SplitJoin(init, '/');
    assert init + [] == init;
  }

  lemma AbsoluteByLast(segments: seq<string>)
    requires |segments| > 1 && segments[0] != "" && !StartsSlash(segments[0])
    ensures Absolute(segments) <==> StartsSlash(segments[|segments| - 1])
  {
    JoinStart(segments[..|segments| - 1], '/');
  }

  lemma Associates(a: seq<string>, b: seq<string>, c: seq<string>)
    ensures a + (b + c) == a + b + c
  {}

  /** Two keys share a file if and only if both or neither are absolute, their pieces before the file's name agree
      but for empty and "." ones, and the last pieces are equal. */
  lemma FilesAgreeExactlyWhen(a: seq<string>, b: seq<string>)
    requires a != [] && b != []
    ensures FileOf(a) == FileOf(b) <==>
            && Absolute(a) == Absolute(b) && Components(Lead(a)) == Components(Lead(b))
            && LastPiece(a) == LastPiece(b)
  {
    PathOfKey(a);
    PathOfKey(b);
    SameJson(LastPiece(a), LastPiece(b));
    SnocEqual(Components(Lead(a)), LastPiece(a) + ".json", Components(Lead(b)), LastPiece(b) + ".json");
  }

  /** One key's file is a directory on another's path if and only if the other goes on below the same pieces with
      the first key's last piece and ".json". */
  lemma FileBelowExactlyWhen(a: seq<string>, b: seq<string>)
    requires a != [] && b != []
    ensures var c, d := Components(Lead(a)), Components(Lead(b));
      Below(FileOf(a), FileOf(b)) <==>
      Absolute(a) == Absolute(b) && |c| < |d| && d[..|c|] == c && d[|c|] == LastPiece(a) + ".json"
  {
    PathOfKey(a);
    PathOfKey(b);
    NamesBelow(Components(Lead(a)), LastPiece(a) + ".json", Components(Lead(b)), LastPiece(b) + ".json");
  }

  lemma NamesBelow(c: seq<string>, p: string, d: seq<string>, q: string)
    ensures c + [p] < d + [q] <==> |c| < |d| && d[..|c|] == c && d[|c|] == p
  {
    if |c| < |d| {
      assert (d + [q])[..|c| + 1] == d[..|c|] + [d[|c|]];
      SnocEqual(c, p, d[..|c|], d[|c|]);
    }
  }

  /** Distinct storable keys have distinct files, and no key's file is a directory on another's path. */
  lemma FilesKeptApart(a: seq<string>, b: seq<string>)
    requires Storable(a) && Storable(b)
    ensures FileOf(a) == FileOf(b) <==> a == b
    ensures !Below(FileOf(a), FileOf(b))
  {
    FilePath(a);
    FilePath(b);
    SegmentsEntry(a);
    SegmentsEntry(b);
    NoEntryBelow(EntryPath(a), EntryPath(b));
  }

  lemma NoEntryBelow(p: Path, q: Path)
    requires IsEntryPath(p) && IsEntryPath(q)
    ensures !Below(p, q)
  {
  }

  /** Strictly below a directory. */
  predicate Below(directory: Path, p: Path) {
    directory.outside == p.outside && directory.names < p.names
  }

  function Ancestors(p: Path): set<Path> {
    set i | 0 <= i < |p.names| :: Path(p.outside, p.names[..i])
  }

  // ---------------------------------------------------------------------
  // What the operations do to any tree
  // ---------------------------------------------------------------------

  type Files = map<Path, File>

  /** `_read_entry`. */
  function Usable(f: Option<File>): Option<CacheEntry> {
    if f.Some? && f.value.Readable? then Some(f.value.entry) else None
  }

  /** `get`: nothing once the entry is older than its time to live. */
  function Unexpired(f: Option<File>, now: int): Option<Payload> {
    if f.Some? && f.value.Readable? && now - f.value.entry.fetchedAt <= f.value.entry.ttlSeconds
    then Some(f.value.entry.payload)
    else None
  }

  /** `get_last_known_good`: the payload whatever its age. */
  function LastKnownGood(f: Option<File>): Option<Payload> {
    if f.Some? && f.value.Readable? then Some(f.value.entry.payload) else None
  }

  /** No directory stands where the file goes, and no file where one of its directories goes. */
  predicate Unobstructed(files: Files, directories: set<Path>, path: Path) {
    path !in directories && Ancestors(path) !! files.Keys
  }

  function Without(files: Files, path: Path): Files {
    map f | f in files && f != path :: files[f]
  }

  function FilesLeft(files: Files, directory: Path, leaf: Path): Files {
    map f | f in files && !Below(directory, f) && f != leaf :: files[f]
  }

  function DirectoriesLeft(directories: set<Path>, directory: Path): set<Path> {
    set d | d in directories && d != directory && !Below(directory, d)
  }

  /** How many of the paths below the directory are named like an entry file. */
  function CountJson(paths: set<Path>, directory: Path): nat {
    |set p | p in paths && Below(directory, p) && EndsWith(p.names[|p.names| - 1], ".json")|
  }

  function JsonNamesUnder(files: Files, directories: set<Path>, directory: Path): nat {
    if directory in directories then CountJson(files.Keys, directory) + CountJson(directories, directory) else 0
  }

  /** What dropping a prefix counts: the ".json" names under its directory, and its own file. */
  function Deletions(files: Files, directories: set<Path>, directory: Path, leaf: Path): nat {
    JsonNamesUnder(files, directories, directory) + if leaf in files && !Below(directory, leaf) then 1 else 0
  }

  /** A file system: files and directories are apart, and every ancestor is a directory. */
  ghost predicate IsTree(files: set<Path>, directories: set<Path>) {
    && files !! directories
    && (forall f <- files :: Ancestors(f) <= directories)
    && (forall d <- directories :: Ancestors(d) <= directories)
  }

  lemma Pruned(files: set<Path>, directories: set<Path>, root: Path, kept: set<Path>, keptDirectories: set<Path>)
    requires IsTree(files, directories)
    requires kept <= set f | f in files && !Below(root, f)
    requires keptDirectories == set d | d in directories && d != root && !Below(root, d)
    ensures IsTree(kept, keptDirectories)
  {
    forall p, a | (p in kept || p in keptDirectories) && a in Ancestors(p) ensures a in keptDirectories {
      assert a in directories;
      assert a.names == p.names[..|a.names|] && |a.names| < |p.names|;
    }
  }

  lemma NothingBelow(files: set<Path>, directories: set<Path>, root: Path)
    requires IsTree(files, directories)
    ensures root !in directories ==> forall p <- files + directories :: !Below(root, p)
  {
    forall p | p in files + directories && Below(root, p) ensures root in directories {
      assert root == Path(p.outside, p.names[..|root.names|]);
      assert root in Ancestors(p);
    }
  }

  lemma WrittenTree(files: Files, directories: set<Path>, path: Path, f: File)
    requires IsTree(files.Keys, directories) && Unobstructed(files, directories, path)
    ensures IsTree(files[path := f].Keys, directories + Ancestors(path))
  {
    AncestorsClosed(path);
  }

  lemma RemovedTree(files: Files, directories: set<Path>, directory: Path, leaf: Path)
    requires IsTree(files.Keys, directories)
    ensures IsTree(FilesLeft(files, directory, leaf).Keys, DirectoriesLeft(directories, directory))
    ensures directory !in directories ==>
              && (forall f <- files.Keys :: !Below(directory, f))
              && FilesLeft(files, directory, leaf) == Without(files, leaf)
              && DirectoriesLeft(directories, directory) == directories
  {
    Pruned(files.Keys, directories, directory, FilesLeft(files, directory, leaf).Keys,
           DirectoriesLeft(directories, directory));
    NothingBelow(files.Keys, directories, directory);
  }

  lemma AncestorsClosed(p: Path)
    ensures forall d <- Ancestors(p) :: Ancestors(d) <= Ancestors(p)
    ensures p !in Ancestors(p)
  {
    forall d, e | d in Ancestors(p) && e in Ancestors(d) ensures e in Ancestors(p) {
      assert e.names == p.names[..|e.names|];
    }
  }

  // ---------------------------------------------------------------------
  // Which files a prefix reaches
  // ---------------------------------------------------------------------

  /** Dropping the prefix removes the file: it lies below the prefix's directory, or is the prefix's own. */
  predicate Reaches(prefix: seq<string>, p: Path) {
    Below(Path(false, prefix), p) || (prefix != [] && p == EntryPath(prefix))
  }

  predicate Reached(prefixes: seq<seq<string>>, p: Path) {
    exists i :: 0 <= i < |prefixes| && Reaches(prefixes[i], p)
  }

  lemma LeadNames(segments: seq<string>, k: nat) returns (rest: seq<string>)
    requires 0 < k < |segments| && !Absolute(segments) && forall i :: 0 <= i < k ==> PlainName(segments[i])
    ensures Components(Lead(segments)) == segments[..k] + rest
  {
    var n := |segments| - 1;
    var init, own := segments[..n], Split(segments[n], '/');
    assert segments == init + [segments[n]];
    LeadOf(init, segments[n]);
    var later := SplitAfterNames(init, k);
    rest := ComponentsAfterNames(init[..k], later, own[..|own| - 1]);
    assert init[..k] == segments[..k];
  }

  lemma SplitAfterNames(init: seq<string>, k: nat) returns (later: seq<string>)
    requires 0 < k <= |init| && forall i :: 0 <= i < k ==> PlainName(init[i])
    ensures Split(Join(init, '/'), '/') == init[..k] + later
  {
    if k == |init| {
      SplitJoin(init, '/');
      later := [];
      assert init[..k] + later == init;
    } else {
      SplitJoinPrefix(init, k, '/');
      later := Split(Join(init[k..], '/'), '/');
    }
  }

  lemma ComponentsAfterNames(names: seq<string>, later: seq<string>, own: seq<string>) returns (rest: seq<string>)
    requires forall i :: 0 <= i < |names| ==> PlainName(names[i])
    ensures Components(names + later + own) == names + rest
  {
    ComponentsConcat(names + later, own);
    ComponentsConcat(names, later);
    ComponentsOfNames(names);
    rest := Components(later) + Components(own);
    Associates(names, Components(later), Components(own));
  }

  lemma ReachesNames(prefix: seq<string>, names: seq<string>, k: nat)
    requires prefix != [] && 0 < k < |names| && (|prefix| <= k || prefix[0] != names[0])
    ensures Reaches(prefix, Path(false, names)) <==> |prefix| <= k && prefix == names[..|prefix|]
  {
    assert |EntryPath(prefix).names| == |prefix|;
    if |prefix| > 1 { assert EntryPath(prefix).names[0] == prefix[0]; }
    if |prefix| <= k && prefix == names[..|prefix|] { assert prefix < names; }
  }

  /** A prefix within the plain names of a key reaches its file exactly when it is a prefix of the segments, unless
      the key's path is absolute: then nothing does. */
  lemma ReachesKey(prefix: seq<string>, segments: seq<string>, k: nat)
    requires 0 < k < |segments| && forall i :: 0 <= i < k ==> PlainName(segments[i])
    requires prefix != [] && (|prefix| <= k || prefix[0] != segments[0])
    ensures Reaches(prefix, FileOf(segments)) <==> prefix <= segments && !Absolute(segments)
  {
    PathOfKey(segments);
    if !Absolute(segments) {
      var rest := LeadNames(segments, k);
      var names := segments[..k] + rest + [LastPiece(segments) + ".json"];
      assert names[0] == segments[0];
      assert |prefix| <= k ==> names[..|prefix|] == segments[..|prefix|];
      ReachesNames(prefix, names, k);
    }
  }

  // ---------------------------------------------------------------------
  // The store
  // ---------------------------------------------------------------------

  /** `_key_to_path`. */
  function KeyToPath(key: string): Path {
    FileOf(Segments(key))
  }

  class FileCacheStore {
    var files: Files
    var directories: set<Path>

    ghost predicate Tree()
      reads this
    {
      IsTree(files.Keys, directories)
    }

    constructor ()
      ensures Tree() && files == map[] && directories == {}
    {
      files, directories := map[], {};
    }

    /** The entry of a key unless it is older than its time to live. */
    method Get(key: string, now: int) returns (payload: Option<Payload>)
      ensures payload == Unexpired(Lookup(files, KeyToPath(key)), now)
      ensures payload.Some? <==>
                && KeyToPath(key) in files && files[KeyToPath(key)].Readable?
                && now - files[KeyToPath(key)].entry.fetchedAt <= files[KeyToPath(key)].entry.ttlSeconds
      ensures payload.Some? ==> payload.value == files[KeyToPath(key)].entry.payload
    {
      payload := GetAt(KeyToPath(key), now);
    }

    method GetAt(path: Path, now: int) returns (payload: Option<Payload>)
      ensures payload == Unexpired(Lookup(files, path), now)
    {
      var entry := ReadEntry(path);
      payload := None;
      if entry.Some? {
        var elapsed := now - entry.value.fetchedAt;
        if elapsed <= entry.value.ttlSeconds {
          payload := Some(entry.value.payload);
        }
      }
    }

    method GetLastKnownGood(key: string) returns (payload: Option<Payload>)
      ensures payload == LastKnownGood(Lookup(files, KeyToPath(key)))
      ensures payload.Some? <==> KeyToPath(key) in files && files[KeyToPath(key)].Readable?
      ensures payload.Some? ==> payload.value == files[KeyToPath(key)].entry.payload
    {
      payload := LastKnownGoodAt(KeyToPath(key));
    }

    method LastKnownGoodAt(path: Path) returns (payload: Option<Payload>)
      ensures payload == LastKnownGood(Lookup(files, path))
    {
      var entry := ReadEntry(path);
      payload := if entry.Some? then Some(entry.value.payload) else None;
    }

    /** Nothing for a missing file, nor for one that holds no entry. */
    method ReadEntry(path: Path) returns (entry: Option<CacheEntry>)
      ensures entry == Usable(Lookup(files, path))
    {
      entry := None;
      if path in files && files[path].Readable? {
        entry := Some(files[path].entry);
      }
    }

    method Set(key: string, value: Payload, ttl: int, now: int) returns (stored: bool)
      requires Tree()
      modifies this
      ensures Tree()
      ensures stored <==> Unobstructed(old(files), old(directories), KeyToPath(key))
      ensures !stored ==> files == old(files) && directories == old(directories)
      ensures stored ==>
                && files == old(files)[KeyToPath(key) := Readable(CacheEntry(now, ttl, value))]
                && directories == old(directories) + Ancestors(KeyToPath(key))
    {
      stored := WriteEntry(KeyToPath(key), CacheEntry(now, ttl, value));
    }

    /** Fails, changing nothing, when a file stands where a directory is needed or the reverse. */
    method WriteEntry(path: Path, entry: CacheEntry) returns (stored: bool)
      requires Tree()
      modifies this
      ensures Tree()
      ensures stored <==> Unobstructed(old(files), old(directories), path)
      ensures !stored ==> files == old(files) && directories == old(directories)
      ensures stored ==>
                files == old(files)[path := Readable(entry)] && directories == old(directories) + Ancestors(path)
    {
      if path in directories || exists d :: d in Ancestors(path) && d in files {
        return false;
      }
      WrittenTree(files, directories, path, Readable(entry));
      directories := directories + Ancestors(path);
      files := files[path := Readable(entry)];
      stored := true;
    }

    /** Drops a key family; returns how many entry files went, unreadable ones included. */
    method InvalidatePrefix(prefix: string) returns (removed: nat)
      requires Tree()
      modifies this
      ensures Tree()
      ensures var directory, leaf := DirectoryOf(Segments(prefix)), KeyToPath(prefix);
              && files == FilesLeft(old(files), directory, leaf)
              && directories == DirectoriesLeft(old(directories), directory)
              && removed == Deletions(old(files), old(directories), directory, leaf)
    {
      removed := Delete(DirectoryOf(Segments(prefix)), KeyToPath(prefix));
    }

    /** Removes the prefix's directory with all below it, then its own file; counts the ".json" names. */
    method Delete(directory: Path, leaf: Path) returns (removed: nat)
      requires Tree()
      modifies this
      ensures Tree()
      ensures files == FilesLeft(old(files), directory, leaf)
      ensures directories == DirectoriesLeft(old(directories), directory)
      ensures removed == Deletions(old(files), old(directories), directory, leaf)
    {
      RemovedTree(files, directories, directory, leaf);
      removed := 0;
      if directory in directories {
        removed := CountJson(files.Keys, directory) + CountJson(directories, directory);
        files := map f | f in files && !Below(directory, f) :: files[f];
        directories := DirectoriesLeft(directories, directory);
      }
      if leaf in files {
        files := Without(files, leaf);
        removed := removed + 1;
      }
    }

    /** Drops one key's file; a directory in its place is an error and stays. */
    method Invalidate(key: string) returns (done: bool)
      requires Tree()
      modifies this
      ensures Tree() && directories == old(directories)
      ensures done <==> KeyToPath(key) !in directories
      ensures files == if done then Without(old(files), KeyToPath(key)) else old(files)
    {
      done := Erase(KeyToPath(key));
    }

    method Erase(path: Path) returns (done: bool)
      requires Tree()
      modifies this
      ensures Tree() && directories == old(directories)
      ensures done <==> path !in directories
      ensures files == if done then Without(old(files), path) else old(files)
    {
      if path in directories {
        return false;
      }
      files := Without(files, path);
      done := true;
    }
  }

  // ---------------------------------------------------------------------
  // The tree read as a map from key segments to files
  // ---------------------------------------------------------------------

  type Cache = map<seq<string>, File>

  function DropKey(m: Cache, key: seq<string>): Cache {
    map k | k in m && k != key :: m[k]
  }

  /** The entries of storable keys; other files are no part of the map, and do not disturb it. */
  ghost function ContentsOf(files: Files): Cache {
    EntriesOf(files);
    map k | k in (set f | f in files.Keys && IsEntryPath(f) :: SegmentsOf(f)) :: files[EntryPath(k)]
  }

  lemma EntriesOf(files: Files)
    ensures forall f | f in files.Keys && IsEntryPath(f) :: Storable(SegmentsOf(f)) && EntryPath(SegmentsOf(f)) == f
  {
    forall f | f in files.Keys && IsEntryPath(f) ensures Storable(SegmentsOf(f)) && EntryPath(SegmentsOf(f)) == f {
      EntrySegments(f);
    }
  }

  lemma ContentsAt(files: Files, k: seq<string>)
    requires Storable(k)
    ensures Lookup(ContentsOf(files), k) == Lookup(files, EntryPath(k))
  {
    EntriesOf(files);
    SegmentsEntry(k);
    if EntryPath(k) in files.Keys {
      assert SegmentsOf(EntryPath(k)) == k;
    }
  }

  lemma ContentsStorable(files: Files)
    ensures forall k <- ContentsOf(files).Keys :: Storable(k)
  {
    EntriesOf(files);
  }

  /** Two maps of storable keys that agree on every storable key are equal. */
  lemma SameContents(m: Cache, n: Cache)
    requires (forall k <- m.Keys :: Storable(k)) && (forall k <- n.Keys :: Storable(k))
    requires forall k | Storable(k) :: Lookup(m, k) == Lookup(n, k)
    ensures m == n
  {
    forall k ensures k in m <==> k in n {
      if k in m || k in n { assert Lookup(m, k) == Lookup(n, k); }
    }
    forall k | k in m ensures m[k] == n[k] {
      assert Lookup(m, k) == Lookup(n, k);
    }
  }

  lemma SameEntryPath(a: seq<string>, b: seq<string>)
    requires Storable(a) && Storable(b)
    ensures EntryPath(a) == EntryPath(b) <==> a == b
  {
    SegmentsEntry(a);
    SegmentsEntry(b);
  }

  /** Reading a storable key's file is looking the key up in the map. */
  lemma KeyRead(files: Files, k: seq<string>)
    requires Storable(k)
    ensures Lookup(files, FileOf(k)) == Lookup(ContentsOf(files), k)
  {
    FilePath(k);
    ContentsAt(files, k);
  }

  /** Writing a file updates the map at the key whose file it is, and nowhere if it is no key's file. */
  lemma PathWritten(files: Files, path: Path, f: File)
    ensures ContentsOf(files[path := f]) ==
            if IsEntryPath(path) then ContentsOf(files)[SegmentsOf(path) := f] else ContentsOf(files)
  {
    var after := files[path := f];
    var expected := if IsEntryPath(path) then ContentsOf(files)[SegmentsOf(path) := f] else ContentsOf(files);
    ContentsStorable(files);
    ContentsStorable(after);
    if IsEntryPath(path) { EntrySegments(path); }
    forall k | Storable(k) ensures Lookup(ContentsOf(after), k) == Lookup(expected, k) {
      ContentsAt(files, k);
      ContentsAt(after, k);
      SegmentsEntry(k);
    }
    SameContents(ContentsOf(after), expected);
  }

  /** For a storable key that is the key itself. */
  lemma KeyWritten(files: Files, k: seq<string>, f: File)
    requires Storable(k)
    ensures ContentsOf(files[FileOf(k) := f]) == ContentsOf(files)[k := f]
  {
    FilePath(k);
    SegmentsEntry(k);
    PathWritten(files, EntryPath(k), f);
  }

  lemma KeyErased(files: Files, k: seq<string>)
    requires Storable(k)
    ensures ContentsOf(Without(files, FileOf(k))) == DropKey(ContentsOf(files), k)
  {
    var after := Without(files, FileOf(k));
    FilePath(k);
    ContentsStorable(files);
    ContentsStorable(after);
    forall x | Storable(x) ensures Lookup(ContentsOf(after), x) == Lookup(DropKey(ContentsOf(files), k), x) {
      ContentsAt(files, x);
      ContentsAt(after, x);
      SameEntryPath(x, k);
    }
    SameContents(ContentsOf(after), DropKey(ContentsOf(files), k));
  }

  /** Storable segments have an addressable prefix exactly when the file is the prefix's own or lies below its
      directory. */
  lemma PrefixAsPath(p: Path, prefix: seq<string>)
    requires IsEntryPath(p) && Addressable(prefix)
    ensures prefix <= SegmentsOf(p) <==> p == EntryPath(prefix) || Below(Path(false, prefix), p)
  {
    EntrySegments(p);
    var s, n := SegmentsOf(p), |p.names| - 1;
    if |prefix| <= n {
      assert s[..|prefix|] == p.names[..|prefix|];
    }
  }

  lemma AddressablePrefix(prefix: seq<string>)
    requires Addressable(prefix)
    ensures DirectoryOf(prefix) == Path(false, prefix) && FileOf(prefix) == EntryPath(prefix)
  {
    assert forall i :: 0 <= i < |prefix| ==> DirectoryName(prefix[i]);
    DirectoryPath(prefix);
    FilePath(prefix);
  }

  /** Dropping an addressable prefix drops exactly the keys that have it, by segments. */
  lemma PrefixDropped(files: Files, prefix: seq<string>)
    requires Addressable(prefix)
    ensures ContentsOf(FilesLeft(files, DirectoryOf(prefix), FileOf(prefix))) == DropPrefix(ContentsOf(files), prefix)
  {
    AddressablePrefix(prefix);
    var after := FilesLeft(files, Path(false, prefix), EntryPath(prefix));
    ContentsStorable(files);
    ContentsStorable(after);
    forall k | Storable(k) ensures Lookup(ContentsOf(after), k) == Lookup(DropPrefix(ContentsOf(files), prefix), k) {
      ContentsAt(files, k);
      ContentsAt(after, k);
      SegmentsEntry(k);
      PrefixAsPath(EntryPath(k), prefix);
    }
    SameContents(ContentsOf(after), DropPrefix(ContentsOf(files), prefix));
  }

  // ---------------------------------------------------------------------
  // Trees on which only storable keys were written
  // ---------------------------------------------------------------------

  /** Every file is a storable key's, and every directory one on such a file's path. */
  ghost predicate Clean(files: Files, directories: set<Path>) {
    && (forall f <- files.Keys :: IsEntryPath(f))
    && (forall d <- directories :: !d.outside && forall s <- d.names :: DirectoryName(s))
  }

  /** On a clean tree a storable key can always be written, and the tree stays clean. */
  lemma CleanWritten(files: Files, directories: set<Path>, k: seq<string>, f: File)
    requires Clean(files, directories) && Storable(k)
    ensures Unobstructed(files, directories, FileOf(k))
    ensures Clean(files[FileOf(k) := f], directories + Ancestors(FileOf(k)))
  {
    FilePath(k);
    SegmentsEntry(k);
    var p := EntryPath(k);
    var last := p.names[|p.names| - 1];
    assert last in p.names && !DirectoryName(last);
    forall d | d in Ancestors(p) ensures d !in files.Keys {
      if d in files.Keys { NoEntryBelow(d, p); }
    }
  }

  lemma SizeOfUnion(a: set<Path>, b: set<Path>)
    requires a !! b
    ensures |a + b| == |a| + |b|
  {}

  /** A drop counts every file and directory below the prefix's directory whose name ends in ".json", and the prefix's
      own file unless it is one of them. */
  lemma DropCounts(files: Files, directories: set<Path>, directory: Path, leaf: Path)
    requires IsTree(files.Keys, directories)
    ensures Deletions(files, directories, directory, leaf) ==
            |set p | p in files.Keys + directories && Below(directory, p) && EndsWith(p.names[|p.names| - 1], ".json")|
            + if leaf in files && !Below(directory, leaf) then 1 else 0
  {
    var a := set p | p in files.Keys && Below(directory, p) && EndsWith(p.names[|p.names| - 1], ".json");
    var b := set p | p in directories && Below(directory, p) && EndsWith(p.names[|p.names| - 1], ".json");
    SizeOfUnion(a, b);
    NothingBelow(files.Keys, directories, directory);
    assert (set p | p in files.Keys + directories && Below(directory, p) && EndsWith(p.names[|p.names| - 1], ".json"))
        == a + b;
    if directory !in directories {
      assert a == {} && b == {};
    }
  }

  /** On a clean tree the ".json" names below a directory are its entries and nothing else. */
  lemma JsonNames(files: Files, directories: set<Path>, root: Path)
    requires Clean(files, directories)
    ensures CountJson(files.Keys, root) + |set f | f in files.Keys && !Below(root, f)| == |files|
    ensures CountJson(directories, root) == 0
  {
    var below := set f | f in files.Keys && Below(root, f);
    var rest := set f | f in files.Keys && !Below(root, f);
    assert files.Keys == below + rest && below !! rest;
    assert below == set p | p in files.Keys && Below(root, p) && EndsWith(p.names[|p.names| - 1], ".json");
    assert |files| == |files.Keys|;
    forall d | d in directories && Below(root, d) ensures !EndsWith(d.names[|d.names| - 1], ".json") {
      assert d.names[|d.names| - 1] in d.names;
    }
    assert (set p | p in directories && Below(root, p) && EndsWith(p.names[|p.names| - 1], ".json")) == {};
  }

  lemma {:induction false} ContentsSize(files: Files, directories: set<Path>)
    requires Clean(files, directories)
    ensures |ContentsOf(files)| == |files|
  {
    DistinctSegments(files.Keys);
    assert (set f | f in files.Keys && IsEntryPath(f) :: SegmentsOf(f)) == set f | f in files.Keys :: SegmentsOf(f);
    assert ContentsOf(files).Keys == set f | f in files.Keys :: SegmentsOf(f);
    assert |ContentsOf(files)| == |ContentsOf(files).Keys|;
    assert |files| == |files.Keys|;
  }

  lemma {:induction false} DistinctSegments(paths: set<Path>)
    requires forall p <- paths :: IsEntryPath(p)
    ensures |set p | p in paths :: SegmentsOf(p)| == |paths|
  {
    var image := set p | p in paths :: SegmentsOf(p);
    if paths == {} {
      assert image == {};
    } else {
      var q :| q in paths;
      var rest := paths - {q};
      var restImage := set p | p in rest :: SegmentsOf(p);
      DistinctSegments(rest);
      forall p | p in rest ensures SegmentsOf(p) != SegmentsOf(q) {
        EntrySegments(p);
        EntrySegments(q);
      }
      assert image == restImage + {SegmentsOf(q)};
    }
  }

  /** On a clean tree the count of a drop is the number of entries lost. */
  lemma CleanCount(files: Files, directories: set<Path>, prefix: seq<string>)
    requires IsTree(files.Keys, directories) && Clean(files, directories) && Addressable(prefix)
    ensures var left := FilesLeft(files, DirectoryOf(prefix), FileOf(prefix));
      && Deletions(files, directories, DirectoryOf(prefix), FileOf(prefix)) == |files| - |left|
      && |files| - |left| == |ContentsOf(files)| - |DropPrefix(ContentsOf(files), prefix)|
      && Clean(left, DirectoriesLeft(directories, DirectoryOf(prefix)))
  {
    AddressablePrefix(prefix);
    var root, leaf := Path(false, prefix), EntryPath(prefix);
    var left := FilesLeft(files, root, leaf);
    JsonNames(files, directories, root);
    NothingBelow(files.Keys, directories, root);
    LeafCount(files, root, leaf);
    ContentsSize(files, directories);
    PrefixDropped(files, prefix);
    ContentsSize(left, DirectoriesLeft(directories, root));
  }

  lemma LeafCount(files: Files, root: Path, leaf: Path)
    ensures |set f | f in files.Keys && !Below(root, f)| ==
            |FilesLeft(files, root, leaf)| + if leaf in files && !Below(root, leaf) then 1 else 0
  {
    var rest := set f | f in files.Keys && !Below(root, f);
    var left := FilesLeft(files, root, leaf);
    assert |left| == |left.Keys| && left.Keys == rest - {leaf};
  }

  // ---------------------------------------------------------------------
  // Which keys and prefixes the tree keeps apart
  // ---------------------------------------------------------------------

  lemma NoDotName(s: string)
    requires s != "" && '/' !in s && '.' !in s
    ensures DirectoryName(s)
  {
    assert |s| >= 5 ==> s[|s| - 5..][0] == s[|s| - 5] != '.';
  }

  /** Every prefix a write drops is a directory of the tree, whatever the ids. */
  lemma ScopePrefixesAddressable(scope: WriteScope, project: Option<int>, version: Option<int>, i: nat)
    requires i < |PrefixesFor(scope, project, version)|
    ensures var prefix := PrefixesFor(scope, project, version)[i];
            Addressable(prefix) && Segments(Join(prefix, ':')) == prefix
  {
    var prefix := PrefixesFor(scope, project, version)[i];
    forall f: nat | f < 22 ensures DirectoryName(FAMILIES[f]) && ':' !in FAMILIES[f] {
      FamilyText(f);
      NoDotName(FAMILIES[f]);
    }
    forall n ensures DirectoryName(Dec(n)) && ':' !in Dec(n) {
      DecText(n);
      NoDotName(Dec(n));
    }
    PrefixNames(scope, project, version, i);
    SplitJoin(prefix, ':');
  }

  ghost predicate IsFamilyOrId(s: string) {
    (exists f: nat :: f < 22 && FAMILIES[f] == s) || exists n :: Dec(n) == s
  }

  lemma PrefixNames(scope: WriteScope, project: Option<int>, version: Option<int>, i: nat)
    requires i < |PrefixesFor(scope, project, version)|
    ensures PrefixesFor(scope, project, version)[i] != []
    ensures forall s <- PrefixesFor(scope, project, version)[i] :: IsFamilyOrId(s)
  {
    var prefix := PrefixesFor(scope, project, version)[i];
    if (scope.ProjectScope? || scope.VersionScope?) && project.Some? {
      ScopeHeads(scope, project, version, i);
      forall s | s in prefix[1..] ensures exists n :: Dec(n) == s {
        assert s == Dec(project.value) || (version.Some? && s == Dec(version.value));
      }
      assert prefix == [prefix[0]] + prefix[1..];
    } else {
      assert FAMILIES[17] == "projects" && FAMILIES[20] == "git_connections" && FAMILIES[21] == "git_connection";
    }
  }
}
