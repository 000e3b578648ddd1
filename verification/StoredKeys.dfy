/** From reads to files: which reads the file cache keeps apart, and which share a file. */
module StoredKeys {
  import opened Text
  import opened CacheKeys
  import opened FileStore

  predicate SafePart(s: string) {
    ':' !in s && DirectoryName(s)
  }

  // ---------------------------------------------------------------------
  // Which reads have storable keys
  // ---------------------------------------------------------------------

  /** Part i of the key is a text that a caller gives, or the family name of a read without any. */
  predicate TextAt(r: Request, i: nat) {
    if Filtered(r) then i == 3 || i >= 6 else i == FreeAt(r)
  }

  predicate CutsToDirectories(s: string) {
    forall piece <- Split(s, ':') :: DirectoryName(piece)
  }

  /** A caller's texts stay directory names when cut at their colons; the last part's last piece need only
      hold no slash. */
  predicate PlainRequest(r: Request) {
    var n := |Parts(r)| - 1;
    forall i :: 0 <= i <= n && TextAt(r, i) ==>
      if i < n then CutsToDirectories(Parts(r)[i]) else Storable(Split(Parts(r)[i], ':'))
  }

  lemma WordText(word: string)
    requires word == "True" || word == "False" || word == "None"
    ensures ':' !in word && '/' !in word && '.' !in word && word != ""
  {}

  lemma WordPart(word: string)
    requires word == "True" || word == "False" || word == "None"
    ensures SafePart(word)
  {
    WordText(word);
    NoDotName(word);
  }

  lemma WordParts()
    ensures SafePart("True") && SafePart("False") && SafePart("None")
  {
    WordPart("True");
    WordPart("False");
    WordPart("None");
  }

  lemma NumberPart(n: int)
    ensures SafePart(Dec(n))
  {
    DecText(n);
    NoDotName(Dec(n));
  }

  lemma ShownParts()
    ensures forall n :: SafePart(Dec(n))
    ensures forall b :: SafePart(ShowBool(b))
    ensures SafePart("None")
  {
    WordParts();
    forall n ensures SafePart(Dec(n)) { NumberPart(n); }
  }

  lemma OptionalInt(n: Option<int>)
    ensures SafePart(ShowInt(n))
  {
    ShownParts();
  }

  lemma ListingArguments(read: VersionRead, i: nat)
    requires Filtered(InVersion(0, 0, read)) && 1 <= i < 3
    ensures SafePart(VersionArguments(read)[i])
  {
    NumberPart(read.page);
    NumberPart(read.pageSize);
  }

  lemma PagedArguments(read: VersionRead, i: nat)
    requires read.DimensionGroups? || read.FactTables? || read.Relationships?
    requires 1 <= i < |VersionArguments(read)|
    ensures SafePart(VersionArguments(read)[i])
  {
    NumberPart(read.page);
    NumberPart(read.pageSize);
    if read.Relationships? {
      OptionalInt(read.factTable);
      OptionalInt(read.dimensionGroup);
    }
  }

  lemma PlainArguments(read: VersionRead, i: nat)
    requires !Filtered(InVersion(0, 0, read)) && i < |VersionArguments(read)| && i + 3 != FreeAt(InVersion(0, 0, read))
    ensures SafePart(VersionArguments(read)[i])
  {
    if read.DimensionGroups? || read.FactTables? || read.Relationships? {
      PagedArguments(read, i);
    } else if i == 0 {
      NumberPart(read.id);
    } else {
      WordParts();
    }
  }

  lemma FixedArguments(r: Request, i: nat)
    requires r.InVersion? && 3 <= i < |Parts(r)| && !TextAt(r, i)
    ensures SafePart(Parts(r)[i])
  {
    if Filtered(r) { ListingArguments(r.read, i - 3); } else { PlainArguments(r.read, i - 3); }
  }

  lemma FamilyPart(r: Request)
    ensures SafePart(Parts(r)[0])
  {
    FamilyAt(r);
    FamilyText(FamilyIndex(r));
    NoDotName(FAMILIES[FamilyIndex(r)]);
  }

  lemma OutsideVersion(r: Request, i: nat)
    requires !r.InVersion? && 1 <= i < |Parts(r)| && !TextAt(r, i)
    ensures SafePart(Parts(r)[i])
  {
    match r {
      case Projects(pg, ps) => NumberPart(pg); NumberPart(ps);
      case Versions(p, pg, ps) => NumberPart(p); NumberPart(pg); NumberPart(ps);
      case ProjectAccess(p, _) => NumberPart(p);
      case GitConnections(pg, ps) => NumberPart(pg); NumberPart(ps);
      case GitConnection(id) => NumberPart(id);
    }
  }

  /** What is not a caller's text is a directory name without a colon. */
  lemma FixedPart(r: Request, i: nat)
    requires i < |Parts(r)| && !TextAt(r, i)
    ensures SafePart(Parts(r)[i])
  {
    if i == 0 {
      FamilyPart(r);
    } else if !r.InVersion? {
      OutsideVersion(r, i);
    } else if i >= 3 {
      FixedArguments(r, i);
    } else {
      NumberPart(r.project);
      NumberPart(r.version);
    }
  }

  lemma SafeCuts(s: string)
    requires SafePart(s)
    ensures CutsToDirectories(s) && Storable(Split(s, ':'))
  {
    SplitPlain(s, ':');
  }

  lemma StorableConcat(a: seq<string>, b: seq<string>)
    requires b != []
    ensures Storable(a + b) <==> (forall s <- a :: DirectoryName(s)) && Storable(b)
  {
    var n := |a + b| - 1;
    assert (a + b)[n] == b[|b| - 1];
    if Storable(a + b) {
      assert forall i :: 0 <= i < |a| ==> (a + b)[i] == a[i];
      assert forall i :: 0 <= i < |b| - 1 ==> (a + b)[|a| + i] == b[i];
    }
  }

  /** Joined parts make a storable key exactly when each of them is cut into directory names, up to the last piece. */
  lemma {:induction false} StorableJoin(parts: seq<string>)
    requires parts != []
    ensures var n := |parts| - 1;
      Storable(Split(Join(parts, ':'), ':')) <==>
      (forall i :: 0 <= i < n ==> CutsToDirectories(parts[i])) && Storable(Split(parts[n], ':'))
  {
    if |parts| > 1 {
      var rest := parts[1..];
      SplitConcat(parts[0], Join(rest, ':'), ':');
      StorableConcat(Split(parts[0], ':'), Split(Join(rest, ':'), ':'));
      StorableJoin(rest);
      assert forall i :: 1 <= i < |parts| ==> parts[i] == rest[i - 1];
    }
  }

  /** A read's key is storable exactly when its texts are plain. */
  lemma StorableExactlyWhen(r: Request)
    ensures Storable(Segments(Key(r))) <==> PlainRequest(r)
  {
    StorableJoin(Parts(r));
    forall i: nat | i < |Parts(r)| && !TextAt(r, i)
      ensures CutsToDirectories(Parts(r)[i]) && Storable(Split(Parts(r)[i], ':'))
    {
      FixedPart(r, i);
      SafeCuts(Parts(r)[i]);
    }
  }

  // ---------------------------------------------------------------------
  // Which reads share a file
  // ---------------------------------------------------------------------

  lemma SameSegments(a: Request, b: Request)
    ensures Segments(Key(a)) == Segments(Key(b)) <==> Key(a) == Key(b)
  {
    JoinSplit(Key(a), ':');
    JoinSplit(Key(b), ':');
  }

  function FileFor(r: Request): Path {
    KeyToPath(Key(r))
  }

  /** Plain reads with colons at most in the one free place share a file exactly when they are the same read, an
      optional text spelled "None" counting as absent; and no read's file stands in another's way. */
  lemma FilesIdentifyRequests(a: Request, b: Request)
    requires PlainRequest(a) && PlainRequest(b)
    ensures Identifiable(a) && Identifiable(b) ==> (FileFor(a) == FileFor(b) <==> Canonical(a) == Canonical(b))
    ensures FileFor(a) == FileFor(b) <==> Key(a) == Key(b)
    ensures !Below(FileFor(a), FileFor(b))
  {
    StorableExactlyWhen(a);
    StorableExactlyWhen(b);
    FilesKeptApart(Segments(Key(a)), Segments(Key(b)));
    SameSegments(a, b);
    if Identifiable(a) && Identifiable(b) { KeysIdentifyRequests(a, b); }
  }

  /** The last segment of the read's key is an absolute path. */
  predicate Escapes(r: Request) {
    var s := Segments(Key(r));
    StartsSlash(s[|s| - 1])
  }

  lemma AbsoluteExactlyWhen(r: Request)
    ensures Absolute(Segments(Key(r))) <==> Escapes(r)
  {
    LeadingSegments(r);
    FamilyText(FamilyIndex(r));
    assert FAMILIES[FamilyIndex(r)][0] in FAMILIES[FamilyIndex(r)];
    AbsoluteByLast(Segments(Key(r)));
  }

  /** Two reads share a file if and only if both or neither escape, the pieces of their keys between colons and
      slashes agree but for empty and "." ones before the last, and the last pieces are equal. */
  lemma SharesFileExactlyWhen(a: Request, b: Request)
    ensures var x, y := Segments(Key(a)), Segments(Key(b));
      FileFor(a) == FileFor(b) <==>
      Escapes(a) == Escapes(b) && Components(Lead(x)) == Components(Lead(y)) && LastPiece(x) == LastPiece(y)
  {
    AbsoluteExactlyWhen(a);
    AbsoluteExactlyWhen(b);
    FilesAgreeExactlyWhen(Segments(Key(a)), Segments(Key(b)));
  }

  /** A read's file stands where another read needs a directory if and only if both or neither escape and the other
      goes on below the same pieces with the first's last piece and ".json". */
  lemma ObstructsExactlyWhen(a: Request, b: Request)
    ensures var x, y := Segments(Key(a)), Segments(Key(b));
      var c, d := Components(Lead(x)), Components(Lead(y));
      Below(FileFor(a), FileFor(b)) <==>
      Escapes(a) == Escapes(b) && |c| < |d| && d[..|c|] == c && d[|c|] == LastPiece(x) + ".json"
  {
    AbsoluteExactlyWhen(a);
    AbsoluteExactlyWhen(b);
    FileBelowExactlyWhen(Segments(Key(a)), Segments(Key(b)));
  }

  // ---------------------------------------------------------------------
  // Which reads' files a write's drops reach
  // ---------------------------------------------------------------------

  /** How many leading segments of the key are its family and ids, whatever the texts. */
  function NamesAhead(r: Request): nat {
    if r.InVersion? then 3 else if r.Versions? || r.ProjectAccess? then 2 else 1
  }

  lemma LeadingNames(r: Request)
    ensures var s := Segments(Key(r));
      NamesAhead(r) < |s| && s[0] == Parts(r)[0] && forall i :: 0 <= i < NamesAhead(r) ==> PlainName(s[i])
  {
    LeadingSegments(r);
    SplitCount(Parts(r), ':');
    FamilyPart(r);
    FamilyAt(r);
    if r.InVersion? || r.Versions? || r.ProjectAccess? { NumberPart(r.project); }
    if r.InVersion? { NumberPart(r.version); }
  }

  /** A prefix of a scope goes no further than a read's ids, or is of another family. */
  lemma PrefixFits(scope: WriteScope, project: Option<int>, version: Option<int>, i: nat, r: Request)
    requires i < |PrefixesFor(scope, project, version)|
    ensures var prefix := PrefixesFor(scope, project, version)[i];
      prefix != [] && (|prefix| <= NamesAhead(r) || prefix[0] != Parts(r)[0])
  {
    if (scope.ProjectScope? || scope.VersionScope?) && project.Some? {
      ScopeHeads(scope, project, version, i);
      FamilyAt(r);
      FamiliesDistinct(i, FamilyIndex(r));
      ShortPrefixes(scope, project, version, i);
    }
  }

  lemma ShortPrefixes(scope: WriteScope, project: Option<int>, version: Option<int>, i: nat)
    requires (scope.ProjectScope? || scope.VersionScope?) && project.Some?
    requires i < |PrefixesFor(scope, project, version)|
    ensures |PrefixesFor(scope, project, version)[i]| <= if i < 17 then 3 else if i == 17 then 1 else 2
  {}

  /** No piece of the key's path steps to a parent directory. */
  predicate NoParents(r: Request) {
    ".." !in Lead(Segments(Key(r)))
  }

  /** The drops of a scope reach a read's file if and only if the read is in the scope and does not escape. */
  lemma ReachedExactlyWhen(scope: WriteScope, project: Option<int>, version: Option<int>, r: Request)
    requires NoParents(r)
    ensures Reached(PrefixesFor(scope, project, version), FileFor(r)) <==>
            InScope(scope, project, version, r) && !Escapes(r)
  {
    var prefixes, s := PrefixesFor(scope, project, version), Segments(Key(r));
    PrefixesCoverScope(scope, project, version, r);
    AbsoluteExactlyWhen(r);
    LeadingNames(r);
    forall i: nat | i < |prefixes|
      ensures Reaches(prefixes[i], FileFor(r)) <==> prefixes[i] <= s && !Escapes(r)
    {
      PrefixFits(scope, project, version, i, r);
      ReachesKey(prefixes[i], s, NamesAhead(r));
    }
    ReachedByCover(prefixes, FileFor(r), s, !Escapes(r));
  }

  lemma ReachedByCover(prefixes: seq<seq<string>>, p: Path, s: seq<string>, inside: bool)
    requires forall i: nat | i < |prefixes| :: Reaches(prefixes[i], p) <==> prefixes[i] <= s && inside
    ensures Reached(prefixes, p) <==> Covers(prefixes, s) && inside
  {
    if Reached(prefixes, p) {
      var i: nat :| i < |prefixes| && Reaches(prefixes[i], p);
      assert prefixes[i] <= s;
    }
  }

  lemma StorableInside(s: seq<string>)
    requires Storable(s) && |s| > 1
    ensures ".." !in Lead(s) && !StartsSlash(s[|s| - 1])
  {
    var init, last := s[..|s| - 1], s[|s| - 1];
    assert s == init + [last];
    LeadOfNames(init, last);
  }

  /** Plain reads neither escape nor step to a parent. */
  lemma PlainInside(r: Request)
    requires PlainRequest(r)
    ensures NoParents(r) && !Escapes(r)
  {
    StorableExactlyWhen(r);
    LeadingSegments(r);
    StorableInside(Segments(Key(r)));
  }

  // ---------------------------------------------------------------------
  // Which sets of reads the tree keeps apart
  // ---------------------------------------------------------------------

  /** Where the cache keeps a read's entry; FileFor is the file cache's own placement. */
  type Placement = Request -> Path

  function OnTree(): Placement {
    (r: Request) => FileFor(r)
  }

  /** No two of the reads share a file, and the drops of every scope a read is in reach its file. */
  ghost predicate KeptApart(at: Placement, among: iset<Request>) {
    && (forall a, b :: a in among && b in among && at(a) == at(b) ==> a == b)
    && (forall r, scope, project, version :: r in among && InScope(scope, project, version, r) ==>
          Reached(PrefixesFor(scope, project, version), at(r)))
  }

  /** Reads whose texts are plain, with colons at most in the free place, and no optional text spelled "None". */
  ghost function PlainReads(): iset<Request> {
    iset r: Request | PlainRequest(r) && Identifiable(r) && Canonical(r) == r
  }

  lemma PlainReadsKeptApart()
    ensures KeptApart(OnTree(), PlainReads())
  {
    var at, among := OnTree(), PlainReads();
    forall a, b | a in among && b in among && at(a) == at(b) ensures a == b {
      FilesIdentifyRequests(a, b);
    }
    forall r, scope, project, version | r in among && InScope(scope, project, version, r)
      ensures Reached(PrefixesFor(scope, project, version), at(r))
    {
      PlainInside(r);
      ReachedExactlyWhen(scope, project, version, r);
    }
  }

  /** Without steps to a parent directory, reads are kept apart exactly when none escapes and no two share a file. */
  lemma KeptApartExactlyWhen(among: iset<Request>)
    requires forall r <- among :: NoParents(r)
    ensures KeptApart(OnTree(), among) <==>
            && (forall r <- among :: !Escapes(r))
            && (forall a, b :: a in among && b in among && FileFor(a) == FileFor(b) ==> a == b)
  {
    var at := OnTree();
    forall r, scope, project, version | r in among && InScope(scope, project, version, r)
      ensures Reached(PrefixesFor(scope, project, version), at(r)) <==> !Escapes(r)
    {
      ReachedExactlyWhen(scope, project, version, r);
    }
    forall r | r in among ensures exists scope, project, version :: InScope(scope, project, version, r) {
      EveryReadHasAScope(r);
    }
  }

  lemma EveryReadHasAScope(r: Request)
    ensures exists scope, project, version :: InScope(scope, project, version, r)
  {
    if r.InVersion? || r.Versions? || r.ProjectAccess? {
      assert InScope(ProjectScope, Some(r.project), None, r);
    } else if r.Projects? {
      assert InScope(GlobalScope, None, None, r);
    } else {
      assert InScope(GitScope, None, None, r);
    }
  }

  // ---------------------------------------------------------------------
  // Reads that the tree does not keep apart
  // ---------------------------------------------------------------------

  function DataMartParts(p: int, v: int): seq<string> {
    ["data_marts", Dec(p), Dec(v), "en", Dec(1), Dec(100), "None", "None"]
  }

  /** A data-mart search, as the tool builds it without filters. */
  function Search(p: int, v: int, text: string): Request {
    InVersion(p, v, DataMarts("en", 1, 100, None, None, Some(text)))
  }

  lemma DataMartPartsSafe(p: int, v: int)
    ensures forall s <- DataMartParts(p, v) :: SafePart(s)
  {
    ShownParts();
    NoDotName("en");
    NoDotName("data_marts");
  }

  lemma SearchSegments(p: int, v: int, text: string)
    ensures Segments(Key(Search(p, v, text))) == DataMartParts(p, v) + Split(text, ':')
  {
    var r := Search(p, v, text);
    DataMartPartsSafe(p, v);
    assert Parts(r) == DataMartParts(p, v) + [text];
    SplitAround(Parts(r), 8, ':');
    assert Parts(r)[..8] == DataMartParts(p, v) && Parts(r)[9..] == [];
  }

  lemma SlashOrColon(head: seq<string>, x: string, y: string)
    requires head != [] && x != "" && !StartsSlash(x) && !StartsSlash(y)
    ensures Lead(head + [x + "/" + y]) == Lead(head + [x] + [y])
    ensures LastPiece(head + [x + "/" + y]) == LastPiece(head + [x] + [y])
    ensures !StartsSlash(x + "/" + y)
  {
    var h, p, q := Split(Join(head, '/'), '/'), Split(x, '/'), Split(y, '/');
    assert (x + "/" + y)[0] == x[0];
    LeadOf(head, x + "/" + y);
    LeadOf(head + [x], y);
    SplitConcat(x, y, '/');
    JoinConcat(head, [x], '/');
    SplitConcat(Join(head, '/'), x, '/');
    assert (p + q)[..|p + q| - 1] == p + q[..|q| - 1];
    Associates(h, p, q[..|q| - 1]);
  }

  lemma LastSegment(r: Request, head: seq<string>, last: string)
    requires Segments(Key(r)) == head + [last]
    ensures Escapes(r) <==> StartsSlash(last)
  {}

  lemma DifferentSearches(p: int, v: int, x: string, y: string)
    requires x != y && (x != "None" || y != "") && ':' in x
    ensures Canonical(Search(p, v, x)) != Canonical(Search(p, v, y))
  {
    FixedWords(true);
  }

  lemma SearchIdentifiable(p: int, v: int, text: string)
    ensures Identifiable(Search(p, v, text))
  {
    DataMartPartsSafe(p, v);
    assert Parts(Search(p, v, text)) == DataMartParts(p, v) + [text];
  }

  /** A slash and a colon in a search come to the same: one file for two reads that have different keys. */
  lemma SlashSharesFile(p: int, v: int, x: string, y: string)
    requires x != "" && ':' !in x && ':' !in y && !StartsSlash(x) && !StartsSlash(y)
    ensures var slash, colon := Search(p, v, x + "/" + y), Search(p, v, x + ":" + y);
      FileFor(slash) == FileFor(colon) && Key(slash) != Key(colon)
  {
    var head := DataMartParts(p, v);
    var slash, colon := Search(p, v, x + "/" + y), Search(p, v, x + ":" + y);
    SearchSegments(p, v, x + "/" + y);
    SearchSegments(p, v, x + ":" + y);
    SplitPlain(x + "/" + y, ':');
    SplitHead(x, y, ':');
    SplitPlain(y, ':');
    Associates(head, [x], [y]);
    SlashOrColon(head, x, y);
    LastSegment(slash, head, x + "/" + y);
    LastSegment(colon, head + [x], y);
    SharesFileExactlyWhen(slash, colon);
    assert (x + ":" + y)[|x|] == ':' && (x + "/" + y)[|x|] == '/';
    DifferentSearches(p, v, x + ":" + y, x + "/" + y);
    SearchIdentifiable(p, v, x + "/" + y);
    SearchIdentifiable(p, v, x + ":" + y);
    KeysIdentifyRequests(slash, colon);
  }

  /** A search that starts with a slash has one file for all projects and versions, which no write's drops reach. */
  lemma AbsoluteSearch(p: int, v: int, q: int, w: int, text: string)
    requires StartsSlash(text) && ':' !in text
    ensures FileFor(Search(p, v, text)) == FileFor(Search(q, w, text))
    ensures forall prefix: seq<string> :: !Reaches(prefix, FileFor(Search(p, v, text)))
  {
    SearchSegments(p, v, text);
    SearchSegments(q, w, text);
    SplitPlain(text, ':');
    LastSegment(Search(p, v, text), DataMartParts(p, v), text);
    LastSegment(Search(q, w, text), DataMartParts(q, w), text);
    SharesFileExactlyWhen(Search(p, v, text), Search(q, w, text));
    AbsoluteExactlyWhen(Search(p, v, text));
    PathOfKey(Segments(Key(Search(p, v, text))));
  }

  lemma JsonBelow(head: seq<string>, text: string, json: string, rest: string)
    requires head != [] && (forall s <- head :: PlainName(s)) && json == text + ".json"
    requires '/' !in text && '/' !in rest
    ensures Below(FileOf(head + [text]), FileOf(head + [json] + [rest]))
  {
    LeadOfNames(head, text);
    LeadOfNames(head + [json], rest);
    ComponentsOfNames(head);
    ComponentsOfNames(head + [json]);
    assert head[0][0] in head[0];
    AbsoluteByLast(head + [text]);
    AbsoluteByLast(head + [json] + [rest]);
    FileBelowExactlyWhen(head + [text], head + [json] + [rest]);
  }

  /** Two searches of one listing: the file of the first is where the other needs a directory. */
  lemma FileAsDirectory(p: int, v: int, text: string, rest: string)
    requires ':' !in text && '/' !in text && ':' !in rest && '/' !in rest
    ensures Below(FileFor(Search(p, v, text)), FileFor(Search(p, v, text + ".json" + ":" + rest)))
  {
    var head, json := DataMartParts(p, v), text + ".json";
    SearchSegments(p, v, text);
    SearchSegments(p, v, json + ":" + rest);
    SplitPlain(text, ':');
    SplitPlain(rest, ':');
    SplitHead(json, rest, ':');
    Associates(head, [json], [rest]);
    DataMartPartsSafe(p, v);
    JsonBelow(head, text, json, rest);
  }

  lemma EmptyPiece(head: seq<string>, last: string)
    requires head != [] && !StartsSlash(last)
    ensures Components(Lead(head + [""] + [last])) == Components(Lead(head + [last]))
    ensures LastPiece(head + [""] + [last]) == LastPiece(head + [last])
  {
    var h, own := Split(Join(head, '/'), '/'), Split(last, '/');
    LeadOf(head, last);
    LeadOf(head + [""], last);
    JoinConcat(head, [""], '/');
    SplitConcat(Join(head, '/'), "", '/');
    PieceSkipped(h, "", own[..|own| - 1]);
  }

  lemma MeasuresSegments(p: int, v: int, language: string, sql: bool)
    ensures Segments(Key(InVersion(p, v, Measures(language, sql)))) ==
            ["measures", Dec(p), Dec(v)] + Split(language, ':') + [ShowBool(sql)]
  {
    var r := InVersion(p, v, Measures(language, sql));
    OneTextIdentifiable(r);
    SplitAround(Parts(r), 3, ':');
    assert Parts(r)[..3] == ["measures", Dec(p), Dec(v)] && Parts(r)[4..] == [ShowBool(sql)];
  }

  lemma LanguageSegments(p: int, v: int, language: string, sql: bool)
    requires ':' !in language
    ensures var head := ["measures", Dec(p), Dec(v), language];
      && Segments(Key(InVersion(p, v, Measures(language, sql)))) == head + [ShowBool(sql)]
      && Segments(Key(InVersion(p, v, Measures(language + ":", sql)))) == head + [""] + [ShowBool(sql)]
  {
    MeasuresSegments(p, v, language, sql);
    MeasuresSegments(p, v, language + ":", sql);
    SplitPlain(language, ':');
    SplitHead(language, "", ':');
    assert language + ":" + "" == language + ":";
  }

  /** An empty piece is lost on the way to the file: a language and the same with a colon after it share one. */
  lemma EmptyTextSharesFile(p: int, v: int, language: string, sql: bool)
    requires ':' !in language
    ensures var plain := InVersion(p, v, Measures(language, sql));
      var longer := InVersion(p, v, Measures(language + ":", sql));
      FileFor(plain) == FileFor(longer) && Key(plain) != Key(longer)
  {
    var plain, longer := InVersion(p, v, Measures(language, sql)), InVersion(p, v, Measures(language + ":", sql));
    var head, last := ["measures", Dec(p), Dec(v), language], ShowBool(sql);
    LanguageSegments(p, v, language, sql);
    WordParts();
    EmptyPiece(head, last);
    LastSegment(plain, head, last);
    LastSegment(longer, head + [""], last);
    SharesFileExactlyWhen(plain, longer);
    LanguageKeys(plain, longer);
  }

  lemma LanguageKeys(a: Request, b: Request)
    requires !Filtered(a) && !Filtered(b) && a != b
    ensures Key(a) != Key(b)
  {
    OneTextIdentifiable(a);
    OneTextIdentifiable(b);
    KeysIdentifyRequests(a, b);
  }
}
