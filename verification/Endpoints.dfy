/** The POST endpoints of the write client and which of them may carry an Idempotency-Key. */
module Endpoints {
  import opened Text

  // ---------------------------------------------------------------------
  // Paths and markers
  // ---------------------------------------------------------------------

  /** A URL path: each segment after a slash. */
  function PathText(segments: seq<string>): string {
    if segments == [] then "" else "/" + segments[0] + PathText(segments[1..])
  }

  const NO_IDEMPOTENCY_MARKERS: seq<string> :=
    ["/generate-sql", "/export/file", "/import/validate", "/import/preview", "/test"]

  predicate AcceptsIdempotencyKey(path: string) {
    !exists m :: 0 <= m < |NO_IDEMPOTENCY_MARKERS| && Contains(path, NO_IDEMPOTENCY_MARKERS[m])
  }

  predicate SlashFree(segments: seq<string>) {
    forall i :: 0 <= i < |segments| ==> '/' !in segments[i]
  }

  /** The segments start with all of the marker's but the last, then one that begins with its last. */
  predicate StartsAs(segments: seq<string>, marker: seq<string>) {
    if marker == [] then true
    else if segments == [] then false
    else if |marker| == 1 then marker[0] <= segments[0]
    else marker[0] == segments[0] && StartsAs(segments[1..], marker[1..])
  }

  predicate OccursIn(segments: seq<string>, marker: seq<string>) {
    exists i :: 0 <= i < |segments| && StartsAs(segments[i..], marker)
  }

  /** Where a slash follows both words, one text starts the other only if the words are equal. */
  lemma ConsPrefix(a: string, x: string, b: string, y: string)
    requires '/' !in a && '/' !in b && x != "" && x[0] == '/' && (y == "" || y[0] == '/')
    ensures a + x <= b + y <==> a == b && x <= y
  {
    assert y != "" ==> (b + y)[|b|] == '/';
    assert forall i :: 0 <= i < |a| ==> (a + x)[i] == a[i] != '/';
    assert forall i :: 0 <= i < |b| ==> (b + y)[i] == b[i] != '/';
    if a + x <= b + y {
      assert (b + y)[|a|] == (a + x)[|a|] == '/';
      assert forall i :: 0 <= i < |a| ==> (b + y)[i] == (a + x)[i];
      assert |a| == |b|;
      assert a == (b + y)[..|a|];
      assert x == (a + x)[|a|..] && y == (b + y)[|b|..];
    }
    if a == b && x <= y {
      assert (b + y)[..|a + x|] == a + x;
    }
  }

  lemma LastPrefix(a: string, b: string, y: string)
    requires '/' !in a && '/' !in b && (y == "" || y[0] == '/')
    ensures a <= b + y <==> a <= b
  {
    assert y != "" ==> (b + y)[|b|] == '/';
    assert forall i :: 0 <= i < |a| ==> a[i] != '/';
    if a <= b + y {
      assert |a| <= |b|;
    }
  }

  lemma SlashPrefix(a: string, b: string)
    ensures "/" + a <= "/" + b <==> a <= b
  {
    assert ("/" + a)[1..] == a && ("/" + b)[1..] == b;
    if a <= b { assert ("/" + b)[..1 + |a|] == "/" + a; }
    if "/" + a <= "/" + b { assert ("/" + b)[..1 + |a|][1..] == b[..|a|]; }
  }

  lemma {:induction false} PrefixOfPath(segments: seq<string>, marker: seq<string>)
    requires SlashFree(segments) && SlashFree(marker) && marker != []
    ensures PathText(marker) <= PathText(segments) <==> StartsAs(segments, marker)
  {
    if segments != [] {
      var rest, tail := PathText(segments[1..]), PathText(marker[1..]);
      SlashPrefix(marker[0] + tail, segments[0] + rest);
      assert PathText(marker) == "/" + (marker[0] + tail) && PathText(segments) == "/" + (segments[0] + rest);
      if |marker| == 1 {
        assert marker[0] + tail == marker[0];
        LastPrefix(marker[0], segments[0], rest);
      } else {
        ConsPrefix(marker[0], tail, segments[0], rest);
        PrefixOfPath(segments[1..], marker[1..]);
      }
    }
  }

  /** Past the head of a text, whose positions other than the first hold no slash. */
  lemma FoundPastHead(head: string, rest: string, needle: string, i: nat)
    requires '/' !in head && needle != "" && needle[0] == '/'
    ensures FoundAt("/" + head + rest, needle, i) <==>
              if i == 0 then needle <= "/" + head + rest else i > |head| && FoundAt(rest, needle, i - 1 - |head|)
  {
    var text, skip := "/" + head + rest, 1 + |head|;
    assert text[skip..] == rest;
    if 0 < i < skip {
      assert text[i] == head[i - 1];
    } else if skip <= i && i + |needle| <= |text| {
      assert text[i..i + |needle|] == rest[i - skip..i - skip + |needle|];
    }
  }

  lemma ContainsCons(head: string, rest: string, needle: string)
    requires '/' !in head && needle != "" && needle[0] == '/'
    ensures Contains("/" + head + rest, needle) <==> needle <= "/" + head + rest || Contains(rest, needle)
  {
    var text, skip := "/" + head + rest, 1 + |head|;
    if Contains(text, needle) {
      var i: nat :| i <= |text| && FoundAt(text, needle, i);
      FoundPastHead(head, rest, needle, i);
    }
    FoundPastHead(head, rest, needle, 0);
    if Contains(rest, needle) {
      var i: nat :| i <= |rest| && FoundAt(rest, needle, i);
      FoundPastHead(head, rest, needle, i + skip);
    }
  }

  lemma OccursCons(s: string, tail: seq<string>, marker: seq<string>)
    ensures OccursIn([s] + tail, marker) <==> StartsAs([s] + tail, marker) || OccursIn(tail, marker)
  {
    var all := [s] + tail;
    assert all[0..] == all;
    if i :| 0 <= i < |all| && StartsAs(all[i..], marker) {
      if i > 0 { assert all[i..] == tail[i - 1..]; }
    }
    if i :| 0 <= i < |tail| && StartsAs(tail[i..], marker) {
      assert all[i + 1..] == tail[i..];
    }
  }

  /** A marker is a substring of a path exactly when it occurs among the segments. */
  lemma {:induction false} MarkerInPath(segments: seq<string>, marker: seq<string>)
    requires SlashFree(segments) && SlashFree(marker) && marker != []
    ensures Contains(PathText(segments), PathText(marker)) <==> OccursIn(segments, marker)
  {
    if segments != [] {
      MarkerInPath(segments[1..], marker);
      PrefixOfPath(segments, marker);
      ContainsCons(segments[0], PathText(segments[1..]), PathText(marker));
      OccursCons(segments[0], segments[1..], marker);
      assert [segments[0]] + segments[1..] == segments;
    }
  }

  // ---------------------------------------------------------------------
  // The endpoints
  // ---------------------------------------------------------------------

  datatype Collection = Measures | Dimensions | Facts | DimensionGroups | FactTables | Relationships

  /** The collections with a bulk form. */
  datatype Field = MeasureField | DimensionField | FactField

  datatype Element = MeasureElement | DimensionElement | FactElement | GroupElement

  datatype Transfer = ExportGit | ExportFile | ImportValidate | ImportPreview | ImportGit | ImportFile

  /** Every POST the clients make. */
  datatype Endpoint =
    | CreateProject
    | CreateVersion(project: int)
    | SetProjectAccess(project: int)
    | Create(project: int, version: int, collection: Collection)
    | BulkWrite(project: int, version: int, field: Field)
    | AddGroupDimensions(project: int, version: int, id: int)
    | AssignToFactTable(project: int, version: int, id: int, element: Element)
    | CreateFilter(project: int, version: int, factTable: Option<int>)
    | TransferVersion(project: int, version: int, transfer: Transfer)
    | CreateGitConnection
    | TestGitConnection(id: int)
    | GenerateSql(project: int, version: int, id: int)

  function CollectionName(c: Collection): string {
    match c
    case Measures => "measures"
    case Dimensions => "dimensions"
    case Facts => "facts"
    case DimensionGroups => "dimension-groups"
    case FactTables => "fact-tables"
    case Relationships => "relationships"
  }

  function FieldCollection(f: Field): Collection {
    match f
    case MeasureField => Measures
    case DimensionField => Dimensions
    case FactField => Facts
  }

  function ElementName(e: Element): string {
    match e
    case MeasureElement => "measures"
    case DimensionElement => "dimensions"
    case FactElement => "facts"
    case GroupElement => "dimension-groups"
  }

  function TransferSegments(t: Transfer): seq<string> {
    match t
    case ExportGit => ["export", "git"]
    case ExportFile => ["export", "file"]
    case ImportValidate => ["import", "validate"]
    case ImportPreview => ["import", "preview"]
    case ImportGit => ["import", "git"]
    case ImportFile => ["import", "file"]
  }

  function ProjectPrefix(project: int): seq<string> {
    ["df-api", "v2", "projects", Dec(project)]
  }

  function VersionPrefix(project: int, version: int): seq<string> {
    ProjectPrefix(project) + ["versions", Dec(version)]
  }

  function SegmentsOf(e: Endpoint): seq<string> {
    match e
    case CreateProject => ["df-api", "v2", "projects"]
    case CreateVersion(p) => ProjectPrefix(p) + ["versions"]
    case SetProjectAccess(p) => ProjectPrefix(p) + ["access"]
    case Create(p, v, c) => VersionPrefix(p, v) + [CollectionName(c)]
    case BulkWrite(p, v, f) => VersionPrefix(p, v) + [CollectionName(FieldCollection(f)), "bulk"]
    case AddGroupDimensions(p, v, id) => VersionPrefix(p, v) + ["dimension-groups", Dec(id), "dimensions"]
    case AssignToFactTable(p, v, id, el) => VersionPrefix(p, v) + ["fact-tables", Dec(id), ElementName(el)]
    case CreateFilter(p, v, ft) =>
      VersionPrefix(p, v) + (if ft.Some? then ["fact-tables", Dec(ft.value)] else []) + ["verification-filters"]
    case TransferVersion(p, v, t) => VersionPrefix(p, v) + TransferSegments(t)
    case CreateGitConnection => ["df-api", "v2", "git-connections"]
    case TestGitConnection(id) => ["df-api", "v2", "git-connections", Dec(id), "test"]
    case GenerateSql(p, v, id) => VersionPrefix(p, v) + ["data-marts", Dec(id), "generate-sql"]
  }

  function PathOf(e: Endpoint): string {
    PathText(SegmentsOf(e))
  }

  /** The documented exceptions. */
  predicate IgnoresKey(e: Endpoint) {
    || e.TestGitConnection? || e.GenerateSql?
    || (e.TransferVersion? && (e.transfer.ExportFile? || e.transfer.ImportValidate? || e.transfer.ImportPreview?))
  }

  /** `_write`: the key is passed on unless the path is marked. */
  function KeySent(e: Endpoint, key: Option<string>): Option<string> {
    if AcceptsIdempotencyKey(PathOf(e)) then key else None
  }

  /** The markers as path segments. */
  const MARKERS: seq<seq<string>> :=
    [["generate-sql"], ["export", "file"], ["import", "validate"], ["import", "preview"], ["test"]]

  lemma MarkerText(m: nat)
    requires m < 5
    ensures PathText(MARKERS[m]) == NO_IDEMPOTENCY_MARKERS[m]
  {
    var marker := MARKERS[m];
    if |marker| == 2 {
      assert marker[1..] == [marker[1]];
      assert PathText(marker) == "/" + marker[0] + ("/" + marker[1]);
    } else {
      assert PathText(marker) == "/" + marker[0];
    }
  }

  lemma MarkerWords(m: nat)
    requires m < 5
    ensures MARKERS[m] != [] && SlashFree(MARKERS[m])
  {}

  predicate Excepted(segments: seq<string>) {
    exists m :: 0 <= m < |MARKERS| && OccursIn(segments, MARKERS[m])
  }

  lemma KeyByOccurrence(segments: seq<string>)
    requires SlashFree(segments)
    ensures AcceptsIdempotencyKey(PathText(segments)) <==> !Excepted(segments)
  {
    forall m: nat | m < 5
      ensures Contains(PathText(segments), NO_IDEMPOTENCY_MARKERS[m]) <==> OccursIn(segments, MARKERS[m])
    {
      MarkerText(m);
      MarkerWords(m);
      MarkerInPath(segments, MARKERS[m]);
    }
  }

  // ---------------------------------------------------------------------
  // Which endpoints are excepted
  // ---------------------------------------------------------------------

  /** A segment that opens no marker: none starts with e, i or t, or with "ge". */
  predicate Harmless(s: string) {
    && '/' !in s
    && (s == "" || (s[0] != 'e' && s[0] != 'i' && s[0] != 't' && !(s[0] == 'g' && |s| >= 2 && s[1] == 'e')))
  }

  lemma DecHarmless(n: int)
    ensures Harmless(Dec(n))
  {
    var s := Dec(n);
    assert s[0] in s && (IsDigit(s[0]) || s[0] == '-');
    assert forall c <- s :: c != '/';
  }

  lemma HarmlessFirst(s: string, tail: seq<string>, m: nat)
    requires Harmless(s) && m < 5
    ensures OccursIn([s] + tail, MARKERS[m]) <==> OccursIn(tail, MARKERS[m])
  {
    OccursCons(s, tail, MARKERS[m]);
    var word := MARKERS[m][0];
    assert word[0] in ['e', 'i', 't'] || (word[0] == 'g' && word[1] == 'e');
    if word <= s {
      assert s[0] == word[0] && s[1] == word[1];
    }
  }

  lemma HarmlessHead(head: seq<string>, tail: seq<string>)
    requires forall i :: 0 <= i < |head| ==> Harmless(head[i])
    requires SlashFree(tail)
    ensures SlashFree(head + tail) && (Excepted(head + tail) <==> Excepted(tail))
    decreases |head|
  {
    if head != [] {
      HarmlessHead(head[1..], tail);
      assert head + tail == [head[0]] + (head[1..] + tail);
      forall m: nat | m < 5 ensures OccursIn(head + tail, MARKERS[m]) <==> OccursIn(head[1..] + tail, MARKERS[m]) {
        HarmlessFirst(head[0], head[1..] + tail, m);
      }
    } else {
      assert head + tail == tail;
    }
  }

  /** The part of an endpoint's path after its harmless head. */
  function Telling(e: Endpoint): seq<string> {
    match e
    case TransferVersion(_, _, t) => TransferSegments(t)
    case TestGitConnection(_) => ["test"]
    case GenerateSql(_, _, _) => ["generate-sql"]
    case _ => []
  }

  lemma FixedHarmless(s: string)
    requires s in ["df-api", "v2", "projects", "versions", "access", "bulk"]
    ensures Harmless(s)
  {}

  lemma LongHarmless(s: string)
    requires s in ["git-connections", "data-marts", "verification-filters"]
    ensures Harmless(s)
  {}

  lemma CollectionHarmless(c: Collection)
    ensures Harmless(CollectionName(c))
  {}

  lemma NamesHarmless()
    ensures Harmless("df-api") && Harmless("v2") && Harmless("projects") && Harmless("versions")
    ensures Harmless("access") && Harmless("bulk")
    ensures Harmless("git-connections") && Harmless("data-marts") && Harmless("verification-filters")
    ensures Harmless("dimension-groups") && Harmless("dimensions") && Harmless("fact-tables")
    ensures forall e :: Harmless(ElementName(e))
    ensures forall c :: Harmless(CollectionName(c))
  {
    FixedHarmless("df-api"); FixedHarmless("v2"); FixedHarmless("projects");
    FixedHarmless("versions"); FixedHarmless("access"); FixedHarmless("bulk");
    LongHarmless("git-connections"); LongHarmless("data-marts"); LongHarmless("verification-filters");
    forall c ensures Harmless(CollectionName(c)) { CollectionHarmless(c); }
    assert CollectionName(DimensionGroups) == "dimension-groups" && CollectionName(FactTables) == "fact-tables";
    assert CollectionName(Dimensions) == "dimensions";
    forall e ensures Harmless(ElementName(e)) {
      CollectionHarmless(match e case MeasureElement => Measures case DimensionElement => Dimensions
                                 case FactElement => Facts case GroupElement => DimensionGroups);
    }
  }

  predicate AllHarmless(segments: seq<string>) {
    forall i :: 0 <= i < |segments| ==> Harmless(segments[i])
  }

  lemma PrefixHarmless(project: int, version: int)
    ensures AllHarmless(ProjectPrefix(project)) && AllHarmless(VersionPrefix(project, version))
  {
    NamesHarmless();
    DecHarmless(project);
    DecHarmless(version);
  }

  /** The path up to its telling part. */
  function Head(e: Endpoint): seq<string> {
    match e
    case TransferVersion(p, v, _) => VersionPrefix(p, v)
    case TestGitConnection(id) => ["df-api", "v2", "git-connections", Dec(id)]
    case GenerateSql(p, v, id) => VersionPrefix(p, v) + ["data-marts", Dec(id)]
    case _ => SegmentsOf(e)
  }

  lemma HeadThenTelling(e: Endpoint)
    ensures SegmentsOf(e) == Head(e) + Telling(e)
  {}

  lemma HeadsHarmless(e: Endpoint)
    ensures AllHarmless(Head(e))
  {
    NamesHarmless();
    forall n ensures Harmless(Dec(n)) { DecHarmless(n); }
    if !e.CreateProject? && !e.CreateGitConnection? && !e.TestGitConnection? {
      PrefixHarmless(e.project, if e.CreateVersion? || e.SetProjectAccess? then 0 else e.version);
    }
  }

  lemma WordInPair(a: string, b: string, w: string)
    ensures OccursIn([a, b], [w]) <==> w <= a || w <= b
  {
    assert [a, b] == [a] + [b] && [b] == [b] + [];
    OccursCons(a, [b], [w]);
    OccursCons(b, [], [w]);
  }

  lemma WordsInPair(a: string, b: string, w: string, x: string)
    ensures OccursIn([a, b], [w, x]) <==> w == a && x <= b
  {
    assert [a, b] == [a] + [b] && [b] == [b] + [];
    OccursCons(a, [b], [w, x]);
    OccursCons(b, [], [w, x]);
    assert [w, x][1..] == [x] && [a, b][1..] == [b];
  }

  lemma ExceptedPair(a: string, b: string)
    ensures Excepted([a, b]) <==>
            || "generate-sql" <= a || "generate-sql" <= b || "test" <= a || "test" <= b
            || (a == "export" && "file" <= b) || (a == "import" && ("validate" <= b || "preview" <= b))
  {
    WordInPair(a, b, "generate-sql");
    WordsInPair(a, b, "export", "file");
    WordsInPair(a, b, "import", "validate");
    WordsInPair(a, b, "import", "preview");
    WordInPair(a, b, "test");
    ghost var s := [a, b];
    ghost var ms := MARKERS;
    assert Excepted(s) <==>
           || OccursIn(s, ms[0]) || OccursIn(s, ms[1]) || OccursIn(s, ms[2]) || OccursIn(s, ms[3])
           || OccursIn(s, ms[4]);
  }

  lemma TransferExcepted(t: Transfer)
    ensures SlashFree(TransferSegments(t))
    ensures Excepted(TransferSegments(t)) <==> t.ExportFile? || t.ImportValidate? || t.ImportPreview?
  {
    var s := TransferSegments(t);
    ExceptedPair(s[0], s[1]);
    assert s == [s[0], s[1]];
    assert "test"[0] == 't' && "preview"[0] == 'p';
    assert s[0][0] in ['e', 'i'] && s[1][0] in ['g', 'f', 'v', 'p'];
  }

  lemma SingleExcepted(word: string)
    requires word == "test" || word == "generate-sql"
    ensures SlashFree([word]) && Excepted([word])
  {
    var m := if word == "test" then 4 else 0;
    assert MARKERS[m] == [word];
    assert StartsAs([word][0..], MARKERS[m]);
  }

  /** `_v2_prefix`. */
  function V2Prefix(p: int, v: int): string {
    "/df-api/v2/projects/" + Dec(p) + "/versions/" + Dec(v)
  }

  lemma {:induction false} PathConcat(a: seq<string>, b: seq<string>)
    ensures PathText(a + b) == PathText(a) + PathText(b)
  {
    if a == [] {
      assert a + b == b;
    } else {
      assert (a + b)[1..] == a[1..] + b;
      PathConcat(a[1..], b);
    }
  }

  lemma PathOne(a: string)
    ensures PathText([a]) == "/" + a
  {}

  lemma PathTwo(a: string, b: string)
    ensures PathText([a, b]) == "/" + a + "/" + b
  {
    assert [a, b] == [a] + [b];
    PathConcat([a], [b]);
    PathOne(a);
    PathOne(b);
  }

  lemma PathThree(a: string, b: string, c: string)
    ensures PathText([a, b, c]) == "/" + a + "/" + b + "/" + c
  {
    assert [a, b, c] == [a, b] + [c];
    PathConcat([a, b], [c]);
    PathTwo(a, b);
    PathOne(c);
  }

  lemma PrefixTexts(p: int, v: int)
    ensures PathText(ProjectPrefix(p)) == "/df-api/v2/projects/" + Dec(p)
    ensures PathText(VersionPrefix(p, v)) == V2Prefix(p, v)
  {
    assert ProjectPrefix(p) == ["df-api", "v2", "projects"] + [Dec(p)];
    PathConcat(["df-api", "v2", "projects"], [Dec(p)]);
    PathThree("df-api", "v2", "projects");
    PathOne(Dec(p));
    assert "/" + "df-api" + "/" + "v2" + "/" + "projects" == "/df-api/v2/projects";
    assert "/df-api/v2/projects" + ("/" + Dec(p)) == "/df-api/v2/projects/" + Dec(p);
    PathConcat(ProjectPrefix(p), ["versions", Dec(v)]);
    PathTwo("versions", Dec(v));
    assert "/" + "versions" + "/" + Dec(v) == "/versions/" + Dec(v);
  }

  function CollectionPath(c: Collection): string {
    match c
    case Measures => "/measures"
    case Dimensions => "/dimensions"
    case Facts => "/facts"
    case DimensionGroups => "/dimension-groups"
    case FactTables => "/fact-tables"
    case Relationships => "/relationships"
  }

  function ElementPath(e: Element): string {
    match e
    case MeasureElement => "/measures"
    case DimensionElement => "/dimensions"
    case FactElement => "/facts"
    case GroupElement => "/dimension-groups"
  }

  function BulkPath(f: Field): string {
    match f
    case MeasureField => "/measures/bulk"
    case DimensionField => "/dimensions/bulk"
    case FactField => "/facts/bulk"
  }

  function TransferPath(t: Transfer): string {
    match t
    case ExportGit => "/export/git"
    case ExportFile => "/export/file"
    case ImportValidate => "/import/validate"
    case ImportPreview => "/import/preview"
    case ImportGit => "/import/git"
    case ImportFile => "/import/file"
  }

  /** The path as the client's methods write it. */
  function WrittenPath(e: Endpoint): string {
    match e
    case CreateProject => "/df-api/v2/projects"
    case CreateVersion(p) => "/df-api/v2/projects/" + Dec(p) + "/versions"
    case SetProjectAccess(p) => "/df-api/v2/projects/" + Dec(p) + "/access"
    case Create(p, v, c) => V2Prefix(p, v) + CollectionPath(c)
    case BulkWrite(p, v, f) => V2Prefix(p, v) + BulkPath(f)
    case AddGroupDimensions(p, v, id) => V2Prefix(p, v) + ("/dimension-groups/" + Dec(id) + "/dimensions")
    case AssignToFactTable(p, v, id, el) => V2Prefix(p, v) + ("/fact-tables/" + Dec(id) + ElementPath(el))
    case CreateFilter(p, v, None) => V2Prefix(p, v) + "/verification-filters"
    case CreateFilter(p, v, Some(ft)) => V2Prefix(p, v) + ("/fact-tables/" + Dec(ft) + "/verification-filters")
    case TransferVersion(p, v, t) => V2Prefix(p, v) + TransferPath(t)
    case CreateGitConnection => "/df-api/v2/git-connections"
    case TestGitConnection(id) => "/df-api/v2/git-connections" + ("/" + Dec(id) + "/test")
    case GenerateSql(p, v, id) => V2Prefix(p, v) + ("/data-marts/" + Dec(id) + "/generate-sql")
  }

  lemma Slashed(word: string, path: string)
    requires path == "/" + word
    ensures PathText([word]) == path
  {
    PathOne(word);
  }

  lemma CollectionWritten(c: Collection)
    ensures PathText([CollectionName(c)]) == CollectionPath(c)
  {
    Slashed(CollectionName(c), CollectionPath(c));
  }

  lemma ElementWritten(e: Element)
    ensures PathText([ElementName(e)]) == ElementPath(e)
  {
    Slashed(ElementName(e), ElementPath(e));
  }

  lemma TwoSlashed(a: string, b: string, path: string)
    requires path == "/" + a + "/" + b
    ensures PathText([a, b]) == path
  {
    PathTwo(a, b);
  }

  lemma BulkWritten(f: Field)
    ensures PathText([CollectionName(FieldCollection(f)), "bulk"]) == BulkPath(f)
  {
    TwoSlashed(CollectionName(FieldCollection(f)), "bulk", BulkPath(f));
  }

  lemma ExportWritten(t: Transfer)
    requires t.ExportGit? || t.ExportFile?
    ensures PathText(TransferSegments(t)) == TransferPath(t)
  {
    TwoSlashed("export", if t.ExportGit? then "git" else "file", TransferPath(t));
  }

  lemma ImportWritten(t: Transfer)
    requires !t.ExportGit? && !t.ExportFile?
    ensures PathText(TransferSegments(t)) == TransferPath(t)
  {
    match t {
      case ImportValidate => TwoSlashed("import", "validate", "/import/validate");
      case ImportPreview => TwoSlashed("import", "preview", "/import/preview");
      case ImportGit => TwoSlashed("import", "git", "/import/git");
      case ImportFile => TwoSlashed("import", "file", "/import/file");
    }
  }

  lemma InVersionWritten(p: int, v: int, rest: seq<string>)
    ensures PathText(VersionPrefix(p, v) + rest) == V2Prefix(p, v) + PathText(rest)
  {
    PathConcat(VersionPrefix(p, v), rest);
    PrefixTexts(p, v);
  }

  /** A path of a collection, an id and one more segment. */
  lemma IdWritten(p: int, v: int, a: string, id: int, b: string, before: string, after: string)
    requires before == "/" + a + "/" && PathText([b]) == after
    ensures PathText(VersionPrefix(p, v) + [a, Dec(id), b]) == V2Prefix(p, v) + (before + Dec(id) + after)
  {
    InVersionWritten(p, v, [a, Dec(id), b]);
    assert [a, Dec(id), b] == [a, Dec(id)] + [b];
    PathConcat([a, Dec(id)], [b]);
    PathTwo(a, Dec(id));
  }

  lemma GitWritten(id: int)
    ensures PathText(["df-api", "v2", "git-connections"]) == "/df-api/v2/git-connections"
    ensures PathText(["df-api", "v2", "git-connections"] + [Dec(id), "test"]) ==
            "/df-api/v2/git-connections" + ("/" + Dec(id) + "/test")
  {
    PathThree("df-api", "v2", "git-connections");
    assert "/" + "df-api" + "/" + "v2" + "/" + "git-connections" == "/df-api/v2/git-connections";
    PathConcat(["df-api", "v2", "git-connections"], [Dec(id), "test"]);
    PathTwo(Dec(id), "test");
    assert "/" + Dec(id) + "/" + "test" == "/" + Dec(id) + "/test";
  }

  lemma ProjectWritten(p: int)
    ensures PathText(["df-api", "v2", "projects"]) == "/df-api/v2/projects"
    ensures PathText(ProjectPrefix(p) + ["versions"]) == "/df-api/v2/projects/" + Dec(p) + "/versions"
    ensures PathText(ProjectPrefix(p) + ["access"]) == "/df-api/v2/projects/" + Dec(p) + "/access"
  {
    PathThree("df-api", "v2", "projects");
    assert "/" + "df-api" + "/" + "v2" + "/" + "projects" == "/df-api/v2/projects";
    PrefixTexts(p, p);
    PathConcat(ProjectPrefix(p), ["versions"]);
    PathConcat(ProjectPrefix(p), ["access"]);
    Slashed("versions", "/versions");
    Slashed("access", "/access");
  }

  lemma TableFilterWritten(p: int, v: int, id: int)
    ensures PathOf(CreateFilter(p, v, Some(id))) == WrittenPath(CreateFilter(p, v, Some(id)))
  {
    var table, last := "fact-tables", "verification-filters";
    Slashed(last, "/verification-filters");
    IdWritten(p, v, table, id, last, "/fact-tables/", "/verification-filters");
    FilterSegments(VersionPrefix(p, v), table, Dec(id), last);
  }

  lemma VersionFilterWritten(p: int, v: int)
    ensures PathOf(CreateFilter(p, v, None)) == WrittenPath(CreateFilter(p, v, None))
  {
    var last := "verification-filters";
    Slashed(last, "/verification-filters");
    InVersionWritten(p, v, [last]);
    assert VersionPrefix(p, v) + [] == VersionPrefix(p, v);
  }

  lemma FilterSegments(prefix: seq<string>, a: string, b: string, c: string)
    ensures prefix + [a, b] + [c] == prefix + [a, b, c]
  {}

  lemma ProjectsAsWritten(e: Endpoint)
    requires e.CreateProject? || e.CreateVersion? || e.SetProjectAccess?
    ensures PathOf(e) == WrittenPath(e)
  {
    ProjectWritten(if e.CreateProject? then 0 else e.project);
  }

  lemma GitAsWritten(e: Endpoint)
    requires e.CreateGitConnection? || e.TestGitConnection?
    ensures PathOf(e) == WrittenPath(e)
  {
    var id := if e.CreateGitConnection? then 0 else e.id;
    GitWritten(id);
    assert ["df-api", "v2", "git-connections", Dec(id), "test"] ==
           ["df-api", "v2", "git-connections"] + [Dec(id), "test"];
  }

  lemma CollectionsAsWritten(e: Endpoint)
    requires e.Create? || e.BulkWrite? || e.TransferVersion?
    ensures PathOf(e) == WrittenPath(e)
  {
    match e {
      case Create(p, v, c) =>
        InVersionWritten(p, v, [CollectionName(c)]);
        CollectionWritten(c);
      case BulkWrite(p, v, f) =>
        InVersionWritten(p, v, [CollectionName(FieldCollection(f)), "bulk"]);
        BulkWritten(f);
      case TransferVersion(p, v, t) =>
        InVersionWritten(p, v, TransferSegments(t));
        if t.ExportGit? || t.ExportFile? { ExportWritten(t); } else { ImportWritten(t); }
    }
  }

  lemma MembersAsWritten(e: Endpoint)
    requires e.AddGroupDimensions? || e.AssignToFactTable? || e.GenerateSql?
    ensures PathOf(e) == WrittenPath(e)
  {
    match e {
      case AddGroupDimensions(p, v, id) =>
        Slashed("dimensions", "/dimensions");
        IdWritten(p, v, "dimension-groups", id, "dimensions", "/dimension-groups/", "/dimensions");
      case AssignToFactTable(p, v, id, el) =>
        ElementWritten(el);
        IdWritten(p, v, "fact-tables", id, ElementName(el), "/fact-tables/", ElementPath(el));
      case GenerateSql(p, v, id) =>
        Slashed("generate-sql", "/generate-sql");
        IdWritten(p, v, "data-marts", id, "generate-sql", "/data-marts/", "/generate-sql");
    }
  }

  /** Every endpoint's path is the one its method writes. */
  lemma PathsAsWritten(e: Endpoint)
    ensures PathOf(e) == WrittenPath(e)
  {
    if e.CreateProject? || e.CreateVersion? || e.SetProjectAccess? {
      ProjectsAsWritten(e);
    } else if e.CreateGitConnection? || e.TestGitConnection? {
      GitAsWritten(e);
    } else if e.CreateFilter? {
      if e.factTable.Some? {
        TableFilterWritten(e.project, e.version, e.factTable.value);
      } else {
        VersionFilterWritten(e.project, e.version);
      }
    } else if e.Create? || e.BulkWrite? || e.TransferVersion? {
      CollectionsAsWritten(e);
    } else {
      MembersAsWritten(e);
    }
  }

  /** For all ids, a POST keeps its Idempotency-Key except on the five documented endpoints. */
  lemma KeysKept(e: Endpoint, key: Option<string>)
    ensures KeySent(e, key) == if IgnoresKey(e) then None else key
  {
    HeadsHarmless(e);
    HeadThenTelling(e);
    if e.TransferVersion? { TransferExcepted(e.transfer); }
    if e.TestGitConnection? { SingleExcepted("test"); }
    if e.GenerateSql? { SingleExcepted("generate-sql"); }
    HarmlessHead(Head(e), Telling(e));
    KeyByOccurrence(SegmentsOf(e));
  }
}
