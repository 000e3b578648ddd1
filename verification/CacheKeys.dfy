/** The cache keys of every read, and the key prefixes every write scope drops. */
module CacheKeys {
  import opened Text

  /** A cacheable read of one project version, with the arguments its key is built from. */
  datatype VersionRead =
    | Measures(language: string, includeSql: bool)
    | Dimensions(language: string)
    | Facts(language: string)
    | Rmd(language: string, includeSql: bool)
    | DataMarts(language: string, page: int, pageSize: int,
                martType: Option<string>, mergeType: Option<string>, search: Option<string>)
    | DataMart(id: int, language: string)
    | DataMartView(id: int, language: string)
    | Connections(language: string, page: int, pageSize: int, dbType: Option<string>, status: Option<string>)
    | Connection(id: int, language: string, includeDbSchema: bool)
    | ConnectionSchema(id: int, language: string)
    | DimensionGroups(language: string, page: int, pageSize: int)
    | DimensionGroup(id: int, language: string)
    | FactTables(language: string, page: int, pageSize: int)
    | FactTable(id: int, language: string, includeDependencies: bool)
    | Relationships(language: string, page: int, pageSize: int, factTable: Option<int>, dimensionGroup: Option<int>)
    | Relationship(id: int, language: string)

  /** A cacheable read. */
  datatype Request =
    | InVersion(project: int, version: int, read: VersionRead)
    | Projects(page: int, pageSize: int)
    | Versions(project: int, page: int, pageSize: int)
    | ProjectAccess(project: int, language: string)
    | GitConnections(page: int, pageSize: int)
    | GitConnection(id: int)

  function ShowBool(b: bool): string {
    if b then "True" else "False"
  }

  function ShowText(t: Option<string>): string {
    match t
    case None => "None"
    case Some(s) => s
  }

  function ShowInt(n: Option<int>): string {
    match n
    case None => "None"
    case Some(i) => Dec(i)
  }

  function VersionFamily(read: VersionRead): string {
    match read
    case Measures(_, _) => "measures"
    case Dimensions(_) => "dimensions"
    case Facts(_) => "facts"
    case Rmd(_, _) => "rmd"
    case DataMarts(_, _, _, _, _, _) => "data_marts"
    case DataMart(_, _) => "data_mart"
    case DataMartView(_, _) => "data_mart_view"
    case Connections(_, _, _, _, _) => "connections"
    case Connection(_, _, _) => "connection"
    case ConnectionSchema(_, _) => "connection_schema"
    case DimensionGroups(_, _, _) => "dimension_groups"
    case DimensionGroup(_, _) => "dimension_group"
    case FactTables(_, _, _) => "fact_tables"
    case FactTable(_, _, _) => "fact_table"
    case Relationships(_, _, _, _, _) => "relationships"
    case Relationship(_, _) => "relationship"
  }

  /** The key arguments after the project and version ids. */
  function VersionArguments(read: VersionRead): (args: seq<string>)
    ensures args != []
  {
    match read
    case Measures(l, sql) => [l, ShowBool(sql)]
    case Dimensions(l) => [l]
    case Facts(l) => [l]
    case Rmd(l, sql) => [l, ShowBool(sql)]
    case DataMarts(l, pg, ps, mart, merge, search) =>
      [l, Dec(pg), Dec(ps), ShowText(mart), ShowText(merge), ShowText(search)]
    case DataMart(id, l) => [Dec(id), l]
    case DataMartView(id, l) => [Dec(id), l]
    case Connections(l, pg, ps, db, status) => [l, Dec(pg), Dec(ps), ShowText(db), ShowText(status)]
    case Connection(id, l, schema) => [Dec(id), l, ShowBool(schema)]
    case ConnectionSchema(id, l) => [Dec(id), l]
    case DimensionGroups(l, pg, ps) => [l, Dec(pg), Dec(ps)]
    case DimensionGroup(id, l) => [Dec(id), l]
    case FactTables(l, pg, ps) => [l, Dec(pg), Dec(ps)]
    case FactTable(id, l, deps) => [Dec(id), l, ShowBool(deps)]
    case Relationships(l, pg, ps, ft, dg) => [l, Dec(pg), Dec(ps), ShowInt(ft), ShowInt(dg)]
    case Relationship(id, l) => [Dec(id), l]
  }

  /** The colon-separated parts of a key. */
  function Parts(r: Request): (parts: seq<string>)
    ensures |parts| >= 2
  {
    match r
    case InVersion(p, v, read) => [VersionFamily(read), Dec(p), Dec(v)] + VersionArguments(read)
    case Projects(pg, ps) => ["projects", Dec(pg), Dec(ps)]
    case Versions(p, pg, ps) => ["versions", Dec(p), Dec(pg), Dec(ps)]
    case ProjectAccess(p, l) => ["project_access", Dec(p), l]
    case GitConnections(pg, ps) => ["git_connections", Dec(pg), Dec(ps)]
    case GitConnection(id) => ["git_connection", Dec(id)]
  }

  /** The cache key: `<entity>:<project_id>:<version_id>:<...>`. */
  function Key(r: Request): string {
    Join(Parts(r), ':')
  }

  /** The key cut at every colon, which is how prefixes and files address it. */
  function Segments(key: string): (segments: seq<string>)
    ensures segments != []
  {
    Split(key, ':')
  }

  // ---------------------------------------------------------------------
  // Write scopes
  // ---------------------------------------------------------------------

  const VERSION_PREFIXES: seq<string> := [
    "measures", "dimensions", "facts", "rmd", "consolidated_rmd",
    "data_marts", "data_mart", "data_mart_view",
    "connections", "connection", "connection_schema",
    "dimension_groups", "dimension_group",
    "fact_tables", "fact_table",
    "relationships", "relationship"]

  datatype WriteScope = GlobalScope | ProjectScope | VersionScope | GitScope

  /** Every version-scoped family followed by the given id segments. */
  function VersionFamilies(ids: seq<string>): seq<seq<string>> {
    seq(|VERSION_PREFIXES|, i requires 0 <= i < |VERSION_PREFIXES| => [VERSION_PREFIXES[i]] + ids)
  }

  /** The prefixes, each as its segments, that a write of this scope drops. */
  function PrefixesFor(scope: WriteScope, project: Option<int>, version: Option<int>): seq<seq<string>> {
    match scope
    case GitScope => [["git_connections"], ["git_connection"]]
    case GlobalScope => [["projects"]]
    case ProjectScope =>
      if project.None? then [["projects"]]
      else
        var p := Dec(project.value);
        VersionFamilies([p]) + [["projects"], ["versions", p], ["project_access", p]]
    case VersionScope =>
      if project.None? || version.None? then []
      else VersionFamilies([Dec(project.value), Dec(version.value)])
  }

  /** What is left of a keyed map once the entries that have the prefix are dropped. */
  function DropPrefix<V>(m: map<seq<string>, V>, prefix: seq<string>): map<seq<string>, V> {
    map k | k in m && !(prefix <= k) :: m[k]
  }

  /** Some prefix of the list is a prefix of the segments. */
  predicate Covers(prefixes: seq<seq<string>>, segments: seq<string>) {
    exists i :: 0 <= i < |prefixes| && prefixes[i] <= segments
  }

  /** What a scope is documented to cover, said of the request itself. */
  predicate InScope(scope: WriteScope, project: Option<int>, version: Option<int>, r: Request) {
    match scope
    case GitScope => r.GitConnections? || r.GitConnection?
    case GlobalScope => r.Projects?
    case ProjectScope =>
      r.Projects? ||
      (project.Some? && (r.InVersion? || r.Versions? || r.ProjectAccess?) && r.project == project.value)
    case VersionScope =>
      project.Some? && version.Some? && r.InVersion? && r.project == project.value && r.version == version.value
  }

  // ---------------------------------------------------------------------
  // The families are distinct and free of the separator
  // ---------------------------------------------------------------------

  const FAMILIES: seq<string> :=
    VERSION_PREFIXES + ["projects", "versions", "project_access", "git_connections", "git_connection"]

  function VersionIndex(read: VersionRead): nat {
    match read
    case Measures(_, _) => 0
    case Dimensions(_) => 1
    case Facts(_) => 2
    case Rmd(_, _) => 3
    case DataMarts(_, _, _, _, _, _) => 5
    case DataMart(_, _) => 6
    case DataMartView(_, _) => 7
    case Connections(_, _, _, _, _) => 8
    case Connection(_, _, _) => 9
    case ConnectionSchema(_, _) => 10
    case DimensionGroups(_, _, _) => 11
    case DimensionGroup(_, _) => 12
    case FactTables(_, _, _) => 13
    case FactTable(_, _, _) => 14
    case Relationships(_, _, _, _, _) => 15
    case Relationship(_, _) => 16
  }

  function FamilyIndex(r: Request): nat {
    match r
    case InVersion(_, _, read) => VersionIndex(read)
    case Projects(_, _) => 17
    case Versions(_, _, _) => 18
    case ProjectAccess(_, _) => 19
    case GitConnections(_, _) => 20
    case GitConnection(_) => 21
  }

  lemma VersionFamilyAt(read: VersionRead)
    ensures VersionIndex(read) < 17 && VERSION_PREFIXES[VersionIndex(read)] == VersionFamily(read)
  {}

  lemma FamilyAt(r: Request)
    ensures FamilyIndex(r) < 22 && FAMILIES[FamilyIndex(r)] == Parts(r)[0]
  {
    if r.InVersion? { VersionFamilyAt(r.read); }
  }

  /** Distinguishes the families by length and first two letters. */
  function Signature(family: string): int {
    if |family| < 2 then 0 else |family| * 1_000_000 + family[0] as int * 1_000 + family[1] as int
  }

  const SIGNATURES: seq<int> := [
    8109101, 10100105, 5102097, 3114109, 16099111, 10100097, 9100097, 14100097, 11099111, 10099111,
    17099111, 16100105, 15100105, 11102097, 10102097, 13114101, 12114101,
    8112114, 8118101, 14112114, 15103105, 14103105]

  lemma FamilySignature(i: nat)
    requires i < 22
    ensures Signature(FAMILIES[i]) == SIGNATURES[i]
  {}

  lemma SignaturesDistinct(i: nat, j: nat)
    requires i < j < 22
    ensures SIGNATURES[i] != SIGNATURES[j]
  {}

  lemma FamiliesDistinct(i: nat, j: nat)
    requires i < 22 && j < 22
    ensures FAMILIES[i] == FAMILIES[j] <==> i == j
  {
    FamilySignature(i);
    FamilySignature(j);
    if i < j { SignaturesDistinct(i, j); }
    if j < i { SignaturesDistinct(j, i); }
  }

  lemma EarlyFamilyText(i: nat)
    requires i < 8
    ensures ':' !in FAMILIES[i] && '/' !in FAMILIES[i] && '.' !in FAMILIES[i]
  {}

  lemma MiddleFamilyText(i: nat)
    requires 8 <= i < 14
    ensures ':' !in FAMILIES[i] && '/' !in FAMILIES[i] && '.' !in FAMILIES[i]
  {}

  lemma LateFamilyText(i: nat)
    requires 14 <= i < 22
    ensures ':' !in FAMILIES[i] && '/' !in FAMILIES[i] && '.' !in FAMILIES[i]
  {}

  lemma FamilyText(i: nat)
    requires i < 22
    ensures ':' !in FAMILIES[i] && '/' !in FAMILIES[i] && '.' !in FAMILIES[i] && FAMILIES[i] != ""
  {
    FamilySignature(i);
    if i < 8 { EarlyFamilyText(i); } else if i < 14 { MiddleFamilyText(i); } else { LateFamilyText(i); }
  }

  lemma DecText(n: int)
    ensures ':' !in Dec(n) && '/' !in Dec(n) && '.' !in Dec(n)
  {
    assert forall c <- Dec(n) :: c != ':' && c != '/' && c != '.';
  }

  // ---------------------------------------------------------------------
  // A scope drops exactly the keys it is documented to drop
  // ---------------------------------------------------------------------

  lemma SplitLead(parts: seq<string>, k: nat)
    requires 0 < k <= |parts| && forall i :: 0 <= i < k ==> ':' !in parts[i]
    ensures |Segments(Join(parts, ':'))| >= k && Segments(Join(parts, ':'))[..k] == parts[..k]
  {
    if k == |parts| {
      SplitJoin(parts, ':');
    } else {
      SplitJoinPrefix(parts, k, ':');
    }
  }

  /** The id segments of a key survive splitting, whatever text the later arguments hold. */
  lemma LeadingSegments(r: Request)
    ensures var s := Segments(Key(r));
            && |s| >= 2 && s[0] == FAMILIES[FamilyIndex(r)]
            && (r.InVersion? || r.Versions? || r.ProjectAccess? ==> s[1] == Dec(r.project))
            && (r.InVersion? ==> |s| >= 3 && s[2] == Dec(r.version))
  {
    var ps, s := Parts(r), Segments(Key(r));
    var k := if r.InVersion? then 3 else 2;
    FamilyAt(r);
    FamilyText(FamilyIndex(r));
    forall n ensures ':' !in Dec(n) { DecText(n); }
    SplitLead(ps, k);
    assert s[..k][0] == ps[0] && s[..k][1] == ps[1];
    assert k == 3 ==> s[..k][2] == ps[2];
  }

  lemma CoversFamilies(ids: seq<string>, s: seq<string>)
    requires s != []
    ensures Covers(VersionFamilies(ids), s) <==> s[0] in VERSION_PREFIXES && ids <= s[1..]
  {
    var ps := VersionFamilies(ids);
    assert s == [s[0]] + s[1..];
    if s[0] in VERSION_PREFIXES && ids <= s[1..] {
      var i :| 0 <= i < |VERSION_PREFIXES| && VERSION_PREFIXES[i] == s[0];
      assert ps[i] <= s;
    }
    if Covers(ps, s) {
      var i :| 0 <= i < |ps| && ps[i] <= s;
      assert ps[i][0] == VERSION_PREFIXES[i] && ps[i][1..] == ids;
      assert s[1..][..|ids|] == ids;
    }
  }

  lemma CoversConcat(a: seq<seq<string>>, b: seq<seq<string>>, s: seq<string>)
    ensures Covers(a + b, s) <==> Covers(a, s) || Covers(b, s)
  {
    if Covers(a, s) {
      var i :| 0 <= i < |a| && a[i] <= s;
      assert (a + b)[i] <= s;
    }
    if Covers(b, s) {
      var i :| 0 <= i < |b| && b[i] <= s;
      assert (a + b)[|a| + i] <= s;
    }
  }

  lemma CoversProject(p: string, s: seq<string>)
    requires |s| >= 2
    ensures Covers([["projects"], ["versions", p], ["project_access", p]], s) <==>
            s[0] == "projects" || (s[1] == p && (s[0] == "versions" || s[0] == "project_access"))
  {
    var ps := [["projects"], ["versions", p], ["project_access", p]];
    assert s[..1] == [s[0]] && s[..2] == [s[0], s[1]];
    assert ps[0] <= s <==> s[0] == "projects";
    assert ps[1] <= s <==> s[..2] == ["versions", p];
    assert ps[2] <= s <==> s[..2] == ["project_access", p];
  }

  lemma CoversSingle(family: string, s: seq<string>)
    requires s != []
    ensures Covers([[family]], s) <==> s[0] == family
  {
    assert [[family]][0] <= s <==> s[..1] == [family];
  }

  lemma CoversGit(s: seq<string>)
    requires s != []
    ensures Covers([["git_connections"], ["git_connection"]], s) <==>
            s[0] == "git_connections" || s[0] == "git_connection"
  {
    CoversSingle("git_connections", s);
    CoversSingle("git_connection", s);
    CoversConcat([["git_connections"]], [["git_connection"]], s);
    assert [["git_connections"]] + [["git_connection"]] == [["git_connections"], ["git_connection"]];
  }

  lemma CoversVersions(p: string, v: string, s: seq<string>)
    requires |s| >= 2
    ensures Covers(VersionFamilies([p]), s) <==> s[0] in VERSION_PREFIXES && s[1] == p
    ensures Covers(VersionFamilies([p, v]), s) <==> |s| >= 3 && s[0] in VERSION_PREFIXES && s[1] == p && s[2] == v
  {
    CoversFamilies([p], s);
    CoversFamilies([p, v], s);
    assert [p] <= s[1..] <==> s[1] == p;
    if |s| >= 3 {
      assert s[1..][..2] == [s[1], s[2]];
    }
  }

  /** Which families a family index names. */
  lemma FamilyMeans(i: nat)
    requires i < 22
    ensures FAMILIES[i] in VERSION_PREFIXES <==> i < 17
    ensures (FAMILIES[i] == "projects" <==> i == 17) && (FAMILIES[i] == "versions" <==> i == 18)
    ensures (FAMILIES[i] == "project_access" <==> i == 19) && (FAMILIES[i] == "git_connections" <==> i == 20)
    ensures FAMILIES[i] == "git_connection" <==> i == 21
  {
    forall j: nat | j < 22 ensures FAMILIES[i] == FAMILIES[j] <==> i == j { FamiliesDistinct(i, j); }
    assert FAMILIES[17] == "projects" && FAMILIES[18] == "versions" && FAMILIES[19] == "project_access";
    assert FAMILIES[20] == "git_connections" && FAMILIES[21] == "git_connection";
    assert forall j :: 0 <= j < 17 ==> FAMILIES[j] == VERSION_PREFIXES[j];
  }

  /** A write's prefixes cover the key of a read exactly when the read is in the write's scope. */
  lemma PrefixesCoverScope(scope: WriteScope, project: Option<int>, version: Option<int>, r: Request)
    ensures Covers(PrefixesFor(scope, project, version), Segments(Key(r))) <==> InScope(scope, project, version, r)
  {
    var s := Segments(Key(r));
    LeadingSegments(r);
    FamilyAt(r);
    FamilyMeans(FamilyIndex(r));
    if r.InVersion? { VersionFamilyAt(r.read); }
    match scope {
      case GitScope => CoversGit(s);
      case GlobalScope => CoversSingle("projects", s);
      case ProjectScope =>
        CoversSingle("projects", s);
        if project.Some? {
          var p := Dec(project.value);
          CoversVersions(p, "", s);
          CoversProject(p, s);
          CoversConcat(VersionFamilies([p]), [["projects"], ["versions", p], ["project_access", p]], s);
        }
      case VersionScope =>
        if project.Some? && version.Some? {
          CoversVersions(Dec(project.value), Dec(version.value), s);
        }
    }
    if project.Some? && (r.InVersion? || r.Versions? || r.ProjectAccess?) {
      DecInjective(project.value, r.project);
    }
    if version.Some? && r.InVersion? {
      DecInjective(version.value, r.version);
    }
  }

  /** No two prefixes of one scope address a common entry. */
  predicate Independent(prefixes: seq<seq<string>>) {
    forall i, j :: 0 <= i < |prefixes| && 0 <= j < |prefixes| && i != j ==> !(prefixes[i] <= prefixes[j])
  }

  lemma ScopeHeads(scope: WriteScope, project: Option<int>, version: Option<int>, i: nat)
    requires (scope.ProjectScope? || scope.VersionScope?) && project.Some?
    requires i < |PrefixesFor(scope, project, version)|
    ensures var prefix := PrefixesFor(scope, project, version)[i];
            i < 20 && prefix != [] && prefix[0] == FAMILIES[i]
  {}

  /** The prefixes of any scope are pairwise incomparable, so each entry is dropped by at most one. */
  lemma ScopePrefixesIndependent(scope: WriteScope, project: Option<int>, version: Option<int>)
    ensures Independent(PrefixesFor(scope, project, version))
  {
    var ps := PrefixesFor(scope, project, version);
    if (scope.ProjectScope? || scope.VersionScope?) && project.Some? {
      forall i, j | 0 <= i < |ps| && 0 <= j < |ps| && i != j ensures !(ps[i] <= ps[j]) {
        ScopeHeads(scope, project, version, i);
        ScopeHeads(scope, project, version, j);
        FamiliesDistinct(i, j);
      }
    } else if scope.GitScope? {
      assert |ps[0][0]| != |ps[1][0]|;
    }
  }

  // ---------------------------------------------------------------------
  // A key identifies the read it was built for
  // ---------------------------------------------------------------------

  /** The reads with several free texts in their keys. */
  predicate Filtered(r: Request) {
    r.InVersion? && (r.read.DataMarts? || r.read.Connections?)
  }

  /** Where a key can hold any text without doubt: its one free text, or the last of several. */
  function FreeAt(r: Request): nat {
    match r
    case InVersion(_, _, read) => (
      match read
      case DataMarts(_, _, _, _, _, _) => 8
      case Connections(_, _, _, _, _) => 7
      case DataMart(_, _) => 4
      case DataMartView(_, _) => 4
      case Connection(_, _, _) => 4
      case ConnectionSchema(_, _) => 4
      case DimensionGroup(_, _) => 4
      case FactTable(_, _, _) => 4
      case Relationship(_, _) => 4
      case _ => 3)
    case ProjectAccess(_, _) => 2
    case _ => 0
  }

  /** No other part of the key carries the separator. */
  predicate Identifiable(r: Request) {
    forall i :: 0 <= i < |Parts(r)| && i != FreeAt(r) ==> ':' !in Parts(r)[i]
  }

  predicate ColonFree(r: Request) {
    forall t <- Parts(r) :: ':' !in t
  }

  function PlainText(t: Option<string>): Option<string> {
    if t == Some("None") then None else t
  }

  function CanonicalRead(read: VersionRead): VersionRead {
    match read
    case DataMarts(l, pg, ps, mart, merge, search) =>
      DataMarts(l, pg, ps, PlainText(mart), PlainText(merge), PlainText(search))
    case Connections(l, pg, ps, db, status) => Connections(l, pg, ps, PlainText(db), PlainText(status))
    case _ => read
  }

  /** The request with every optional text spelled "None" taken as absent. */
  function Canonical(r: Request): Request {
    if r.InVersion? then r.(read := CanonicalRead(r.read)) else r
  }

  function ReadInt(s: string): int {
    match ParseInt(s)
    case None => 0
    case Some(n) => n
  }

  function ReadText(s: string): Option<string> {
    if s == "None" then None else Some(s)
  }

  function ReadOptInt(s: string): Option<int> {
    if s == "None" then None else Some(ReadInt(s))
  }

  function At(a: seq<string>, i: nat): string {
    if i < |a| then a[i] else ""
  }

  /** The read of a family whose key arguments are the given ones. */
  function RebuildRead(family: nat, a: seq<string>): VersionRead {
    match family
    case 0 => Measures(At(a, 0), At(a, 1) == "True")
    case 1 => Dimensions(At(a, 0))
    case 2 => Facts(At(a, 0))
    case 3 => Rmd(At(a, 0), At(a, 1) == "True")
    case 5 =>
      DataMarts(At(a, 0), ReadInt(At(a, 1)), ReadInt(At(a, 2)),
                ReadText(At(a, 3)), ReadText(At(a, 4)), ReadText(At(a, 5)))
    case 6 => DataMart(ReadInt(At(a, 0)), At(a, 1))
    case 7 => DataMartView(ReadInt(At(a, 0)), At(a, 1))
    case 8 => Connections(At(a, 0), ReadInt(At(a, 1)), ReadInt(At(a, 2)), ReadText(At(a, 3)), ReadText(At(a, 4)))
    case 9 => Connection(ReadInt(At(a, 0)), At(a, 1), At(a, 2) == "True")
    case 10 => ConnectionSchema(ReadInt(At(a, 0)), At(a, 1))
    case 11 => DimensionGroups(At(a, 0), ReadInt(At(a, 1)), ReadInt(At(a, 2)))
    case 12 => DimensionGroup(ReadInt(At(a, 0)), At(a, 1))
    case 13 => FactTables(At(a, 0), ReadInt(At(a, 1)), ReadInt(At(a, 2)))
    case 14 => FactTable(ReadInt(At(a, 0)), At(a, 1), At(a, 2) == "True")
    case 15 => Relationships(At(a, 0), ReadInt(At(a, 1)), ReadInt(At(a, 2)), ReadOptInt(At(a, 3)), ReadOptInt(At(a, 4)))
    case _ => Relationship(ReadInt(At(a, 0)), At(a, 1))
  }

  /** The request whose key has the given family and arguments. */
  function Rebuild(family: nat, a: seq<string>): Request {
    if family < 17 then
      InVersion(ReadInt(At(a, 0)), ReadInt(At(a, 1)), RebuildRead(family, if |a| >= 2 then a[2..] else []))
    else if family == 17 then Projects(ReadInt(At(a, 0)), ReadInt(At(a, 1)))
    else if family == 18 then Versions(ReadInt(At(a, 0)), ReadInt(At(a, 1)), ReadInt(At(a, 2)))
    else if family == 19 then ProjectAccess(ReadInt(At(a, 0)), At(a, 1))
    else if family == 20 then GitConnections(ReadInt(At(a, 0)), ReadInt(At(a, 1)))
    else GitConnection(ReadInt(At(a, 0)))
  }

  lemma ReadIntBack(n: int)
    ensures ReadInt(Dec(n)) == n
  {
    DecRoundTrip(n);
  }

  lemma ReadOptIntBack(m: Option<int>)
    ensures ReadOptInt(ShowInt(m)) == m
  {
    if m.Some? {
      ReadIntBack(m.value);
      assert Dec(m.value)[0] in Dec(m.value) && "None"[0] == 'N';
    }
  }

  lemma ReadBoolBack(b: bool)
    ensures ShowBool(b) == "True" <==> b
  {
    assert ShowBool(b)[0] == if b then 'T' else 'F';
  }

  lemma RelationshipsReadBack(read: VersionRead)
    requires read.Relationships?
    ensures RebuildRead(VersionIndex(read), VersionArguments(read)) == CanonicalRead(read)
  {
    ReadIntBack(read.page);
    ReadIntBack(read.pageSize);
    ReadOptIntBack(read.factTable);
    ReadOptIntBack(read.dimensionGroup);
  }

  lemma PagedReadBack(read: VersionRead)
    requires VersionIndex(read) in {5, 8, 11, 13, 15}
    ensures RebuildRead(VersionIndex(read), VersionArguments(read)) == CanonicalRead(read)
  {
    if read.Relationships? {
      RelationshipsReadBack(read);
    } else {
      ReadIntBack(read.page);
      ReadIntBack(read.pageSize);
    }
  }

  lemma DetailReadBack(read: VersionRead)
    requires VersionIndex(read) in {6, 7, 9, 10, 12, 14, 16}
    ensures RebuildRead(VersionIndex(read), VersionArguments(read)) == CanonicalRead(read)
  {
    ReadIntBack(read.id);
    if read.Connection? { ReadBoolBack(read.includeDbSchema); }
    if read.FactTable? { ReadBoolBack(read.includeDependencies); }
  }

  /** The version arguments of a key spell the read, up to "None" for an absent text. */
  lemma VersionReadBack(read: VersionRead)
    ensures RebuildRead(VersionIndex(read), VersionArguments(read)) == CanonicalRead(read)
  {
    if VersionIndex(read) in {5, 8, 11, 13, 15} {
      PagedReadBack(read);
    } else if VersionIndex(read) in {6, 7, 9, 10, 12, 14, 16} {
      DetailReadBack(read);
    } else if read.Measures? || read.Rmd? {
      ReadBoolBack(read.includeSql);
    }
  }

  lemma ScopeReadBack(r: Request)
    requires !r.InVersion?
    ensures Rebuild(FamilyIndex(r), Parts(r)[1..]) == Canonical(r)
  {
    forall n ensures ReadInt(Dec(n)) == n { ReadIntBack(n); }
  }

  /** The parts of a key spell the request, up to "None" for an absent text. */
  lemma ReadBack(r: Request)
    ensures Rebuild(FamilyIndex(r), Parts(r)[1..]) == Canonical(r)
  {
    if r.InVersion? {
      ReadIntBack(r.project);
      ReadIntBack(r.version);
      VersionReadBack(r.read);
      VersionFamilyAt(r.read);
      assert Parts(r)[1..][2..] == VersionArguments(r.read);
    } else {
      ScopeReadBack(r);
    }
  }

  lemma CanonicalArguments(read: VersionRead)
    ensures VersionFamily(CanonicalRead(read)) == VersionFamily(read)
    ensures VersionArguments(CanonicalRead(read)) == VersionArguments(read)
  {}

  lemma FixedWords(b: bool)
    ensures ':' !in ShowBool(b) && ':' !in "None"
  {}

  lemma PlainPieces()
    ensures forall n :: ':' !in Dec(n)
    ensures forall b :: ':' !in ShowBool(b)
    ensures ':' !in "None"
  {
    forall n ensures ':' !in Dec(n) { DecText(n); }
    forall b ensures ':' !in ShowBool(b) { FixedWords(b); }
    FixedWords(true);
  }

  lemma OneTextInVersion(r: Request)
    requires r.InVersion? && !Filtered(r)
    ensures Identifiable(r)
  {
    FamilyAt(r);
    FamilyText(FamilyIndex(r));
    PlainPieces();
  }

  /** A read with one free text is identifiable, whatever that text. */
  lemma OneTextIdentifiable(r: Request)
    requires !Filtered(r)
    ensures Identifiable(r)
  {
    if r.InVersion? {
      OneTextInVersion(r);
    } else {
      FamilyAt(r);
      FamilyText(FamilyIndex(r));
      PlainPieces();
    }
  }

  lemma SameShape(a: Request, b: Request)
    requires FamilyIndex(a) == FamilyIndex(b)
    ensures |Parts(a)| == |Parts(b)| && FreeAt(a) == FreeAt(b) < |Parts(a)| && (Filtered(a) <==> Filtered(b))
  {
    if a.InVersion? { VersionShape(a.read, b.read); }
  }

  lemma VersionShape(a: VersionRead, b: VersionRead)
    requires VersionIndex(a) == VersionIndex(b)
    ensures |VersionArguments(a)| == |VersionArguments(b)|
    ensures FreeAt(InVersion(0, 0, a)) == FreeAt(InVersion(0, 0, b)) < 3 + |VersionArguments(a)|
  {}

  lemma SameParts(a: Request, b: Request)
    requires Parts(a) == Parts(b)
    ensures Canonical(a) == Canonical(b)
  {
    FamilyAt(a);
    FamilyAt(b);
    FamiliesDistinct(FamilyIndex(a), FamilyIndex(b));
    ReadBack(a);
    ReadBack(b);
  }

  lemma CanonicalKey(a: Request, b: Request)
    requires Canonical(a) == Canonical(b)
    ensures Parts(a) == Parts(b) && Key(a) == Key(b)
  {
    if a.InVersion? { CanonicalArguments(a.read); }
    if b.InVersion? { CanonicalArguments(b.read); }
    assert Parts(a) == Parts(Canonical(a)) && Parts(b) == Parts(Canonical(b));
  }

  lemma SameKeyFamily(a: Request, b: Request)
    requires Key(a) == Key(b)
    ensures FamilyIndex(a) == FamilyIndex(b)
  {
    LeadingSegments(a);
    LeadingSegments(b);
    FamilyAt(a);
    FamilyAt(b);
    FamiliesDistinct(FamilyIndex(a), FamilyIndex(b));
  }

  /** Equal lists cut out around one position are equal piece by piece. */
  lemma SameAround(a: seq<string>, b: seq<string>, f: nat, c: char)
    requires |a| == |b| && f < |a|
    requires a[..f] + Split(a[f], c) + a[f + 1..] == b[..f] + Split(b[f], c) + b[f + 1..]
    ensures a == b
  {
    var x, y, n := Split(a[f], c), Split(b[f], c), |a| - f - 1;
    var whole := a[..f] + x + a[f + 1..];
    assert whole[..f] == a[..f] && whole[..f] == b[..f];
    assert |x| == |y|;
    assert whole[f..f + |x|] == x && whole[f..f + |x|] == y;
    assert whole[f + |x|..] == a[f + 1..] && whole[f + |x|..] == b[f + 1..];
    JoinSplit(a[f], c);
    JoinSplit(b[f], c);
    assert a == a[..f] + [a[f]] + a[f + 1..] && b == b[..f] + [b[f]] + b[f + 1..];
  }

  lemma KeyReadBack(a: Request, b: Request)
    requires Identifiable(a) && Identifiable(b) && Key(a) == Key(b)
    ensures Canonical(a) == Canonical(b)
  {
    SameKeyFamily(a, b);
    SameShape(a, b);
    SplitAround(Parts(a), FreeAt(a), ':');
    SplitAround(Parts(b), FreeAt(b), ':');
    SameAround(Parts(a), Parts(b), FreeAt(a), ':');
    SameParts(a, b);
  }

  /** Reads whose keys hold colons at most in the one free place share a key exactly when they are the same read,
      an optional text spelled "None" counting as absent. */
  lemma KeysIdentifyRequests(a: Request, b: Request)
    requires Identifiable(a) && Identifiable(b)
    ensures Key(a) == Key(b) <==> Canonical(a) == Canonical(b)
  {
    if Canonical(a) == Canonical(b) {
      CanonicalKey(a, b);
    } else if Key(a) == Key(b) {
      KeyReadBack(a, b);
    }
  }

  /** Different reads share a key only in the data-mart and connection listings, one of them with a colon
      before its last text. */
  lemma OnlyListingsCollide(a: Request, b: Request)
    requires Key(a) == Key(b) && Canonical(a) != Canonical(b)
    ensures Filtered(a) && Filtered(b) && FamilyIndex(a) == FamilyIndex(b) && !(Identifiable(a) && Identifiable(b))
  {
    SameKeyFamily(a, b);
    SameShape(a, b);
    if !Filtered(a) {
      OneTextIdentifiable(a);
      OneTextIdentifiable(b);
    }
    if Identifiable(a) && Identifiable(b) { KeysIdentifyRequests(a, b); }
  }

  /** A read without any colon in its key shares it with no other read whatever. */
  lemma ColonFreeUnique(a: Request, b: Request)
    requires ColonFree(a) && Key(a) == Key(b)
    ensures Canonical(a) == Canonical(b)
  {
    SameKeyFamily(a, b);
    SameShape(a, b);
    SplitJoin(Parts(a), ':');
    SplitCount(Parts(b), ':');
    SplitJoin(Parts(b), ':');
    SameParts(a, b);
  }

  /** "None" as a search text shares its entry with no search text at all. */
  lemma AbsentTextSharesKey(p: int, v: int)
    ensures var absent := DataMarts("en", 1, 100, None, None, None);
            Key(InVersion(p, v, absent)) == Key(InVersion(p, v, absent.(search := Some("None"))))
  {
    var absent := DataMarts("en", 1, 100, None, None, None);
    assert VersionArguments(absent) == VersionArguments(absent.(search := Some("None")));
  }

  lemma JoinTwo(a: string, b: string)
    ensures Join([a, b], ':') == a + ":" + b
  {
    assert [a, b][1..] == [b];
  }
}
