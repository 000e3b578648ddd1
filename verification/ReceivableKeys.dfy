/** Which listings that the tools let through share their key with another such listing. */
module ReceivableKeys {
  import opened Text
  import opened CacheKeys
  import opened KeyCollisions

  // ---------------------------------------------------------------------
  // What the tools let through
  // ---------------------------------------------------------------------

  const DATA_MART_TYPES: seq<string> := ["with_grouping", "without_grouping", "with_grouping_and_pivoting"]
  const MERGE_TYPES: seq<string> := ["union", "join"]
  const DB_TYPES: seq<string> := ["postgresql", "clickhouse", "sqlserver"]
  const CONNECTION_STATUSES: seq<string> := ["active", "inactive", "never_verified", "failed"]

  predicate Among(t: Option<string>, values: seq<string>) {
    t.None? || t.value in values
  }

  /** The filters are among their catalogues; the language is some text, the search any. */
  predicate Receivable(read: VersionRead) {
    match read
    case DataMarts(language, _, _, mart, merge, _) =>
      language != "" && Among(mart, DATA_MART_TYPES) && Among(merge, MERGE_TYPES)
    case Connections(language, _, _, db, status) =>
      language != "" && Among(db, DB_TYPES) && Among(status, CONNECTION_STATUSES)
    case _ => read.language != ""
  }

  lemma CatalogueText(value: string)
    requires value in DATA_MART_TYPES || value in MERGE_TYPES || value in DB_TYPES || value in CONNECTION_STATUSES
    ensures ':' !in value && value != "None"
  {
    MartText(value);
    ConnectionText(value);
  }

  lemma MartText(value: string)
    ensures value in DATA_MART_TYPES || value in MERGE_TYPES ==> ':' !in value && value != "None"
  {}

  lemma ConnectionText(value: string)
    ensures value in DB_TYPES || value in CONNECTION_STATUSES ==> ':' !in value && value != "None"
  {}

  lemma AmongText(t: Option<string>, values: seq<string>)
    requires Among(t, values) && values in [DATA_MART_TYPES, MERGE_TYPES, DB_TYPES, CONNECTION_STATUSES]
    ensures ':' !in ShowText(t)
  {
    FixedWords(true);
    if t.Some? { CatalogueText(t.value); }
  }

  // ---------------------------------------------------------------------
  // Connections never collide
  // ---------------------------------------------------------------------

  /** Equal pieces, with as many for the filters, are equal part by part. */
  lemma SamePieces(a: Request, b: Request)
    requires Filtered(a) && Filtered(b) && Key(a) == Key(b)
    requires |Split(a.read.language, ':')| == |Split(b.read.language, ':')|
    ensures a.read.language == b.read.language && Middle(a.read) == Middle(b.read)
    ensures Join(FilterTexts(a.read), ':') == Join(FilterTexts(b.read), ':') && Parts(a)[..3] == Parts(b)[..3]
  {
    SameKey(a, b);
    var p, q := Split(a.read.language, ':'), Split(b.read.language, ':');
    var x, y := Split(Join(FilterTexts(a.read), ':'), ':'), Split(Join(FilterTexts(b.read), ':'), ':');
    SameLength(p, Middle(a.read), x, q, Middle(b.read), y);
    JoinSplit(a.read.language, ':');
    JoinSplit(b.read.language, ':');
    JoinSplit(Join(FilterTexts(a.read), ':'), ':');
    JoinSplit(Join(FilterTexts(b.read), ':'), ':');
  }

  lemma SameLength(p: seq<string>, n: seq<string>, x: seq<string>, q: seq<string>, m: seq<string>, y: seq<string>)
    requires |p| == |q| && |n| == |m| && p + n + x == q + m + y
    ensures p == q && n == m && x == y
  {
    SameHalves(p + n, x, q + m, y);
    SameHalves(p, n, q, m);
  }

  lemma ConnectionsIdentified(a: Request, b: Request)
    requires a.InVersion? && b.InVersion? && a.read.Connections? && b.read.Connections?
    requires Receivable(a.read) && Receivable(b.read) && Key(a) == Key(b)
    ensures Canonical(a) == Canonical(b)
  {
    ConnectionFilters(a.read);
    ConnectionFilters(b.read);
    SameKey(a, b);
    assert |Pieces(a)| == |Pieces(b)|;
    SamePieces(a, b);
    SameListing(a, b);
  }

  lemma ConnectionFilters(read: VersionRead)
    requires read.Connections? && Receivable(read)
    ensures Split(Join(FilterTexts(read), ':'), ':') == FilterTexts(read) && |FilterTexts(read)| == 2
  {
    AmongText(read.dbType, DB_TYPES);
    AmongText(read.status, CONNECTION_STATUSES);
    SplitJoin(FilterTexts(read), ':');
  }

  // ---------------------------------------------------------------------
  // When data-mart listings do
  // ---------------------------------------------------------------------

  lemma MartFilters(read: VersionRead)
    requires read.DataMarts? && Receivable(read)
    ensures Split(Join(FilterTexts(read), ':'), ':') ==
            [ShowText(read.martType), ShowText(read.mergeType)] + Split(ShowText(read.search), ':')
  {
    AmongText(read.martType, DATA_MART_TYPES);
    AmongText(read.mergeType, MERGE_TYPES);
    var texts := FilterTexts(read);
    SplitJoinPrefix(texts, 2, ':');
    assert texts[2..] == [ShowText(read.search)] && texts[..2] == [ShowText(read.martType), ShowText(read.mergeType)];
  }

  predicate Shown(s: string, values: seq<string>) {
    s == "None" || s in values
  }

  /** The pieces can be cut as those of another receivable listing whose language has e of them. */
  predicate CutsAsListing(pieces: seq<string>, e: nat) {
    && 1 <= e && e + 5 <= |pieces| && pieces[..e] != [""]
    && Numeral(pieces[e]) && Numeral(pieces[e + 1])
    && Shown(pieces[e + 2], DATA_MART_TYPES) && Shown(pieces[e + 3], MERGE_TYPES)
  }

  lemma OwnCut(r: Request)
    requires r.InVersion? && r.read.DataMarts? && Receivable(r.read)
    ensures CutsAsListing(Pieces(r), |Split(r.read.language, ':')|)
  {
    var p, n, search := Split(r.read.language, ':'), Middle(r.read), Split(ShowText(r.read.search), ':');
    var e := |p|;
    MartFilters(r.read);
    DecNumeral(r.read.page);
    DecNumeral(r.read.pageSize);
    assert Pieces(r)[..e] == p;
    JoinSplit(r.read.language, ':');
    assert p == [""] ==> Join(p, ':') == "";
    assert Pieces(r)[e] == n[0] && Pieces(r)[e + 1] == n[1];
    assert Pieces(r)[e + 2] == ShowText(r.read.martType) && Pieces(r)[e + 3] == ShowText(r.read.mergeType);
  }

  lemma SameMarts(a: Request, b: Request)
    requires a.InVersion? && b.InVersion? && a.read.DataMarts? && b.read.DataMarts?
    requires Receivable(a.read) && Receivable(b.read) && Key(a) == Key(b)
    requires |Split(a.read.language, ':')| == |Split(b.read.language, ':')|
    ensures Canonical(a) == Canonical(b)
  {
    SamePieces(a, b);
    MartFilters(a.read);
    MartFilters(b.read);
    var x := [ShowText(a.read.martType), ShowText(a.read.mergeType)];
    var y := [ShowText(b.read.martType), ShowText(b.read.mergeType)];
    SameHalves(x, Split(ShowText(a.read.search), ':'), y, Split(ShowText(b.read.search), ':'));
    assert x[0] == y[0] && x[1] == y[1];
    JoinSplit(ShowText(a.read.search), ':');
    JoinSplit(ShowText(b.read.search), ':');
    SameListing(a, b);
  }

  lemma CutOf(all: seq<string>, e: nat) returns (language: seq<string>, page: int, size: int, rest: seq<string>)
    requires CutsAsListing(all, e) && forall s <- all :: ':' !in s
    ensures |language| == e && language != [""] && |rest| >= 3 && all == language + [Dec(page), Dec(size)] + rest
    ensures Shown(rest[0], DATA_MART_TYPES) && Shown(rest[1], MERGE_TYPES)
    ensures (forall s <- language :: ':' !in s) && (forall s <- rest :: ':' !in s)
  {
    language, rest := all[..e], all[e + 2..];
    page, size := ParseInt(all[e]).value, ParseInt(all[e + 1]).value;
    assert forall s <- language :: s in all;
    assert forall s <- rest :: s in all;
  }

  lemma CanonicalReceivable(read: VersionRead)
    requires read.DataMarts? && read.language != ""
    requires Shown(ShowText(read.martType), DATA_MART_TYPES) && Shown(ShowText(read.mergeType), MERGE_TYPES)
    ensures Receivable(CanonicalRead(read))
  {}

  lemma PiecesColonFree(r: Request)
    requires Filtered(r)
    ensures forall s <- Pieces(r) :: ':' !in s
  {
    PiecesFree(r);
  }

  lemma DoubleAtCut(r: Request, e: nat) returns (other: Request)
    requires r.InVersion? && r.read.DataMarts? && Receivable(r.read)
    requires CutsAsListing(Pieces(r), e) && e != |Split(r.read.language, ':')|
    ensures other.InVersion? && Receivable(other.read) && Key(other) == Key(r) && Canonical(other) != Canonical(r)
  {
    PiecesColonFree(r);
    var language, page, size, rest := CutOf(Pieces(r), e);
    RecutKey(r, language, page, size, rest);
    var recut := Recut(r, language, page, size, rest);
    assert Split("", ':') == [""];
    CanonicalReceivable(recut.read);
    other := Canonical(recut);
    CanonicalTwice(recut);
    CanonicalKey(other, recut);
    LanguageKept(r, other);
  }

  lemma CanonicalTwice(r: Request)
    ensures Canonical(Canonical(r)) == Canonical(r)
  {}

  /** A receivable read shares its key with a different receivable one if and only if it is a data-mart listing whose
      pieces can be cut elsewhere: two numerals, then a mart type and a merge type or "None" for each. */
  lemma ReceivableDoubleExactlyWhen(r: Request)
    requires r.InVersion? && Receivable(r.read)
    ensures (exists other: Request :: other.InVersion? && Receivable(other.read) && Key(other) == Key(r)
                                      && Canonical(other) != Canonical(r)) <==>
            r.read.DataMarts? && exists e: nat :: e != |Split(r.read.language, ':')| && CutsAsListing(Pieces(r), e)
  {
    if other: Request :| other.InVersion? && Receivable(other.read) && Key(other) == Key(r)
                         && Canonical(other) != Canonical(r) {
      OnlyListingsCollide(r, other);
      SameFamilyFilters(r, other);
      if r.read.Connections? {
        ConnectionsIdentified(r, other);
      } else {
        SameKey(r, other);
        OwnCut(other);
        if |Split(r.read.language, ':')| == |Split(other.read.language, ':')| { SameMarts(r, other); }
      }
    }
    if r.read.DataMarts? {
      if e: nat :| e != |Split(r.read.language, ':')| && CutsAsListing(Pieces(r), e) {
        var other := DoubleAtCut(r, e);
      }
    }
  }

  // ---------------------------------------------------------------------
  // Two searches the tool lets through
  // ---------------------------------------------------------------------

  lemma JoinFlatten(a: seq<string>, b: seq<string>, c: seq<string>)
    requires a != [] && b != [] && c != []
    ensures Join(a + [Join(b, ':')] + c, ':') == Join(a + b + c, ':')
  {
    JoinConcat(a, [Join(b, ':')], ':');
    JoinConcat(a + [Join(b, ':')], c, ':');
    JoinConcat(a, b, ':');
    JoinConcat(a + b, c, ':');
  }

  /** The language `l:a:b:None:None` on page x of y rows, and the language `l` on page a of b rows, searched for what
      the colons then leave over. */
  lemma ColonSharesKey(p: int, v: int, l: string, a: int, b: int, x: int, y: int, search: string)
    ensures var longer := Join([l, Dec(a), Dec(b), "None", "None"], ':');
      var left := Join([Dec(x), Dec(y), "None", "None", search], ':');
      var first := InVersion(p, v, DataMarts(longer, x, y, None, None, Some(search)));
      var second := InVersion(p, v, DataMarts(l, a, b, None, None, Some(left)));
      Key(first) == Key(second) && Canonical(first) != Canonical(second)
      && Receivable(first.read) && (l != "" ==> Receivable(second.read))
  {
    var head, lead, tail := ["data_marts", Dec(p), Dec(v)], [l, Dec(a), Dec(b), "None", "None"],
                            [Dec(x), Dec(y), "None", "None", search];
    var first := InVersion(p, v, DataMarts(Join(lead, ':'), x, y, None, None, Some(search)));
    var second := InVersion(p, v, DataMarts(l, a, b, None, None, Some(Join(tail, ':'))));
    assert Parts(first) == head + [Join(lead, ':')] + tail;
    assert Parts(second) == head + lead + [Join(tail, ':')];
    JoinFlatten(head, lead, tail);
    JoinRegroup(head + lead, tail);
    JoinConcat([l], lead[1..], ':');
    assert lead == [l] + lead[1..];
    LanguageKept(first, second);
  }
}
