/** Exactly which reads share their cache key with a different read. */
module KeyCollisions {
  import opened Text
  import opened CacheKeys

  predicate HoldsColon(t: Option<string>) {
    t.Some? && ':' in t.value
  }

  predicate ColonInFilter(read: VersionRead) {
    match read
    case DataMarts(_, _, _, mart, merge, search) => HoldsColon(mart) || HoldsColon(merge) || HoldsColon(search)
    case Connections(_, _, _, db, status) => HoldsColon(db) || HoldsColon(status)
    case _ => false
  }

  lemma ShiftRight(x: string, y: string) returns (head: string, tail: string)
    requires ':' in x
    ensures Join([x, y], ':') == Join([head, tail], ':') && |head| < |x|
  {
    var i :| 0 <= i < |x| && x[i] == ':';
    head, tail := x[..i], x[i + 1..] + ":" + y;
    assert x == x[..i] + ":" + x[i + 1..];
    JoinTwo(x, y);
    JoinTwo(head, tail);
    assert head + ":" + tail == x + ":" + y;
  }

  lemma ShiftLeft(x: string, y: string) returns (head: string, tail: string)
    requires ':' in y
    ensures Join([x, y], ':') == Join([head, tail], ':') && |head| > |x| && ':' in head
  {
    var i :| 0 <= i < |y| && y[i] == ':';
    head, tail := x + ":" + y[..i], y[i + 1..];
    assert y == y[..i] + ":" + y[i + 1..];
    JoinTwo(x, y);
    JoinTwo(head, tail);
    assert head + ":" + tail == x + ":" + y;
    assert head[|x|] == ':';
  }

  /** Two neighbouring filters that join to the same text as the given two, and differ from them. */
  lemma ShiftColon(x: Option<string>, y: Option<string>) returns (x': Option<string>, y': Option<string>)
    requires HoldsColon(x) || HoldsColon(y)
    ensures Join([ShowText(x), ShowText(y)], ':') == Join([ShowText(x'), ShowText(y')], ':')
    ensures PlainText(x) != PlainText(x')
  {
    FixedWords(true);
    if HoldsColon(x) {
      var head, tail := ShiftRight(ShowText(x), ShowText(y));
      x', y' := Some(head), Some(tail);
    } else {
      var head, tail := ShiftLeft(ShowText(x), ShowText(y));
      x', y' := Some(head), Some(tail);
    }
  }

  /** Joined parts depend on two neighbours only through their own join. */
  lemma JoinShifted(head: seq<string>, x: string, y: string, x': string, y': string, tail: seq<string>)
    requires head != [] && Join([x, y], ':') == Join([x', y'], ':')
    ensures Join(head + [x, y] + tail, ':') == Join(head + [x', y'] + tail, ':')
  {
    JoinConcat(head, [x, y], ':');
    JoinConcat(head, [x', y'], ':');
    if tail != [] {
      JoinConcat(head + [x, y], tail, ':');
      JoinConcat(head + [x', y'], tail, ':');
    } else {
      assert head + [x, y] + tail == head + [x, y] && head + [x', y'] + tail == head + [x', y'];
    }
  }

  lemma DataMartsDouble(r: Request) returns (other: Request)
    requires r.InVersion? && r.read.DataMarts? && ColonInFilter(r.read)
    ensures Key(other) == Key(r) && Canonical(other) != Canonical(r)
  {
    var head, read := Parts(r)[..6], r.read;
    var mart, merge, search := ShowText(read.martType), ShowText(read.mergeType), ShowText(read.search);
    if HoldsColon(read.martType) || HoldsColon(read.mergeType) {
      var x, y := ShiftColon(read.martType, read.mergeType);
      other := r.(read := read.(martType := x, mergeType := y));
      assert Parts(r) == head + [mart, merge] + [search];
      assert Parts(other) == head + [ShowText(x), ShowText(y)] + [search];
      JoinShifted(head, mart, merge, ShowText(x), ShowText(y), [search]);
    } else {
      var x, y := ShiftColon(read.mergeType, read.search);
      other := r.(read := read.(mergeType := x, search := y));
      assert Parts(r) == (head + [mart]) + [merge, search] + [];
      assert Parts(other) == (head + [mart]) + [ShowText(x), ShowText(y)] + [];
      JoinShifted(head + [mart], merge, search, ShowText(x), ShowText(y), []);
    }
  }

  lemma ConnectionsDouble(r: Request) returns (other: Request)
    requires r.InVersion? && r.read.Connections? && ColonInFilter(r.read)
    ensures Key(other) == Key(r) && Canonical(other) != Canonical(r)
  {
    var head, read := Parts(r)[..6], r.read;
    var x, y := ShiftColon(read.dbType, read.status);
    other := r.(read := read.(dbType := x, status := y));
    assert Parts(r) == head + [ShowText(read.dbType), ShowText(read.status)] + [];
    assert Parts(other) == head + [ShowText(x), ShowText(y)] + [];
    JoinShifted(head, ShowText(read.dbType), ShowText(read.status), ShowText(x), ShowText(y), []);
  }

  // ---------------------------------------------------------------------
  // The pieces of a listing's key
  // ---------------------------------------------------------------------

  function FilterTexts(read: VersionRead): seq<string> {
    match read
    case DataMarts(_, _, _, mart, merge, search) => [ShowText(mart), ShowText(merge), ShowText(search)]
    case Connections(_, _, _, db, status) => [ShowText(db), ShowText(status)]
    case _ => []
  }

  lemma SplitJoinConcat(a: seq<string>, b: seq<string>)
    requires a != [] && b != []
    ensures Split(Join(a + b, ':'), ':') == Split(Join(a, ':'), ':') + Split(Join(b, ':'), ':')
  {
    JoinConcat(a, b, ':');
    SplitConcat(Join(a, ':'), Join(b, ':'), ':');
  }

  function Middle(read: VersionRead): seq<string>
    requires read.DataMarts? || read.Connections?
  {
    [Dec(read.page), Dec(read.pageSize)]
  }

  lemma ListingParts(r: Request)
    requires Filtered(r)
    ensures Parts(r) == Parts(r)[..3] + [r.read.language] + Middle(r.read) + FilterTexts(r.read)
    ensures FilterTexts(r.read) != [] && forall s <- Parts(r)[..3] + Middle(r.read) :: ':' !in s
  {
    FamilyAt(r);
    FamilyText(FamilyIndex(r));
    forall n ensures ':' !in Dec(n) { DecText(n); }
  }

  /** The pieces of the language, two numbers, and the pieces of the filters. */
  function Pieces(r: Request): seq<string>
    requires Filtered(r)
  {
    Split(r.read.language, ':') + Middle(r.read) + Split(Join(FilterTexts(r.read), ':'), ':')
  }

  lemma SplitFour(head: seq<string>, language: seq<string>, middle: seq<string>, filters: seq<string>)
    requires head != [] && language != [] && middle != [] && filters != []
    requires (forall s <- head :: ':' !in s) && (forall s <- middle :: ':' !in s)
    ensures Split(Join(head + (language + (middle + filters)), ':'), ':') ==
            head + (Split(Join(language, ':'), ':') + (middle + Split(Join(filters, ':'), ':')))
  {
    SplitJoinConcat(middle, filters);
    SplitJoinConcat(language, middle + filters);
    SplitJoinConcat(head, language + (middle + filters));
    SplitJoin(head, ':');
    SplitJoin(middle, ':');
  }

  lemma Reassociated(a: seq<string>, b: seq<string>, c: seq<string>, d: seq<string>)
    ensures a + b + c + d == a + (b + (c + d)) && b + c + d == b + (c + d)
  {}

  /** A listing's key is cut into its head and these pieces. */
  lemma ListingSegments(r: Request)
    requires Filtered(r)
    ensures Segments(Key(r)) == Parts(r)[..3] + Pieces(r)
  {
    ListingParts(r);
    var head, language, middle, filters := Parts(r)[..3], [r.read.language], Middle(r.read), FilterTexts(r.read);
    assert forall s <- head :: s in head + middle;
    assert forall s <- middle :: s in head + middle;
    SplitFour(head, language, middle, filters);
    Reassociated(head, language, middle, filters);
    Reassociated(head, Split(r.read.language, ':'), middle, Split(Join(filters, ':'), ':'));
  }

  lemma SameKey(a: Request, b: Request)
    requires Filtered(a) && Filtered(b)
    ensures Key(a) == Key(b) <==> Parts(a)[..3] == Parts(b)[..3] && Pieces(a) == Pieces(b)
  {
    ListingSegments(a);
    ListingSegments(b);
    SameHalves(Parts(a)[..3], Pieces(a), Parts(b)[..3], Pieces(b));
    JoinSplit(Key(a), ':');
    JoinSplit(Key(b), ':');
  }

  lemma SameHalves(a: seq<string>, x: seq<string>, b: seq<string>, y: seq<string>)
    requires |a| == |b|
    ensures a + x == b + y <==> a == b && x == y
  {
    assert (a + x)[..|a|] == a && (a + x)[|a|..] == x;
    assert (b + y)[..|b|] == b && (b + y)[|b|..] == y;
  }

  // ---------------------------------------------------------------------
  // Where a language can be cut differently
  // ---------------------------------------------------------------------

  /** The text an integer prints as. */
  predicate Numeral(s: string) {
    ParseInt(s).Some? && Dec(ParseInt(s).value) == s
  }

  lemma DecNumeral(n: int)
    ensures Numeral(Dec(n))
  {
    DecRoundTrip(n);
  }

  /** Piece e of the language, not its first, is a numeral, and so is the piece after it if there is one. */
  predicate NumeralsAt(pieces: seq<string>, e: nat) {
    1 <= e < |pieces| && Numeral(pieces[e]) && (e + 1 < |pieces| ==> Numeral(pieces[e + 1]))
  }

  predicate NumeralInLanguage(read: VersionRead)
    requires read.DataMarts? || read.Connections?
  {
    exists e :: 0 <= e < |Split(read.language, ':')| && NumeralsAt(Split(read.language, ':'), e)
  }

  /** Two ways to cut one list around two neighbours. */
  lemma TwoCuts(p: seq<string>, n: seq<string>, x: seq<string>, p': seq<string>, n': seq<string>, x': seq<string>)
    requires |n| == 2 && |n'| == 2 && p + n + x == p' + n' + x' && |x| <= |x'|
    ensures |p'| <= |p|
    ensures |p'| == |p| ==> p == p' && n == n' && x == x'
    ensures |p'| < |p| ==> p[|p'|] == n'[0] && (|p'| + 1 < |p| ==> p[|p'| + 1] == n'[1])
  {
    var all := p + n + x;
    assert all[..|p|] == p && all[|p|..|p| + 2] == n && all[|p| + 2..] == x;
    assert all[..|p'|] == p' && all[|p'|..|p'| + 2] == n' && all[|p'| + 2..] == x';
    assert |p'| < |p| ==> all[|p'|] == p[|p'|] && all[|p'|] == n'[0];
    assert |p'| + 1 < |p| ==> all[|p'| + 1] == p[|p'| + 1] && all[|p'| + 1] == n'[1];
  }

  lemma SameFamilyFilters(a: Request, b: Request)
    requires Filtered(a) && Filtered(b) && Key(a) == Key(b)
    ensures |FilterTexts(a.read)| == |FilterTexts(b.read)| && FilterTexts(a.read) != []
    ensures a.read.DataMarts? <==> b.read.DataMarts?
  {
    SameKeyFamily(a, b);
  }

  lemma SameListing(a: Request, b: Request)
    requires Filtered(a) && Filtered(b) && (a.read.DataMarts? <==> b.read.DataMarts?)
    requires Parts(a)[..3] == Parts(b)[..3] && a.read.language == b.read.language
    requires Middle(a.read) == Middle(b.read) && FilterTexts(a.read) == FilterTexts(b.read)
    ensures Canonical(a) == Canonical(b)
  {
    ListingParts(a);
    ListingParts(b);
    SameParts(a, b);
  }

  lemma FiltersColonFree(read: VersionRead)
    requires (read.DataMarts? || read.Connections?) && !ColonInFilter(read)
    ensures forall s <- FilterTexts(read) :: ':' !in s
  {
    FixedWords(true);
  }

  /** Without a colon in its filters, a listing's double cuts the language earlier, at a numeral. */
  lemma DoubleCutsLanguage(r: Request, other: Request)
    requires Filtered(r) && Filtered(other) && Key(other) == Key(r) && Canonical(other) != Canonical(r)
    requires !ColonInFilter(r.read)
    ensures NumeralInLanguage(r.read)
  {
    SameKey(r, other);
    SameFamilyFilters(r, other);
    FiltersColonFree(r.read);
    var p, p' := Split(r.read.language, ':'), Split(other.read.language, ':');
    var x, x' := Split(Join(FilterTexts(r.read), ':'), ':'), Split(Join(FilterTexts(other.read), ':'), ':');
    SplitJoin(FilterTexts(r.read), ':');
    SplitCount(FilterTexts(other.read), ':');
    TwoCuts(p, Middle(r.read), x, p', Middle(other.read), x');
    if |p'| == |p| {
      SplitJoin(FilterTexts(other.read), ':');
      JoinSplit(r.read.language, ':');
      JoinSplit(other.read.language, ':');
      SameListing(r, other);
    } else {
      DecNumeral(other.read.page);
      DecNumeral(other.read.pageSize);
      assert NumeralsAt(p, |p'|);
    }
  }

  // ---------------------------------------------------------------------
  // The double of a language that can be cut earlier
  // ---------------------------------------------------------------------

  /** The read with the given pieces for its language and filters; the last filter takes what is left over. */
  function Recut(r: Request, language: seq<string>, page: int, size: int, rest: seq<string>): Request
    requires Filtered(r) && |rest| >= |FilterTexts(r.read)|
  {
    r.(read := RecutRead(r.read, Join(language, ':'), page, size, rest))
  }

  function RecutRead(read: VersionRead, language: string, page: int, size: int, rest: seq<string>): VersionRead
    requires (read.DataMarts? || read.Connections?) && |rest| >= |FilterTexts(read)|
  {
    if read.DataMarts?
    then DataMarts(language, page, size, Some(rest[0]), Some(rest[1]), Some(Join(rest[2..], ':')))
    else Connections(language, page, size, Some(rest[0]), Some(Join(rest[1..], ':')))
  }

  lemma RecutTexts(read: VersionRead, language: string, page: int, size: int, rest: seq<string>)
    requires (read.DataMarts? || read.Connections?) && |rest| >= |FilterTexts(read)|
    ensures FilterTexts(RecutRead(read, language, page, size, rest)) ==
            if read.DataMarts? then [rest[0], rest[1], Join(rest[2..], ':')] else [rest[0], Join(rest[1..], ':')]
  {}

  lemma JoinRegroup(init: seq<string>, last: seq<string>)
    requires init != [] && last != []
    ensures Join(init + [Join(last, ':')], ':') == Join(init + last, ':')
  {
    JoinConcat(init, last, ':');
    JoinConcat(init, [Join(last, ':')], ':');
  }

  lemma RegroupAfterOne(rest: seq<string>)
    requires |rest| > 1
    ensures Join([rest[0], Join(rest[1..], ':')], ':') == Join(rest, ':')
  {
    var init, last := rest[..1], rest[1..];
    JoinRegroup(init, last);
    assert [rest[0], Join(last, ':')] == init + [Join(last, ':')];
    assert init + last == rest;
  }

  lemma RegroupAfterTwo(rest: seq<string>)
    requires |rest| > 2
    ensures Join([rest[0], rest[1], Join(rest[2..], ':')], ':') == Join(rest, ':')
  {
    var tail := rest[1..];
    RegroupAfterOne(tail);
    assert tail[1..] == rest[2..];
    assert [rest[0], rest[1], Join(rest[2..], ':')][1..] == [tail[0], Join(tail[1..], ':')];
  }

  lemma RecutFilters(r: Request, language: seq<string>, page: int, size: int, rest: seq<string>)
    requires Filtered(r) && |rest| >= |FilterTexts(r.read)|
    ensures Join(FilterTexts(Recut(r, language, page, size, rest).read), ':') == Join(rest, ':')
  {
    RecutTexts(r.read, Join(language, ':'), page, size, rest);
    if r.read.DataMarts? { RegroupAfterTwo(rest); } else { RegroupAfterOne(rest); }
  }

  /** Cutting the same pieces elsewhere gives the same key. */
  lemma RecutKey(r: Request, language: seq<string>, page: int, size: int, rest: seq<string>)
    requires Filtered(r) && language != [] && |rest| >= |FilterTexts(r.read)| && rest != []
    requires (forall s <- language :: ':' !in s) && (forall s <- rest :: ':' !in s)
    requires Pieces(r) == language + [Dec(page), Dec(size)] + rest
    ensures Key(Recut(r, language, page, size, rest)) == Key(r)
    ensures Split(Recut(r, language, page, size, rest).read.language, ':') == language
  {
    var other := Recut(r, language, page, size, rest);
    SplitJoin(language, ':');
    RecutFilters(r, language, page, size, rest);
    SplitJoin(rest, ':');
    assert Middle(other.read) == [Dec(page), Dec(size)];
    RecutHead(r, language, page, size, rest);
    SameKey(r, other);
  }

  lemma RecutHead(r: Request, language: seq<string>, page: int, size: int, rest: seq<string>)
    requires Filtered(r) && |rest| >= |FilterTexts(r.read)|
    ensures Parts(Recut(r, language, page, size, rest))[..3] == Parts(r)[..3]
  {}

  /** The pieces after a listing's head, cut after piece e of the language. */
  lemma CutAt(p: seq<string>, n: seq<string>, x: seq<string>, e: nat) returns (rest: seq<string>)
    requires |n| == 2 && NumeralsAt(p, e) && Numeral(n[0])
    requires (forall s <- p :: ':' !in s) && (forall s <- n :: ':' !in s) && (forall s <- x :: ':' !in s)
    ensures |rest| > |x| && forall s <- rest :: ':' !in s
    ensures Numeral((p + n)[e]) && Numeral((p + n)[e + 1])
    ensures p + n + x == p[..e] + [(p + n)[e], (p + n)[e + 1]] + rest
  {
    rest := (p + n)[e + 2..] + x;
    assert (p + n)[..e] == p[..e];
    assert p + n == (p + n)[..e] + [(p + n)[e], (p + n)[e + 1]] + (p + n)[e + 2..];
    assert forall s <- (p + n)[e + 2..] :: s in p + n;
  }

  lemma PiecesFree(r: Request)
    requires Filtered(r)
    ensures forall s <- Split(r.read.language, ':') :: ':' !in s
    ensures forall s <- Middle(r.read) :: ':' !in s
    ensures forall s <- Split(Join(FilterTexts(r.read), ':'), ':') :: ':' !in s
    ensures |Split(Join(FilterTexts(r.read), ':'), ':')| >= |FilterTexts(r.read)| > 0
    ensures Numeral(Middle(r.read)[0])
  {
    SplitPieces(r.read.language, ':');
    SplitPieces(Join(FilterTexts(r.read), ':'), ':');
    ListingParts(r);
    SplitCount(FilterTexts(r.read), ':');
    DecNumeral(r.read.page);
  }

  lemma NumeralHasDouble(r: Request) returns (other: Request)
    requires Filtered(r) && NumeralInLanguage(r.read)
    ensures Key(other) == Key(r) && Canonical(other) != Canonical(r)
  {
    PiecesFree(r);
    var p, n, x := Split(r.read.language, ':'), Middle(r.read), Split(Join(FilterTexts(r.read), ':'), ':');
    var e: nat :| e < |p| && NumeralsAt(p, e);
    var rest := CutAt(p, n, x, e);
    var page, size := ParseInt((p + n)[e]).value, ParseInt((p + n)[e + 1]).value;
    assert forall s <- p[..e] :: s in p;
    RecutKey(r, p[..e], page, size, rest);
    other := Recut(r, p[..e], page, size, rest);
    assert |p[..e]| < |p|;
    LanguageKept(r, other);
  }

  lemma LanguageKept(a: Request, b: Request)
    requires Filtered(a) && Filtered(b)
    ensures Canonical(a) == Canonical(b) ==> a.read.language == b.read.language
  {}

  /** A read shares its key with some different read if and only if it is a data-mart or connection listing and
      a filter of it holds a colon, or its language has a numeral among its later pieces where it can be cut. */
  lemma SharesKeyExactlyWhen(r: Request)
    ensures (exists other :: Key(other) == Key(r) && Canonical(other) != Canonical(r)) <==>
            Filtered(r) && (ColonInFilter(r.read) || NumeralInLanguage(r.read))
  {
    if Filtered(r) && ColonInFilter(r.read) {
      if r.read.DataMarts? {
        var other := DataMartsDouble(r);
      } else {
        var other := ConnectionsDouble(r);
      }
    } else if Filtered(r) && NumeralInLanguage(r.read) {
      var other := NumeralHasDouble(r);
    } else if other :| Key(other) == Key(r) && Canonical(other) != Canonical(r) {
      OnlyListingsCollide(r, other);
      DoubleCutsLanguage(r, other);
    }
  }
}
