/** Text as the gateway handles it, and the few helpers every other module shares. */
module Text {
  datatype Option<+T> = None | Some(value: T)

  function Mapped<A, B>(s: seq<A>, f: A -> B): (r: seq<B>)
    ensures |r| == |s| && forall i :: 0 <= i < |s| ==> r[i] == f(s[i])
  {
    seq(|s|, i requires 0 <= i < |s| => f(s[i]))
  }

  function Lookup<K, V>(m: map<K, V>, k: K): Option<V> {
    if k in m then Some(m[k]) else None
  }

  function Pow2(n: nat): (p: nat)
    ensures p >= 1
  {
    if n == 0 then 1 else 2 * Pow2(n - 1)
  }

  // ---------------------------------------------------------------------
  // Decimal rendering and parsing of integers
  // ---------------------------------------------------------------------

  predicate IsDigit(c: char) {
    '0' <= c <= '9'
  }

  function DigitChar(d: nat): (c: char)
    requires d < 10
    ensures IsDigit(c) && DigitValue(c) == d
  {
    '0' + (d as char)
  }

  function DigitValue(c: char): nat
    requires IsDigit(c)
  {
    c as nat - '0' as nat
  }

  function Digits(n: nat): (s: string)
    ensures s != "" && forall c <- s :: IsDigit(c)
  {
    if n < 10 then [DigitChar(n)] else Digits(n / 10) + [DigitChar(n % 10)]
  }

  /** The decimal text of an integer, as `str` and f-strings print it. */
  function Dec(n: int): (s: string)
    ensures s != "" && forall c <- s :: IsDigit(c) || c == '-'
  {
    if n < 0 then "-" + Digits(-n) else Digits(n)
  }

  /** Digits, single underscores allowed between two of them. */
  predicate NumeralBody(s: string) {
    && s != "" && IsDigit(s[0]) && IsDigit(s[|s| - 1])
    && (forall i :: 0 <= i < |s| ==> IsDigit(s[i]) || s[i] == '_')
    && (forall i :: 0 <= i < |s| - 1 ==> s[i] == '_' ==> s[i + 1] != '_')
  }

  function NumeralValue(s: string): nat
    requires forall c <- s :: IsDigit(c) || c == '_'
  {
    if s == "" then 0
    else
      var init, last := s[..|s| - 1], s[|s| - 1];
      if last == '_' then NumeralValue(init) else NumeralValue(init) * 10 + DigitValue(last)
  }

  function ParseNat(s: string): Option<nat> {
    if NumeralBody(s) then Some(NumeralValue(s)) else None
  }

  /** `int(text)` on stripped ASCII text: an optional sign, then a numeral. */
  function ParseInt(s: string): Option<int> {
    if s != "" && (s[0] == '-' || s[0] == '+') then
      match ParseNat(s[1..])
      case None => None
      case Some(n) => Some(if s[0] == '-' then 0 - n else n)
    else
      match ParseNat(s)
      case None => None
      case Some(n) => Some(n)
  }

  lemma {:induction false} DigitsParse(n: nat)
    ensures NumeralBody(Digits(n)) && NumeralValue(Digits(n)) == n
  {
    var s := Digits(n);
    if n >= 10 {
      DigitsParse(n / 10);
      assert s[..|s| - 1] == Digits(n / 10);
    } else {
      assert s[..|s| - 1] == "";
    }
  }

  lemma DigitsStart(n: nat)
    ensures IsDigit(Digits(n)[0])
  {
    assert Digits(n)[0] in Digits(n);
  }

  /** Reading back a printed integer gives the integer. */
  lemma DecRoundTrip(n: int)
    ensures ParseInt(Dec(n)) == Some(n)
  {
    var m: nat := if n < 0 then -n else n;
    var digits := Digits(m);
    DigitsParse(m);
    DigitsStart(m);
    assert ParseNat(digits) == Some(m);
    if n < 0 {
      assert Dec(n) == "-" + digits && Dec(n)[0] == '-' && Dec(n)[1..] == digits;
    }
  }

  lemma DecInjective(a: int, b: int)
    ensures Dec(a) == Dec(b) <==> a == b
  {
    DecRoundTrip(a);
    DecRoundTrip(b);
  }

  /** A plus sign and an underscore between digits change nothing. */
  lemma SignedAndGrouped(n: nat, a: string, b: string)
    ensures ParseInt("+" + Dec(n)) == Some(n)
    ensures NumeralBody(a) && NumeralBody(b) ==> ParseInt(a + "_" + b) == ParseInt(a + b) && ParseInt(a + b).Some?
  {
    DigitsParse(n);
    assert ("+" + Dec(n))[1..] == Dec(n) == Digits(n);
    if NumeralBody(a) && NumeralBody(b) {
      GroupedBody(a, b);
      GroupedValue(a, b);
    }
  }

  lemma GroupedBody(a: string, b: string)
    requires NumeralBody(a) && NumeralBody(b)
    ensures NumeralBody(a + "_" + b) && NumeralBody(a + b)
  {}

  lemma {:induction false} GroupedValue(a: string, b: string)
    requires forall c <- a + b :: IsDigit(c) || c == '_'
    ensures NumeralValue(a + "_" + b) == NumeralValue(a + b)
  {
    if b == "" {
      assert (a + "_" + b)[..|a|] == a && a + b == a;
    } else {
      var n := |b| - 1;
      assert (a + "_" + b)[..|a| + 1 + n] == a + "_" + b[..n] && (a + b)[..|a| + n] == a + b[..n];
      GroupedValue(a, b[..n]);
    }
  }

  /** An integer text is nothing but digits and underscores after at most one sign, and has a digit. */
  lemma IntegerText(s: string)
    requires ParseInt(s).Some?
    ensures s != "" && forall i :: 0 <= i < |s| ==> IsDigit(s[i]) || s[i] == '_' || (i == 0 && s[i] in "+-")
    ensures IsDigit(s[|s| - 1])
  {
    if s[0] == '-' || s[0] == '+' {
      var body := s[1..];
      assert forall i :: 0 < i < |s| ==> s[i] == body[i - 1];
    }
  }

  // ---------------------------------------------------------------------
  // Stripping and lower-casing
  // ---------------------------------------------------------------------

  /** The characters `str.strip` removes. */
  predicate IsSpace(c: char) {
    var n := c as int;
    || 0x09 <= n <= 0x0D || 0x1C <= n <= 0x20 || n == 0x85 || n == 0xA0 || n == 0x1680
    || 0x2000 <= n <= 0x200A || n == 0x2028 || n == 0x2029 || n == 0x202F || n == 0x205F || n == 0x3000
  }

  function StripLeft(s: string): string {
    if s != "" && IsSpace(s[0]) then StripLeft(s[1..]) else s
  }

  function StripRight(s: string): string {
    if s != "" && IsSpace(s[|s| - 1]) then StripRight(s[..|s| - 1]) else s
  }

  function Strip(s: string): string {
    StripRight(StripLeft(s))
  }

  /** Text that `strip` leaves alone at both ends. */
  predicate Trimmed(s: string) {
    s != "" && !IsSpace(s[0]) && !IsSpace(s[|s| - 1])
  }

  predicate Blank(s: string) {
    forall c <- s :: IsSpace(c)
  }

  lemma {:induction false} StripLeftPad(pad: string, s: string)
    requires Blank(pad) && (s == "" || !IsSpace(s[0]))
    ensures StripLeft(pad + s) == s
  {
    if pad != "" {
      assert (pad + s)[1..] == pad[1..] + s;
      StripLeftPad(pad[1..], s);
    } else {
      assert pad + s == s;
    }
  }

  lemma {:induction false} StripRightPad(s: string, pad: string)
    requires Blank(pad) && (s == "" || !IsSpace(s[|s| - 1]))
    ensures StripRight(s + pad) == s
  {
    if pad != "" {
      assert (s + pad)[..|s + pad| - 1] == s + pad[..|pad| - 1];
      StripRightPad(s, pad[..|pad| - 1]);
    } else {
      assert s + pad == s;
    }
  }

  lemma StripPadded(left: string, s: string, right: string)
    requires Blank(left) && Trimmed(s) && Blank(right)
    ensures Strip(left + s + right) == s
  {
    assert left + s + right == left + (s + right);
    StripLeftPad(left, s + right);
    StripRightPad(s, right);
  }

  function LowerChar(c: char): char {
    if 'A' <= c <= 'Z' then 'a' + (c - 'A') else c
  }

  function Lower(s: string): string {
    seq(|s|, i requires 0 <= i < |s| => LowerChar(s[i]))
  }

  function UpperChar(c: char): char {
    if 'a' <= c <= 'z' then 'A' + (c - 'a') else c
  }

  function Upper(s: string): string {
    seq(|s|, i requires 0 <= i < |s| => UpperChar(s[i]))
  }

  /** Stripping removes blank text at both ends, and leaves none there. */
  lemma StripMeans(s: string) returns (left: string, right: string)
    ensures s == left + Strip(s) + right && Blank(left) && Blank(right) && (Strip(s) == "" || Trimmed(Strip(s)))
  {
    left := StripLeftMeans(s);
    right := StripRightMeans(StripLeft(s));
    var inner := StripLeft(s);
    assert left + (Strip(s) + right) == left + Strip(s) + right;
    if Strip(s) != "" { assert inner[0] == Strip(s)[0]; }
  }

  lemma {:induction false} StripLeftMeans(s: string) returns (left: string)
    ensures s == left + StripLeft(s) && Blank(left) && (StripLeft(s) == "" || !IsSpace(StripLeft(s)[0]))
  {
    if s != "" && IsSpace(s[0]) {
      var rest := StripLeftMeans(s[1..]);
      left := [s[0]] + rest;
      assert s == [s[0]] + s[1..];
    } else {
      left := "";
    }
  }

  lemma {:induction false} StripRightMeans(s: string) returns (right: string)
    ensures s == StripRight(s) + right && Blank(right)
    ensures StripRight(s) == "" || !IsSpace(StripRight(s)[|StripRight(s)| - 1])
  {
    if s != "" && IsSpace(s[|s| - 1]) {
      var rest := StripRightMeans(s[..|s| - 1]);
      right := rest + [s[|s| - 1]];
      assert s == s[..|s| - 1] + [s[|s| - 1]];
    } else {
      right := "";
    }
  }

  /** The text spells the lower-case word, each letter in either case. */
  predicate Spells(s: string, word: string) {
    |s| == |word| && forall i :: 0 <= i < |s| ==>
      s[i] == word[i] || ('A' <= s[i] <= 'Z' && word[i] as int == s[i] as int + 32)
  }

  lemma LowerMeans(s: string, word: string)
    requires forall c <- word :: !('A' <= c <= 'Z')
    ensures Lower(s) == word <==> Spells(s, word)
  {
    assert forall i :: 0 <= i < |word| ==> word[i] in word;
    if Spells(s, word) {
      forall i | 0 <= i < |s| ensures Lower(s)[i] == word[i] {}
    }
    if Lower(s) == word {
      forall i | 0 <= i < |s| ensures LowerChar(s[i]) == word[i] {
        assert Lower(s)[i] == word[i];
      }
    }
  }

  // ---------------------------------------------------------------------
  // Substrings
  // ---------------------------------------------------------------------

  predicate FoundAt(text: string, needle: string, i: nat) {
    i + |needle| <= |text| && text[i..i + |needle|] == needle
  }

  /** `needle in text`. */
  predicate Contains(text: string, needle: string) {
    exists i: nat :: i <= |text| && FoundAt(text, needle, i)
  }

  // ---------------------------------------------------------------------
  // Splitting and joining on one separator character
  // ---------------------------------------------------------------------

  /** `s.split(c)`: never empty; an empty text gives one empty part. */
  function Split(s: string, c: char): (parts: seq<string>)
    ensures parts != []
  {
    if s == "" then [""]
    else
      var rest := Split(s[1..], c);
      if s[0] == c then [""] + rest else [[s[0]] + rest[0]] + rest[1..]
  }

  /** `c.join(parts)`. */
  function Join(parts: seq<string>, c: char): string {
    if parts == [] then ""
    else if |parts| == 1 then parts[0]
    else parts[0] + [c] + Join(parts[1..], c)
  }

  lemma {:induction false} SplitPlain(a: string, c: char)
    requires c !in a
    ensures Split(a, c) == [a]
  {
    if a != "" {
      SplitPlain(a[1..], c);
      assert [a[0]] + a[1..] == a;
    }
  }

  /** A separator cuts a text in two, whatever the pieces hold. */
  lemma {:induction false} SplitConcat(a: string, rest: string, c: char)
    ensures Split(a + [c] + rest, c) == Split(a, c) + Split(rest, c)
  {
    var s := a + [c] + rest;
    if a == "" {
      assert s[1..] == rest;
    } else {
      assert s[1..] == a[1..] + [c] + rest;
      SplitConcat(a[1..], rest, c);
    }
  }

  lemma SplitHead(a: string, rest: string, c: char)
    requires c !in a
    ensures Split(a + [c] + rest, c) == [a] + Split(rest, c)
  {
    SplitConcat(a, rest, c);
    SplitPlain(a, c);
  }

  lemma {:induction false} JoinConcat(a: seq<string>, b: seq<string>, c: char)
    requires a != [] && b != []
    ensures Join(a + b, c) == Join(a, c) + [c] + Join(b, c)
  {
    if |a| == 1 {
      assert (a + b)[1..] == b;
    } else {
      assert (a + b)[1..] == a[1..] + b;
      JoinConcat(a[1..], b, c);
    }
  }

  lemma {:induction false} SplitJoin(parts: seq<string>, c: char)
    requires parts != [] && forall p <- parts :: c !in p
    ensures Split(Join(parts, c), c) == parts
  {
    var first, rest := parts[0], parts[1..];
    if rest == [] {
      SplitPlain(first, c);
    } else {
      SplitHead(first, Join(rest, c), c);
      SplitJoin(rest, c);
    }
  }

  /** Leading parts without the separator are recovered whatever the later parts hold. */
  lemma SplitJoinPrefix(parts: seq<string>, k: nat, c: char)
    requires k < |parts| && forall i :: 0 <= i < k ==> c !in parts[i]
    ensures Split(Join(parts, c), c) == parts[..k] + Split(Join(parts[k..], c), c)
  {
    if k == 0 {
      assert parts[0..] == parts;
    } else {
      var lead, rest := parts[..k], parts[k..];
      assert lead + rest == parts;
      JoinConcat(lead, rest, c);
      SplitConcat(Join(lead, c), Join(rest, c), c);
      SplitJoin(lead, c);
    }
  }

  /** All parts but one are recovered, and that one comes back cut. */
  lemma SplitAround(parts: seq<string>, f: nat, c: char)
    requires f < |parts| && forall i :: 0 <= i < |parts| && i != f ==> c !in parts[i]
    ensures Split(Join(parts, c), c) == parts[..f] + Split(parts[f], c) + parts[f + 1..]
  {
    SplitJoinPrefix(parts, f, c);
    var rest := parts[f + 1..];
    assert parts[f..][1..] == rest;
    if rest != [] {
      SplitConcat(parts[f], Join(rest, c), c);
      SplitJoin(rest, c);
      assert Join(parts[f..], c) == parts[f] + [c] + Join(rest, c);
    }
  }

  lemma {:induction false} SplitSingle(s: string, c: char)
    ensures |Split(s, c)| == 1 ==> c !in s
  {
    if s != "" { SplitSingle(s[1..], c); }
  }

  /** Joined parts are cut into at least as many again, and into exactly as many only if none holds the separator. */
  lemma {:induction false} SplitCount(parts: seq<string>, c: char)
    requires parts != []
    ensures |Split(Join(parts, c), c)| >= |parts|
    ensures |Split(Join(parts, c), c)| == |parts| ==> forall i :: 0 <= i < |parts| ==> c !in parts[i]
  {
    SplitSingle(parts[0], c);
    if |parts| > 1 {
      SplitConcat(parts[0], Join(parts[1..], c), c);
      SplitCount(parts[1..], c);
      assert forall i :: 1 <= i < |parts| ==> parts[i] == parts[1..][i - 1];
    }
  }

  /** Cutting and joining gives the text back. */
  lemma {:induction false} JoinSplit(s: string, c: char)
    ensures Join(Split(s, c), c) == s
  {
    if s != "" {
      JoinSplit(s[1..], c);
      JoinFirst(Split(s[1..], c), s[0], c);
    }
  }

  lemma JoinFirst(parts: seq<string>, x: char, c: char)
    requires parts != []
    ensures Join([[x] + parts[0]] + parts[1..], c) == [x] + Join(parts, c)
    ensures Join([""] + parts, c) == [c] + Join(parts, c)
  {
    assert ([[x] + parts[0]] + parts[1..])[1..] == parts[1..];
    assert ([""] + parts)[1..] == parts;
    if |parts| > 1 {
      assert [x] + (parts[0] + [c] + Join(parts[1..], c)) == ([x] + parts[0]) + [c] + Join(parts[1..], c);
    }
  }

  lemma {:induction false} SplitPieces(s: string, c: char)
    ensures forall piece <- Split(s, c) :: c !in piece
  {
    if s != "" { SplitPieces(s[1..], c); }
  }

  lemma JoinSuffix(parts: seq<string>, suffix: string, c: char)
    requires parts != []
    ensures var n := |parts| - 1; Join(parts[..n] + [parts[n] + suffix], c) == Join(parts, c) + suffix
  {
    var n := |parts| - 1;
    assert parts == parts[..n] + [parts[n]];
    if n > 0 {
      JoinConcat(parts[..n], [parts[n]], c);
      JoinConcat(parts[..n], [parts[n] + suffix], c);
    }
  }

  /** A suffix without the separator stays with the last piece. */
  lemma SplitSuffix(s: string, suffix: string, c: char)
    requires c !in suffix
    ensures var parts := Split(s, c); var n := |parts| - 1;
      Split(s + suffix, c) == parts[..n] + [parts[n] + suffix]
  {
    var parts := Split(s, c);
    var n := |parts| - 1;
    JoinSplit(s, c);
    JoinSuffix(parts, suffix, c);
    SplitPieces(s, c);
    var longer := parts[..n] + [parts[n] + suffix];
    assert forall p <- parts[..n] :: p in parts;
    assert parts[n] in parts;
    SplitJoin(longer, c);
  }
}
