/** Which error code an error answer gets, by exact lookups first and then by a substring scan. */
module Errors {
  import opened Text
  import opened Transport

  datatype Entry = Entry(key: string, code: ErrorCode)

  /** The catalogue: v2 codes, guard-level keys, and what a bare status below 500 degrades to. */
  datatype Catalogue = Catalogue(v2: seq<Entry>, guards: seq<Entry>, fallback: map<int, ErrorCode>)

  /** The members of a JSON error body that hold text; None where one is absent or of another type. */
  datatype Envelope = Envelope(code: Option<string>, originalMessage: Option<string>, error: Option<string>)

  datatype Resolution = Resolution(code: ErrorCode, apiCode: Option<string>, originalMessage: Option<string>)

  const SERVER_ERROR := OtherCode("DATAFORGE_SERVER_ERROR")

  function CodeOf(table: seq<Entry>, key: string): (r: Option<ErrorCode>)
    ensures r.None? <==> forall i :: 0 <= i < |table| ==> table[i].key != key
  {
    if table == [] then None
    else if table[0].key == key then Some(table[0].code)
    else CodeOf(table[1..], key)
  }

  function DerivedKey(code: string): string {
    "DF_API." + Upper(code)
  }

  /** The legacy keys, made from the v2 codes. */
  function Derived(v2: seq<Entry>): (table: seq<Entry>)
    ensures |table| == |v2|
    ensures forall i :: 0 <= i < |v2| ==> table[i] == Entry(DerivedKey(v2[i].key), v2[i].code)
  {
    seq(|v2|, i requires 0 <= i < |v2| => Entry(DerivedKey(v2[i].key), v2[i].code))
  }

  /** The first key that occurs in the body. */
  function Scan(table: seq<Entry>, body: string): Option<Entry> {
    if table == [] then None
    else if Contains(body, table[0].key) then Some(table[0])
    else Scan(table[1..], body)
  }

  /** `text or other`. */
  function Or(text: Option<string>, other: string): Option<string> {
    if text.Some? && text.value != "" then text else Some(other)
  }

  /** A guard-level key or a legacy one. */
  function Legacy(c: Catalogue, key: Option<string>): Option<ErrorCode> {
    if key.None? then None
    else if CodeOf(c.guards, key.value).Some? then CodeOf(c.guards, key.value)
    else CodeOf(Derived(c.v2), key.value)
  }

  /** `_resolve_code`. */
  function Resolve(c: Catalogue, envelope: Option<Envelope>, body: string, status: int): Resolution {
    var e := if envelope.Some? then envelope.value else Envelope(None, None, None);
    var v2 := if e.code.Some? then CodeOf(c.v2, e.code.value) else None;
    if v2.Some? then Resolution(v2.value, e.code, e.originalMessage)
    else if Legacy(c, e.originalMessage).Some? then
      Resolution(Legacy(c, e.originalMessage).value, e.code, e.originalMessage)
    else if Legacy(c, e.error).Some? then
      Resolution(Legacy(c, e.error).value, e.code, Or(e.originalMessage, e.error.value))
    else
      match Scan(Scanned(c), body)
      case Some(found) => Resolution(found.code, e.code, Or(e.originalMessage, found.key))
      case None =>
        var code := if status < 500 && status in c.fallback then c.fallback[status] else SERVER_ERROR;
        Resolution(code, e.code, e.originalMessage)
  }

  // ---------------------------------------------------------------------
  // The spellings of one code
  // ---------------------------------------------------------------------

  predicate SnakeCase(key: string) {
    forall c <- key :: 'a' <= c <= 'z' || c == '_' || '0' <= c <= '9'
  }

  /** v2 codes are distinct and in lower snake case; no guard key looks like a legacy key. */
  predicate Regular(c: Catalogue) {
    && (forall i, j :: 0 <= i < j < |c.v2| ==> c.v2[i].key != c.v2[j].key)
    && (forall i :: 0 <= i < |c.v2| ==> SnakeCase(c.v2[i].key))
    && (forall i :: 0 <= i < |c.guards| ==> !("DF_API." <= c.guards[i].key))
  }

  /** A text that is a guard-level key means that key's code, whatever the legacy table says; another one means what
      its legacy key does. */
  lemma GuardKeysFirst(c: Catalogue, key: string)
    ensures (exists i :: 0 <= i < |c.guards| && c.guards[i].key == key) ==>
              exists i :: 0 <= i < |c.guards| && c.guards[i].key == key
                          && Legacy(c, Some(key)) == Some(c.guards[i].code)
    ensures (forall i :: 0 <= i < |c.guards| ==> c.guards[i].key != key) ==>
              (Legacy(c, Some(key)).Some? <==> exists i :: 0 <= i < |c.v2| && DerivedKey(c.v2[i].key) == key)
  {
    CodeOfEntry(c.guards, key);
    var table := Derived(c.v2);
    assert forall i :: 0 <= i < |c.v2| ==> table[i].key == DerivedKey(c.v2[i].key);
  }

  lemma {:induction false} CodeOfEntry(table: seq<Entry>, key: string)
    ensures CodeOf(table, key).Some? ==>
              exists i :: 0 <= i < |table| && table[i].key == key && CodeOf(table, key) == Some(table[i].code)
  {
    if table != [] && table[0].key != key {
      CodeOfEntry(table[1..], key);
      if i :| 0 <= i < |table| - 1 && table[1..][i].key == key && CodeOf(table, key) == Some(table[1..][i].code) {
        assert table[i + 1].key == key;
      }
    }
  }

  lemma DerivedInjective(a: string, b: string)
    requires SnakeCase(a) && SnakeCase(b)
    ensures DerivedKey(a) == DerivedKey(b) <==> a == b
  {
    if DerivedKey(a) == DerivedKey(b) {
      assert DerivedKey(a)[7..] == Upper(a) && DerivedKey(b)[7..] == Upper(b);
      forall i | 0 <= i < |a| ensures a[i] == b[i] {
        assert a[i] in a && b[i] in b;
        assert Upper(a)[i] == Upper(b)[i];
      }
    }
  }

  lemma {:induction false} LookupAt(table: seq<Entry>, i: nat)
    requires i < |table| && forall k, j :: 0 <= k < j < |table| ==> table[k].key != table[j].key
    ensures CodeOf(table, table[i].key) == Some(table[i].code)
  {
    if i > 0 {
      assert table[0].key != table[i].key;
      LookupAt(table[1..], i - 1);
    }
  }

  lemma LegacyOfDerived(c: Catalogue, i: nat)
    requires Regular(c) && i < |c.v2|
    ensures Legacy(c, Some(DerivedKey(c.v2[i].key))) == Some(c.v2[i].code)
  {
    var key := DerivedKey(c.v2[i].key);
    assert "DF_API." <= key;
    var derived := Derived(c.v2);
    forall k, j | 0 <= k < j < |derived| ensures derived[k].key != derived[j].key {
      DerivedInjective(c.v2[k].key, c.v2[j].key);
    }
    LookupAt(derived, i);
    assert derived[i].key == key;
  }

  /**
    * A catalogued failure gets the same code whether the answer spells it as a v2
    * code, as a legacy key, or as a legacy key in the compatibility member, each
    * taking precedence over what follows it, over the text and over the status.
    */
  lemma SpellingsAgree(c: Catalogue, i: nat, e: Envelope, body: string, status: int)
    requires Regular(c) && i < |c.v2|
    requires e.code.Some? ==> CodeOf(c.v2, e.code.value).None?
    ensures Resolve(c, Some(e.(code := Some(c.v2[i].key))), body, status).code == c.v2[i].code
    ensures Resolve(c, Some(e.(originalMessage := Some(DerivedKey(c.v2[i].key)))), body, status).code == c.v2[i].code
    ensures Legacy(c, e.originalMessage).None? ==>
              Resolve(c, Some(e.(error := Some(DerivedKey(c.v2[i].key)))), body, status).code == c.v2[i].code
  {
    LookupAt(c.v2, i);
    LegacyOfDerived(c, i);
  }

  // ---------------------------------------------------------------------
  // The scan
  // ---------------------------------------------------------------------

  lemma {:induction false} ScanFindsFirst(table: seq<Entry>, body: string, i: nat)
    requires i < |table| && Contains(body, table[i].key)
    requires forall j :: 0 <= j < i ==> !Contains(body, table[j].key)
    ensures Scan(table, body) == Some(table[i])
  {
    if i > 0 { ScanFindsFirst(table[1..], body, i - 1); }
  }

  lemma {:induction false} FirstFound(table: seq<Entry>, body: string, i: nat) returns (first: nat)
    requires i < |table| && Contains(body, table[i].key)
    ensures first <= i && Contains(body, table[first].key)
    ensures forall j :: 0 <= j < first ==> !Contains(body, table[j].key)
    ensures Scan(table, body) == Some(table[first])
  {
    if j :| 0 <= j < i && Contains(body, table[j].key) {
      first := FirstFound(table, body, j);
    } else {
      first := i;
      ScanFindsFirst(table, body, i);
    }
  }

  /** A key is recognised in its own text exactly when it contains no key listed before it. */
  lemma ScanAgreesExactlyWhen(table: seq<Entry>, i: nat)
    requires i < |table| && forall j, k :: 0 <= j < k < |table| ==> table[j].key != table[k].key
    ensures Scan(table, table[i].key) == Some(table[i]) <==>
              forall j :: 0 <= j < i ==> !Contains(table[i].key, table[j].key)
  {
    var key := table[i].key;
    assert FoundAt(key, key, 0);
    var first := FirstFound(table, key, i);
  }

  /** The scan's table: guard-level keys, then the legacy ones. */
  function Scanned(c: Catalogue): seq<Entry> {
    c.guards + Derived(c.v2)
  }

  lemma PrefixContained(a: string, b: string)
    requires a <= b
    ensures Contains(DerivedKey(b), DerivedKey(a))
  {
    assert Upper(b)[..|a|] == Upper(a);
    assert DerivedKey(b)[..|DerivedKey(a)|] == DerivedKey(a);
    assert FoundAt(DerivedKey(b), DerivedKey(a), 0);
  }

  /** Where one code is a prefix of a later one, an envelope with the later legacy key gets the later code, but
      a body that is no envelope gets that of an entry up to the earlier: the earlier code itself where
      nothing before it occurs in the key, and never the later one where that code is its alone so far. */
  lemma PrefixShadows(c: Catalogue, i: nat, j: nat, status: int)
    requires Regular(c) && i < j < |c.v2| && c.v2[i].key <= c.v2[j].key
    ensures var key, table, at := DerivedKey(c.v2[j].key), Scanned(c), |c.guards| + i;
      var bare := Resolve(c, None, key, status).code;
      && Resolve(c, Some(Envelope(None, Some(key), None)), key, status).code == c.v2[j].code
      && (exists e :: 0 <= e <= at && bare == table[e].code && Contains(key, table[e].key))
      && ((forall e :: 0 <= e < at ==> !Contains(key, table[e].key)) ==> bare == c.v2[i].code)
      && ((forall e :: 0 <= e <= at ==> table[e].code != c.v2[j].code) ==> bare != c.v2[j].code)
  {
    var key, table := DerivedKey(c.v2[j].key), Scanned(c);
    PrefixContained(c.v2[i].key, c.v2[j].key);
    LegacyOfDerived(c, j);
    var first := FirstFound(table, key, |c.guards| + i);
    assert Resolve(c, None, key, status).code == table[first].code;
  }

  // ---------------------------------------------------------------------
  // The catalogue's own case
  // ---------------------------------------------------------------------

  const GUARD_KEYS: seq<string> := [
    "API_KEY.KEY_MISSING", "API_KEY.INVALID_KEY", "API_KEY.INVALID_ENCRYPTED_API_KEY", "API_KEY.AUTH_FAILED",
    "API_KEY.ACCOUNT_LOCKED", "API_KEY.IP_BLOCKED", "API.NOT_AVAILABLE_WITHOUT_VALID_LICENSE", "Unauthorized"]

  const FIRST_CODES: seq<string> := [
    "invalid_api_key", "account_locked", "ip_not_allowed", "license_invalid", "license_limit_reached",
    "write_access_denied", "invalid_parameter"]

  /** The catalogue begins as the gateway's does; what follows is left open. */
  predicate BeginsAsShipped(c: Catalogue) {
    && |c.guards| == |GUARD_KEYS| && |c.v2| >= |FIRST_CODES|
    && (forall i :: 0 <= i < |GUARD_KEYS| ==> c.guards[i].key == GUARD_KEYS[i])
    && (forall i :: 0 <= i < |FIRST_CODES| ==> c.v2[i].key == FIRST_CODES[i])
  }

  predicate Foreign(x: char) {
    x == 'K' || x == 'O' || x == 'U' || x == 'C'
  }

  lemma GuardForeign(i: nat)
    requires i < 8
    ensures exists x <- GUARD_KEYS[i] :: Foreign(x)
  {
    var at := if i < 6 then 4 else if i == 6 then 5 else 0;
    assert Foreign(GUARD_KEYS[i][at]);
  }

  lemma CodeForeign(i: nat)
    requires i < 6
    ensures exists x <- DerivedKey(FIRST_CODES[i]) :: Foreign(x)
  {
    var code := FIRST_CODES[i];
    var at := if i == 0 then 12 else if i == 1 then 1 else if i == 2 then 4 else if i == 5 then 7 else 2;
    assert code[at] in ['k', 'c', 'o'];
    var x := DerivedKey(code)[7 + at];
    assert x == Upper(code)[at] == UpperChar(code[at]);
    assert x in DerivedKey(code) && Foreign(x);
  }

  lemma TypeKeyText(x: char)
    requires x in DerivedKey("invalid_parameter_type")
    ensures !Foreign(x)
  {
    var code := "invalid_parameter_type";
    assert forall y <- "DF_API." :: !Foreign(y);
    assert forall y <- code :: !Foreign(UpperChar(y));
    var i :| 0 <= i < |DerivedKey(code)| && DerivedKey(code)[i] == x;
    if i >= 7 {
      assert x == Upper(code)[i - 7] == UpperChar(code[i - 7]) && code[i - 7] in code;
    } else {
      assert x == "DF_API."[i];
    }
  }

  lemma ForeignApart(body: string, key: string)
    requires (forall x <- body :: !Foreign(x)) && exists x <- key :: Foreign(x)
    ensures !Contains(body, key)
  {
    var x :| x in key && Foreign(x);
    forall i: nat | i <= |body| ensures !FoundAt(body, key, i) {
      if i + |key| <= |body| {
        assert forall y <- body[i..i + |key|] :: y in body;
      }
    }
  }

  /** In the shipped catalogue a bare "DF_API.INVALID_PARAMETER_TYPE" is taken for an invalid parameter. */
  lemma ParameterTypeShadowed(c: Catalogue, j: nat, status: int)
    requires Regular(c) && BeginsAsShipped(c) && 6 < j < |c.v2| && c.v2[j].key == "invalid_parameter_type"
    ensures Resolve(c, None, DerivedKey(c.v2[j].key), status).code == c.v2[6].code
    ensures Resolve(c, Some(Envelope(None, Some(DerivedKey(c.v2[j].key)), None)), DerivedKey(c.v2[j].key), status).code
            == c.v2[j].code
  {
    var key := DerivedKey(c.v2[j].key);
    forall x | x in key ensures !Foreign(x) { TypeKeyText(x); }
    forall e: nat | e < |c.guards| + 6 ensures !Contains(key, Scanned(c)[e].key) {
      if e < 8 {
        GuardForeign(e);
        ForeignApart(key, GUARD_KEYS[e]);
      } else {
        CodeForeign(e - 8);
        ForeignApart(key, DerivedKey(FIRST_CODES[e - 8]));
      }
    }
    assert "invalid_parameter" <= "invalid_parameter_type";
    PrefixShadows(c, 6, j, status);
  }

  // ---------------------------------------------------------------------
  // What no spelling decides
  // ---------------------------------------------------------------------

  /** `_STATUS_FALLBACK`. */
  const STATUS_FALLBACK: map<int, ErrorCode> := map[
    400 := OtherCode("DATAFORGE_INVALID_PARAMETER"), 401 := OtherCode("DATAFORGE_UNAUTHORIZED"),
    403 := OtherCode("DATAFORGE_WRITE_ACCESS_DENIED"), 404 := OtherCode("DATAFORGE_RESOURCE_NOT_FOUND"),
    409 := OtherCode("DATAFORGE_CONSTRAINT_VIOLATION"), 422 := OtherCode("DATAFORGE_UNPROCESSABLE_ENTITY"),
    429 := OtherCode("DATAFORGE_RATE_LIMIT_EXCEEDED")]

  predicate Known(c: Catalogue, key: Option<string>) {
    key.Some? && ((exists i :: 0 <= i < |c.guards| && c.guards[i].key == key.value)
                  || (exists i :: 0 <= i < |c.v2| && DerivedKey(c.v2[i].key) == key.value))
  }

  /** No member of the answer is a catalogued spelling, and its text holds none. */
  predicate Unrecognised(c: Catalogue, e: Envelope, body: string) {
    && (e.code.Some? ==> forall i :: 0 <= i < |c.v2| ==> c.v2[i].key != e.code.value)
    && !Known(c, e.originalMessage) && !Known(c, e.error)
    && (forall i :: 0 <= i < |c.guards| ==> !Contains(body, c.guards[i].key))
    && (forall i :: 0 <= i < |c.v2| ==> !Contains(body, DerivedKey(c.v2[i].key)))
  }

  lemma LegacyKnown(c: Catalogue, key: Option<string>)
    ensures Legacy(c, key).Some? <==> Known(c, key)
  {
    var table := Derived(c.v2);
    assert forall i :: 0 <= i < |c.v2| ==> table[i].key == DerivedKey(c.v2[i].key);
  }

  lemma {:induction false} ScanNothing(table: seq<Entry>, body: string)
    ensures Scan(table, body).None? <==> forall i :: 0 <= i < |table| ==> !Contains(body, table[i].key)
  {
    if table != [] { ScanNothing(table[1..], body); }
  }

  /** An unrecognised answer degrades by its status: below 500 by the table, and to a server error otherwise. */
  lemma UnrecognisedDegrades(c: Catalogue, e: Envelope, body: string, status: int)
    requires Unrecognised(c, e, body)
    ensures var r := Resolve(c, Some(e), body, status);
      && r.originalMessage == e.originalMessage
      && (status >= 500 ==> r.code == OtherCode("DATAFORGE_SERVER_ERROR"))
      && (c.fallback == STATUS_FALLBACK ==>
            && (status == 400 ==> r.code == OtherCode("DATAFORGE_INVALID_PARAMETER"))
            && (status == 401 ==> r.code == OtherCode("DATAFORGE_UNAUTHORIZED"))
            && (status == 403 ==> r.code == OtherCode("DATAFORGE_WRITE_ACCESS_DENIED"))
            && (status == 404 ==> r.code == OtherCode("DATAFORGE_RESOURCE_NOT_FOUND"))
            && (status == 409 ==> r.code == OtherCode("DATAFORGE_CONSTRAINT_VIOLATION"))
            && (status == 422 ==> r.code == OtherCode("DATAFORGE_UNPROCESSABLE_ENTITY"))
            && (status == 429 ==> r.code == OtherCode("DATAFORGE_RATE_LIMIT_EXCEEDED"))
            && (status < 500 && status !in {400, 401, 403, 404, 409, 422, 429} ==>
                  r.code == OtherCode("DATAFORGE_SERVER_ERROR")))
  {
    LegacyKnown(c, e.originalMessage);
    LegacyKnown(c, e.error);
    var table := Scanned(c);
    forall i | 0 <= i < |table| ensures !Contains(body, table[i].key) {
      if i >= |c.guards| { assert table[i] == Derived(c.v2)[i - |c.guards|]; }
    }
    ScanNothing(table, body);
  }

  /** Whatever decides the code, the answer's own code member is reported, and its own message where it has one; else
      the message is the spelling that decided, if one did outside the code member. */
  lemma ReportedSpelling(c: Catalogue, e: Envelope, body: string, status: int)
    ensures var r := Resolve(c, Some(e), body, status);
      && r.apiCode == e.code
      && (e.originalMessage.Some? && e.originalMessage.value != "" ==> r.originalMessage == e.originalMessage)
      && (e.originalMessage == None && r.originalMessage.Some? ==>
            r.originalMessage == e.error || Contains(body, r.originalMessage.value))
  {
    ScanOccurs(Scanned(c), body);
  }

  lemma {:induction false} ScanOccurs(table: seq<Entry>, body: string)
    ensures Scan(table, body).Some? ==> Contains(body, Scan(table, body).value.key)
  {
    if table != [] { ScanOccurs(table[1..], body); }
  }

  // ---------------------------------------------------------------------
  // What the retry loop branches on
  // ---------------------------------------------------------------------

  /** The outcome the retry loop sees for an error answer. */
  function Answer(c: Catalogue, envelope: Option<Envelope>, body: string, status: int): Outcome {
    Response(status, Resolve(c, envelope, body, status).code)
  }

  /** A status alone never means in progress. */
  predicate StatusesDecided(c: Catalogue) {
    forall status <- c.fallback :: !c.fallback[status].IdempotencyInProgress?
  }

  /** A reading of Resolve's last branch: any 4xx status but 429 waits for the original request on the same bodies. */
  lemma WaitingIgnoresStatus(c: Catalogue, envelope: Option<Envelope>, body: string, a: int, b: int)
    requires StatusesDecided(c) && 400 <= a < 500 && a != 429 && 400 <= b < 500 && b != 429
    ensures IsInProgress(Answer(c, envelope, body, a)) <==> IsInProgress(Answer(c, envelope, body, b))
  {
    assert SERVER_ERROR.OtherCode?;
  }
}
