/**
 * backend/src/middleware/validate.js: the request validators. Each one either
 * passes the request on (`next()`) or answers 400 with an error message;
 * `validatePagination`, `sanitizeStrings` and `validateQuality` also write
 * into the request, so the request is a class whose fields they update.
 */
module Validate {
  import opened Common
  import opened JsText

  /** The JavaScript values a request carries; numbers are integers here. */
  datatype JsValue = Undefined | Null | Bool(b: bool) | Num(n: int) | Str(s: string)

  /** `req.params`, `req.query` or `req.body`: a key the object lacks reads as `undefined`. */
  type Bag = map<string, JsValue>

  function Get(m: Bag, key: string): JsValue {
    if key in m then m[key] else Undefined
  }

  /** JavaScript truthiness. */
  predicate Truthy(v: JsValue) {
    match v
    case Undefined => false
    case Null => false
    case Bool(b) => b
    case Num(n) => n != 0
    case Str(s) => s != ""
  }

  /** `a || b`. */
  function Or(a: JsValue, b: JsValue): JsValue {
    if Truthy(a) then a else b
  }

  /** `String(v)`. */
  function ToJsString(v: JsValue): string {
    match v
    case Undefined => "undefined"
    case Null => "null"
    case Bool(b) => if b then "true" else "false"
    case Num(n) => IntToString(n)
    case Str(s) => s
  }

  /** undefined, null, true and false have no digits: parseInt gives NaN. */
  lemma ParseIntOfNonNumbers(v: JsValue)
    requires v.Undefined? || v.Null? || v.Bool?
    ensures ParseInt(ToJsString(v)) == None
  {
    var s := ToJsString(v);
    assert s != [] && !IsSpace(s[0]) && !IsDigit(s[0]) && s[0] != '-' && s[0] != '+';
    assert TrimStart(s) == s;
  }

  /**
   * `parseInt(v, 10)`, case by case; None stands for NaN. JsParseIntIsParseInt
   * shows that it is parseInt of `String(v)`.
   */
  function JsParseInt(v: JsValue): Option<int> {
    match v
    case Num(n) => Some(n)
    case Str(s) => ParseInt(s)
    case _ => None
  }

  /** The case-by-case parse is `parseInt(String(v), 10)`: a number comes back unchanged, undefined, null and booleans give NaN. */
  lemma JsParseIntIsParseInt(v: JsValue)
    ensures JsParseInt(v) == ParseInt(ToJsString(v))
  {
    match v
    case Num(n) =>
    case Str(_) =>
    case _ => ParseIntOfNonNumbers(v);
  }

  /** What a validator does with the request. */
  datatype Outcome = Next | BadRequest(error: string)

  // ---------------------------------------------------------------- requireFields

  /** `value === undefined || value === null || value === ''`: 0 and false are present. */
  predicate IsMissing(v: JsValue) {
    v.Undefined? || v.Null? || v == Str("")
  }

  function MissingIn(body: Bag): string -> bool {
    (field: string) => IsMissing(Get(body, field))
  }

  /**
   * `requireFields(fields)`: 400 naming, in list order and ", " apart, exactly
   * the listed fields the body lacks, holds as null or holds as ''; otherwise
   * the request goes on.
   */
  function RequireFields(fields: seq<string>, body: Bag): (r: Outcome)
    ensures r == Next <==> forall f :: f in fields ==> !IsMissing(Get(body, f))
    ensures r.BadRequest? ==> exists missing: seq<string> ::
      r.error == "Missing required fields: " + Join(missing, ", ")
      && missing == Filter(fields, MissingIn(body))
      && (forall f :: f in missing <==> f in fields && IsMissing(Get(body, f)))
      && (forall f :: f in missing ==> multiset(missing)[f] == multiset(fields)[f])
  {
    var missing := Filter(fields, MissingIn(body));
    FilterCounts(fields, MissingIn(body));
    assert forall f :: f in missing <==> f in fields && IsMissing(Get(body, f));
    if |missing| > 0 then
      BadRequest("Missing required fields: " + Join(missing, ", "))
    else
      Next
  }

  // ---------------------------------------------------------------- validateIds

  /** `req.params[param] || req.query[param] || req.body[param]`. */
  function IdLookup(params: Bag, query: Bag, body: Bag, name: string): (v: JsValue)
    ensures Truthy(Get(params, name)) ==> v == Get(params, name)
    ensures !Truthy(Get(params, name)) && Truthy(Get(query, name)) ==> v == Get(query, name)
    ensures !Truthy(Get(params, name)) && !Truthy(Get(query, name)) ==> v == Get(body, name)
  {
    Or(Or(Get(params, name), Get(query, name)), Get(body, name))
  }

  /** A looked-up id passes when it is undefined, or parses to a positive integer. */
  predicate IdAccepted(v: JsValue) {
    v.Undefined? || (JsParseInt(v).Some? && JsParseInt(v).value > 0)
  }

  function IdError(name: string): string {
    "Invalid " + name + ": must be a positive integer"
  }

  /** Name `i` is the first whose value is rejected. */
  predicate FirstRejected(names: seq<string>, params: Bag, query: Bag, body: Bag, i: int) {
    0 <= i < |names|
    && !IdAccepted(IdLookup(params, query, body, names[i]))
    && forall j :: 0 <= j < i ==> IdAccepted(IdLookup(params, query, body, names[j]))
  }

  /**
   * `validateIds(names)`: the request goes on exactly when every name's value
   * is accepted; otherwise the answer names the first name that is not.
   */
  function IdsOutcome(names: seq<string>, params: Bag, query: Bag, body: Bag): (r: Outcome)
    ensures r == Next <==> forall i :: 0 <= i < |names| ==> IdAccepted(IdLookup(params, query, body, names[i]))
    ensures r.BadRequest? ==>
      exists i :: FirstRejected(names, params, query, body, i) && r.error == IdError(names[i])
  {
    if names == [] then Next
    else if !IdAccepted(IdLookup(params, query, body, names[0])) then
      assert FirstRejected(names, params, query, body, 0);
      BadRequest(IdError(names[0]))
    else
      var rest := names[1..];
      var r := IdsOutcome(rest, params, query, body);
      assert forall i :: 1 <= i < |names| ==> names[i] == rest[i - 1];
      if r.BadRequest? then
        var i :| FirstRejected(rest, params, query, body, i) && r.error == IdError(rest[i]);
        assert FirstRejected(names, params, query, body, i + 1) by {
          forall j | 0 <= j < i + 1 ensures IdAccepted(IdLookup(params, query, body, names[j])) {
            if j > 0 { assert names[j] == rest[j - 1]; }
          }
        }
        r
      else
        r
  }

  /**
   * A falsy route or query value falls through to the body, and a body value
   * that is present but falsy (null, '', 0, false) is rejected, not ignored.
   */
  lemma FalsyBodyValueRejected(name: string, params: Bag, query: Bag, body: Bag)
    requires !Truthy(Get(params, name)) && !Truthy(Get(query, name))
    requires Get(body, name).Null? || Get(body, name) == Str("") || Get(body, name) == Num(0) || Get(body, name) == Bool(false)
    ensures IdsOutcome([name], params, query, body) == BadRequest(IdError(name))
  {
  }

  /** A name whose `||` chain yields undefined is skipped: falsy in the route and query, undefined in the body (`?id=` with no body id, say). */
  lemma AbsentIdSkipped(name: string, params: Bag, query: Bag, body: Bag)
    requires !Truthy(Get(params, name)) && !Truthy(Get(query, name)) && Get(body, name).Undefined?
    ensures IdsOutcome([name], params, query, body) == Next
  {
  }

  // ---------------------------------------------------------------- validatePagination

  /** The fields `validatePagination` writes into `req.pagination`. */
  datatype PageKey = Page | Limit | Offset

  /** `req.pagination`, when set: the fields it holds. */
  type PageObject = map<PageKey, int>

  /** `obj[key] || default` for a numeric field; a missing field reads as undefined. */
  function FieldOrDefault(p: PageObject, key: PageKey, default: int): int {
    if key in p && p[key] != 0 then p[key] else default
  }

  /** What `validatePagination` decides and what `req.pagination` is afterwards. */
  datatype PaginationStep = PaginationStep(outcome: Outcome, pagination: Option<PageObject>)

  const PageError := "Invalid page: must be a positive integer"
  const LimitError := "Invalid limit: must be between 1 and 100"

  predicate PageAccepted(v: JsValue) {
    v.Undefined? || (JsParseInt(v).Some? && JsParseInt(v).value >= 1)
  }

  predicate LimitAccepted(v: JsValue) {
    v.Undefined? || (JsParseInt(v).Some? && 1 <= JsParseInt(v).value <= 100)
  }

  /** `req.pagination = req.pagination || {}; req.pagination[key] = value`. */
  function SetField(p: Option<PageObject>, key: PageKey, value: int): PageObject {
    p.GetOr(map[])[key := value]
  }

  /** The defaults and the offset, written once page and limit are checked. */
  function WithDefaults(p: PageObject): (q: PageObject)
    ensures q.Keys == p.Keys + {Page, Limit, Offset}
    ensures q[Page] == FieldOrDefault(p, Page, 1) && q[Limit] == FieldOrDefault(p, Limit, 50)
    ensures q[Offset] == (q[Page] - 1) * q[Limit]
  {
    var pageNum := FieldOrDefault(p, Page, 1);
    var limitNum := FieldOrDefault(p, Limit, 50);
    p[Page := pageNum][Limit := limitNum][Offset := (pageNum - 1) * limitNum]
  }

  /** Writing page, then limit, then offset, each from the fields already written, is `WithDefaults`. */
  lemma WithDefaultsInOrder(p: PageObject)
    ensures var a := p[Page := FieldOrDefault(p, Page, 1)];
      var b := a[Limit := FieldOrDefault(a, Limit, 50)];
      b[Offset := (b[Page] - 1) * b[Limit]] == WithDefaults(p)
  {
    var a := p[Page := FieldOrDefault(p, Page, 1)];
    assert FieldOrDefault(a, Limit, 50) == FieldOrDefault(p, Limit, 50);
  }

  /**
   * `validatePagination` on `req.query` and the current `req.pagination`: a
   * page below 1 or not a number, or a limit outside 1..100 or not a number,
   * is answered with 400 (a valid page read before a bad limit has already
   * been stored); otherwise page and limit default to 1 and 50 and the offset
   * is `(page - 1) * limit`.
   */
  function Pagination(query: Bag, prior: Option<PageObject>): (r: PaginationStep)
    ensures r.outcome == Next <==> PageAccepted(Get(query, "page")) && LimitAccepted(Get(query, "limit"))
    ensures !PageAccepted(Get(query, "page")) ==> r == PaginationStep(BadRequest(PageError), prior)
    ensures PageAccepted(Get(query, "page")) && !LimitAccepted(Get(query, "limit")) ==>
      r.outcome == BadRequest(LimitError)
    ensures r.outcome == Next ==>
      && r.pagination.Some?
      && {Page, Limit, Offset} <= r.pagination.value.Keys
      && r.pagination.value[Offset] == (r.pagination.value[Page] - 1) * r.pagination.value[Limit]
  {
    var page, limit := Get(query, "page"), Get(query, "limit");
    if !PageAccepted(page) then PaginationStep(BadRequest(PageError), prior)
    else
      var p1 := if page.Undefined? then prior else Some(SetField(prior, Page, JsParseInt(page).value));
      if !LimitAccepted(limit) then PaginationStep(BadRequest(LimitError), p1)
      else
        var p2 := if limit.Undefined? then p1 else Some(SetField(p1, Limit, JsParseInt(limit).value));
        PaginationStep(Next, Some(WithDefaults(p2.GetOr(map[]))))
  }

  /**
   * On a request that has no `req.pagination` yet, an accepted page and limit
   * are stored as parsed, the defaults are 1 and 50, and the offset is never
   * negative.
   */
  lemma PaginationOfFreshRequest(query: Bag)
    requires Pagination(query, None).outcome == Next
    ensures var p := Pagination(query, None).pagination.value;
      && p.Keys == {Page, Limit, Offset}
      && p[Page] == (if Get(query, "page").Undefined? then 1 else JsParseInt(Get(query, "page")).value)
      && p[Limit] == (if Get(query, "limit").Undefined? then 50 else JsParseInt(Get(query, "limit")).value)
      && p[Page] >= 1 && 1 <= p[Limit] <= 100 && p[Offset] >= 0
  {
    var p := Pagination(query, None).pagination.value;
    assert p[Page] >= 1 && p[Limit] >= 1;
    assert p[Offset] >= 0 by {
      assert (p[Page] - 1) * p[Limit] >= 0;
    }
  }

  /** A request without page or limit gets page 1, limit 50 and offset 0. */
  lemma PaginationDefaults(query: Bag)
    requires "page" !in query && "limit" !in query
    ensures Pagination(query, None) == PaginationStep(Next, Some(map[Page := 1, Limit := 50, Offset := 0]))
  {
  }

  // ---------------------------------------------------------------- sanitizeStrings

  // The trimming function is a parameter here: `String.prototype.trim` is
  // JsText.Trim, and all these facts hold for any function that is idempotent.

  /** One turn of the loop: `if (typeof req.body[field] === 'string') req.body[field] = req.body[field].trim()`. */
  function SanitizeField(field: string, body: Bag, trim: string -> string): (r: Bag)
    ensures r.Keys == body.Keys
    ensures forall k :: k in body && k != field ==> r[k] == body[k]
    ensures field in body ==> r[field] == (if body[field].Str? then Str(trim(body[field].s)) else body[field])
  {
    if field in body && body[field].Str? then body[field := Str(trim(body[field].s))] else body
  }

  /** `field` is one of `fields[..n]`. */
  predicate Listed(fields: seq<string>, n: nat, field: string)
    requires n <= |fields|
  {
    n > 0 && (fields[n - 1] == field || Listed(fields, n - 1, field))
  }

  lemma {:induction false} ListedIsIn(fields: seq<string>, n: nat, field: string)
    requires n <= |fields|
    ensures Listed(fields, n, field) <==> field in fields[..n]
  {
    if n > 0 {
      ListedIsIn(fields, n - 1, field);
      assert fields[..n] == fields[..n - 1] + [fields[n - 1]];
    }
  }

  /** The body after the loop of `sanitizeStrings` has handled `fields[..n]`. */
  function Sanitize(fields: seq<string>, n: nat, body: Bag, trim: string -> string): (r: Bag)
    requires n <= |fields|
    ensures r.Keys == body.Keys
  {
    if n == 0 then body else SanitizeField(fields[n - 1], Sanitize(fields, n - 1, body, trim), trim)
  }

  /** The loop's step: handling `fields[..i + 1]` is handling `fields[..i]`, then `fields[i]`. */
  lemma SanitizeNext(fields: seq<string>, i: nat, body: Bag, trim: string -> string)
    requires i < |fields|
    ensures Sanitize(fields, i + 1, body, trim) == SanitizeField(fields[i], Sanitize(fields, i, body, trim), trim)
  {
  }

  ghost predicate Idempotent(trim: string -> string) {
    forall s :: trim(trim(s)) == trim(s)
  }

  /** After `fields[..n]`, each listed string entry is trimmed (once or more is the same) and the rest are unchanged. */
  lemma {:induction false} SanitizeEntries(fields: seq<string>, n: nat, body: Bag, trim: string -> string)
    requires n <= |fields| && Idempotent(trim)
    ensures forall k :: k in body ==>
      Sanitize(fields, n, body, trim)[k] == (if body[k].Str? && Listed(fields, n, k) then Str(trim(body[k].s)) else body[k])
  {
    if n > 0 {
      SanitizeEntries(fields, n - 1, body, trim);
      var prev := Sanitize(fields, n - 1, body, trim);
      var field := fields[n - 1];
      forall k | k in body
        ensures Sanitize(fields, n, body, trim)[k] == (if body[k].Str? && Listed(fields, n, k) then Str(trim(body[k].s)) else body[k])
      {
        if k == field {
          assert Listed(fields, n, k);
          assert body[k].Str? ==> prev[k].Str? && trim(prev[k].s) == trim(body[k].s);
        } else {
          assert Listed(fields, n, k) == Listed(fields, n - 1, k);
        }
      }
    }
  }

  /**
   * `sanitizeStrings(fields)` on a body: every listed field that holds a
   * string is trimmed; every other entry, and the set of keys, stay as they were.
   */
  lemma SanitizeAll(fields: seq<string>, body: Bag, trim: string -> string)
    requires Idempotent(trim)
    ensures var r := Sanitize(fields, |fields|, body, trim);
      && r.Keys == body.Keys
      && forall k :: k in body ==> r[k] == (if body[k].Str? && k in fields then Str(trim(body[k].s)) else body[k])
  {
    SanitizeEntries(fields, |fields|, body, trim);
    forall k | k in body
      ensures Listed(fields, |fields|, k) <==> k in fields
    {
      ListedIsIn(fields, |fields|, k);
      assert fields[..|fields|] == fields;
    }
  }

  /** Sanitizing twice is sanitizing once. */
  lemma SanitizeIdempotent(fields: seq<string>, body: Bag, trim: string -> string)
    requires Idempotent(trim)
    ensures Sanitize(fields, |fields|, Sanitize(fields, |fields|, body, trim), trim) == Sanitize(fields, |fields|, body, trim)
  {
    var once := Sanitize(fields, |fields|, body, trim);
    SanitizeEntries(fields, |fields|, body, trim);
    SanitizeEntries(fields, |fields|, once, trim);
  }

  /** `String.prototype.trim` is idempotent, so the facts above hold for `sanitizeStrings`. */
  lemma JsTrimIdempotent()
    ensures Idempotent(Trim)
  {
    forall s ensures Trim(Trim(s)) == Trim(s) {
      TrimIdempotent(s);
    }
  }

  /**
   * `sanitizeStrings(fields)` itself: the listed string fields are trimmed
   * with `String.prototype.trim`, nothing else changes, and running it again
   * changes nothing.
   */
  lemma SanitizeStringsTrims(fields: seq<string>, body: Bag)
    ensures var r := Sanitize(fields, |fields|, body, Trim);
      && r.Keys == body.Keys
      && (forall k :: k in body ==> r[k] == (if body[k].Str? && k in fields then Str(Trim(body[k].s)) else body[k]))
      && Sanitize(fields, |fields|, r, Trim) == r
  {
    JsTrimIdempotent();
    SanitizeAll(fields, body, Trim);
    SanitizeIdempotent(fields, body, Trim);
  }

  // ---------------------------------------------------------------- validateQuality

  const QualityMissing := "Missing required field: quality"
  const QualityInvalid := "Invalid quality: must be between 0 and 5"

  /** What `validateQuality` decides and what `req.body` is afterwards. */
  datatype QualityStep = QualityStep(outcome: Outcome, body: Bag)

  /**
   * `validateQuality`: a missing or null quality and one whose parseInt is NaN
   * or outside 0..5 are answered with 400 and leave the body alone; otherwise
   * the body's quality becomes that integer and nothing else changes.
   */
  function Quality(body: Bag): (r: QualityStep)
    ensures var q := Get(body, "quality");
      (q.Undefined? || q.Null?) ==> r == QualityStep(BadRequest(QualityMissing), body)
    ensures var q := Get(body, "quality");
      !(q.Undefined? || q.Null?) && !(JsParseInt(q).Some? && 0 <= JsParseInt(q).value <= 5) ==>
        r == QualityStep(BadRequest(QualityInvalid), body)
    ensures r.outcome == Next ==>
      && r.body.Keys == body.Keys
      && r.body["quality"] == Num(JsParseInt(body["quality"]).value)
      && 0 <= r.body["quality"].n <= 5
      && forall k :: k in body && k != "quality" ==> r.body[k] == body[k]
  {
    var q := Get(body, "quality");
    if q.Undefined? || q.Null? then QualityStep(BadRequest(QualityMissing), body)
    else
      var n := JsParseInt(q);
      if n.None? || n.value < 0 || n.value > 5 then QualityStep(BadRequest(QualityInvalid), body)
      else QualityStep(Next, body["quality" := Num(n.value)])
  }

  /** parseInt stops at the first character that is not a digit. */
  lemma ParseIntStopsAtDot(s: string)
    requires s == "4.9"
    ensures ParseInt(s) == Some(4)
  {
    assert TrimStart(s) == s by {
      assert !IsSpace(s[0]);
    }
    assert DigitPrefix(s) == "4" by {
      assert DigitPrefix(s[1..]) == [] by {
        assert !IsDigit(s[1]);
      }
    }
    assert DigitsValue("4") == 4 by {
      assert "4"[..0] == [];
    }
  }

  /** A quality of "4.9" is stored as 4. */
  lemma QualityTruncates(body: Bag, s: string)
    requires s == "4.9" && Get(body, "quality") == Str(s)
    ensures Quality(body).outcome == Next && Quality(body).body["quality"] == Num(4)
  {
    ParseIntStopsAtDot(s);
  }

  /** A numeric quality already in range is kept as it is; false and the empty string are invalid, not missing. */
  lemma QualityOfNumbers(body: Bag)
    ensures Get(body, "quality") == Num(3) ==> Quality(body) == QualityStep(Next, body)
    ensures Get(body, "quality") == Bool(false) || Get(body, "quality") == Str("") ==>
      Quality(body) == QualityStep(BadRequest(QualityInvalid), body)
  {
    if Get(body, "quality") == Num(3) {
      assert body["quality" := Num(3)] == body;
    }
  }

  // ---------------------------------------------------------------- the request

  /** The loop of `sanitizeStrings` over a body: each listed field holding a string is replaced by its trimmed value. */
  method SanitizeLoop(fields: seq<string>, body: Bag, trim: string -> string) returns (b: Bag)
    ensures b == Sanitize(fields, |fields|, body, trim)
  {
    b := body;
    for i := 0 to |fields|
      invariant b == Sanitize(fields, i, body, trim)
    {
      ghost var prev := b;
      var field := fields[i];
      if field in b && b[field].Str? {
        b := b[field := Str(trim(b[field].s))];
      }
      assert b == SanitizeField(field, prev, trim);
      SanitizeNext(fields, i, body, trim);
    }
  }

  /** An Express request as the validators see it. */
  class Request {
    var params: Bag
    var query: Bag
    var body: Bag
    var pagination: Option<PageObject>

    constructor(params: Bag, query: Bag, body: Bag)
      ensures this.params == params && this.query == query && this.body == body && pagination.None?
    {
      this.params := params;
      this.query := query;
      this.body := body;
      pagination := None;
    }

    /** `validateIds(names)(req, res, next)`: the loop stops at the first rejected id. */
    method ValidateIds(names: seq<string>) returns (r: Outcome)
      ensures r == IdsOutcome(names, params, query, body)
    {
      var i := 0;
      while i < |names|
        invariant 0 <= i <= |names|
        invariant IdsOutcome(names[i..], params, query, body) == IdsOutcome(names, params, query, body)
      {
        var name := names[i];
        var value := Or(Or(Get(params, name), Get(query, name)), Get(body, name));
        assert names[i..][1..] == names[i + 1..];
        if value != Undefined {
          var id := JsParseInt(value);
          if id.None? || id.value <= 0 {
            return BadRequest(IdError(name));
          }
        }
        i := i + 1;
      }
      r := Next;
    }

    /** `validatePagination(req, res, next)`: `req.pagination` is filled in field by field. */
    method ValidatePagination() returns (r: Outcome)
      modifies this`pagination
      ensures PaginationStep(r, pagination) == Pagination(old(query), old(pagination))
      ensures params == old(params) && query == old(query) && body == old(body)
    {
      var page, limit := Get(query, "page"), Get(query, "limit");
      // The request's pagination object as it is built; it is stored on every exit.
      var current := pagination;
      if page != Undefined {
        var pageNum := JsParseInt(page);
        if pageNum.None? || pageNum.value < 1 {
          return BadRequest(PageError);
        }
        current := Some(current.GetOr(map[])[Page := pageNum.value]);
      }
      if limit != Undefined {
        var limitNum := JsParseInt(limit);
        if limitNum.None? || limitNum.value < 1 || limitNum.value > 100 {
          pagination := current;
          return BadRequest(LimitError);
        }
        current := Some(current.GetOr(map[])[Limit := limitNum.value]);
      }
      var p := current.GetOr(map[]);
      ghost var stored := p;
      p := p[Page := FieldOrDefault(p, Page, 1)];
      p := p[Limit := FieldOrDefault(p, Limit, 50)];
      p := p[Offset := (p[Page] - 1) * p[Limit]];
      WithDefaultsInOrder(stored);
      pagination := Some(p);
      r := Next;
    }

    /** `sanitizeStrings(fields)(req, res, next)`: trims the listed string fields of the body in place. */
    method SanitizeStrings(fields: seq<string>)
      modifies this`body
      ensures body == Sanitize(fields, |fields|, old(body), Trim)
      ensures params == old(params) && query == old(query) && pagination == old(pagination)
    {
      body := SanitizeLoop(fields, body, Trim);
    }

    /** `validateQuality(req, res, next)`: on success the body's quality becomes the parsed integer. */
    method ValidateQuality() returns (r: Outcome)
      modifies this`body
      ensures QualityStep(r, body) == Quality(old(body))
      ensures params == old(params) && query == old(query) && pagination == old(pagination)
    {
      var quality := Get(body, "quality");
      if quality == Undefined || quality == Null {
        return BadRequest(QualityMissing);
      }
      var qualityNum := JsParseInt(quality);
      if qualityNum.None? || qualityNum.value < 0 || qualityNum.value > 5 {
        return BadRequest(QualityInvalid);
      }
      body := body["quality" := Num(qualityNum.value)];
      r := Next;
    }
  }
}
