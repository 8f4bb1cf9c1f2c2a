/**
 * The server's todo controller: the database filter `constructFilter` builds
 * from a request's query parameters, the (empty) sorting order, the three
 * outcomes of looking up one todo by id, and the hexadecimal rendering of an
 * MD5 digest. The database, the regular-expression engine and the MD5
 * algorithm itself are not modelled: the first is a list of todos, the other
 * two are parameters.
 */
module TodoController {
  import opened Wrappers
  import opened Strings
  import opened Todos

  /** The query parameter naming the owner. */
  const OwnerKey: string := "owner"

  /** The query parameter naming the status. */
  const StatusKey: string := "status"

  // ---------------------------------------------------------------------------
  // constructFilter: query parameters to a database filter
  // ---------------------------------------------------------------------------

  /** A request's query parameters, each key with the value the controller reads for it. */
  type Query = map<string, string>

  /** A failed parameter check: which parameter, the check's message and the offending value. */
  datatype ValidationError = ValidationError(key: string, message: string, value: string)

  /** The message of the owner check. */
  const OwnerMessage: string := "Todo's owner must have some value"

  /** The message of the status check. */
  const StatusMessage: string := "Status parameter must be either complete or incomplete"

  /** One filter term: a regular-expression match with options, or an equality with a boolean. */
  datatype Term = Regex(field: string, pattern: string, options: string) | Eq(field: string, value: bool)

  /** A filter document: the empty document, which matches everything, or the conjunction of terms. */
  datatype Bson = EmptyDocument | And(terms: seq<Term>)

  /** The owner check: the value must be non-empty. */
  predicate OwnerValid(owner: string) {
    |owner| > 0
  }

  /** The status check: the value must be `complete` or `incomplete`, ignoring case. */
  predicate StatusValid(status: string) {
    EqualsIgnoreCase(status, "complete") || EqualsIgnoreCase(status, "incomplete")
  }

  /** The owner term of a query: a case-insensitive regular expression on `owner`, if the key is present. */
  function OwnerTerms(q: Query): seq<Term> {
    if OwnerKey in q then [Regex(OwnerKey, q[OwnerKey], "i")] else []
  }

  /** The status term of a query: `status` equals whether the value is `complete` in any case. */
  function StatusTerms(q: Query): seq<Term> {
    if StatusKey in q then [Eq(StatusKey, EqualsIgnoreCase(q[StatusKey], "complete"))] else []
  }

  /** The filter a list of terms stands for: the empty document for none, their conjunction otherwise. */
  function Combine(terms: seq<Term>): Bson {
    if terms == [] then EmptyDocument else And(terms)
  }

  /**
   * The outcome `constructFilter` specifies for a query: the owner check first,
   * then the status check, then the owner term followed by the status term.
   */
  function FilterOf(q: Query): Result<Bson, ValidationError> {
    if OwnerKey in q && !OwnerValid(q[OwnerKey]) then Err(ValidationError(OwnerKey, OwnerMessage, q[OwnerKey]))
    else if StatusKey in q && !StatusValid(q[StatusKey]) then Err(ValidationError(StatusKey, StatusMessage, q[StatusKey]))
    else Ok(Combine(OwnerTerms(q) + StatusTerms(q)))
  }

  /**
   * `constructFilter(ctx)`: appends an owner term and then a status term to an
   * initially empty list, failing at the first check that does not hold, and
   * combines the list into one document.
   */
  method ConstructFilter(q: Query) returns (r: Result<Bson, ValidationError>)
    ensures r == FilterOf(q)
  {
    var filters: seq<Term> := [];
    if OwnerKey in q {
      var targetOwner := q[OwnerKey];
      if !OwnerValid(targetOwner) {
        return Err(ValidationError(OwnerKey, OwnerMessage, targetOwner));
      }
      filters := filters + [Regex(OwnerKey, targetOwner, "i")];
    }
    assert filters == OwnerTerms(q);
    if StatusKey in q {
      var targetStatus := q[StatusKey];
      if !StatusValid(targetStatus) {
        return Err(ValidationError(StatusKey, StatusMessage, targetStatus));
      }
      if EqualsIgnoreCase(targetStatus, "complete") {
        filters := filters + [Eq(StatusKey, true)];
      } else {
        filters := filters + [Eq(StatusKey, false)];
      }
    }
    assert filters == OwnerTerms(q) + StatusTerms(q);
    r := if filters == [] then Ok(EmptyDocument) else Ok(And(filters));
  }

  /**
   * The checks: a query is rejected exactly when an owner is given empty or a
   * status is given that is neither `complete` nor `incomplete` in any case;
   * an empty owner is reported before a bad status.
   */
  lemma FilterRejects(q: Query)
    ensures FilterOf(q).Err? <==>
      (OwnerKey in q && q[OwnerKey] == "") || (StatusKey in q && !StatusValid(q[StatusKey]))
    ensures OwnerKey in q && q[OwnerKey] == "" ==> FilterOf(q) == Err(ValidationError(OwnerKey, OwnerMessage, ""))
    ensures (OwnerKey !in q || q[OwnerKey] != "") && StatusKey in q && !StatusValid(q[StatusKey])
      ==> FilterOf(q) == Err(ValidationError(StatusKey, StatusMessage, q[StatusKey]))
  {
  }

  /**
   * The shape of an accepted filter: the empty document exactly when neither key
   * is present, otherwise a conjunction of at most one owner term followed by at
   * most one status term.
   */
  lemma FilterShape(q: Query)
    requires FilterOf(q).Ok?
    ensures FilterOf(q).value == EmptyDocument <==> OwnerKey !in q && StatusKey !in q
    ensures FilterOf(q).value.And? ==> 1 <= |FilterOf(q).value.terms| <= 2
    ensures FilterOf(q).value.And? && OwnerKey in q ==> FilterOf(q).value.terms[0] == Regex(OwnerKey, q[OwnerKey], "i")
    ensures FilterOf(q).value.And? && StatusKey in q ==>
      FilterOf(q).value.terms[|FilterOf(q).value.terms| - 1] == Eq(StatusKey, EqualsIgnoreCase(q[StatusKey], "complete"))
  {
    CombineShape(OwnerTerms(q), StatusTerms(q));
  }

  /** Combining at most one term and at most one more: the first term leads, the second ends. */
  lemma CombineShape(a: seq<Term>, b: seq<Term>)
    requires |a| <= 1 && |b| <= 1
    ensures Combine(a + b) == EmptyDocument <==> a == [] && b == []
    ensures Combine(a + b).And? ==> 1 <= |Combine(a + b).terms| <= 2
    ensures Combine(a + b).And? && a != [] ==> Combine(a + b).terms[0] == a[0]
    ensures Combine(a + b).And? && b != [] ==> Combine(a + b).terms[|Combine(a + b).terms| - 1] == b[0]
  {
    if a != [] {
      assert (a + b)[0] == a[0];
    }
    if b != [] {
      assert (a + b)[|a + b| - 1] == b[0];
    }
  }

  /** The text of a todo's field, for the fields that hold text. */
  function TextField(t: Todo, field: string): Option<string> {
    if field == "_id" then Some(t.id)
    else if field == "owner" then Some(t.owner)
    else if field == "body" then Some(t.body)
    else if field == "category" then Some(t.category)
    else None
  }

  /** The value of a todo's field, for the fields that hold a boolean. */
  function BoolField(t: Todo, field: string): Option<bool> {
    if field == "status" then Some(t.status) else None
  }

  /**
   * Whether a todo satisfies a term; `matches(text, pattern, options)` stands for
   * the database's regular-expression matcher.
   */
  predicate TermHolds(term: Term, t: Todo, matches: (string, string, string) -> bool) {
    match term
    case Regex(field, pattern, options) => TextField(t, field).Some? && matches(TextField(t, field).value, pattern, options)
    case Eq(field, value) => BoolField(t, field) == Some(value)
  }

  /** Whether a todo satisfies a filter document: every term of a conjunction holds. */
  predicate Satisfies(doc: Bson, t: Todo, matches: (string, string, string) -> bool) {
    match doc
    case EmptyDocument => true
    case And(terms) => forall i :: 0 <= i < |terms| ==> TermHolds(terms[i], t, matches)
  }

  /**
   * The todos a request asks for, stated directly on its parameters: the owner
   * matches the given owner as a case-insensitive regular expression, and the
   * status is true for `complete` and false for `incomplete`, in any case.
   */
  predicate Wanted(q: Query, t: Todo, matches: (string, string, string) -> bool) {
    && (OwnerKey in q ==> matches(t.owner, q[OwnerKey], "i"))
    && (StatusKey in q && EqualsIgnoreCase(q[StatusKey], "complete") ==> t.status)
    && (StatusKey in q && EqualsIgnoreCase(q[StatusKey], "incomplete") ==> !t.status)
  }

  /** A conjunction of at most one term and at most one more holds when each present term holds. */
  lemma SatisfiesTwo(a: seq<Term>, b: seq<Term>, t: Todo, matches: (string, string, string) -> bool)
    requires |a| <= 1 && |b| <= 1
    ensures Satisfies(Combine(a + b), t, matches) <==>
      (a != [] ==> TermHolds(a[0], t, matches)) && (b != [] ==> TermHolds(b[0], t, matches))
  {
    var terms := a + b;
    if a != [] {
      assert terms[0] == a[0];
    }
    if b != [] {
      assert terms[|terms| - 1] == b[0];
    }
  }

  /** No value is both `complete` and `incomplete` up to case. */
  lemma CompleteIsNotIncomplete(v: string)
    ensures !(EqualsIgnoreCase(v, "complete") && EqualsIgnoreCase(v, "incomplete"))
  {
    assert |Lower("complete")| != |Lower("incomplete")|;
  }

  /** The owner term holds when the matcher accepts the todo's owner. */
  lemma OwnerTermHolds(pattern: string, t: Todo, matches: (string, string, string) -> bool)
    ensures TermHolds(Regex(OwnerKey, pattern, "i"), t, matches) <==> matches(t.owner, pattern, "i")
  {
    assert OwnerKey[0] != "_id"[0];
  }

  /** For a valid status value, the status term holds exactly when the todo has the status the value names. */
  lemma StatusTermHolds(v: string, t: Todo, matches: (string, string, string) -> bool)
    requires StatusValid(v)
    ensures TermHolds(Eq(StatusKey, EqualsIgnoreCase(v, "complete")), t, matches) <==>
      (EqualsIgnoreCase(v, "complete") ==> t.status) && (EqualsIgnoreCase(v, "incomplete") ==> !t.status)
  {
    CompleteIsNotIncomplete(v);
  }

  /** An accepted filter selects exactly the todos the request asks for. */
  lemma FilterMeaning(q: Query, t: Todo, matches: (string, string, string) -> bool)
    requires FilterOf(q).Ok?
    ensures Satisfies(FilterOf(q).value, t, matches) <==> Wanted(q, t, matches)
  {
    var owner, status := OwnerTerms(q), StatusTerms(q);
    SatisfiesTwo(owner, status, t, matches);
    if OwnerKey in q {
      OwnerTermHolds(q[OwnerKey], t, matches);
    }
    if StatusKey in q {
      StatusTermHolds(q[StatusKey], t, matches);
    }
  }

  /** The status value is read without regard to case: `Complete` and `COMPLETE` filter as `complete` does. */
  lemma StatusIgnoresCase(q: Query, a: string, b: string)
    requires EqualsIgnoreCase(a, b)
    ensures FilterOf(q[StatusKey := a]) == FilterOf(q[StatusKey := b])
      || (FilterOf(q[StatusKey := a]).Err? && FilterOf(q[StatusKey := b]).Err?)
  {
    KeysDiffer();
    var qa, qb := q[StatusKey := a], q[StatusKey := b];
    assert OwnerKey in qa <==> OwnerKey in qb;
    assert OwnerKey in qa ==> qa[OwnerKey] == qb[OwnerKey];
    assert StatusValid(a) <==> StatusValid(b);
    if StatusValid(a) && (OwnerKey !in qa || OwnerValid(qa[OwnerKey])) {
      assert OwnerTerms(qa) == OwnerTerms(qb);
      assert StatusTerms(qa) == StatusTerms(qb);
    }
  }

  /** The two query keys are different parameters. */
  lemma KeysDiffer()
    ensures OwnerKey != StatusKey
  {
    assert OwnerKey[0] != StatusKey[0];
  }

  /** A status that is neither token in any case, as the controller's tests send. */
  lemma BadStatusInvalid()
    ensures !StatusValid("bad")
  {
    assert |Lower("bad")| != |Lower("complete")|;
    assert |Lower("bad")| != |Lower("incomplete")|;
  }

  /** The request of the controller's tests with an empty owner is rejected by the owner check. */
  lemma EmptyOwnerRequest()
    ensures FilterOf(map[OwnerKey := ""]) == Err(ValidationError(OwnerKey, OwnerMessage, ""))
  {
  }

  /** The request of the controller's tests with the status `bad` is rejected by the status check. */
  lemma BadStatusRequest()
    ensures FilterOf(map[StatusKey := "bad"]) == Err(ValidationError(StatusKey, StatusMessage, "bad"))
  {
    KeysDiffer();
    BadStatusInvalid();
    FilterRejects(map[StatusKey := "bad"]);
  }

  /** A request with a valid status and no owner gives the status term alone. */
  lemma StatusOnlyFilter(q: Query)
    requires OwnerKey !in q && StatusKey in q && StatusValid(q[StatusKey])
    ensures FilterOf(q) == Ok(And([Eq(StatusKey, EqualsIgnoreCase(q[StatusKey], "complete"))]))
  {
    assert OwnerTerms(q) + StatusTerms(q) == StatusTerms(q);
  }

  /** A request with a valid owner and a valid status gives the owner term followed by the status term. */
  lemma OwnerAndStatusFilter(q: Query)
    requires OwnerKey in q && OwnerValid(q[OwnerKey]) && StatusKey in q && StatusValid(q[StatusKey])
    ensures FilterOf(q) == Ok(And([Regex(OwnerKey, q[OwnerKey], "i"), Eq(StatusKey, EqualsIgnoreCase(q[StatusKey], "complete"))]))
  {
    assert OwnerTerms(q) + StatusTerms(q) == [OwnerTerms(q)[0], StatusTerms(q)[0]];
  }

  /** The request of the controller's tests for complete todos gives one status term. */
  lemma CompleteRequest()
    ensures FilterOf(map[StatusKey := "complete"]) == Ok(And([Eq(StatusKey, true)]))
    ensures FilterOf(map[]) == Ok(EmptyDocument)
  {
    KeysDiffer();
    StatusOnlyFilter(map[StatusKey := "complete"]);
  }

  /** The request of the controller's tests for Egg's incomplete todos gives both terms, owner first. */
  lemma OwnerAndStatusRequest()
    ensures FilterOf(map[OwnerKey := "Egg", StatusKey := "incomplete"])
      == Ok(And([Regex(OwnerKey, "Egg", "i"), Eq(StatusKey, false)]))
  {
    var q := map[OwnerKey := "Egg", StatusKey := "incomplete"];
    KeysDiffer();
    assert q[OwnerKey] == "Egg" && q[StatusKey] == "incomplete";
    CompleteIsNotIncomplete("incomplete");
    OwnerAndStatusFilter(q);
  }

  // ---------------------------------------------------------------------------
  // constructSortingOrder
  // ---------------------------------------------------------------------------

  /** `constructSortingOrder(ctx)`: no sort key, whatever the request; the database's own order is kept. */
  function ConstructSortingOrder(q: Query): (order: Bson)
    ensures order == EmptyDocument
  {
    EmptyDocument
  }

  // ---------------------------------------------------------------------------
  // getTodo: one todo by id
  // ---------------------------------------------------------------------------

  /** A hexadecimal digit in either case. */
  predicate HexDigit(c: char) {
    '0' <= c <= '9' || 'a' <= c <= 'f' || 'A' <= c <= 'F'
  }

  /**
   * Text the database accepts as an object id: exactly 24 hexadecimal digits,
   * that is, 24 characters that lower-case to the lower-case digits.
   */
  predicate LegalObjectId(id: string)
    ensures LegalObjectId(id) <==> |id| == 24 && forall i :: 0 <= i < |id| ==> LowerChar(id[i]) in HexDigits
  {
    assert forall i :: 0 <= i < |id| ==> (HexDigit(id[i]) <==> LowerChar(id[i]) in HexDigits) by {
      forall i | 0 <= i < |id| {
        HexDigitLowers(id[i]);
      }
    }
    |id| == 24 && forall i :: 0 <= i < |id| ==> HexDigit(id[i])
  }

  /** A character is a hexadecimal digit in either case exactly when it lower-cases to a lower-case one. */
  lemma HexDigitLowers(c: char)
    ensures HexDigit(c) <==> LowerChar(c) in HexDigits
  {
    if HexDigit(c) {
      var d := LowerChar(c);
      assert d == HexDigits[if '0' <= d <= '9' then d as int - '0' as int else d as int - 'a' as int + 10];
    }
  }

  /**
   * The first todo of the collection whose id names the same object as `id`
   * (hexadecimal digits compare without regard to case), if any.
   */
  function FindById(collection: seq<Todo>, id: string): (found: Option<Todo>)
    ensures found.Some? ==> found.value in collection && EqualsIgnoreCase(found.value.id, id)
    ensures found.None? <==> forall t :: t in collection ==> !EqualsIgnoreCase(t.id, id)
    ensures found.Some? ==>
      exists k :: 0 <= k < |collection| && collection[k] == found.value
        && forall j :: 0 <= j < k ==> !EqualsIgnoreCase(collection[j].id, id)
    decreases |collection|
  {
    if collection == [] then None
    else if EqualsIgnoreCase(collection[0].id, id) then Some(collection[0])
    else
      var rest := FindById(collection[1..], id);
      if rest.Some? then
        var k :| 0 <= k < |collection[1..]| && collection[1..][k] == rest.value
          && forall j :: 0 <= j < k ==> !EqualsIgnoreCase(collection[1..][j].id, id);
        assert collection[k + 1] == rest.value;
        rest
      else
        rest
  }

  /** An exception a handler throws, answered with its HTTP status and message. */
  datatype HttpResponseError = HttpResponseError(status: int, message: string)

  /** HTTP status 200, OK. */
  const Ok200: int := 200

  /** The answer to an id that is not an object id: 400, Bad Request. */
  const BadRequest: HttpResponseError := HttpResponseError(400, "The requested todo id wasn't a legal Mongo Object ID.")

  /** The answer to an id no todo has: 404, Not Found. */
  const NotFound: HttpResponseError := HttpResponseError(404, "The requested todo was not found")

  /** The part of a request context `getTodo` reads and writes. */
  class Context {
    /** The `id` path parameter. */
    const pathId: string
    /** The todo set as the JSON body of the response, if any. */
    var json: Option<Todo>
    /** The response status set by the handler, if any. */
    var status: Option<int>

    /** A fresh context for a request naming `id`, with nothing set on the response. */
    constructor (id: string)
      ensures pathId == id && json == None && status == None
    {
      pathId := id;
      json := None;
      status := None;
    }
  }

  /**
   * `getTodo(ctx)`: an id that is not an object id is answered with Bad Request,
   * an id no todo has with Not Found, and otherwise the todo becomes the
   * response body with status OK. On the two error paths the response is left
   * untouched.
   */
  method GetTodo(ctx: Context, collection: seq<Todo>) returns (thrown: Option<HttpResponseError>)
    modifies ctx
    ensures !LegalObjectId(ctx.pathId) ==> thrown == Some(BadRequest)
    ensures LegalObjectId(ctx.pathId) && FindById(collection, ctx.pathId).None? ==> thrown == Some(NotFound)
    ensures thrown.Some? ==> ctx.json == old(ctx.json) && ctx.status == old(ctx.status)
    ensures thrown.None? <==> LegalObjectId(ctx.pathId) && FindById(collection, ctx.pathId).Some?
    ensures thrown.None? ==> ctx.json == FindById(collection, ctx.pathId) && ctx.status == Some(Ok200)
  {
    var id := ctx.pathId;
    if !LegalObjectId(id) {
      return Some(BadRequest);
    }
    var todo := FindById(collection, id);
    if todo.None? {
      return Some(NotFound);
    }
    ctx.json := todo;
    ctx.status := Some(Ok200);
    return None;
  }

  /** The ids of the controller's tests: `bad` is not an object id, `588935f5c668650dc77df581` is. */
  lemma ObjectIdExamples()
    ensures !LegalObjectId("bad")
    ensures LegalObjectId("588935f5c668650dc77df581")
  {
  }

  /** A todo found by id carries an id that is itself a legal object id, equal to the request's up to case. */
  lemma FoundIdIsLegal(collection: seq<Todo>, id: string)
    requires LegalObjectId(id) && FindById(collection, id).Some?
    ensures LegalObjectId(FindById(collection, id).value.id)
    ensures Lower(FindById(collection, id).value.id) == Lower(id)
  {
    var found := FindById(collection, id).value.id;
    forall i | 0 <= i < |found|
      ensures HexDigit(found[i])
    {
      assert Lower(found)[i] == Lower(id)[i];
      assert LowerChar(found[i]) == LowerChar(id[i]);
    }
  }

  // ---------------------------------------------------------------------------
  // md5: hexadecimal rendering of a digest
  // ---------------------------------------------------------------------------

  /** A Java `byte`: a signed eight-bit integer. */
  newtype JavaByte = b: int | -128 <= b < 128

  /** The lower-case hexadecimal digits, by value. */
  const HexDigits: string := "0123456789abcdef"

  /** The unsigned value of a byte: negative bytes have 256 added, as the `x` conversion does. */
  function Unsigned(b: JavaByte): (u: nat)
    ensures u < 256
    ensures u % 256 == (b as int) % 256
  {
    if b < 0 then b as int + 256 else b as int
  }

  /** `String.format("%02x", b)`: the byte's unsigned value as exactly two lower-case hexadecimal digits. */
  function FormatByte(b: JavaByte): (s: string)
    ensures |s| == 2
    ensures s[0] in HexDigits && s[1] in HexDigits
  {
    var u := Unsigned(b);
    [HexDigits[u / 16], HexDigits[u % 16]]
  }

  /** The appended formats of a digest's bytes, in byte order. */
  function HexOf(bytes: seq<JavaByte>): string
    decreases |bytes|
  {
    if bytes == [] then "" else HexOf(bytes[..|bytes| - 1]) + FormatByte(bytes[|bytes| - 1])
  }

  /** The value of a lower-case hexadecimal digit. */
  function HexValue(c: char): (v: nat)
    ensures v < 16
    ensures c in HexDigits ==> HexDigits[v] == c
  {
    if '0' <= c <= '9' then c as int - '0' as int
    else if 'a' <= c <= 'f' then c as int - 'a' as int + 10
    else 0
  }

  /** Reads two hexadecimal digits back as a signed byte. */
  function ParseByte(s: string): JavaByte
    requires |s| == 2
  {
    var u := 16 * HexValue(s[0]) + HexValue(s[1]);
    if u >= 128 then (u - 256) as JavaByte else u as JavaByte
  }

  /** Reads a string of digit pairs back as bytes, from the back (a lone leading digit is ignored). */
  function ParseHex(s: string): seq<JavaByte>
    decreases |s|
  {
    if |s| < 2 then [] else ParseHex(s[..|s| - 2]) + [ParseByte(s[|s| - 2..])]
  }

  /** The digit for each value below sixteen reads back as that value. */
  lemma HexValueOfDigit(d: nat)
    requires d < 16
    ensures HexValue(HexDigits[d]) == d
  {
    assert HexDigits[d] in HexDigits;
  }

  /** Formatting a byte and reading the two digits back gives the byte. */
  lemma ParseFormatByte(b: JavaByte)
    ensures ParseByte(FormatByte(b)) == b
  {
    var u := Unsigned(b);
    var hi, lo := u / 16, u % 16;
    var s := FormatByte(b);
    assert s[0] == HexDigits[hi] && s[1] == HexDigits[lo];
    HexValueOfDigit(hi);
    HexValueOfDigit(lo);
    assert 16 * HexValue(s[0]) + HexValue(s[1]) == u;
  }

  /** The two digits that render byte number `i` of a hex rendering. */
  function DigitsOf(hex: string, i: nat): string
    requires 2 * i + 2 <= |hex|
  {
    hex[2 * i..2 * i + 2]
  }

  /** Hex rendering has two digits per byte, each byte's digits at positions `2i` and `2i + 1`. */
  lemma {:induction false} HexOfLayout(bytes: seq<JavaByte>)
    ensures |HexOf(bytes)| == 2 * |bytes|
    ensures forall i :: 0 <= i < |bytes| ==> DigitsOf(HexOf(bytes), i) == FormatByte(bytes[i])
    decreases |bytes|
  {
    if bytes != [] {
      var front, last := bytes[..|bytes| - 1], bytes[|bytes| - 1];
      HexOfLayout(front);
      var h := HexOf(bytes);
      assert h == HexOf(front) + FormatByte(last);
      forall i | 0 <= i < |bytes|
        ensures DigitsOf(h, i) == FormatByte(bytes[i])
      {
        if i < |front| {
          assert DigitsOf(HexOf(front), i) == FormatByte(front[i]);
          assert DigitsOf(h, i) == DigitsOf(HexOf(front), i);
          assert bytes[i] == front[i];
        } else {
          assert i == |bytes| - 1;
          assert DigitsOf(h, i) == FormatByte(last);
        }
      }
    }
  }

  /** Hex rendering uses lower-case hexadecimal digits only. */
  lemma {:induction false} HexOfDigits(bytes: seq<JavaByte>)
    ensures forall i :: 0 <= i < |HexOf(bytes)| ==> HexOf(bytes)[i] in HexDigits
    decreases |bytes|
  {
    if bytes != [] {
      var front := bytes[..|bytes| - 1];
      HexOfDigits(front);
      var h := HexOf(bytes);
      var f := FormatByte(bytes[|bytes| - 1]);
      assert h == HexOf(front) + f;
      forall i | 0 <= i < |h|
        ensures h[i] in HexDigits
      {
        if i >= |HexOf(front)| {
          assert h[i] == f[i - |HexOf(front)|];
        }
      }
    }
  }

  /** Reading back text with one more digit pair appended reads one more byte. */
  lemma ParseHexAppend(front: string, pair: string)
    requires |pair| == 2
    ensures ParseHex(front + pair) == ParseHex(front) + [ParseByte(pair)]
  {
    var h := front + pair;
    assert h[..|h| - 2] == front;
    assert h[|h| - 2..] == pair;
  }

  /** A non-empty sequence is its front followed by its last element. */
  lemma SplitLast(bytes: seq<JavaByte>)
    requires bytes != []
    ensures bytes[..|bytes| - 1] + [bytes[|bytes| - 1]] == bytes
  {
  }

  /** If the rendering of all but the last byte reads back, so does the rendering of all of them. */
  lemma HexOfRoundTripStep(bytes: seq<JavaByte>)
    requires bytes != []
    requires ParseHex(HexOf(bytes[..|bytes| - 1])) == bytes[..|bytes| - 1]
    ensures ParseHex(HexOf(bytes)) == bytes
  {
    var front, last := bytes[..|bytes| - 1], bytes[|bytes| - 1];
    SplitLast(bytes);
    calc {
      ParseHex(HexOf(bytes));
      ParseHex(HexOf(front) + FormatByte(last));
      { ParseHexAppend(HexOf(front), FormatByte(last)); }
      ParseHex(HexOf(front)) + [ParseByte(FormatByte(last))];
      { ParseFormatByte(last); }
      front + [last];
    }
  }

  /** Reading a hex rendering back gives the bytes. */
  lemma {:induction false} HexOfRoundTrip(bytes: seq<JavaByte>)
    ensures ParseHex(HexOf(bytes)) == bytes
    decreases |bytes|
  {
    if bytes != [] {
      HexOfRoundTrip(bytes[..|bytes| - 1]);
      HexOfRoundTripStep(bytes);
    }
  }

  /** Different digests are rendered as different text. */
  lemma HexOfInjective(a: seq<JavaByte>, b: seq<JavaByte>)
    requires HexOf(a) == HexOf(b)
    ensures a == b
  {
    HexOfRoundTrip(a);
    HexOfRoundTrip(b);
  }

  /**
   * `md5(str)`: lower-cases the text, digests it (`digest` stands for encoding
   * as UTF-8 and computing the MD5 digest of RFC 1321), and appends every digest
   * byte as two hexadecimal digits.
   */
  method Md5(str: string, digest: string -> seq<JavaByte>) returns (hex: string)
    ensures hex == HexOf(digest(Lower(str)))
  {
    var hashInBytes := digest(Lower(str));
    var result := "";
    for i := 0 to |hashInBytes|
      invariant result == HexOf(hashInBytes[..i])
    {
      assert hashInBytes[..i + 1][..i] == hashInBytes[..i];
      result := result + FormatByte(hashInBytes[i]);
    }
    assert hashInBytes[..|hashInBytes|] == hashInBytes;
    hex := result;
  }

  /** Texts equal up to case have the same hash, since the text is lower-cased before digesting. */
  lemma Md5IgnoresCase(a: string, b: string, digest: string -> seq<JavaByte>)
    requires EqualsIgnoreCase(a, b)
    ensures HexOf(digest(Lower(a))) == HexOf(digest(Lower(b)))
    ensures |HexOf(digest(Lower(a)))| == 2 * |digest(Lower(a))|
  {
    HexOfLayout(digest(Lower(a)));
  }
}
