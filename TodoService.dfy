/**
 * The client's todo service: the query parameters `getTodos` hands to the HTTP
 * client, the URL `getTodoById` requests, and the local filter `filterTodos`.
 * The HTTP requests themselves are not modelled; each operation yields what it
 * would send or return.
 */
module TodoService {
  import opened Wrappers
  import opened Strings
  import opened Todos

  /** `sub` is `s` with some elements deleted, the rest kept in their order. */
  predicate IsSubsequence<T(==)>(sub: seq<T>, s: seq<T>)
    decreases |s|
  {
    if s == [] then sub == []
    else (sub != [] && sub[0] == s[0] && IsSubsequence(sub[1..], s[1..])) || IsSubsequence(sub, s[1..])
  }

  // ---------------------------------------------------------------------------
  // getTodos: options to query parameters
  // ---------------------------------------------------------------------------

  /** The optional options record of `getTodos`; every field may be left out. */
  datatype TodoQuery = TodoQuery(
    owner: Option<string>,
    body: Option<string>,
    status: Option<string>,
    limit: Option<int>,
    sort: Option<string>)

  /** A text field is truthy when it is given and not the empty string. */
  predicate TruthyText(field: Option<string>) {
    field.Some? && field.value != ""
  }

  /** A number field is truthy when it is given and not zero. */
  predicate TruthyNumber(field: Option<int>) {
    field.Some? && field.value != 0
  }

  /** One query parameter; `HttpParams` turns every value into text. */
  datatype Param = Param(key: string, value: string)

  /** The keys of a parameter list, in order. */
  function Keys(params: seq<Param>): (keys: seq<string>)
    ensures |keys| == |params|
    ensures forall i :: 0 <= i < |params| ==> keys[i] == params[i].key
  {
    if params == [] then [] else [params[0].key] + Keys(params[1..])
  }

  /** No key occurs twice. */
  predicate UniqueKeys(params: seq<Param>) {
    forall i, j :: 0 <= i < j < |params| ==> params[i].key != params[j].key
  }

  /** `HttpParams.get(key)`: the value stored under `key`, if any. */
  function Get(params: seq<Param>, key: string): (v: Option<string>)
    ensures v.Some? <==> key in Keys(params)
    ensures v.Some? ==> Param(key, v.value) in params
  {
    if params == [] then None
    else if params[0].key == key then Some(params[0].value)
    else Get(params[1..], key)
  }

  /** Keys distribute over concatenation. */
  lemma KeysAppend(a: seq<Param>, b: seq<Param>)
    ensures Keys(a + b) == Keys(a) + Keys(b)
  {
    assert forall i :: 0 <= i < |a + b| ==> Keys(a + b)[i] == (Keys(a) + Keys(b))[i];
  }

  /** A key is looked up in the front part first, then in the back part. */
  lemma {:induction false} GetAppend(a: seq<Param>, b: seq<Param>, key: string)
    ensures Get(a + b, key) == if Get(a, key).Some? then Get(a, key) else Get(b, key)
    decreases |a|
  {
    if a != [] {
      assert (a + b)[0] == a[0];
      assert (a + b)[1..] == a[1..] + b;
      GetAppend(a[1..], b, key);
    } else {
      assert a + b == b;
    }
  }

  /** Appending the same element to both sides, or to the longer side only, keeps a subsequence. */
  lemma {:induction false} IsSubsequenceAppend<T>(sub: seq<T>, s: seq<T>, x: T)
    requires IsSubsequence(sub, s)
    ensures IsSubsequence(sub + [x], s + [x])
    ensures IsSubsequence(sub, s + [x])
    decreases |s|
  {
    if s == [] {
      assert sub == [];
      assert ([x] + [])[1..] == [];
    } else {
      assert (s + [x])[1..] == s[1..] + [x];
      if sub != [] && sub[0] == s[0] && IsSubsequence(sub[1..], s[1..]) {
        IsSubsequenceAppend(sub[1..], s[1..], x);
        assert (sub + [x])[1..] == sub[1..] + [x];
      } else {
        IsSubsequenceAppend(sub, s[1..], x);
      }
    }
  }

  /** The position of the first pair under `key`, or -1 when there is none. */
  function KeyIndex(params: seq<Param>, key: string): (i: int)
    ensures -1 <= i < |params|
    ensures i == -1 <==> key !in Keys(params)
    ensures i >= 0 ==> params[i].key == key && forall j :: 0 <= j < i ==> params[j].key != key
    decreases |params|
  {
    if params == [] then -1
    else if params[0].key == key then 0
    else
      var k := KeyIndex(params[1..], key);
      assert Keys(params) == [params[0].key] + Keys(params[1..]);
      if k == -1 then -1 else k + 1
  }

  /** The lookup finds the first pair under a key. */
  lemma {:induction false} GetFirst(params: seq<Param>, key: string, i: nat)
    requires i < |params| && params[i].key == key
    requires forall j :: 0 <= j < i ==> params[j].key != key
    ensures Get(params, key) == Some(params[i].value)
    decreases i
  {
    if i > 0 {
      GetFirst(params[1..], key, i - 1);
    }
  }

  /**
   * `HttpParams.set(key, value)`: a key already present keeps its position and
   * takes the new value; a new key is appended at the end.
   */
  function SetParam(params: seq<Param>, key: string, value: string): (r: seq<Param>)
    ensures Get(r, key) == Some(value)
    ensures key !in Keys(params) ==> r == params + [Param(key, value)]
    ensures key in Keys(params) ==> Keys(r) == Keys(params)
    ensures forall k :: k != key ==> Get(r, k) == Get(params, k)
  {
    var i := KeyIndex(params, key);
    if i == -1 then
      GetAppend(params, [Param(key, value)], key);
      assert forall k :: k != key ==> Get(params + [Param(key, value)], k) == Get(params, k) by {
        forall k | k != key {
          GetAppend(params, [Param(key, value)], k);
        }
      }
      params + [Param(key, value)]
    else
      GetFirst(params[i := Param(key, value)], key, i);
      assert forall k :: k != key ==> Get(params[i := Param(key, value)], k) == Get(params, k) by {
        forall k | k != key {
          GetReplaced(params, i, Param(key, value), k);
        }
      }
      params[i := Param(key, value)]
  }

  /** Replacing a pair by one under the same key leaves the lookup of every other key alone. */
  lemma {:induction false} GetReplaced(params: seq<Param>, i: nat, p: Param, k: string)
    requires i < |params| && params[i].key == p.key && k != p.key
    ensures Get(params[i := p], k) == Get(params, k)
    decreases i
  {
    if i > 0 {
      assert params[i := p][1..] == params[1..][i - 1 := p];
      GetReplaced(params[1..], i - 1, p, k);
    }
  }

  /** The wire keys, in the order `getTodos` adds them; `sort` travels as `orderBy`. */
  const WireKeys: seq<string> := ["owner", "body", "status", "limit", "orderBy"]

  /** The value a truthy text field contributes, or nothing. */
  function TextValue(field: Option<string>): (v: Option<string>)
    ensures v.Some? <==> TruthyText(field)
    ensures v.Some? ==> v == field
  {
    if TruthyText(field) then field else None
  }

  /** The value the options put under a wire key, or nothing when that field is falsy. */
  function WireValue(q: TodoQuery, key: string): Option<string> {
    if key == "owner" then TextValue(q.owner)
    else if key == "body" then TextValue(q.body)
    else if key == "status" then TextValue(q.status)
    else if key == "limit" then (if TruthyNumber(q.limit) then Some(IntToString(q.limit.value)) else None)
    else if key == "orderBy" then TextValue(q.sort)
    else None
  }

  /** The pair the options contribute under one wire key: one pair or none. */
  function Pair(q: TodoQuery, key: string): seq<Param> {
    match WireValue(q, key)
    case Some(v) => [Param(key, v)]
    case None => []
  }

  /** The pairs, in the order of `keys`, of every key the options give a value. */
  function Collect(q: TodoQuery, keys: seq<string>): seq<Param>
    decreases |keys|
  {
    if keys == [] then [] else Collect(q, keys[..|keys| - 1]) + Pair(q, keys[|keys| - 1])
  }

  /** The parameter list a call of `getTodos` sends: none at all without options. */
  function QueryParams(filters: Option<TodoQuery>): seq<Param> {
    match filters
    case None => []
    case Some(q) => Collect(q, WireKeys)
  }

  /** Collecting keeps the keys' order: the collected keys are a subsequence of `keys`. */
  lemma {:induction false} CollectKeys(q: TodoQuery, keys: seq<string>)
    ensures IsSubsequence(Keys(Collect(q, keys)), keys)
    ensures forall k :: k in Keys(Collect(q, keys)) ==> k in keys
    decreases |keys|
  {
    if keys == [] {
      assert Keys([]) == [];
    } else {
      var front, last := keys[..|keys| - 1], keys[|keys| - 1];
      assert keys == front + [last];
      var rest := Collect(q, front);
      CollectKeys(q, front);
      KeysAppend(rest, Pair(q, last));
      IsSubsequenceAppend(Keys(rest), front, last);
      if WireValue(q, last).Some? {
        assert Keys(Pair(q, last)) == [last];
      } else {
        assert Keys(Pair(q, last)) == [];
        assert Keys(rest) + [] == Keys(rest);
      }
    }
  }

  /** Collecting over distinct keys yields distinct keys. */
  lemma {:induction false} CollectUnique(q: TodoQuery, keys: seq<string>)
    requires forall i, j :: 0 <= i < j < |keys| ==> keys[i] != keys[j]
    ensures UniqueKeys(Collect(q, keys))
    decreases |keys|
  {
    if keys != [] {
      var front, last := keys[..|keys| - 1], keys[|keys| - 1];
      var rest := Collect(q, front);
      CollectUnique(q, front);
      CollectKeys(q, front);
      assert last !in front;
      if WireValue(q, last).Some? {
        var r := Collect(q, keys);
        assert r == rest + Pair(q, last);
        forall i, j | 0 <= i < j < |r| ensures r[i].key != r[j].key {
          if j == |r| - 1 {
            assert r[i].key == Keys(rest)[i];
          }
        }
      }
    }
  }

  /** Over distinct keys, the value collected under a key is the value the options give it. */
  lemma {:induction false} CollectGet(q: TodoQuery, keys: seq<string>, k: string)
    requires forall i, j :: 0 <= i < j < |keys| ==> keys[i] != keys[j]
    ensures Get(Collect(q, keys), k) == if k in keys then WireValue(q, k) else None
    decreases |keys|
  {
    if keys == [] {
      assert Keys([]) == [];
    } else {
      var front, last := keys[..|keys| - 1], keys[|keys| - 1];
      assert keys == front + [last];
      var rest := Collect(q, front);
      CollectGet(q, front, k);
      GetAppend(rest, Pair(q, last), k);
      assert last !in front;
      if WireValue(q, last).Some? {
        assert Keys(Pair(q, last)) == [last];
      } else {
        assert Keys(Pair(q, last)) == [];
      }
    }
  }

  /** The five wire keys are pairwise different. */
  lemma WireKeysDistinct()
    ensures forall i, j :: 0 <= i < j < |WireKeys| ==> WireKeys[i] != WireKeys[j]
  {
    assert "owner"[0] != "limit"[0];
  }

  /** The value under each wire key comes from its own field, `sort` under `orderBy`. */
  lemma WireValues(q: TodoQuery)
    ensures WireKeys[0] == "owner" && WireValue(q, "owner") == TextValue(q.owner)
    ensures WireKeys[1] == "body" && WireValue(q, "body") == TextValue(q.body)
    ensures WireKeys[2] == "status" && WireValue(q, "status") == TextValue(q.status)
    ensures WireKeys[3] == "limit"
    ensures WireValue(q, "limit") == if TruthyNumber(q.limit) then Some(IntToString(q.limit.value)) else None
    ensures WireKeys[4] == "orderBy" && WireValue(q, "orderBy") == TextValue(q.sort)
  {
    assert "limit"[0] != "owner"[0];
  }

  /** One more wire key adds its pair at the end, under a key not yet present. */
  lemma CollectStep(q: TodoQuery, n: nat)
    requires n < |WireKeys|
    ensures Collect(q, WireKeys[..n + 1]) == Collect(q, WireKeys[..n]) + Pair(q, WireKeys[n])
    ensures WireKeys[n] !in Keys(Collect(q, WireKeys[..n]))
  {
    assert WireKeys[..n + 1][..n] == WireKeys[..n];
    WireKeysDistinct();
    CollectKeys(q, WireKeys[..n]);
  }

  /** The parameters are the owner, body, status, limit and orderBy pairs, in that order. */
  lemma QueryParamsInOrder(q: TodoQuery)
    ensures QueryParams(Some(q))
      == Pair(q, "owner") + Pair(q, "body") + Pair(q, "status") + Pair(q, "limit") + Pair(q, "orderBy")
  {
    assert WireKeys[..0] == [];
    CollectStep(q, 0);
    assert Collect(q, WireKeys[..1]) == Pair(q, "owner");
    CollectStep(q, 1);
    assert Collect(q, WireKeys[..2]) == Pair(q, "owner") + Pair(q, "body");
    CollectStep(q, 2);
    assert Collect(q, WireKeys[..3]) == Pair(q, "owner") + Pair(q, "body") + Pair(q, "status");
    CollectStep(q, 3);
    assert Collect(q, WireKeys[..4]) == Pair(q, "owner") + Pair(q, "body") + Pair(q, "status") + Pair(q, "limit");
    CollectStep(q, 4);
    assert WireKeys[..5] == WireKeys;
  }

  /** The pairs of one wire key are all under that key. */
  lemma PairKeys(q: TodoQuery, key: string)
    ensures forall k :: k in Keys(Pair(q, key)) ==> k == key
  {
  }

  /** Each wire key is new to the pairs of the keys before it, so setting it appends. */
  lemma LaterKeysAreFresh(q: TodoQuery)
    ensures "body" !in Keys(Pair(q, "owner"))
    ensures "status" !in Keys(Pair(q, "owner") + Pair(q, "body"))
    ensures "limit" !in Keys(Pair(q, "owner") + Pair(q, "body") + Pair(q, "status"))
    ensures "orderBy" !in Keys(Pair(q, "owner") + Pair(q, "body") + Pair(q, "status") + Pair(q, "limit"))
  {
    var o, b, s, l := Pair(q, "owner"), Pair(q, "body"), Pair(q, "status"), Pair(q, "limit");
    PairKeys(q, "owner");
    PairKeys(q, "body");
    PairKeys(q, "status");
    PairKeys(q, "limit");
    KeysAppend(o, b);
    KeysAppend(o + b, s);
    KeysAppend(o + b + s, l);
    assert "body"[0] != "owner"[0];
    assert "status"[0] !in {"owner"[0], "body"[0]};
    assert "limit"[0] !in {"owner"[0], "body"[0], "status"[0]};
    assert |"orderBy"| != |"owner"| && "orderBy"[0] !in {"body"[0], "status"[0], "limit"[0]};
  }

  /** The last `set`, of `orderBy`, completes the parameter list. */
  lemma SetOrderByCompletes(q: TodoQuery, params: seq<Param>)
    requires params == Pair(q, "owner") + Pair(q, "body") + Pair(q, "status") + Pair(q, "limit")
    ensures (if TruthyText(q.sort) then SetParam(params, "orderBy", q.sort.value) else params)
      == QueryParams(Some(q))
  {
    WireValues(q);
    LaterKeysAreFresh(q);
    QueryParamsInOrder(q);
  }

  /**
   * `getTodos(filters)`: builds the `HttpParams` by successive `set` calls, one
   * per truthy field, in the fixed order owner, body, status, limit, sort.
   */
  method GetTodos(filters: Option<TodoQuery>) returns (httpParams: seq<Param>)
    ensures filters.None? ==> httpParams == []
    ensures httpParams == QueryParams(filters)
  {
    httpParams := [];
    if filters.Some? {
      var f := filters.value;
      WireValues(f);
      LaterKeysAreFresh(f);
      if TruthyText(f.owner) {
        httpParams := SetParam(httpParams, "owner", f.owner.value);
      }
      assert httpParams == Pair(f, "owner");
      if TruthyText(f.body) {
        httpParams := SetParam(httpParams, "body", f.body.value);
      }
      assert httpParams == Pair(f, "owner") + Pair(f, "body");
      if TruthyText(f.status) {
        httpParams := SetParam(httpParams, "status", f.status.value);
      }
      assert httpParams == Pair(f, "owner") + Pair(f, "body") + Pair(f, "status");
      if TruthyNumber(f.limit) {
        httpParams := SetParam(httpParams, "limit", IntToString(f.limit.value));
      }
      assert httpParams == Pair(f, "owner") + Pair(f, "body") + Pair(f, "status") + Pair(f, "limit");
      SetOrderByCompletes(f, httpParams);
      if TruthyText(f.sort) {
        httpParams := SetParam(httpParams, "orderBy", f.sort.value);
      }
    }
  }

  /**
   * What `getTodos` sends has unique keys, in the order owner, body, status,
   * limit, orderBy.
   */
  lemma QueryParamsKeys(q: TodoQuery)
    ensures UniqueKeys(QueryParams(Some(q)))
    ensures IsSubsequence(Keys(QueryParams(Some(q))), WireKeys)
  {
    WireKeysDistinct();
    CollectUnique(q, WireKeys);
    CollectKeys(q, WireKeys);
  }

  /**
   * What `getTodos` sends under each key: one pair per truthy field and none for
   * an absent, empty or zero one; `sort` under the wire key `orderBy`, every
   * other field under its own name, and nothing under any other key.
   */
  lemma QueryParamsValues(q: TodoQuery)
    ensures Get(QueryParams(Some(q)), "owner") == TextValue(q.owner)
    ensures Get(QueryParams(Some(q)), "body") == TextValue(q.body)
    ensures Get(QueryParams(Some(q)), "status") == TextValue(q.status)
    ensures Get(QueryParams(Some(q)), "limit") ==
      (if TruthyNumber(q.limit) then Some(IntToString(q.limit.value)) else None)
    ensures Get(QueryParams(Some(q)), "orderBy") == TextValue(q.sort)
    ensures forall k :: k !in WireKeys ==> Get(QueryParams(Some(q)), k) == None
  {
    WireKeysDistinct();
    WireValues(q);
    forall k ensures Get(QueryParams(Some(q)), k) == if k in WireKeys then WireValue(q, k) else None {
      CollectGet(q, WireKeys, k);
    }
  }

  /** The number of pairs is the number of truthy fields. */
  lemma QueryParamsCount(q: TodoQuery)
    ensures |QueryParams(Some(q))| ==
      (if TruthyText(q.owner) then 1 else 0) + (if TruthyText(q.body) then 1 else 0)
      + (if TruthyText(q.status) then 1 else 0) + (if TruthyNumber(q.limit) then 1 else 0)
      + (if TruthyText(q.sort) then 1 else 0)
  {
    QueryParamsInOrder(q);
  }

  /** `{owner: 'roberta'}` sends exactly `owner=roberta`; `{body: 'Hello', status: 'incomplete'}` exactly two pairs. */
  lemma QueryParamsExamples()
    ensures QueryParams(Some(TodoQuery(Some("roberta"), None, None, None, None))) == [Param("owner", "roberta")]
    ensures QueryParams(Some(TodoQuery(None, None, Some("complete"), None, None))) == [Param("status", "complete")]
    ensures QueryParams(Some(TodoQuery(None, Some("Hello"), Some("incomplete"), None, None)))
      == [Param("body", "Hello"), Param("status", "incomplete")]
    ensures QueryParams(Some(TodoQuery(Some(""), None, None, Some(0), Some("owner")))) == [Param("orderBy", "owner")]
  {
    QueryParamsInOrder(TodoQuery(Some("roberta"), None, None, None, None));
    QueryParamsInOrder(TodoQuery(None, None, Some("complete"), None, None));
    QueryParamsInOrder(TodoQuery(None, Some("Hello"), Some("incomplete"), None, None));
    QueryParamsInOrder(TodoQuery(Some(""), None, None, Some(0), Some("owner")));
  }

  // ---------------------------------------------------------------------------
  // getTodoById: the URL of one todo
  // ---------------------------------------------------------------------------

  /** The id a URL of the form `todoUrl + '/' + id` names, if it has that form. */
  function IdOfUrl(todoUrl: string, url: string): Option<string> {
    var prefix := todoUrl + "/";
    if |prefix| <= |url| && url[..|prefix|] == prefix then Some(url[|prefix|..]) else None
  }

  /** `getTodoById(id)` requests `todoUrl + '/' + id`: the collection URL, a slash, and the id verbatim. */
  function TodoByIdUrl(todoUrl: string, id: string): (url: string)
    ensures |url| == |todoUrl| + 1 + |id| && url[..|todoUrl|] == todoUrl
    ensures IdOfUrl(todoUrl, url) == Some(id)
  {
    todoUrl + "/" + id
  }

  /** Different ids are requested at different URLs. */
  lemma TodoByIdUrlInjective(todoUrl: string, id1: string, id2: string)
    requires TodoByIdUrl(todoUrl, id1) == TodoByIdUrl(todoUrl, id2)
    ensures id1 == id2
  {
    assert IdOfUrl(todoUrl, TodoByIdUrl(todoUrl, id1)) == Some(id1);
  }

  // ---------------------------------------------------------------------------
  // filterTodos: local filtering
  // ---------------------------------------------------------------------------

  /** The criteria object `filterTodos` receives (and partly rewrites). */
  datatype TodoFilters = TodoFilters(category: Option<string>, status: Option<string>, body: Option<string>)

  /**
   * `booleanStatus`: 'complete' gives true, 'incomplete' gives false, and any
   * other token leaves it undefined (None), which no todo's status equals.
   */
  function StatusFlag(token: string): (flag: Option<bool>)
    ensures flag == Some(true) <==> token == "complete"
    ensures flag == Some(false) <==> token == "incomplete"
  {
    if token == "complete" then Some(true)
    else if token == "incomplete" then Some(false)
    else None
  }

  /** `Array.prototype.filter`: the todos satisfying `p`, in their original order. */
  function Keep(todos: seq<Todo>, p: Todo -> bool): (kept: seq<Todo>)
    ensures |kept| <= |todos|
    ensures IsSubsequence(kept, todos)
    ensures forall t :: t in kept <==> t in todos && p(t)
    ensures forall t :: multiset(kept)[t] == if p(t) then multiset(todos)[t] else 0
    decreases |todos|
  {
    if todos == [] then []
    else
      assert todos == [todos[0]] + todos[1..];
      if p(todos[0]) then [todos[0]] + Keep(todos[1..], p)
      else Keep(todos[1..], p)
  }

  /** Filtering the result of a filter is filtering once by both conditions. */
  lemma {:induction false} KeepKeep(todos: seq<Todo>, p: Todo -> bool, q: Todo -> bool, both: Todo -> bool)
    requires forall t :: both(t) == (p(t) && q(t))
    ensures Keep(Keep(todos, p), q) == Keep(todos, both)
    decreases |todos|
  {
    if todos != [] {
      KeepKeep(todos[1..], p, q, both);
      if p(todos[0]) {
        assert Keep(todos, p)[1..] == Keep(todos[1..], p);
      }
    }
  }

  /** Filters by conditions that agree on every todo give the same result. */
  lemma {:induction false} KeepSame(todos: seq<Todo>, p: Todo -> bool, q: Todo -> bool)
    requires forall t :: p(t) == q(t)
    ensures Keep(todos, p) == Keep(todos, q)
    decreases |todos|
  {
    if todos != [] {
      KeepSame(todos[1..], p, q);
    }
  }

  /** A filter that every todo passes returns its input unchanged. */
  lemma {:induction false} KeepAll(todos: seq<Todo>, p: Todo -> bool)
    requires forall t :: p(t)
    ensures Keep(todos, p) == todos
    decreases |todos|
  {
    if todos != [] {
      KeepAll(todos[1..], p);
    }
  }

  /** A filter that no todo passes returns nothing. */
  lemma {:induction false} KeepNone(todos: seq<Todo>, p: Todo -> bool)
    requires forall t :: !p(t)
    ensures Keep(todos, p) == []
    decreases |todos|
  {
    if todos != [] {
      KeepNone(todos[1..], p);
    }
  }

  /** The criterion text as `filterTodos` writes it back: lower-cased when truthy, untouched otherwise. */
  function Lowered(field: Option<string>): (r: Option<string>)
    ensures TruthyText(r) <==> TruthyText(field)
    ensures TruthyText(field) ==> r == Some(Lower(field.value))
    ensures !TruthyText(field) ==> r == field
  {
    if TruthyText(field) then Some(Lower(field.value)) else field
  }

  /**
   * Whether a todo meets every truthy criterion: its lower-cased category and body
   * contain the lower-cased criteria, and its status equals the flag the status
   * token maps to.
   */
  predicate Admits(filters: TodoFilters, t: Todo) {
    && (TruthyText(filters.category) ==> Contains(Lower(t.category), Lower(filters.category.value)))
    && (TruthyText(filters.body) ==> Contains(Lower(t.body), Lower(filters.body.value)))
    && (TruthyText(filters.status) ==> StatusFlag(filters.status.value) == Some(t.status))
  }

  /** The todos that meet every criterion, in their original order, filtered in one pass. */
  function Matching(todos: seq<Todo>, filters: TodoFilters): (kept: seq<Todo>)
    ensures IsSubsequence(kept, todos)
    ensures forall t :: t in kept <==> t in todos && Admits(filters, t)
    ensures forall t :: multiset(kept)[t] == if Admits(filters, t) then multiset(todos)[t] else 0
  {
    Keep(todos, t => Admits(filters, t))
  }

  /**
   * `filterTodos(todos, filters)`: narrows the list stage by stage (category,
   * body, status) and writes the lower-cased category and body back into the
   * caller's criteria object, returned here as `updated`. The result is the
   * one-pass filter by all criteria together.
   */
  method FilterTodos(todos: seq<Todo>, filters: TodoFilters) returns (filteredTodos: seq<Todo>, updated: TodoFilters)
    ensures updated == TodoFilters(Lowered(filters.category), filters.status, Lowered(filters.body))
    ensures IsSubsequence(filteredTodos, todos)
    ensures forall t :: t in filteredTodos <==> t in todos && Admits(filters, t)
    ensures filteredTodos == Matching(todos, filters)
  {
    ghost var passed: Todo -> bool := t => true;
    KeepAll(todos, passed);
    filteredTodos := todos;
    updated := filters;
    if TruthyText(updated.category) {
      updated := updated.(category := Some(Lower(updated.category.value)));
      var category := updated.category.value;
      ghost var before := passed;
      passed := (t: Todo) => before(t) && Contains(Lower(t.category), category);
      KeepKeep(todos, before, (t: Todo) => Contains(Lower(t.category), category), passed);
      filteredTodos := Keep(filteredTodos, (t: Todo) => Contains(Lower(t.category), category));
    }
    if TruthyText(updated.body) {
      updated := updated.(body := Some(Lower(updated.body.value)));
      var body := updated.body.value;
      ghost var before := passed;
      passed := (t: Todo) => before(t) && Contains(Lower(t.body), body);
      KeepKeep(todos, before, (t: Todo) => Contains(Lower(t.body), body), passed);
      filteredTodos := Keep(filteredTodos, (t: Todo) => Contains(Lower(t.body), body));
    }
    if TruthyText(updated.status) {
      var booleanStatus := StatusFlag(updated.status.value);
      ghost var before := passed;
      passed := (t: Todo) => before(t) && booleanStatus == Some(t.status);
      KeepKeep(todos, before, (t: Todo) => booleanStatus == Some(t.status), passed);
      filteredTodos := Keep(filteredTodos, (t: Todo) => booleanStatus == Some(t.status));
    }
    KeepSame(todos, passed, (t: Todo) => Admits(filters, t));
  }

  /** The criteria as the caller holds them after a call: the same todos pass them. */
  lemma LoweredCriteriaAdmitSame(filters: TodoFilters, t: Todo)
    ensures Admits(TodoFilters(Lowered(filters.category), filters.status, Lowered(filters.body)), t)
        == Admits(filters, t)
  {
    if TruthyText(filters.category) {
      LowerIdempotent(filters.category.value);
    }
    if TruthyText(filters.body) {
      LowerIdempotent(filters.body.value);
    }
  }

  /**
   * Filtering is idempotent: filtering the result again, with the criteria as given
   * or as rewritten by the first call, changes nothing.
   */
  lemma FilterIdempotent(todos: seq<Todo>, filters: TodoFilters)
    ensures Matching(Matching(todos, filters), filters) == Matching(todos, filters)
    ensures Matching(Matching(todos, filters),
                     TodoFilters(Lowered(filters.category), filters.status, Lowered(filters.body)))
         == Matching(todos, filters)
  {
    var p := t => Admits(filters, t);
    KeepKeep(todos, p, p, p);
    var rewritten := TodoFilters(Lowered(filters.category), filters.status, Lowered(filters.body));
    forall t ensures Admits(rewritten, t) == Admits(filters, t) {
      LoweredCriteriaAdmitSame(filters, t);
    }
    KeepSame(Matching(todos, filters), t => Admits(rewritten, t), p);
  }

  /**
   * Criteria combine conjunctively: filtering by a category and a body is filtering
   * by the category and then by the body, and keeps exactly the todos that each
   * criterion alone keeps.
   */
  lemma FilterConjunction(todos: seq<Todo>, category: Option<string>, body: Option<string>)
    ensures Matching(todos, TodoFilters(category, None, body))
         == Matching(Matching(todos, TodoFilters(category, None, None)), TodoFilters(None, None, body))
    ensures forall t :: t in Matching(todos, TodoFilters(category, None, body)) <==>
      t in Matching(todos, TodoFilters(category, None, None)) && t in Matching(todos, TodoFilters(None, None, body))
  {
    KeepKeep(todos, t => Admits(TodoFilters(category, None, None), t),
             t => Admits(TodoFilters(None, None, body), t),
             t => Admits(TodoFilters(category, None, body), t));
  }

  /** With no truthy criterion the input comes back unchanged; an empty input gives an empty result. */
  lemma FilterWithoutCriteria(todos: seq<Todo>, filters: TodoFilters)
    ensures !TruthyText(filters.category) && !TruthyText(filters.body) && !TruthyText(filters.status)
      ==> Matching(todos, filters) == todos
    ensures Matching([], filters) == []
  {
    if !TruthyText(filters.category) && !TruthyText(filters.body) && !TruthyText(filters.status) {
      KeepAll(todos, t => Admits(filters, t));
    }
  }

  /**
   * Status tokens: 'complete' keeps exactly the finished todos, 'incomplete' exactly
   * the unfinished ones, and any other non-empty token, 'Complete' included, keeps none.
   */
  lemma FilterByStatus(todos: seq<Todo>, token: string)
    requires token != ""
    ensures token == "complete" ==>
      forall t :: t in Matching(todos, TodoFilters(None, Some(token), None)) <==> t in todos && t.status
    ensures token == "incomplete" ==>
      forall t :: t in Matching(todos, TodoFilters(None, Some(token), None)) <==> t in todos && !t.status
    ensures token != "complete" && token != "incomplete" ==>
      forall c, b :: Matching(todos, TodoFilters(c, Some(token), b)) == []
  {
    if token != "complete" && token != "incomplete" {
      forall c, b ensures Matching(todos, TodoFilters(c, Some(token), b)) == [] {
        KeepNone(todos, t => Admits(TodoFilters(c, Some(token), b), t));
      }
    }
  }

  /** The three todos of the client's service tests. */
  const Chris := Todo("chris_id", "chris", false, "Hello", "Homework")
  const Sam := Todo("sam_id", "sam", false, "im cool", "Video Games")
  const Sofia := Todo("sofia_id", "sofia", true, "Maybe hello or bye", "Development")

  /** Filtering a three-element list where only the middle element passes keeps that element alone. */
  lemma KeepMiddle(a: Todo, b: Todo, c: Todo, p: Todo -> bool)
    requires !p(a) && p(b) && !p(c)
    ensures Keep([a, b, c], p) == [b]
  {
    var abc := [a, b, c];
    assert abc[1..] == [b, c] && abc[1..][1..] == [c] && abc[1..][1..][1..] == [];
    KeepFront(abc, p);
    KeepFront(abc[1..], p);
    KeepFront(abc[1..][1..], p);
  }

  /** Filtering a three-todo list where only the middle todo is admitted keeps that todo alone. */
  lemma MatchingMiddle(a: Todo, b: Todo, c: Todo, filters: TodoFilters)
    requires !Admits(filters, a) && Admits(filters, b) && !Admits(filters, c)
    ensures Matching([a, b, c], filters) == [b]
  {
    KeepMiddle(a, b, c, t => Admits(filters, t));
  }

  /** Filtering a non-empty list keeps its head if it passes, followed by what is kept of the rest. */
  lemma KeepFront(todos: seq<Todo>, p: Todo -> bool)
    requires todos != []
    ensures Keep(todos, p) == (if p(todos[0]) then [todos[0]] else []) + Keep(todos[1..], p)
  {
  }

  /** Sam's category, 'Video Games', contains an 'i'. */
  lemma CategoryHit()
    ensures Contains(Lower("Video Games"), Lower("i"))
  {
    var text := "Video Games";
    var low := Lower(text);
    assert text[1] == 'i';
    ContainsAt(low, "i", 1);
    assert Lower("i") == "i";
  }

  /** Chris's category, 'Homework', contains no 'i'. */
  lemma ChrisCategoryMisses()
    ensures !Contains(Lower("Homework"), Lower("i"))
  {
    assert Lower("i") == "i";
    LowerLacks("Homework", "i");
  }

  /** Sofia's category, 'Development', contains no 'i'. */
  lemma SofiaCategoryMisses()
    ensures !Contains(Lower("Development"), Lower("i"))
  {
    assert Lower("i") == "i";
    LowerLacks("Development", "i");
  }

  /** Filtering the fixtures by category 'i' keeps Sam alone. */
  lemma CategoryExample()
    ensures Matching([Chris, Sam, Sofia], TodoFilters(Some("i"), None, None)) == [Sam]
  {
    var filters := TodoFilters(Some("i"), None, None);
    CategoryHit();
    ChrisCategoryMisses();
    SofiaCategoryMisses();
    assert !Admits(filters, Chris) && Admits(filters, Sam) && !Admits(filters, Sofia);
    MatchingMiddle(Chris, Sam, Sofia, filters);
  }

  /** Sam's body, 'im cool', contains 'cool'. */
  lemma BodyHit()
    ensures Contains(Lower("im cool"), Lower("cool"))
  {
    assert Lower("cool") == "cool";
    var low := Lower("im cool");
    assert low[3] == 'c' && low[4] == 'o' && low[5] == 'o' && low[6] == 'l';
    ContainsAt(low, "cool", 3);
  }

  /** Chris's body, 'Hello', does not contain 'cool'. */
  lemma ChrisBodyMisses()
    ensures !Contains(Lower("Hello"), Lower("cool"))
  {
    assert Lower("cool") == "cool";
    LowerLacks("Hello", "cool");
  }

  /** Sofia's body, 'Maybe hello or bye', does not contain 'cool'. */
  lemma SofiaBodyMisses()
    ensures !Contains(Lower("Maybe hello or bye"), Lower("cool"))
  {
    assert Lower("cool") == "cool";
    LowerLacks("Maybe hello or bye", "cool");
  }

  /** Filtering the fixtures by body 'cool' keeps Sam alone. */
  lemma BodyExample()
    ensures Matching([Chris, Sam, Sofia], TodoFilters(None, None, Some("cool"))) == [Sam]
  {
    var filters := TodoFilters(None, None, Some("cool"));
    BodyHit();
    ChrisBodyMisses();
    SofiaBodyMisses();
    assert !Admits(filters, Chris) && Admits(filters, Sam) && !Admits(filters, Sofia);
    MatchingMiddle(Chris, Sam, Sofia, filters);
  }
}
