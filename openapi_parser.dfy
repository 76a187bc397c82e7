/**
 * `APIMockGenerator.parse_openapi`: the flat, ordered list of endpoints found
 * under the `paths` member of a decoded OpenAPI document.
 */
module OpenApiParser {
  import opened Wrappers
  import opened Text
  import opened Json

  /** One discovered operation, as the dict `parse_openapi` appends. */
  datatype Endpoint = Endpoint(path: string, httpMethod: string, summary: Json, responses: Json)

  /** The only operation keys recognised, in the order they are visited. */
  const MethodNames: seq<string> := ["get", "post", "put", "delete"]

  /** The `method` values the parser can produce, in the same order. */
  const HttpMethods: seq<string> := ["GET", "POST", "PUT", "DELETE"]

  /** Position of a produced method in the visiting order. */
  function Rank(m: string): nat {
    if m == "GET" then 0
    else if m == "POST" then 1
    else if m == "PUT" then 2
    else 3
  }

  lemma {:induction false} UpperMethodNames(k: nat)
    requires k < |MethodNames|
    ensures Upper(MethodNames[k]) == HttpMethods[k]
    ensures Rank(HttpMethods[k]) == k
  {
    var u := Upper(MethodNames[k]);
    assert |u| == |HttpMethods[k]|;
    assert forall i :: 0 <= i < |u| ==> u[i] == HttpMethods[k][i];
  }

  // ---------------------------------------------------------------------
  // The specification: what the nested loops compute
  // ---------------------------------------------------------------------

  /**
   * One step of the inner loop: nothing when `name` is not among the
   * operations, otherwise the record for `methods[name]`. Each Python
   * operation that can raise on a value of the wrong kind does so here.
   */
  function EndpointFor(path: string, methods: Json, name: string): Result<seq<Endpoint>, PyError> {
    var present :- In(name, methods);
    if !present then Ok([])
    else
      var spec :- Index(methods, name);
      var summary :- Get(spec, "summary", JStr(""));
      // `spec` has a `get`, so the second one cannot raise.
      var responses := Get(spec, "responses", JObj([])).value;
      Ok([Endpoint(path, Upper(name), summary, responses)])
  }

  /** The outcome of one loop run followed by another: the first exception wins, otherwise the lists are joined. */
  function Concat(r1: Result<seq<Endpoint>, PyError>, r2: Result<seq<Endpoint>, PyError>): (r: Result<seq<Endpoint>, PyError>)
    ensures r.Ok? <==> r1.Ok? && r2.Ok?
    ensures r.Ok? ==> r.value == r1.value + r2.value
    ensures r1.Err? ==> r == r1
    ensures r1.Ok? && r2.Err? ==> r == r2
  {
    match r1
    case Err(e) => Err(e)
    case Ok(x) => (match r2 case Err(e) => Err(e) case Ok(y) => Ok(x + y))
  }

  /** The inner loop over `names` for one path, the first exception ending it. */
  function PathEndpoints(path: string, methods: Json, names: seq<string>): Result<seq<Endpoint>, PyError>
    decreases |names|
  {
    if names == [] then Ok([])
    else Concat(PathEndpoints(path, methods, names[..|names| - 1]), EndpointFor(path, methods, names[|names| - 1]))
  }

  /** The outer loop over the `paths` members, in their order, each visiting `names`. */
  function Collect(paths: seq<(string, Json)>, names: seq<string>): Result<seq<Endpoint>, PyError>
    decreases |paths|
  {
    if paths == [] then Ok([])
    else Concat(Collect(paths[..|paths| - 1], names), PathEndpoints(paths[|paths| - 1].0, paths[|paths| - 1].1, names))
  }

  /** What `parse_openapi` returns, or the exception it raises. */
  function Parse(doc: Json): Result<seq<Endpoint>, PyError> {
    var paths :- Get(doc, "paths", JObj([]));
    var entries :- Items(paths);
    Collect(entries, MethodNames)
  }

  /** An exception raised by the inner loop over a prefix of `names` ends the whole loop. */
  lemma {:induction false} PathEndpointsErrorPersists(path: string, methods: Json, names: seq<string>, k: nat)
    requires k <= |names| && PathEndpoints(path, methods, names[..k]).Err?
    ensures PathEndpoints(path, methods, names) == PathEndpoints(path, methods, names[..k])
    decreases |names| - k
  {
    if k < |names| {
      var init := names[..|names| - 1];
      assert init[..k] == names[..k];
      PathEndpointsErrorPersists(path, methods, init, k);
    } else {
      assert names[..k] == names;
    }
  }

  /** An exception raised while visiting a prefix of the paths ends the whole loop. */
  lemma {:induction false} CollectErrorPersists(paths: seq<(string, Json)>, names: seq<string>, k: nat)
    requires k <= |paths| && Collect(paths[..k], names).Err?
    ensures Collect(paths, names) == Collect(paths[..k], names)
    decreases |paths| - k
  {
    if k < |paths| {
      var init := paths[..|paths| - 1];
      assert init[..k] == paths[..k];
      CollectErrorPersists(init, names, k);
    } else {
      assert paths[..k] == paths;
    }
  }

  /** One more step of the inner loop. */
  lemma PathEndpointsUnfold(path: string, methods: Json, names: seq<string>, j: nat)
    requires j < |names|
    ensures PathEndpoints(path, methods, names[..j + 1]) ==
            Concat(PathEndpoints(path, methods, names[..j]), EndpointFor(path, methods, names[j]))
  {
    var next := names[..j + 1];
    assert next[..|next| - 1] == names[..j];
    assert next[|next| - 1] == names[j];
  }

  /** One more step of the outer loop. */
  lemma CollectUnfold(paths: seq<(string, Json)>, names: seq<string>, i: nat)
    requires i < |paths|
    ensures Collect(paths[..i + 1], names) == Concat(Collect(paths[..i], names), PathEndpoints(paths[i].0, paths[i].1, names))
  {
    var next := paths[..i + 1];
    assert next[..|next| - 1] == paths[..i];
    assert next[|next| - 1] == paths[i];
  }

  /**
   * One key of the inner loop: if its step raises, the loop over all keys
   * raises that exception; otherwise its records extend those of the keys
   * before it.
   */
  lemma InnerStep(path: string, methods: Json, names: seq<string>, j: nat, acc: seq<Endpoint>)
    requires j < |names| && PathEndpoints(path, methods, names[..j]) == Ok(acc)
    ensures var step := EndpointFor(path, methods, names[j]);
            if step.Err? then PathEndpoints(path, methods, names) == step
            else PathEndpoints(path, methods, names[..j + 1]) == Ok(acc + step.value)
  {
    PathEndpointsUnfold(path, methods, names, j);
    if EndpointFor(path, methods, names[j]).Err? {
      PathEndpointsErrorPersists(path, methods, names, j + 1);
    }
  }

  /**
   * One path of the outer loop: if its inner loop raises, the whole loop
   * raises that exception; otherwise its records extend those of the paths
   * before it.
   */
  lemma OuterStep(paths: seq<(string, Json)>, names: seq<string>, i: nat, acc: seq<Endpoint>)
    requires i < |paths| && Collect(paths[..i], names) == Ok(acc)
    ensures var group := PathEndpoints(paths[i].0, paths[i].1, names);
            if group.Err? then Collect(paths, names) == group
            else Collect(paths[..i + 1], names) == Ok(acc + group.value)
  {
    CollectUnfold(paths, names, i);
    if PathEndpoints(paths[i].0, paths[i].1, names).Err? {
      CollectErrorPersists(paths, names, i + 1);
    }
  }

  /** Once `paths` and its items are obtained, the outcome is that of the loops. */
  lemma ParseIsCollect(doc: Json, paths: Json, entries: seq<(string, Json)>)
    requires Get(doc, "paths", JObj([])) == Ok(paths) && Items(paths) == Ok(entries)
    ensures Parse(doc) == Collect(entries, MethodNames)
  {
  }

  // ---------------------------------------------------------------------
  // The method
  // ---------------------------------------------------------------------

  /**
   * `parse_openapi`: the outer loop over the members of `paths`. The records
   * of each path are appended in turn; the first exception ends the call.
   */
  method ParseOpenapi(openapiSpec: Json) returns (r: Result<seq<Endpoint>, PyError>)
    ensures r == Parse(openapiSpec)
  {
    var endpoints: seq<Endpoint> := [];
    var paths :- Get(openapiSpec, "paths", JObj([]));
    var entries :- Items(paths);
    ParseIsCollect(openapiSpec, paths, entries);
    for i := 0 to |entries|
      invariant Collect(entries[..i], MethodNames) == Ok(endpoints)
    {
      OuterStep(entries, MethodNames, i, endpoints);
      var (path, methods) := entries[i];
      var group :- PathEndpointsOf(path, methods);
      endpoints := endpoints + group;
    }
    assert entries[..|entries|] == entries;
    return Ok(endpoints);
  }

  /**
   * The inner loop of `parse_openapi` for one path: each of `get`, `post`,
   * `put`, `delete` that is `in` the path's operations adds one record.
   */
  method PathEndpointsOf(path: string, methods: Json) returns (r: Result<seq<Endpoint>, PyError>)
    ensures r == PathEndpoints(path, methods, MethodNames)
  {
    var found: seq<Endpoint> := [];
    var methodNames := MethodNames;
    for j := 0 to |methodNames|
      invariant PathEndpoints(path, methods, methodNames[..j]) == Ok(found)
    {
      InnerStep(path, methods, methodNames, j, found);
      var name := methodNames[j];
      var present :- In(name, methods);
      if present {
        var spec :- Index(methods, name);
        var summary :- Get(spec, "summary", JStr(""));
        var responses := Get(spec, "responses", JObj([])).value;
        found := found + [Endpoint(path, Upper(name), summary, responses)];
      } else {
        assert found + [] == found;
      }
    }
    assert methodNames[..|methodNames|] == methodNames;
    return Ok(found);
  }

  // ---------------------------------------------------------------------
  // Properties of the specification
  // ---------------------------------------------------------------------

  /** An operation's member `key`, or the default `parse_openapi` uses when it is absent. */
  function Field(op: Json, key: string, default: Json): Json {
    if op.JObj? then (match Lookup(op.fields, key) case Some(v) => v case None => default) else default
  }

  /** The record for the `k`-th recognised key of `path`, whose operation is `op`. */
  function Record(path: string, k: nat, op: Json): Endpoint
    requires k < |HttpMethods|
  {
    Endpoint(path, HttpMethods[k], Field(op, "summary", JStr("")), Field(op, "responses", JObj([])))
  }

  /** Every operation stored under one of the first `j` recognised keys is an object. */
  predicate OperationsAreObjects(fields: seq<(string, Json)>, j: nat) {
    forall k :: 0 <= k < j && k < |MethodNames| && Lookup(fields, MethodNames[k]).Some? ==>
      Lookup(fields, MethodNames[k]).value.JObj?
  }

  /** The record `k` among the first `j` recognised keys contributes, if any. */
  ghost predicate Recorded(path: string, fields: seq<(string, Json)>, j: nat, e: Endpoint) {
    exists k :: 0 <= k < j && k < |MethodNames| && Lookup(fields, MethodNames[k]).Some? &&
                e == Record(path, k, Lookup(fields, MethodNames[k]).value)
  }

  /** Methods strictly increase in the order get, post, put, delete. */
  predicate RankOrdered(g: seq<Endpoint>) {
    forall n, m :: 0 <= n < m < |g| ==> Rank(g[n].httpMethod) < Rank(g[m].httpMethod)
  }

  /** Every record is for `path` and for one of the first `j` recognised keys. */
  predicate PathsAndRanks(path: string, j: nat, g: seq<Endpoint>) {
    forall n :: 0 <= n < |g| ==> g[n].path == path && g[n].httpMethod in HttpMethods && Rank(g[n].httpMethod) < j
  }

  /**
   * The endpoints of one path after the first `j` recognised keys: one record
   * per key present, all for `path`, in the fixed key order.
   */
  ghost predicate GroupShape(path: string, fields: seq<(string, Json)>, j: nat, g: seq<Endpoint>) {
    && |g| <= j
    && PathsAndRanks(path, j, g)
    && RankOrdered(g)
    && (forall e :: e in g <==> Recorded(path, fields, j, e))
  }

  /** One step of the inner loop over a path whose operations are a dict. */
  lemma EndpointForObject(path: string, fields: seq<(string, Json)>, k: nat)
    requires k < |MethodNames|
    ensures Lookup(fields, MethodNames[k]).None? ==> EndpointFor(path, JObj(fields), MethodNames[k]) == Ok([])
    ensures Lookup(fields, MethodNames[k]).Some? && Lookup(fields, MethodNames[k]).value.JObj? ==>
              EndpointFor(path, JObj(fields), MethodNames[k]) == Ok([Record(path, k, Lookup(fields, MethodNames[k]).value)])
    ensures Lookup(fields, MethodNames[k]).Some? && !Lookup(fields, MethodNames[k]).value.JObj? ==>
              EndpointFor(path, JObj(fields), MethodNames[k]) == Err(AttributeError)
  {
    var op := Lookup(fields, MethodNames[k]);
    if op.Some? && op.value.JObj? {
      UpperMethodNames(k);
      assert Get(op.value, "summary", JStr("")) == Ok(Field(op.value, "summary", JStr("")));
      assert Get(op.value, "responses", JObj([])) == Ok(Field(op.value, "responses", JObj([])));
    }
  }

  /** Appending the record of key `k` keeps paths verbatim and methods in key order. */
  lemma {:induction false} RanksStep(path: string, k: nat, g: seq<Endpoint>, step: seq<Endpoint>, op: Json)
    requires k < |MethodNames| && PathsAndRanks(path, k, g) && RankOrdered(g)
    requires step == [] || step == [Record(path, k, op)]
    ensures PathsAndRanks(path, k + 1, g + step) && RankOrdered(g + step)
  {
    UpperMethodNames(k);
    var h := g + step;
    forall n, m | 0 <= n < m < |h| ensures Rank(h[n].httpMethod) < Rank(h[m].httpMethod) {
      if m >= |g| {
        assert h[n] == g[n] && h[m] == Record(path, k, op);
      } else {
        assert h[n] == g[n] && h[m] == g[m];
      }
    }
  }

  /** Appending the record of key `k` adds exactly the record of key `k`. */
  lemma {:induction false} MembersStep(path: string, fields: seq<(string, Json)>, k: nat, g: seq<Endpoint>, step: seq<Endpoint>)
    requires k < |MethodNames|
    requires forall e :: e in g <==> Recorded(path, fields, k, e)
    requires Lookup(fields, MethodNames[k]).None? ==> step == []
    requires Lookup(fields, MethodNames[k]).Some? ==> step == [Record(path, k, Lookup(fields, MethodNames[k]).value)]
    ensures forall e :: e in g + step <==> Recorded(path, fields, k + 1, e)
  {
    forall e ensures e in g + step <==> Recorded(path, fields, k + 1, e) {
      if Recorded(path, fields, k + 1, e) {
        var i :| 0 <= i < k + 1 && i < |MethodNames| && Lookup(fields, MethodNames[i]).Some? &&
                 e == Record(path, i, Lookup(fields, MethodNames[i]).value);
        if i < k {
          assert Recorded(path, fields, k, e);
        }
      }
      if e in step {
        assert Recorded(path, fields, k + 1, e) by {
          assert 0 <= k < k + 1 && Lookup(fields, MethodNames[k]).Some? &&
                 e == Record(path, k, Lookup(fields, MethodNames[k]).value);
        }
      }
      if e in g {
        var i :| 0 <= i < k && i < |MethodNames| && Lookup(fields, MethodNames[i]).Some? &&
                 e == Record(path, i, Lookup(fields, MethodNames[i]).value);
        assert 0 <= i < k + 1;
      }
    }
  }

  /** The inner loop over the first `j` keys fails exactly on an operation that is not a dict. */
  lemma {:induction false} GroupPrefixSucceeds(path: string, fields: seq<(string, Json)>, j: nat)
    requires j <= |MethodNames|
    ensures PathEndpoints(path, JObj(fields), MethodNames[..j]).Ok? <==> OperationsAreObjects(fields, j)
    ensures PathEndpoints(path, JObj(fields), MethodNames[..j]).Err? ==>
              PathEndpoints(path, JObj(fields), MethodNames[..j]).error == AttributeError
  {
    if j == 0 {
      assert MethodNames[..0] == [];
    } else {
      var k := j - 1;
      GroupPrefixSucceeds(path, fields, k);
      PathEndpointsUnfold(path, JObj(fields), MethodNames, k);
      EndpointForObject(path, fields, k);
    }
  }

  /** The records of the first `j` keys, when the inner loop over them succeeds. */
  lemma {:induction false} GroupPrefixShape(path: string, fields: seq<(string, Json)>, j: nat)
    requires j <= |MethodNames|
    ensures PathEndpoints(path, JObj(fields), MethodNames[..j]).Ok? ==>
              GroupShape(path, fields, j, PathEndpoints(path, JObj(fields), MethodNames[..j]).value)
  {
    if j == 0 {
      assert MethodNames[..0] == [];
    } else {
      var k := j - 1;
      GroupPrefixShape(path, fields, k);
      PathEndpointsUnfold(path, JObj(fields), MethodNames, k);
      var r := PathEndpoints(path, JObj(fields), MethodNames[..k]);
      if r.Ok? {
        GroupShapeStep(path, fields, k, r.value);
      }
    }
  }

  /** The shape of a path's records survives one more key whose step succeeds. */
  lemma GroupShapeStep(path: string, fields: seq<(string, Json)>, k: nat, g: seq<Endpoint>)
    requires k < |MethodNames| && GroupShape(path, fields, k, g)
    ensures var step := EndpointFor(path, JObj(fields), MethodNames[k]);
            step.Ok? ==> GroupShape(path, fields, k + 1, g + step.value)
  {
    var step := EndpointFor(path, JObj(fields), MethodNames[k]);
    EndpointForObject(path, fields, k);
    if step.Ok? {
      var op := Lookup(fields, MethodNames[k]);
      RanksStep(path, k, g, step.value, if op.Some? then op.value else JNull);
      MembersStep(path, fields, k, g, step.value);
    }
  }

  /**
   * One path whose operations are a dict: the inner loop succeeds exactly
   * when every operation under `get`, `post`, `put` or `delete` is itself a
   * dict (otherwise `.get` raises AttributeError), and then yields one record
   * per recognised key present, carrying the path verbatim, in the order
   * get, post, put, delete.
   */
  lemma GroupOfObject(path: string, fields: seq<(string, Json)>)
    ensures PathEndpoints(path, JObj(fields), MethodNames).Ok? <==> OperationsAreObjects(fields, |MethodNames|)
    ensures PathEndpoints(path, JObj(fields), MethodNames).Err? ==>
              PathEndpoints(path, JObj(fields), MethodNames).error == AttributeError
    ensures PathEndpoints(path, JObj(fields), MethodNames).Ok? ==>
              GroupShape(path, fields, |MethodNames|, PathEndpoints(path, JObj(fields), MethodNames).value)
  {
    GroupPrefixSucceeds(path, fields, |MethodNames|);
    GroupPrefixShape(path, fields, |MethodNames|);
    assert MethodNames[..|MethodNames|] == MethodNames;
  }

  /**
   * The result for one path depends only on what its operations hold under
   * the keys visited: not on the order of its members, and not on any other
   * member (`patch`, `GET`, `parameters`, ...).
   */
  lemma {:induction false} GroupDependsOnlyOnVisitedKeys(path: string, f1: seq<(string, Json)>, f2: seq<(string, Json)>, names: seq<string>)
    requires forall k :: 0 <= k < |names| ==> Lookup(f1, names[k]) == Lookup(f2, names[k])
    ensures PathEndpoints(path, JObj(f1), names) == PathEndpoints(path, JObj(f2), names)
    decreases |names|
  {
    if names != [] {
      var init := names[..|names| - 1];
      assert forall k :: 0 <= k < |init| ==> init[k] == names[k];
      GroupDependsOnlyOnVisitedKeys(path, f1, f2, init);
      assert Lookup(f1, names[|names| - 1]) == Lookup(f2, names[|names| - 1]);
    }
  }

  /** Asking whether `name` is `in` the operations does not simply answer False. */
  predicate Hit(methods: Json, name: string) {
    In(name, methods) != Ok(false)
  }

  /**
   * A path whose operations are not a dict yields nothing, unless a visited
   * key is `in` it (an element of a list, a substring of a string) or `in`
   * cannot be asked at all (None, a boolean, a number): then it raises
   * TypeError.
   */
  lemma {:induction false} GroupOfNonObject(path: string, methods: Json, names: seq<string>)
    requires !methods.JObj?
    ensures PathEndpoints(path, methods, names) ==
      if exists k :: 0 <= k < |names| && Hit(methods, names[k]) then Err(TypeError) else Ok([])
    decreases |names|
  {
    if names != [] {
      var n := |names| - 1;
      var init := names[..n];
      GroupOfNonObject(path, methods, init);
      EndpointForNonObject(path, methods, names[n]);
      var hitInit := exists k :: 0 <= k < n && Hit(methods, init[k]);
      var hitAll := exists k :: 0 <= k < |names| && Hit(methods, names[k]);
      if k :| 0 <= k < n && Hit(methods, init[k]) {
        assert names[k] == init[k];
      }
      if k :| 0 <= k < |names| && Hit(methods, names[k]) {
        if k < n {
          assert init[k] == names[k];
        }
      }
      assert hitAll <==> hitInit || Hit(methods, names[n]);
    }
  }

  /** One step of the inner loop over operations that are not a dict. */
  lemma EndpointForNonObject(path: string, methods: Json, name: string)
    requires !methods.JObj?
    ensures EndpointFor(path, methods, name) == if Hit(methods, name) then Err(TypeError) else Ok([])
  {
  }

  /** Each path contributes at most one record per visited key. */
  lemma {:induction false} GroupAtMost(path: string, methods: Json, names: seq<string>)
    ensures PathEndpoints(path, methods, names).Ok? ==> |PathEndpoints(path, methods, names).value| <= |names|
    decreases |names|
  {
    if names != [] {
      GroupAtMost(path, methods, names[..|names| - 1]);
    }
  }

  /**
   * The outer loop over `a + b` is the loop over `a` followed by the loop
   * over `b`: endpoints are grouped by path, in the order of the `paths`
   * members, and the first exception wins.
   */
  lemma {:induction false} CollectAppend(a: seq<(string, Json)>, b: seq<(string, Json)>, names: seq<string>)
    ensures Collect(a + b, names) == Concat(Collect(a, names), Collect(b, names))
    decreases |b|
  {
    if b == [] {
      assert a + b == a;
      ConcatEmpty(Collect(a, names));
    } else {
      var init := b[..|b| - 1];
      CollectAppend(a, init, names);
      var ab := a + b;
      var last := PathEndpoints(b[|b| - 1].0, b[|b| - 1].1, names);
      assert ab[..|ab| - 1] == a + init;
      assert ab[|ab| - 1] == b[|b| - 1];
      assert Collect(ab, names) == Concat(Collect(a + init, names), last);
      assert Collect(b, names) == Concat(Collect(init, names), last);
      ConcatAssociative(Collect(a, names), Collect(init, names), last);
    }
  }

  lemma ConcatEmpty(x: Result<seq<Endpoint>, PyError>)
    ensures Concat(x, Ok([])) == x
  {
    if x.Ok? {
      assert x.value + [] == x.value;
    }
  }

  lemma ConcatAssociative(x: Result<seq<Endpoint>, PyError>, y: Result<seq<Endpoint>, PyError>, z: Result<seq<Endpoint>, PyError>)
    ensures Concat(Concat(x, y), z) == Concat(x, Concat(y, z))
  {
    if x.Ok? && y.Ok? && z.Ok? {
      assert x.value + y.value + z.value == x.value + (y.value + z.value);
    }
  }

  /** The endpoints one path contributes, when its inner loop succeeds. */
  ghost predicate FromPath(paths: seq<(string, Json)>, names: seq<string>, i: int, e: Endpoint) {
    && 0 <= i < |paths|
    && PathEndpoints(paths[i].0, paths[i].1, names).Ok?
    && e in PathEndpoints(paths[i].0, paths[i].1, names).value
  }

  /** A path before `n` contributes the same endpoints to the first `n` paths as to all of them. */
  lemma FromPathPrefix(paths: seq<(string, Json)>, names: seq<string>, n: int, i: int, e: Endpoint)
    requires 0 <= i < n <= |paths|
    ensures FromPath(paths[..n], names, i, e) <==> FromPath(paths, names, i, e)
  {
    assert paths[..n][i] == paths[i];
  }

  /** The loop over all paths succeeds exactly when every path's inner loop does. */
  lemma {:induction false} CollectSucceeds(paths: seq<(string, Json)>, names: seq<string>)
    ensures Collect(paths, names).Ok? <==> forall i :: 0 <= i < |paths| ==> PathEndpoints(paths[i].0, paths[i].1, names).Ok?
    decreases |paths|
  {
    if paths != [] {
      var n := |paths| - 1;
      var init := paths[..n];
      CollectSucceeds(init, names);
      CollectUnfold(paths, names, n);
      assert paths[..n + 1] == paths;
      assert forall i :: 0 <= i < n ==> init[i] == paths[i];
    }
  }

  /** Each path contributes at most one endpoint per visited key. */
  lemma {:induction false} CollectLength(paths: seq<(string, Json)>, names: seq<string>)
    ensures Collect(paths, names).Ok? ==> |Collect(paths, names).value| <= |names| * |paths|
    decreases |paths|
  {
    if paths != [] {
      var n := |paths| - 1;
      CollectLength(paths[..n], names);
      CollectUnfold(paths, names, n);
      assert paths[..n + 1] == paths;
      GroupAtMost(paths[n].0, paths[n].1, names);
      assert |names| * (n + 1) == |names| * n + |names|;
    }
  }

  /** The endpoints collected are exactly the endpoints of the individual paths. */
  lemma {:induction false} CollectMembers(paths: seq<(string, Json)>, names: seq<string>)
    ensures Collect(paths, names).Ok? ==>
              forall e :: e in Collect(paths, names).value <==> exists i :: FromPath(paths, names, i, e)
    decreases |paths|
  {
    if paths != [] {
      var n := |paths| - 1;
      var init := paths[..n];
      CollectMembers(init, names);
      CollectUnfold(paths, names, n);
      assert paths[..n + 1] == paths;
      var whole, before, last := Collect(paths, names), Collect(init, names), PathEndpoints(paths[n].0, paths[n].1, names);
      if whole.Ok? {
        assert whole.value == before.value + last.value;
        forall e ensures e in whole.value <==> exists i :: FromPath(paths, names, i, e) {
          if e in before.value {
            var i :| FromPath(init, names, i, e);
            FromPathPrefix(paths, names, n, i, e);
          }
          if e in last.value {
            assert FromPath(paths, names, n, e);
          }
          if i :| FromPath(paths, names, i, e) {
            if i < n {
              FromPathPrefix(paths, names, n, i, e);
            }
          }
        }
      }
    }
  }

  /** A document without `paths`, or with an empty `paths`, yields no endpoints. */
  lemma ParseWithoutPaths(doc: Json)
    requires doc.JObj?
    requires Lookup(doc.fields, "paths").None? || Lookup(doc.fields, "paths") == Some(JObj([]))
    ensures Parse(doc) == Ok([])
  {
  }

  /**
   * A document that is not a dict, or whose `paths` is not a dict, raises
   * AttributeError; otherwise the result is the loop over the `paths`
   * members.
   */
  lemma ParseOuterShape(doc: Json)
    ensures !doc.JObj? ==> Parse(doc) == Err(AttributeError)
    ensures doc.JObj? && Lookup(doc.fields, "paths").Some? && !Lookup(doc.fields, "paths").value.JObj? ==>
              Parse(doc) == Err(AttributeError)
    ensures doc.JObj? && Lookup(doc.fields, "paths").Some? && Lookup(doc.fields, "paths").value.JObj? ==>
              Parse(doc) == Collect(Lookup(doc.fields, "paths").value.fields, MethodNames)
  {
  }

  /** A document with a single path yields that path's records. */
  lemma SinglePath(path: string, methods: Json)
    ensures Parse(JObj([("paths", JObj([(path, methods)]))])) == PathEndpoints(path, methods, MethodNames)
  {
    var entries := [(path, methods)];
    var doc := JObj([("paths", JObj(entries))]);
    assert Lookup(doc.fields, "paths") == Some(JObj(entries));
    assert Parse(doc) == Collect(entries, MethodNames);
    CollectUnfold(entries, MethodNames, 0);
    assert entries[..0] == [] && entries[..1] == entries;
    var g := PathEndpoints(path, methods, MethodNames);
    assert g.Ok? ==> [] + g.value == g.value;
  }

  /** The inner loop over the four recognised keys, written out. */
  lemma FourKeys(path: string, methods: Json)
    ensures PathEndpoints(path, methods, MethodNames) ==
            Concat(Concat(Concat(EndpointFor(path, methods, "get"), EndpointFor(path, methods, "post")),
                          EndpointFor(path, methods, "put")), EndpointFor(path, methods, "delete"))
  {
    PathEndpointsUnfold(path, methods, MethodNames, 0);
    PathEndpointsUnfold(path, methods, MethodNames, 1);
    PathEndpointsUnfold(path, methods, MethodNames, 2);
    PathEndpointsUnfold(path, methods, MethodNames, 3);
    assert MethodNames[..0] == [];
    assert MethodNames[..4] == MethodNames;
    var first := EndpointFor(path, methods, "get");
    assert first.Ok? ==> [] + first.value == first.value;
  }

  /**
   * The records of a path follow the fixed key order, not the order of its
   * members, and members other than the four keys (`GET`, `patch`) are
   * ignored, even when they are not dicts.
   */
  lemma KeyOrderExample(path: string, d: seq<(string, Json)>, g: seq<(string, Json)>)
    ensures PathEndpoints(path, JObj([("delete", JObj(d)), ("get", JObj(g)), ("GET", JNull), ("patch", JNull)]), MethodNames)
            == Ok([Record(path, 0, JObj(g)), Record(path, 3, JObj(d))])
  {
    var ops := [("delete", JObj(d)), ("get", JObj(g)), ("GET", JNull), ("patch", JNull)];
    var get, delete := Record(path, 0, JObj(g)), Record(path, 3, JObj(d));
    FourKeys(path, JObj(ops));
    KeyOrderSteps(path, d, g);
    assert [get] + [] + [] + [delete] == [get, delete];
  }

  lemma KeyOrderSteps(path: string, d: seq<(string, Json)>, g: seq<(string, Json)>)
    ensures var methods := JObj([("delete", JObj(d)), ("get", JObj(g)), ("GET", JNull), ("patch", JNull)]);
            && EndpointFor(path, methods, "get") == Ok([Record(path, 0, JObj(g))])
            && EndpointFor(path, methods, "post") == Ok([])
            && EndpointFor(path, methods, "put") == Ok([])
            && EndpointFor(path, methods, "delete") == Ok([Record(path, 3, JObj(d))])
  {
    var ops := [("delete", JObj(d)), ("get", JObj(g)), ("GET", JNull), ("patch", JNull)];
    KeyOrderLookups(d, g);
    EndpointForObject(path, ops, 0);
    EndpointForObject(path, ops, 1);
    EndpointForObject(path, ops, 2);
    EndpointForObject(path, ops, 3);
  }

  lemma KeyOrderLookups(d: seq<(string, Json)>, g: seq<(string, Json)>)
    ensures var ops := [("delete", JObj(d)), ("get", JObj(g)), ("GET", JNull), ("patch", JNull)];
            && Lookup(ops, "get") == Some(JObj(g))
            && Lookup(ops, "post") == None
            && Lookup(ops, "put") == None
            && Lookup(ops, "delete") == Some(JObj(d))
  {
    var ops := [("delete", JObj(d)), ("get", JObj(g)), ("GET", JNull), ("patch", JNull)];
    assert ops[1..][0] == ops[1];
    LookupFinds(ops, "post");
    LookupFinds(ops, "put");
  }

  /** Summary and responses are copied, with `""` and `{}` standing in for absent members. */
  lemma RecordExample(path: string)
    ensures Record(path, 0, JObj([("summary", JStr("List users"))])) == Endpoint(path, "GET", JStr("List users"), JObj([]))
    ensures Record(path, 3, JObj([("responses", JNum(204))])) == Endpoint(path, "DELETE", JStr(""), JNum(204))
  {
  }

  /** An operation that is not a dict (here `"get": null`) makes `.get` raise AttributeError. */
  lemma NullOperationRaises(path: string)
    ensures Parse(JObj([("paths", JObj([(path, JObj([("get", JNull)]))]))])) == Err(AttributeError)
  {
    var methods := JObj([("get", JNull)]);
    SinglePath(path, methods);
    EndpointForObject(path, methods.fields, 0);
    PathEndpointsUnfold(path, methods, MethodNames, 0);
    assert MethodNames[..0] == [];
    PathEndpointsErrorPersists(path, methods, MethodNames, 1);
  }
}
