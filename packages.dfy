/**
 * The `GET /packages` handler around the report query: each query row
 * becomes a JSON object keyed by the query titles, the list is the
 * response body, and the `Access-Control-Allow-Origin` header is set when
 * the request's `Origin` is one of the allowed origins.
 */
module PackagesEndpoint {
  import opened Wrappers
  import opened UsageReport

  /** The keys of a report object, in the order of the query's columns. */
  const INSTALLATION_QUERY_TITLES: seq<string> := ["id", "package", "version", "unique", "count"]

  /** The origins the report may be shared with. */
  const ALLOWED_ORIGINS: set<string> := {"http://bboe.github.io", "http://localhost:8080"}

  /** The response header that grants an origin access. */
  const ALLOW_ORIGIN: string := "Access-Control-Allow-Origin"

  /** A JSON value in a report object. */
  datatype Value = Int(i: int) | Str(s: string)

  /** A JSON object. */
  type Object = map<string, Value>

  /** A query row as the tuple the database returns, in column order. */
  function Columns(r: Row): (vs: seq<Value>)
    ensures |vs| == |INSTALLATION_QUERY_TITLES|
  {
    [Int(r.id), Str(r.name), Str(r.version), Int(r.unique), Int(r.count)]
  }

  /** Python's `zip`: the pairs of equal index, as many as the shorter side has. */
  function Zip<A, B>(xs: seq<A>, ys: seq<B>): (ps: seq<(A, B)>)
    ensures |ps| == if |xs| <= |ys| then |xs| else |ys|
    ensures forall i :: 0 <= i < |ps| ==> ps[i] == (xs[i], ys[i])
  {
    if xs == [] || ys == [] then [] else [(xs[0], ys[0])] + Zip(xs[1..], ys[1..])
  }

  /** Python's `dict(pairs)`: a later pair overrides an earlier one with the same key. */
  function Dict(ps: seq<(string, Value)>): (d: Object)
    ensures forall k :: k in d <==> exists i :: 0 <= i < |ps| && ps[i].0 == k
  {
    if ps == [] then map[]
    else
      var init := Dict(ps[..|ps| - 1]);
      assert forall i :: 0 <= i < |ps| - 1 ==> ps[..|ps| - 1][i] == ps[i];
      init[ps[|ps| - 1].0 := ps[|ps| - 1].1]
  }

  /** With no key repeated, `dict(pairs)` maps each key to its own value. */
  lemma {:induction false} DictOfDistinctKeys(ps: seq<(string, Value)>, i: int)
    requires forall a, b :: 0 <= a < b < |ps| ==> ps[a].0 != ps[b].0
    requires 0 <= i < |ps|
    ensures ps[i].0 in Dict(ps) && Dict(ps)[ps[i].0] == ps[i].1
  {
    var init := ps[..|ps| - 1];
    if i < |ps| - 1 {
      assert init[i] == ps[i];
      DictOfDistinctKeys(init, i);
    }
  }

  /** `dict(zip(INSTALLATION_QUERY_TITLES, row))`. */
  function ToObject(r: Row): Object {
    Dict(Zip(INSTALLATION_QUERY_TITLES, Columns(r)))
  }

  /** A report object has exactly the five keys, each holding its column. */
  lemma ObjectHasTheFiveKeys(r: Row)
    ensures ToObject(r).Keys == {"id", "package", "version", "unique", "count"}
    ensures ToObject(r)["id"] == Int(r.id) && ToObject(r)["package"] == Str(r.name)
    ensures ToObject(r)["version"] == Str(r.version)
    ensures ToObject(r)["unique"] == Int(r.unique) && ToObject(r)["count"] == Int(r.count)
  {
    ObjectKeySet(r);
    ObjectFields(r);
  }

  /** The keys of a report object are the five titles. */
  lemma ObjectKeySet(r: Row)
    ensures ToObject(r).Keys == {"id", "package", "version", "unique", "count"}
  {
    ObjectFields(r);
    ObjectKeys(r);
  }

  /** Each of the five keys of a report object holds its column. */
  lemma ObjectFields(r: Row)
    ensures "id" in ToObject(r) && ToObject(r)["id"] == Int(r.id)
    ensures "package" in ToObject(r) && ToObject(r)["package"] == Str(r.name)
    ensures "version" in ToObject(r) && ToObject(r)["version"] == Str(r.version)
    ensures "unique" in ToObject(r) && ToObject(r)["unique"] == Int(r.unique)
    ensures "count" in ToObject(r) && ToObject(r)["count"] == Int(r.count)
  {
    ObjectValues(r);
    var titles := INSTALLATION_QUERY_TITLES;
    assert titles[0] == "id" && titles[1] == "package" && titles[2] == "version";
    assert titles[3] == "unique" && titles[4] == "count";
  }

  /** Each title of a report object holds its column. */
  lemma ObjectValues(r: Row)
    ensures forall i :: 0 <= i < 5 ==>
      INSTALLATION_QUERY_TITLES[i] in ToObject(r) &&
      ToObject(r)[INSTALLATION_QUERY_TITLES[i]] == Columns(r)[i]
  {
    var ps := ObjectPairs(r);
    forall i | 0 <= i < 5
      ensures INSTALLATION_QUERY_TITLES[i] in ToObject(r)
      ensures ToObject(r)[INSTALLATION_QUERY_TITLES[i]] == Columns(r)[i]
    {
      DictOfDistinctKeys(ps, i);
    }
  }

  /** A report object has no key but the titles. */
  lemma ObjectKeys(r: Row)
    ensures forall k :: k in ToObject(r) ==> k in {"id", "package", "version", "unique", "count"}
  {
    var ps := ObjectPairs(r);
    forall k | k in ToObject(r) ensures k in {"id", "package", "version", "unique", "count"} {
      var i :| 0 <= i < |ps| && ps[i].0 == k;
    }
  }

  /** The pairs `zip` makes of the titles and a row. */
  lemma ObjectPairs(r: Row) returns (ps: seq<(string, Value)>)
    ensures ps == Zip(INSTALLATION_QUERY_TITLES, Columns(r))
    ensures ps == [("id", Int(r.id)), ("package", Str(r.name)), ("version", Str(r.version)),
                   ("unique", Int(r.unique)), ("count", Int(r.count))]
  {
    ps := Zip(INSTALLATION_QUERY_TITLES, Columns(r));
  }

  /** The loop that turns the query's rows into the list of report objects. */
  method BuildResults(rows: seq<Row>) returns (results: seq<Object>)
    ensures |results| == |rows|
    ensures forall i :: 0 <= i < |rows| ==> results[i] == ToObject(rows[i])
    ensures forall i :: 0 <= i < |rows| ==>
      results[i].Keys == {"id", "package", "version", "unique", "count"} &&
      results[i]["id"] == Int(rows[i].id) && results[i]["unique"] == Int(rows[i].unique) &&
      results[i]["count"] == Int(rows[i].count)
  {
    results := [];
    for k := 0 to |rows|
      invariant |results| == k
      invariant forall i :: 0 <= i < k ==> results[i] == ToObject(rows[i])
    {
      results := results + [ToObject(rows[k])];
    }
    forall i | 0 <= i < |rows|
      ensures results[i].Keys == {"id", "package", "version", "unique", "count"}
      ensures results[i]["id"] == Int(rows[i].id) && results[i]["unique"] == Int(rows[i].unique)
      ensures results[i]["count"] == Int(rows[i].count)
    {
      ObjectHasTheFiveKeys(rows[i]);
    }
  }

  /** An allowed origin with anything appended is no longer allowed. */
  lemma ExtendedOriginRefused(origin: string, extra: string)
    requires origin in ALLOWED_ORIGINS && extra != []
    ensures origin + extra !in ALLOWED_ORIGINS
  {
    assert forall o :: o in ALLOWED_ORIGINS ==> |o| == 21;
  }

  /** The HTTP response `jsonify` builds: a JSON body and the headers. */
  class Response {
    var body: seq<Object>
    var headers: map<string, string>

    /** `jsonify(results)`: the list as body, served as JSON. */
    constructor (results: seq<Object>)
      ensures body == results
      ensures headers == map["Content-Type" := "application/json"]
    {
      body := results;
      headers := map["Content-Type" := "application/json"];
    }

    /** Grants `origin` access exactly when it is one of the allowed origins. */
    method AllowOrigin(origin: string)
      modifies this
      ensures body == old(body)
      ensures origin in ALLOWED_ORIGINS ==> headers == old(headers)[ALLOW_ORIGIN := origin]
      ensures origin !in ALLOWED_ORIGINS ==> headers == old(headers)
    {
      if origin in ALLOWED_ORIGINS {
        headers := headers[ALLOW_ORIGIN := origin];
      }
    }
  }

  /**
   * The handler: the report as a list of objects, with
   * `Access-Control-Allow-Origin` present exactly when the request's
   * `Origin` (or "" when absent) is an allowed origin, and then equal to it.
   */
  method Packages(installations: seq<Installation>, packages: seq<Package>, now: int,
                  origin: Option<string>) returns (response: Response)
    requires UniqueIds(packages)
    ensures fresh(response)
    ensures var report := Report(installations, packages, now);
      |response.body| == |report| &&
      forall i :: 0 <= i < |report| ==> response.body[i] == ToObject(report[i])
    ensures ALLOW_ORIGIN in response.headers <==> origin.GetOr("") in ALLOWED_ORIGINS
    ensures ALLOW_ORIGIN in response.headers ==> origin.Some? && response.headers[ALLOW_ORIGIN] == origin.value
  {
    var results := BuildResults(Report(installations, packages, now));
    response := new Response(results);
    response.AllowOrigin(origin.GetOr(""));
  }
}
