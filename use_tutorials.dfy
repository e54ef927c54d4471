/**
 * The client hooks of the tutorials API: the list query string, the status
 * handling of the list, get and create requests, and when the get query runs.
 */
module UseTutorials {
  import opened Wrappers
  import opened Text
  import opened Seqs
  import opened Schema
  import opened SharedRoutes
  import Storage
  import ServerRoutes

  /** The query parameters of the list request, `key=value` pairs in the order appended. */
  function ParamsOf(filters: Option<Filters>): seq<(string, string)> {
    if filters.None? then []
    else
      var f := filters.value;
      (if Truthy(f.search) then [("search", f.search.value)] else [])
      + (if Truthy(f.style) then [("style", f.style.value)] else [])
      + (if Truthy(f.difficulty) then [("difficulty", f.difficulty.value)] else [])
  }

  /** The parameters as `useTutorials` appends them, one truthy filter at a time. */
  method QueryParams(filters: Option<Filters>) returns (params: seq<(string, string)>)
    ensures params == ParamsOf(filters)
  {
    params := [];
    if filters.Some? && Truthy(filters.value.search) {
      params := params + [("search", filters.value.search.value)];
    }
    if filters.Some? && Truthy(filters.value.style) {
      params := params + [("style", filters.value.style.value)];
    }
    if filters.Some? && Truthy(filters.value.difficulty) {
      params := params + [("difficulty", filters.value.difficulty.value)];
    }
  }

  function Key(p: (string, string)): string {
    p.0
  }

  /** A pair for each truthy filter carrying its value, and the keys in the
      order search, style, difficulty. */
  lemma ParamsOfSpec(filters: Option<Filters>)
    ensures var r := ParamsOf(filters);
      && (forall v :: ("search", v) in r <==> filters.Some? && Truthy(filters.value.search) && v == filters.value.search.value)
      && (forall v :: ("style", v) in r <==> filters.Some? && Truthy(filters.value.style) && v == filters.value.style.value)
      && (forall v :: ("difficulty", v) in r <==>
            filters.Some? && Truthy(filters.value.difficulty) && v == filters.value.difficulty.value)
      && IsSubsequence(MapSeq(r, Key), ["search", "style", "difficulty"])
  {
    var r := ParamsOf(filters);
    var all := ["search", "style", "difficulty"];
    if filters.None? {
      assert MapSeq(r, Key) == [];
    } else {
      var f := filters.value;
      var a := if Truthy(f.search) then ["search"] else [];
      var b := if Truthy(f.style) then ["style"] else [];
      var c := if Truthy(f.difficulty) then ["difficulty"] else [];
      assert MapSeq(r, Key) == a + b + c;
      KeysSubsequence(Truthy(f.search), Truthy(f.style), Truthy(f.difficulty));
    }
  }

  lemma KeysSubsequence(s: bool, t: bool, d: bool)
    ensures IsSubsequence(
      (if s then ["search"] else []) + (if t then ["style"] else []) + (if d then ["difficulty"] else []),
      ["search", "style", "difficulty"])
  {
    var all := ["search", "style", "difficulty"];
    var tail1 := ["style", "difficulty"];
    var tail2 := ["difficulty"];
    assert all[1..] == tail1 && tail1[1..] == tail2 && tail2[1..] == [];
    var x: seq<string> := if d then ["difficulty"] else [];
    assert IsSubsequence(x, tail2) by {
      if d { assert x[1..] == []; }
    }
    var y := (if t then ["style"] else []) + x;
    assert IsSubsequence(y, tail1) by {
      if t { assert y[0] == "style" && y[1..] == x; }
    }
    var z := (if s then ["search"] else []) + y;
    assert IsSubsequence(z, all) by {
      if s { assert z[0] == "search" && z[1..] == y; }
    }
  }

  /** `URLSearchParams.toString()`, without percent-encoding. */
  function QueryText(params: seq<(string, string)>): string {
    Join(seq(|params|, i requires 0 <= i < |params| => PairText(params[i])), '&')
  }

  /** One parameter as `key=value`. */
  function PairText(p: (string, string)): string {
    p.0 + "=" + p.1
  }

  /** Splitting the query text at `&` gives back one `key=value` piece per
      parameter, in order, when no key or value holds `&`. */
  lemma QueryTextSplits(params: seq<(string, string)>)
    requires |params| >= 1
    requires forall k :: 0 <= k < |params| ==> '&' !in params[k].0 && '&' !in params[k].1
    ensures var parts := Split(QueryText(params), '&');
      |parts| == |params| && forall k :: 0 <= k < |params| ==> parts[k] == PairText(params[k])
  {
    var pieces := seq(|params|, i requires 0 <= i < |params| => PairText(params[i]));
    forall k | 0 <= k < |pieces|
      ensures '&' !in pieces[k]
    {
      assert pieces[k] == params[k].0 + "=" + params[k].1;
    }
    SplitJoin(pieces, '&');
  }

  /** For the list request: the pieces of the query text are the `key=value` pairs
      of the truthy filters, when no filter value holds `&`. */
  lemma ListQuerySplits(filters: Option<Filters>)
    requires ParamsOf(filters) != []
    requires forall k :: 0 <= k < |ParamsOf(filters)| ==> '&' !in ParamsOf(filters)[k].1
    ensures var parts := Split(QueryText(ParamsOf(filters)), '&');
      |parts| == |ParamsOf(filters)|
      && forall k :: 0 <= k < |parts| ==> parts[k] == PairText(ParamsOf(filters)[k])
  {
    var r := ParamsOf(filters);
    forall k | 0 <= k < |r|
      ensures '&' !in r[k].0
    {
      assert r[k].0 in ["search", "style", "difficulty"];
    }
    QueryTextSplits(r);
  }

  /** The list request path: always the list path, "?" and the query text. */
  function ListPath(filters: Option<Filters>): string {
    ListRoute.path + "?" + QueryText(ParamsOf(filters))
  }

  /** Without a truthy filter the request path is "/api/tutorials?". */
  lemma ListPathUnfiltered(filters: Option<Filters>)
    requires filters.None? || (!Truthy(filters.value.search) && !Truthy(filters.value.style) && !Truthy(filters.value.difficulty))
    ensures ListPath(filters) == "/api/tutorials?"
  {
    assert ParamsOf(filters) == [];
    assert QueryText([]) == "";
  }

  /** `res.ok`: a 2xx status. */
  predicate IsOk(status: int) {
    200 <= status < 300
  }

  /** The list query: the rows on success, "Failed to fetch tutorials" otherwise. */
  function ListResult(status: int, rows: seq<Tutorial>): (r: Result<seq<Tutorial>, string>)
    ensures r.Ok? <==> IsOk(status)
    ensures r.Ok? ==> r.value == rows
    ensures r.Err? ==> r.error == "Failed to fetch tutorials"
  {
    if !IsOk(status) then Err("Failed to fetch tutorials") else Ok(rows)
  }

  /** `enabled: !!id && !isNaN(id)`. */
  predicate Enabled(id: JsNumber) {
    id.Finite? && id.n != 0
  }

  /** The query is enabled for the id `parseInt` reads from an integer's
      decimal text exactly when that integer is not 0. */
  lemma EnabledOfDecimal(n: int)
    ensures Enabled(ParseInt(Decimal(n))) <==> n != 0
  {
    ParseIntDecimal(n, []);
    assert Decimal(n) + [] == Decimal(n);
  }

  /** Text that starts with neither white space, a sign nor a digit reads as
      NaN, so the query stays disabled. */
  lemma DisabledWithoutDigits(s: string)
    requires s == [] || (!IsSpace(s[0]) && !IsDigit(s[0]) && s[0] != '-' && s[0] != '+')
    ensures !Enabled(ParseInt(s))
  {
    assert TrimStart(s) == s;
    assert LeadingDigits(s) == [];
  }

  /** The get query: `null` for 404, "Failed to fetch tutorial" for any other
      failure, the row otherwise. */
  function TutorialResult(status: int, row: Tutorial): (r: Result<Option<Tutorial>, string>)
    ensures status == 404 <==> r == Ok(None)
    ensures r.Err? <==> status != 404 && !IsOk(status)
    ensures r.Err? ==> r.error == "Failed to fetch tutorial"
    ensures r.Ok? && r.value.Some? ==> r.value.value == row
  {
    if status == 404 then Ok(None)
    else if !IsOk(status) then Err("Failed to fetch tutorial")
    else Ok(Some(row))
  }

  /** What `useTutorial(id)` does: nothing while disabled, so its data stays
      undefined; otherwise the request to the get path with the id, and its result. */
  datatype TutorialQuery = Idle | Fetched(url: string, result: Result<Option<Tutorial>, string>)

  function TutorialQueryOf(id: JsNumber, status: int, row: Tutorial): (q: TutorialQuery)
    ensures q.Idle? <==> id.NaN? || id.n == 0
    ensures q.Fetched? ==> q.url == "/api/tutorials/" + Decimal(id.n)
    ensures q.Fetched? ==> q.result == TutorialResult(status, row)
  {
    if !Enabled(id) then Idle
    else
      TutorialUrl(id.n);
      Fetched(ApplyParams(GetRoute.path, [("id", Num(id.n))]), TutorialResult(status, row))
  }

  /** The get query against the server's get route: `null` exactly when no row
      has the id, otherwise a stored row with that id. */
  lemma TutorialQueryAgainstServer(store: Storage.Store, id: int)
    ensures var resp := ServerRoutes.GetHandler(store, id);
      var r := TutorialResult(resp.status, if resp.body.TutorialBody? then resp.body.tutorial else Dummy);
      && r.Ok?
      && (r.value.None? <==> forall k :: 0 <= k < |store.tutorials| ==> store.tutorials[k].id != id)
      && (r.value.Some? ==> r.value.value in store.tutorials && r.value.value.id == id)
  {
  }

  /** A placeholder row for responses that carry none. */
  const Dummy := Tutorial(0, "", "", "", "", [], "", None, None)

  /** What the create mutation sent and what it produced. */
  datatype Mutation = Mutation(sent: bool, result: Result<Tutorial, string>)

  /** The create mutation: local validation first (its failure message is the
      error, and nothing is sent); then the status of the reply decides: a 2xx
      gives the row; 400 the body's message or "Validation failed"; 401 a
      log-in message; anything else "Failed to create tutorial". */
  function CreateMutation(validated: Result<NewTutorial, string>, status: int, message: string, row: Tutorial)
    : (m: Mutation)
    ensures m.sent <==> validated.Ok?
    ensures !m.sent ==> m.result == Err(validated.error)
    ensures m.sent && IsOk(status) ==> m.result == Ok(row)
    ensures m.sent && status == 400 ==> m.result == Err(if message != "" then message else "Validation failed")
    ensures m.sent && status == 401 ==> m.result == Err("Unauthorized - Please log in")
    ensures m.sent && !IsOk(status) && status != 400 && status != 401 ==> m.result == Err("Failed to create tutorial")
  {
    if validated.Err? then Mutation(false, Err(validated.error))
    else if IsOk(status) then Mutation(true, Ok(row))
    else if status == 400 then Mutation(true, Err(if message != "" then message else "Validation failed"))
    else if status == 401 then Mutation(true, Err("Unauthorized - Please log in"))
    else Mutation(true, Err("Failed to create tutorial"))
  }

  /** A server-side validation failure reaches the user as the first issue's
      message, or "Validation failed" when that message is empty. */
  lemma CreateSurfacesServerMessage(input: NewTutorial, issues: seq<ServerRoutes.Issue>, row: Tutorial)
    requires |issues| > 0
    ensures var body := ServerRoutes.ValidationBody(issues);
      CreateMutation(Ok(input), 400, body.message, row).result
        == Err(if issues[0].message != "" then issues[0].message else "Validation failed")
  {
  }
}
