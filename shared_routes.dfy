/**
 * The shared route table of the tutorials API and `buildUrl`, which fills the
 * `:key` placeholders of a route path from a record of parameters.
 */
module SharedRoutes {
  import opened Wrappers
  import opened Text

  datatype HttpMethod = GET | POST

  datatype Route = Route(verb: HttpMethod, path: string)

  /** `api.tutorials.list`: GET /api/tutorials, answered with 200 and a list. */
  const ListRoute := Route(GET, "/api/tutorials")
  /** `api.tutorials.get`: GET /api/tutorials/:id, answered with 200 or 404. */
  const GetRoute := Route(GET, "/api/tutorials/:id")
  /** `api.tutorials.create`: POST /api/tutorials, answered with 201, 400 or 401. */
  const CreateRoute := Route(POST, "/api/tutorials")

  /** The optional filter record of the list route: free text, style and difficulty. */
  datatype Filters = Filters(search: Option<string>, style: Option<string>, difficulty: Option<string>)

  /** A parameter value, `string | number`; numbers are integers here. */
  datatype ParamValue = Str(text: string) | Num(n: int)

  /** `String(value)`; a number's text holds no `$`. */
  function ValueText(v: ParamValue): (t: string)
    ensures v.Num? ==> '$' !in t
  {
    match v
    case Str(t) => t
    case Num(n) => DecimalChars(n); Decimal(n)
  }

  /** The placeholder a key stands for in a path: `:` followed by the key. */
  function Placeholder(key: string): string {
    ":" + key
  }

  /** One step of the substitution: if the placeholder occurs in `url`, its first
      occurrence is replaced as `url.replace` does, with the `$` patterns of the
      value's text expanded; otherwise `url` stays. */
  function Substitute(url: string, key: string, v: ParamValue): string {
    if Contains(url, Placeholder(key)) then ReplaceFirst(url, Placeholder(key), ValueText(v)) else url
  }

  /** The url after the substitutions of `entries`, taken in order. */
  function ApplyParams(path: string, entries: seq<(string, ParamValue)>): string {
    if entries == [] then path
    else
      var last := entries[|entries| - 1];
      Substitute(ApplyParams(path, entries[..|entries| - 1]), last.0, last.1)
  }

  /** `buildUrl(path, params)`: `params` is the record's entries in the order
      `Object.entries` lists them, or `None` for an absent record. */
  method BuildUrl(path: string, params: Option<seq<(string, ParamValue)>>) returns (url: string)
    ensures params.None? ==> url == path
    ensures params.Some? ==> url == ApplyParams(path, params.value)
    ensures params.Some? && params.value == [] ==> url == path
  {
    url := path;
    if params.Some? {
      var entries := params.value;
      for i := 0 to |entries|
        invariant url == ApplyParams(path, entries[..i])
      {
        assert entries[..i + 1][..i] == entries[..i];
        var (key, value) := entries[i];
        if Contains(url, Placeholder(key)) {
          url := ReplaceFirst(url, Placeholder(key), ValueText(value));
        }
      }
      assert entries[..|entries|] == entries;
    }
  }

  /** A key whose placeholder is absent leaves the url as it is; a key whose
      placeholder occurs has exactly its first occurrence replaced by the
      substitution of `String(value)`, which is that text itself when it holds no `$`. */
  lemma SubstituteSpec(url: string, key: string, v: ParamValue)
    ensures !Contains(url, Placeholder(key)) ==> Substitute(url, key, v) == url
    ensures Contains(url, Placeholder(key)) ==>
      exists i :: OccursAt(url, Placeholder(key), i)
        && (forall j :: 0 <= j < i ==> !OccursAt(url, Placeholder(key), j))
        && Substitute(url, key, v)
           == url[..i] + Substitution(ValueText(v), url, i, Placeholder(key)) + url[i + |key| + 1..]
    ensures Contains(url, Placeholder(key)) && '$' !in ValueText(v) ==>
      exists i :: OccursAt(url, Placeholder(key), i)
        && (forall j :: 0 <= j < i ==> !OccursAt(url, Placeholder(key), j))
        && Substitute(url, key, v) == url[..i] + ValueText(v) + url[i + |key| + 1..]
  {
    var p := Placeholder(key);
    if Contains(url, p) {
      var i := IndexOf(url, p).value;
      assert |p| == |key| + 1;
      ReplaceFirstOfIndex(url, p, ValueText(v), i);
      var ins := Substitution(ValueText(v), url, i, p);
      assert Substitute(url, key, v) == url[..i] + ins + url[i + |p|..];
      assert '$' !in ValueText(v) ==> ins == ValueText(v);
      assert OccursAt(url, p, i) && forall j :: 0 <= j < i ==> !OccursAt(url, p, j);
    }
  }

  /** A placeholder with no `:` before it is the one that gets replaced; a value
      text without `$` is put in as it is. */
  lemma SubstituteAfter(before: string, key: string, after: string, v: ParamValue)
    requires ':' !in before
    ensures Substitute(before + Placeholder(key) + after, key, v)
      == before + Substitution(ValueText(v), before + Placeholder(key) + after, |before|, Placeholder(key)) + after
    ensures '$' !in ValueText(v) ==>
      Substitute(before + Placeholder(key) + after, key, v) == before + ValueText(v) + after
  {
    var url := before + Placeholder(key) + after;
    var i := |before|;
    assert url[..i] == before && url[i + |key| + 1..] == after;
    assert OccursAt(url, Placeholder(key), i);
    assert Contains(url, Placeholder(key));
    ReplaceFirstAt(url, Placeholder(key), ValueText(v), i);
  }

  /** Matching is by plain substring: the key `id` also matches inside `:idx`. */
  lemma PlaceholderMatchesInsideLongerName(before: string, n: int)
    requires ':' !in before
    ensures Substitute(before + ":idx", "id", Num(n)) == before + Decimal(n) + "x"
  {
    assert before + ":idx" == before + Placeholder("id") + "x";
    SubstituteAfter(before, "id", "x", Num(n));
  }

  /** Entries apply in order, and a later key can match text an earlier value
      put in: a value that is the placeholder of a later key is itself replaced. */
  lemma LaterKeyMatchesEarlierValue(before: string, after: string, a: string, b: string, v: ParamValue)
    requires ':' !in before && '$' !in b
    ensures ApplyParams(before + Placeholder(a) + after, [(a, Str(Placeholder(b))), (b, v)])
      == before + Substitution(ValueText(v), before + Placeholder(b) + after, |before|, Placeholder(b)) + after
    ensures '$' !in ValueText(v) ==>
      ApplyParams(before + Placeholder(a) + after, [(a, Str(Placeholder(b))), (b, v)])
        == before + ValueText(v) + after
  {
    var path := before + Placeholder(a) + after;
    var entries := [(a, Str(Placeholder(b))), (b, v)];
    assert entries[..1] == [(a, Str(Placeholder(b)))];
    assert entries[..1][..0] == [];
    SubstituteAfter(before, a, after, Str(Placeholder(b)));
    assert ApplyParams(path, entries[..1]) == before + Placeholder(b) + after;
    SubstituteAfter(before, b, after, v);
  }

  /** A string value's `$` patterns are expanded, as `url.replace` does: `$$`
      puts in a single `$`. */
  lemma DollarDollarIsDollar(before: string, key: string, after: string)
    requires ':' !in before
    ensures Substitute(before + Placeholder(key) + after, key, Str("$$")) == before + "$" + after
  {
    var url := before + Placeholder(key) + after;
    SubstituteAfter(before, key, after, Str("$$"));
    assert "$$" == ['$', '$'] + [];
    SubstitutionOfPattern('$', [], url, |before|, Placeholder(key));
  }

  /** `$&` puts the matched placeholder back, so the url is left as it was. */
  lemma DollarAmpersandKeepsPlaceholder(before: string, key: string, after: string)
    requires ':' !in before
    ensures Substitute(before + Placeholder(key) + after, key, Str("$&"))
      == before + Placeholder(key) + after
  {
    var url := before + Placeholder(key) + after;
    SubstituteAfter(before, key, after, Str("$&"));
    assert "$&" == ['$', '&'] + [];
    SubstitutionOfPattern('&', [], url, |before|, Placeholder(key));
  }

  /** `` $` `` and `$'` put in the text before and after the placeholder. */
  lemma DollarQuotesGiveSurroundings(before: string, key: string, after: string)
    requires ':' !in before
    ensures Substitute(before + Placeholder(key) + after, key, Str("$`$'"))
      == before + (before + after) + after
  {
    var url := before + Placeholder(key) + after;
    var n := |before|;
    assert url[..n] == before && url[n + |Placeholder(key)|..] == after;
    SubstituteAfter(before, key, after, Str("$`$'"));
    SubstitutionOfSurroundings(url, n, Placeholder(key));
  }

  /** `buildUrl('/api/tutorials/:id', { id: n })` is "/api/tutorials/" followed by
      the decimal digits of `n`. */
  lemma TutorialUrl(n: int)
    ensures ApplyParams(GetRoute.path, [("id", Num(n))]) == "/api/tutorials/" + Decimal(n)
  {
    var url := GetRoute.path;
    var entries := [("id", Num(n))];
    assert entries[..0] == [];
    assert url[15..18] == ":id" && url[..15] == "/api/tutorials/" && url[18..] == "";
    assert url == "/api/tutorials/" + Placeholder("id") + "";
    SubstituteAfter("/api/tutorials/", "id", "", Num(n));
    assert ApplyParams(url, entries) == Substitute(ApplyParams(url, entries[..0]), "id", Num(n));
  }
}
