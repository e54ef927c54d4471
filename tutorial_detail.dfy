/**
 * The tutorial detail page: the id read from the route, the lookup of that id
 * in the fetched list, the checked-tools map, and the cleaned article text.
 */
module TutorialDetail {
  import opened Wrappers
  import opened Text
  import opened Seqs
  import opened Markup
  import opened TutorialsPage

  /** `parseInt(id || "0")` for the route parameter. */
  function RouteId(param: Option<string>): JsNumber {
    ParseInt(if Truthy(param) then param.value else "0")
  }

  /** The link of a card, `/tutorial/<id>`, leads back to that id. */
  lemma RouteIdOfLink(n: int)
    ensures RouteId(Some(Decimal(n))) == Finite(n)
  {
    ParseIntDecimal(n, []);
    assert Decimal(n) + [] == Decimal(n);
    DecimalSign(n);
  }

  /** A missing parameter reads as 0. */
  lemma RouteIdMissing()
    ensures RouteId(None) == Finite(0)
  {
    ParseIntDecimal(0, []);
    assert Decimal(0) + [] == "0";
  }

  function IdIs(id: int): Tutorial -> bool {
    (t: Tutorial) => t.id == id
  }

  /** `data.find(t => t.id === tutorialId)`; NaN equals no id. */
  function Lookup(data: seq<Tutorial>, id: JsNumber): Option<Tutorial> {
    if id.NaN? then None else Find(data, IdIs(id.n))
  }

  /** The lookup gives the first tutorial with the id, and nothing exactly when
      no tutorial has it. */
  lemma LookupSpec(data: seq<Tutorial>, id: JsNumber)
    ensures Lookup(data, id).None? <==> id.NaN? || forall k :: 0 <= k < |data| ==> data[k].id != id.n
    ensures Lookup(data, id).Some? ==>
      exists k :: (0 <= k < |data| && data[k] == Lookup(data, id).value
        && data[k].id == id.n && forall j :: 0 <= j < k ==> data[j].id != id.n)
  {
    if id.Finite? {
      var r := FindIndex(data, IdIs(id.n));
      if r.Some? {
        assert data[r.value] == Lookup(data, id).value;
      }
    }
  }

  /** The truthiness of `prev[tool]`: an own entry reads as its value; an
      absent one reads as unchecked, unless the name is inherited from
      `Object.prototype`, whose member is truthy. */
  predicate Checked(tools: map<string, bool>, tool: string) {
    if tool in tools then tools[tool] else tool in ObjectPrototypeNames
  }

  /** The map after `toggleTool(tool)`. */
  function ToggledTools(tools: map<string, bool>, tool: string): map<string, bool> {
    tools[tool := !Checked(tools, tool)]
  }

  /** A toggle flips the tool's check and leaves every other entry as it was. */
  lemma ToggleToolEffect(tools: map<string, bool>, tool: string)
    ensures Checked(ToggledTools(tools, tool), tool) == !Checked(tools, tool)
    ensures tool in ToggledTools(tools, tool)
    ensures tool !in tools ==> ToggledTools(tools, tool)[tool] == (tool !in ObjectPrototypeNames)
    ensures forall k :: k != tool ==> (k in ToggledTools(tools, tool) <==> k in tools)
    ensures forall k :: k != tool && k in tools ==> ToggledTools(tools, tool)[k] == tools[k]
  {
  }

  /** Toggling twice restores every tool's check. */
  lemma ToggleToolTwice(tools: map<string, bool>, tool: string)
    ensures forall k :: Checked(ToggledTools(ToggledTools(tools, tool), tool), k) == Checked(tools, k)
  {
    ToggleToolEffect(tools, tool);
    ToggleToolEffect(ToggledTools(tools, tool), tool);
  }

  /** What `cleanContent` holds: the text without tags, with each "&nbsp;" a space. */
  function CleanContent(content: string): string {
    ReplaceAll(StripTags(content), "&nbsp;", " ")
  }

  lemma NbspApart()
    ensures forall k :: 0 <= k < |"&nbsp;"| ==> "&nbsp;"[k] !in " "
    ensures '<' !in " " && '>' !in " "
  {
  }

  /** The cleaned text has no tag left. */
  lemma CleanContentTagFree(content: string)
    ensures TagFree(CleanContent(content))
  {
    StripTagsTagFree(content);
    NbspApart();
    ReplaceAllKeepsTagFree(StripTags(content), "&nbsp;", " ");
  }

  /** The cleaned text has no "&nbsp;" left. */
  lemma CleanContentNoNbsp(content: string)
    ensures !Contains(CleanContent(content), "&nbsp;")
  {
    NbspApart();
    ReplaceAllRemoves(StripTags(content), "&nbsp;", " ");
  }

  /** Text with no tag and no "&nbsp;" is already clean. */
  lemma CleanContentOfClean(content: string)
    requires TagFree(content) && !Contains(content, "&nbsp;")
    ensures CleanContent(content) == content
  {
    StripTagsOfTagFree(content);
    ReplaceAllAbsent(content, "&nbsp;", " ");
  }

  /** Cleaning twice cleans nothing more. */
  lemma CleanContentIdempotent(content: string)
    ensures CleanContent(CleanContent(content)) == CleanContent(content)
  {
    CleanContentTagFree(content);
    CleanContentNoNbsp(content);
    CleanContentOfClean(CleanContent(content));
  }

  /** What the page shows. */
  datatype View = Skeleton | NotFound | Article(tutorial: Tutorial, content: string)

  /** The page state. */
  class DetailPage {
    var tutorial: Option<Tutorial>
    var isLoading: bool
    var error: bool
    var checkedTools: map<string, bool>

    /** The initial state: no tutorial, loading, no error, nothing checked. */
    constructor ()
      ensures tutorial == None && isLoading && !error && checkedTools == map[]
    {
      tutorial := None;
      isLoading := true;
      error := false;
      checkedTools := map[];
    }

    /** The list arrived: the tutorial with the id is shown, or the error state
        is set when there is none; loading ends either way. */
    method FetchSucceeded(data: seq<Tutorial>, tutorialId: JsNumber)
      modifies this
      ensures Lookup(data, tutorialId).Some? ==> tutorial == Lookup(data, tutorialId) && error == old(error)
      ensures Lookup(data, tutorialId).None? ==> tutorial == old(tutorial) && error
      ensures !isLoading && checkedTools == old(checkedTools)
    {
      var found := Lookup(data, tutorialId);
      if found.Some? {
        tutorial := found;
      } else {
        error := true;
      }
      isLoading := false;
    }

    /** The fetch failed: the error state is set and loading ends. */
    method FetchFailed()
      modifies this
      ensures error && !isLoading && tutorial == old(tutorial) && checkedTools == old(checkedTools)
    {
      error := true;
      isLoading := false;
    }

    /** `toggleTool(tool)`. */
    method ToggleTool(tool: string)
      modifies this
      ensures checkedTools == ToggledTools(old(checkedTools), tool)
      ensures tutorial == old(tutorial) && isLoading == old(isLoading) && error == old(error)
    {
      checkedTools := checkedTools[tool := !Checked(checkedTools, tool)];
    }

    /** The skeleton while loading, the not-found message on error or without a
        tutorial, else the article with its cleaned text. */
    function Shown(): (v: View)
      reads this
      ensures v == Skeleton <==> isLoading
      ensures v == NotFound <==> !isLoading && (error || tutorial.None?)
      ensures v.Article? ==> tutorial == Some(v.tutorial) && v.content == CleanContent(v.tutorial.tutorialContent)
    {
      if isLoading then Skeleton
      else if error || tutorial.None? then NotFound
      else Article(tutorial.value, CleanContent(tutorial.value.tutorialContent))
    }
  }
}
