/**
 * The collection page: the tutorials the page fetched, the category filter,
 * the category buttons, the card excerpt and the header count.
 */
module TutorialsPage {
  import opened Wrappers
  import opened Text
  import opened Seqs
  import opened Markup

  /** A tutorial as the page receives it. `imageSource` is `false` (here `None`)
      when the post has no image. */
  datatype Tutorial = Tutorial(
    id: int,
    title: string,
    imageSource: Option<string>,
    styleCategory: string,
    difficultyLevel: string,
    toolsRequired: seq<string>,
    tutorialContent: string,
    creatorCredit: string,
    createdAt: string)

  /** The page state. */
  class CollectionPage {
    var tutorials: seq<Tutorial>
    var isLoading: bool
    var selectedFilter: string

    /** The initial state: nothing fetched, loading, the "all" filter. */
    constructor ()
      ensures tutorials == [] && isLoading && selectedFilter == "all"
    {
      tutorials := [];
      isLoading := true;
      selectedFilter := "all";
    }

    /** The fetch delivered a list: it becomes the tutorials and loading ends. */
    method FetchSucceeded(data: seq<Tutorial>)
      modifies this
      ensures tutorials == data && !isLoading && selectedFilter == old(selectedFilter)
    {
      tutorials := data;
      isLoading := false;
    }

    /** The fetch failed: loading ends and the list stays as it was. */
    method FetchFailed()
      modifies this
      ensures tutorials == old(tutorials) && !isLoading && selectedFilter == old(selectedFilter)
    {
      isLoading := false;
    }

    /** A category button was pressed. */
    method Select(category: string)
      modifies this
      ensures selectedFilter == category && tutorials == old(tutorials) && isLoading == old(isLoading)
    {
      selectedFilter := category;
    }
  }

  function StyleIs(category: string): Tutorial -> bool {
    (t: Tutorial) => t.styleCategory == category
  }

  /** `filteredTutorials`: all of them for "all", else the exact category matches. */
  function FilteredTutorials(tutorials: seq<Tutorial>, selected: string): seq<Tutorial> {
    if selected == "all" then tutorials else Filter(tutorials, StyleIs(selected))
  }

  /** Any filter but "all" keeps exactly the tutorials of that category, in order. */
  lemma FilteredTutorialsSpec(tutorials: seq<Tutorial>, selected: string)
    requires selected != "all"
    ensures forall t :: t in FilteredTutorials(tutorials, selected) <==> t in tutorials && t.styleCategory == selected
    ensures IsSubsequence(FilteredTutorials(tutorials, selected), tutorials)
  {
    FilterMembers(tutorials, StyleIs(selected));
    FilterIsSubsequence(tutorials, StyleIs(selected));
  }

  function StyleOf(t: Tutorial): string {
    t.styleCategory
  }

  /** `categories`: "all", then each category once, in order of first appearance. */
  function Categories(tutorials: seq<Tutorial>): seq<string> {
    ["all"] + Distinct(MapSeq(tutorials, StyleOf))
  }

  /** After "all" come exactly the categories in use, each once, ordered by
      the first tutorial that has it. */
  lemma CategoriesSpec(tutorials: seq<Tutorial>)
    ensures var c := Categories(tutorials);
      && c[0] == "all"
      && (forall x :: x in c[1..] <==> exists k :: 0 <= k < |tutorials| && tutorials[k].styleCategory == x)
      && NoDuplicates(c[1..])
      && forall i, j :: 1 <= i < j < |c| ==>
           FirstIndex(MapSeq(tutorials, StyleOf), c[i]) < FirstIndex(MapSeq(tutorials, StyleOf), c[j])
  {
    var styles := MapSeq(tutorials, StyleOf);
    var d := Distinct(styles);
    var c := Categories(tutorials);
    assert c[1..] == d;
    DistinctOrder(styles);
    forall i, j | 1 <= i < j < |c| ensures FirstIndex(styles, c[i]) < FirstIndex(styles, c[j]) {
      assert c[i] == d[i - 1] && c[j] == d[j - 1];
    }
    forall x | x in d ensures exists k :: 0 <= k < |tutorials| && tutorials[k].styleCategory == x {
      var m :| 0 <= m < |d| && d[m] == x;
      var k :| 0 <= k < |styles| && styles[k] == x;
      assert tutorials[k].styleCategory == x;
    }
  }

  /** Every button after "all" selects at least one tutorial. */
  lemma CategoryButtonsSelectSomething(tutorials: seq<Tutorial>, i: int)
    requires 1 <= i < |Categories(tutorials)|
    ensures |FilteredTutorials(tutorials, Categories(tutorials)[i])| > 0
  {
    var styles := MapSeq(tutorials, StyleOf);
    var x := Categories(tutorials)[i];
    assert x == Distinct(styles)[i - 1];
    var k :| 0 <= k < |styles| && styles[k] == x;
    if x != "all" {
      FilterMembers(tutorials, StyleIs(x));
      assert tutorials[k] in FilteredTutorials(tutorials, x);
    }
  }

  /** The card text: the first 100 characters of the content without tags, and "...". */
  function Excerpt(content: string): string {
    var plain := StripTags(content);
    (if |plain| <= 100 then plain else plain[..100]) + "..."
  }

  /** The excerpt always ends in "...", before which stands the start of the
      tag-free content: all of it when it is shorter than 100 characters,
      else its first 100; no tag is left in it. */
  lemma ExcerptSpec(content: string)
    ensures var e := Excerpt(content); var plain := StripTags(content);
      && |e| >= 3 && e[|e| - 3..] == "..."
      && |e| - 3 == (if |plain| < 100 then |plain| else 100)
      && e[..|e| - 3] == plain[..|e| - 3]
      && TagFree(e[..|e| - 3])
  {
    var plain := StripTags(content);
    var e := Excerpt(content);
    var head := if |plain| <= 100 then plain else plain[..100];
    assert e == head + "...";
    assert e[..|e| - 3] == head;
    StripTagsTagFree(content);
    assert TagFree(head) by {
      forall i, j | 0 <= i < j < |head| && head[i] == '<' ensures head[j] != '>' {
        assert head[i] == plain[i] && head[j] == plain[j];
      }
    }
  }

  /** The header line counts every tutorial fetched. */
  function HeaderLabel(tutorials: seq<Tutorial>): string {
    Decimal(|tutorials|) + " Curated Designs"
  }

  /** The header does not depend on the filter: it tells two lists apart exactly
      when their lengths differ. */
  lemma HeaderCountsAll(a: seq<Tutorial>, b: seq<Tutorial>)
    ensures HeaderLabel(a) == HeaderLabel(b) <==> |a| == |b|
  {
    if HeaderLabel(a) == HeaderLabel(b) {
      var n := |Decimal(|a|)|;
      assert |Decimal(|b|)| == n;
      assert Decimal(|a|) == HeaderLabel(a)[..n] == HeaderLabel(b)[..n] == Decimal(|b|);
      DecimalInjective(|a|, |b|);
    }
  }
}
