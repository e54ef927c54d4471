/**
 * The record store behind the API: the `tutorials` and `saved_designs` tables
 * held in memory, with the queries and updates of `DatabaseStorage`.
 */
module Storage {
  import opened Wrappers
  import opened Text
  import opened Seqs
  import opened Schema
  import opened SharedRoutes

  /** JavaScript truthiness of a nullable boolean column. */
  function Flag(b: Option<bool>): bool {
    b == Some(true)
  }

  /** One condition of the `WHERE ... AND ...` clause. */
  datatype Condition =
    | SearchIn(text: string)
    | StyleIs(style: string)
    | DifficultyIs(level: string)

  /** A condition on one row; the search is `ILIKE '%text%'` on title or content. */
  predicate Holds(c: Condition, t: Tutorial) {
    match c
    case SearchIn(q) => ContainsIgnoreCase(t.title, q) || ContainsIgnoreCase(t.tutorialContent, q)
    case StyleIs(s) => t.styleCategory == s
    case DifficultyIs(d) => t.difficultyLevel == d
  }

  predicate HoldsAll(conds: seq<Condition>, t: Tutorial) {
    forall k :: 0 <= k < |conds| ==> Holds(conds[k], t)
  }

  function SatisfiesAll(conds: seq<Condition>): Tutorial -> bool {
    (t: Tutorial) => HoldsAll(conds, t)
  }

  /** What the filter record asks of a row, stated directly on the record: each
      truthy field imposes its condition, an empty or absent one imposes none. */
  predicate Matches(filters: Option<Filters>, t: Tutorial) {
    filters.Some? ==>
      var f := filters.value;
      (Truthy(f.search) ==>
         ContainsIgnoreCase(t.title, f.search.value) || ContainsIgnoreCase(t.tutorialContent, f.search.value))
      && (Truthy(f.style) ==> t.styleCategory == f.style.value)
      && (Truthy(f.difficulty) ==> t.difficultyLevel == f.difficulty.value)
  }

  /** No filter field is truthy. */
  predicate Unfiltered(filters: Option<Filters>) {
    filters.None? || (!Truthy(filters.value.search) && !Truthy(filters.value.style) && !Truthy(filters.value.difficulty))
  }

  function TutorialIdIs(id: int): Tutorial -> bool {
    (t: Tutorial) => t.id == id
  }

  function DesignIdIs(id: int): SavedDesign -> bool {
    (d: SavedDesign) => d.id == id
  }

  function DesignIdIsNot(id: int): SavedDesign -> bool {
    (d: SavedDesign) => d.id != id
  }

  function OwnedBy(userId: string): SavedDesign -> bool {
    (d: SavedDesign) => d.userId == Some(userId)
  }

  predicate UniqueTutorialIds(s: seq<Tutorial>) {
    forall i, j :: 0 <= i < j < |s| ==> s[i].id != s[j].id
  }

  predicate UniqueDesignIds(s: seq<SavedDesign>) {
    forall i, j :: 0 <= i < j < |s| ==> s[i].id != s[j].id
  }

  /** Rows in non-increasing `createdAt`: `ORDER BY created_at DESC`. */
  predicate NewestFirst(s: seq<SavedDesign>) {
    forall i, j :: 0 <= i < j < |s| ==> s[i].createdAt >= s[j].createdAt
  }

  /** Inserts a row into a list, before the first row that is not newer than it. */
  function InsertByDate(d: SavedDesign, s: seq<SavedDesign>): (r: seq<SavedDesign>)
    ensures multiset(r) == multiset(s) + multiset{d}
  {
    if s == [] then [d]
    else if d.createdAt >= s[0].createdAt then [d] + s
    else
      assert s == [s[0]] + s[1..];
      [s[0]] + InsertByDate(d, s[1..])
  }

  /** Every row of the insertion is the inserted row or a row of the list. */
  lemma {:induction false} InsertByDateMembers(d: SavedDesign, s: seq<SavedDesign>)
    ensures forall k :: 0 <= k < |InsertByDate(d, s)| ==> InsertByDate(d, s)[k] == d || InsertByDate(d, s)[k] in s
  {
    if s != [] && d.createdAt < s[0].createdAt {
      InsertByDateMembers(d, s[1..]);
      var r := InsertByDate(d, s);
      forall k | 0 <= k < |r| ensures r[k] == d || r[k] in s {
        if k > 0 {
          assert r[k] == InsertByDate(d, s[1..])[k - 1];
        }
      }
    }
  }

  /** Inserting into a newest-first list keeps it newest first. */
  lemma {:induction false} InsertByDateSorted(d: SavedDesign, s: seq<SavedDesign>)
    requires NewestFirst(s)
    ensures NewestFirst(InsertByDate(d, s))
  {
    if s != [] && d.createdAt < s[0].createdAt {
      var tail := s[1..];
      assert NewestFirst(tail) by {
        forall i, j | 0 <= i < j < |tail| ensures tail[i].createdAt >= tail[j].createdAt {
          assert tail[i] == s[i + 1] && tail[j] == s[j + 1];
        }
      }
      InsertByDateSorted(d, tail);
      InsertByDateMembers(d, tail);
      var rest := InsertByDate(d, tail);
      var r := InsertByDate(d, s);
      assert r == [s[0]] + rest;
      forall j | 0 < j < |r| ensures s[0].createdAt >= r[j].createdAt {
        assert r[j] == rest[j - 1];
        if rest[j - 1] != d {
          var m :| 0 <= m < |tail| && tail[m] == rest[j - 1];
          assert s[m + 1] == tail[m];
        }
      }
      forall i, j | 0 <= i < j < |r| ensures r[i].createdAt >= r[j].createdAt {
        if i > 0 {
          assert r[i] == rest[i - 1] && r[j] == rest[j - 1];
        }
      }
    } else if s != [] {
      var r := InsertByDate(d, s);
      forall i, j | 0 <= i < j < |r| ensures r[i].createdAt >= r[j].createdAt {
        if i == 0 {
          assert r[j] == s[j - 1];
          if j > 1 { assert s[0].createdAt >= s[j - 1].createdAt; }
        } else {
          assert r[i] == s[i - 1] && r[j] == s[j - 1];
        }
      }
    }
  }

  /** The rows newest first; rows with the same `createdAt` keep their table order. */
  function SortNewestFirst(s: seq<SavedDesign>): (r: seq<SavedDesign>)
    ensures multiset(r) == multiset(s)
  {
    if s == [] then []
    else
      assert s == [s[0]] + s[1..];
      InsertByDate(s[0], SortNewestFirst(s[1..]))
  }

  /** The sort puts the rows newest first. */
  lemma {:induction false} SortNewestFirstSorted(s: seq<SavedDesign>)
    ensures NewestFirst(SortNewestFirst(s))
  {
    if s != [] {
      SortNewestFirstSorted(s[1..]);
      InsertByDateSorted(s[0], SortNewestFirst(s[1..]));
    }
  }

  /** `setFavorite` applied to a table: every row with `id` gets the flag `b`. */
  function SetFavorite(rows: seq<SavedDesign>, id: int, b: bool): (r: seq<SavedDesign>)
    ensures |r| == |rows|
    ensures forall k :: 0 <= k < |rows| && rows[k].id == id ==> r[k] == rows[k].(isFavorite := Some(b))
    ensures forall k :: 0 <= k < |rows| && rows[k].id != id ==> r[k] == rows[k]
  {
    if rows == [] then []
    else
      var head := if rows[0].id == id then rows[0].(isFavorite := Some(b)) else rows[0];
      [head] + SetFavorite(rows[1..], id, b)
  }

  /** The in-memory database. Serial ids come from the two counters. */
  class Store {
    var tutorials: seq<Tutorial>
    var designs: seq<SavedDesign>
    var nextTutorialId: int
    var nextDesignId: int

    /** Ids are unique, positive and below the next serial value. */
    predicate Valid()
      reads this
    {
      UniqueTutorialIds(tutorials) && UniqueDesignIds(designs)
      && 1 <= nextTutorialId && 1 <= nextDesignId
      && (forall t :: t in tutorials ==> 1 <= t.id < nextTutorialId)
      && (forall d :: d in designs ==> 1 <= d.id < nextDesignId)
    }

    /** Empty tables; serial columns start at 1. */
    constructor ()
      ensures Valid()
      ensures tutorials == [] && designs == []
      ensures nextTutorialId == 1 && nextDesignId == 1
    {
      tutorials := [];
      designs := [];
      nextTutorialId := 1;
      nextDesignId := 1;
    }

    /** `getTutorials(filters)`: the conditions of the truthy fields, joined by AND;
        with no condition the whole table. */
    method GetTutorials(filters: Option<Filters>) returns (rows: seq<Tutorial>)
      ensures rows == Filter(tutorials, t => Matches(filters, t))
      ensures forall t :: t in rows <==> t in tutorials && Matches(filters, t)
      ensures IsSubsequence(rows, tutorials)
      ensures Unfiltered(filters) ==> rows == tutorials
    {
      var conditions: seq<Condition> := [];
      if filters.Some? && Truthy(filters.value.search) {
        conditions := conditions + [SearchIn(filters.value.search.value)];
      }
      if filters.Some? && Truthy(filters.value.style) {
        conditions := conditions + [StyleIs(filters.value.style.value)];
      }
      if filters.Some? && Truthy(filters.value.difficulty) {
        conditions := conditions + [DifficultyIs(filters.value.difficulty.value)];
      }
      if |conditions| > 0 {
        rows := Filter(tutorials, SatisfiesAll(conditions));
      } else {
        rows := tutorials;
      }
      ConditionsMatch(filters, conditions);
      FilterAgree(tutorials, SatisfiesAll(conditions), t => Matches(filters, t));
      if |conditions| == 0 {
        FilterAll(tutorials, t => Matches(filters, t));
      }
      FilterMembers(tutorials, t => Matches(filters, t));
      FilterIsSubsequence(tutorials, t => Matches(filters, t));
    }

    /** `getTutorial(id)`: the row with that id, if any. */
    function GetTutorial(id: int): (r: Option<Tutorial>)
      reads this
      ensures r.Some? ==> r.value in tutorials && r.value.id == id
      ensures r.None? <==> forall k :: 0 <= k < |tutorials| ==> tutorials[k].id != id
    {
      Find(tutorials, TutorialIdIs(id))
    }

    /** `createTutorial(input)`: inserts one row with the next serial id and the
        insert time as `createdAt`, and returns it. */
    method CreateTutorial(input: NewTutorial, now: int) returns (row: Tutorial)
      requires Valid()
      modifies this
      ensures Valid()
      ensures row == Tutorial(old(nextTutorialId), input.title, input.imageSource, input.styleCategory,
        input.difficultyLevel, input.toolsRequired, input.tutorialContent, input.creatorCredit, Some(now))
      ensures tutorials == old(tutorials) + [row]
      ensures forall k :: 0 <= k < |old(tutorials)| ==> row.id != old(tutorials)[k].id
      ensures nextTutorialId == old(nextTutorialId) + 1
      ensures designs == old(designs) && nextDesignId == old(nextDesignId)
    {
      row := Tutorial(nextTutorialId, input.title, input.imageSource, input.styleCategory,
        input.difficultyLevel, input.toolsRequired, input.tutorialContent, input.creatorCredit, Some(now));
      tutorials := tutorials + [row];
      nextTutorialId := nextTutorialId + 1;
    }

    /** `getSavedDesigns(userId)`: newest first, only the user's rows when a
        non-empty user id is given. */
    function GetSavedDesigns(userId: Option<string>): (r: seq<SavedDesign>)
      reads this
      ensures NewestFirst(r)
      ensures Truthy(userId) ==> multiset(r) == multiset(Filter(designs, OwnedBy(userId.value)))
      ensures !Truthy(userId) ==> multiset(r) == multiset(designs)
    {
      if Truthy(userId) then
        var rows := Filter(designs, OwnedBy(userId.value));
        SortNewestFirstSorted(rows);
        SortNewestFirst(rows)
      else
        SortNewestFirstSorted(designs);
        SortNewestFirst(designs)
    }

    /** `getSavedDesign(id)`: the row with that id, if any. */
    function GetSavedDesign(id: int): (r: Option<SavedDesign>)
      reads this
      ensures r.Some? ==> r.value in designs && r.value.id == id
      ensures r.None? <==> forall k :: 0 <= k < |designs| ==> designs[k].id != id
    {
      Find(designs, DesignIdIs(id))
    }

    /** `saveDesign(input)`: inserts one row with the next serial id, the
        default `false` for an omitted favourite flag and the insert time. */
    method SaveDesign(input: NewSavedDesign, now: int) returns (row: SavedDesign)
      requires Valid()
      modifies this
      ensures Valid()
      ensures row == SavedDesign(old(nextDesignId), input.userId, input.imageUrl, input.prompt,
        input.canvasImageUrl, input.tags,
        if input.isFavorite.Omitted? then Some(false) else input.isFavorite.value, now)
      ensures designs == old(designs) + [row]
      ensures forall k :: 0 <= k < |old(designs)| ==> row.id != old(designs)[k].id
      ensures nextDesignId == old(nextDesignId) + 1
      ensures tutorials == old(tutorials) && nextTutorialId == old(nextTutorialId)
    {
      var flag := if input.isFavorite.Omitted? then Some(false) else input.isFavorite.value;
      row := SavedDesign(nextDesignId, input.userId, input.imageUrl, input.prompt,
        input.canvasImageUrl, input.tags, flag, now);
      designs := designs + [row];
      nextDesignId := nextDesignId + 1;
    }

    /** `deleteDesign(id)`: removes the rows with that id. */
    method DeleteDesign(id: int)
      requires Valid()
      modifies this
      ensures Valid()
      ensures designs == Filter(old(designs), DesignIdIsNot(id))
      ensures tutorials == old(tutorials)
      ensures nextTutorialId == old(nextTutorialId) && nextDesignId == old(nextDesignId)
    {
      DeleteKeepsIds(designs, id);
      designs := Filter(designs, DesignIdIsNot(id));
    }

    /** `toggleFavorite(id)`: "Design not found" for a missing id; otherwise the
        row's flag becomes the negation of its truthiness, and the updated row
        is returned. */
    method ToggleFavorite(id: int) returns (r: Result<SavedDesign, string>)
      requires Valid()
      modifies this
      ensures Valid()
      ensures old(GetSavedDesign(id)).None? ==> r == Err("Design not found") && designs == old(designs)
      ensures old(GetSavedDesign(id)).Some? ==>
        var d := old(GetSavedDesign(id)).value;
        && designs == SetFavorite(old(designs), id, !Flag(d.isFavorite))
        && r == Ok(d.(isFavorite := Some(!Flag(d.isFavorite))))
      ensures tutorials == old(tutorials)
      ensures nextTutorialId == old(nextTutorialId) && nextDesignId == old(nextDesignId)
    {
      var found := GetSavedDesign(id);
      if found.None? {
        r := Err("Design not found");
      } else {
        var d := found.value;
        var b := !Flag(d.isFavorite);
        var k := FindIndex(designs, DesignIdIs(id)).value;
        var updated := SetFavorite(designs, id, b);
        assert updated[k] == d.(isFavorite := Some(b));
        designs := updated;
        r := Ok(designs[k]);
      }
    }
  }

  /** The conditions built from the filter record hold of a row exactly when the
      record matches it, and they are empty exactly when nothing is filtered. */
  lemma ConditionsMatch(filters: Option<Filters>, conds: seq<Condition>)
    requires conds == (if filters.Some? && Truthy(filters.value.search) then [SearchIn(filters.value.search.value)] else [])
      + (if filters.Some? && Truthy(filters.value.style) then [StyleIs(filters.value.style.value)] else [])
      + (if filters.Some? && Truthy(filters.value.difficulty) then [DifficultyIs(filters.value.difficulty.value)] else [])
    ensures forall t :: HoldsAll(conds, t) <==> Matches(filters, t)
    ensures |conds| == 0 <==> Unfiltered(filters)
  {
    forall t ensures HoldsAll(conds, t) <==> Matches(filters, t) {
      if filters.Some? {
        var f := filters.value;
        var a := if Truthy(f.search) then [SearchIn(f.search.value)] else [];
        var b := if Truthy(f.style) then [StyleIs(f.style.value)] else [];
        var c := if Truthy(f.difficulty) then [DifficultyIs(f.difficulty.value)] else [];
        assert conds == a + b + c;
        if Truthy(f.search) { HoldsAllSingle(SearchIn(f.search.value), t); }
        if Truthy(f.style) { HoldsAllSingle(StyleIs(f.style.value), t); }
        if Truthy(f.difficulty) { HoldsAllSingle(DifficultyIs(f.difficulty.value), t); }
        assert HoldsAll(conds, t) <==> HoldsAll(a, t) && HoldsAll(b, t) && HoldsAll(c, t) by {
          if HoldsAll(a, t) && HoldsAll(b, t) && HoldsAll(c, t) {
            forall k | 0 <= k < |conds| ensures Holds(conds[k], t) {
              if k < |a| { assert conds[k] == a[k]; }
              else if k < |a| + |b| { assert conds[k] == b[k - |a|]; }
              else { assert conds[k] == c[k - |a| - |b|]; }
            }
          }
          if HoldsAll(conds, t) {
            forall k | 0 <= k < |a| ensures Holds(a[k], t) { assert conds[k] == a[k]; }
            forall k | 0 <= k < |b| ensures Holds(b[k], t) { assert conds[|a| + k] == b[k]; }
            forall k | 0 <= k < |c| ensures Holds(c[k], t) { assert conds[|a| + |b| + k] == c[k]; }
          }
        }
      }
    }
  }

  lemma HoldsAllSingle(c: Condition, t: Tutorial)
    ensures HoldsAll([c], t) <==> Holds(c, t)
  {
    assert [c][0] == c;
  }

  /** Deleting by id keeps the remaining ids unique and in range. */
  lemma DeleteKeepsIds(rows: seq<SavedDesign>, id: int)
    ensures UniqueDesignIds(rows) ==> UniqueDesignIds(Filter(rows, DesignIdIsNot(id)))
    ensures forall x :: x in Filter(rows, DesignIdIsNot(id)) ==> x in rows
  {
    var r := Filter(rows, DesignIdIsNot(id));
    FilterMembers(rows, DesignIdIsNot(id));
    if UniqueDesignIds(rows) {
      FilterIsSubsequence(rows, DesignIdIsNot(id));
      SubsequenceUniqueIds(r, rows);
    }
  }

  lemma {:induction false} SubsequenceUniqueIds(a: seq<SavedDesign>, b: seq<SavedDesign>)
    requires IsSubsequence(a, b) && UniqueDesignIds(b)
    ensures UniqueDesignIds(a)
    decreases |b|
  {
    if a != [] && b != [] {
      assert UniqueDesignIds(b[1..]) by {
        forall i, j | 0 <= i < j < |b[1..]| ensures b[1..][i].id != b[1..][j].id {
          assert b[1..][i] == b[i + 1] && b[1..][j] == b[j + 1];
        }
      }
      if a[0] == b[0] && IsSubsequence(a[1..], b[1..]) {
        SubsequenceUniqueIds(a[1..], b[1..]);
        SubsequenceMembers(a[1..], b[1..]);
        forall i, j | 0 <= i < j < |a| ensures a[i].id != a[j].id {
          if i == 0 {
            assert a[j] == a[1..][j - 1];
            var m :| 0 <= m < |b[1..]| && b[1..][m] == a[j];
            assert b[m + 1] == a[j];
          } else {
            assert a[i] == a[1..][i - 1] && a[j] == a[1..][j - 1];
          }
        }
      } else {
        SubsequenceUniqueIds(a, b[1..]);
      }
    }
  }

  /** `deleteDesign(id)` removes every row with that id and nothing else. */
  lemma DeleteRemovesExactly(rows: seq<SavedDesign>, id: int)
    ensures forall x :: x in Filter(rows, DesignIdIsNot(id)) <==> x in rows && x.id != id
  {
    FilterMembers(rows, DesignIdIsNot(id));
  }

  /** Deleting an id that no row has leaves the table as it is. */
  lemma DeleteAbsent(rows: seq<SavedDesign>, id: int)
    requires forall k :: 0 <= k < |rows| ==> rows[k].id != id
    ensures Filter(rows, DesignIdIsNot(id)) == rows
  {
    FilterAll(rows, DesignIdIsNot(id));
  }

  /** Setting a flag twice is the same as setting it the second time. */
  lemma SetFavoriteTwice(rows: seq<SavedDesign>, id: int, b: bool, c: bool)
    ensures SetFavorite(SetFavorite(rows, id, b), id, c) == SetFavorite(rows, id, c)
  {
  }

  /** Toggling a design with a non-null flag twice restores the table exactly. */
  lemma ToggleTwiceRestores(rows: seq<SavedDesign>, id: int, k: nat, f: bool)
    requires UniqueDesignIds(rows)
    requires k < |rows| && rows[k].id == id && rows[k].isFavorite == Some(f)
    ensures SetFavorite(SetFavorite(rows, id, !f), id, f) == rows
  {
    SetFavoriteTwice(rows, id, !f, f);
    var r := SetFavorite(rows, id, f);
    forall m | 0 <= m < |rows| ensures r[m] == rows[m] {
      if rows[m].id == id {
        assert m == k;
      }
    }
  }
}
