/**
 * The favourites hook: a list of tutorial ids kept in component state and
 * mirrored to local storage, loaded once and toggled one id at a time.
 */
module Favorites {
  import opened Wrappers
  import opened Text
  import opened Seqs

  /** The local storage key the list is kept under. */
  const StorageKey := "nail_tutorial_favorites"

  function IsNot(id: int): int -> bool {
    (x: int) => x != id
  }

  /** The list after toggling `id`: every occurrence removed when present,
      appended at the end when absent. */
  function Toggled(prev: seq<int>, id: int): seq<int> {
    if id in prev then Filter(prev, IsNot(id)) else prev + [id]
  }

  /** A toggle flips the id's membership and leaves every other id's as it was. */
  lemma ToggleMembership(prev: seq<int>, id: int)
    ensures id in Toggled(prev, id) <==> id !in prev
    ensures forall x :: x != id ==> (x in Toggled(prev, id) <==> x in prev)
  {
    FilterMembers(prev, IsNot(id));
  }

  /** An absent id is appended at the end. */
  lemma ToggleAbsentAppends(prev: seq<int>, id: int)
    requires id !in prev
    ensures Toggled(prev, id) == prev + [id]
  {
  }

  /** A present id is removed everywhere, and the other ids keep their order. */
  lemma TogglePresentRemoves(prev: seq<int>, id: int)
    requires id in prev
    ensures IsSubsequence(Toggled(prev, id), prev)
    ensures id !in Toggled(prev, id)
    ensures |Toggled(prev, id)| == |prev| - multiset(prev)[id]
  {
    FilterIsSubsequence(prev, IsNot(id));
    FilterMembers(prev, IsNot(id));
    FilterLength(prev, id);
  }

  /** Removing an id shortens the list by its number of occurrences. */
  lemma {:induction false} FilterLength(s: seq<int>, id: int)
    ensures |Filter(s, IsNot(id))| == |s| - multiset(s)[id]
  {
    if s != [] {
      FilterLength(s[1..], id);
      assert s == [s[0]] + s[1..];
      assert multiset(s) == multiset{s[0]} + multiset(s[1..]);
    }
  }

  /** Toggling twice restores membership of every id. */
  lemma ToggleTwiceMembership(prev: seq<int>, id: int)
    ensures forall x :: x in Toggled(Toggled(prev, id), id) <==> x in prev
  {
    ToggleMembership(prev, id);
    ToggleMembership(Toggled(prev, id), id);
  }

  /** Toggling an absent id twice restores the exact list. */
  lemma ToggleTwiceFromAbsent(prev: seq<int>, id: int)
    requires id !in prev
    ensures Toggled(Toggled(prev, id), id) == prev
  {
    assert id in prev + [id];
    FilterAppend(prev, [id], IsNot(id));
    FilterAll(prev, IsNot(id));
    assert Filter([id], IsNot(id)) == [];
  }

  /** A present id comes back once, at the end, so the list is not restored
      when the id was not already last. */
  lemma ToggleTwiceMovesToEnd(prev: seq<int>, id: int)
    requires id in prev
    ensures Toggled(Toggled(prev, id), id) == Filter(prev, IsNot(id)) + [id]
    ensures prev[|prev| - 1] != id ==> Toggled(Toggled(prev, id), id) != prev
  {
    FilterMembers(prev, IsNot(id));
    var r := Toggled(Toggled(prev, id), id);
    assert r[|r| - 1] == id;
  }

  /** A duplicate-free list stays duplicate-free. */
  lemma ToggleKeepsNoDuplicates(prev: seq<int>, id: int)
    requires NoDuplicates(prev)
    ensures NoDuplicates(Toggled(prev, id))
  {
    if id in prev {
      FilterIsSubsequence(prev, IsNot(id));
      SubsequenceNoDuplicates(Filter(prev, IsNot(id)), prev);
    } else {
      var r := prev + [id];
      forall i, j | 0 <= i < j < |r| ensures r[i] != r[j] {
        if j == |prev| { assert r[i] == prev[i]; }
      }
    }
  }

  /** The hook's state. `written` is the list last written to local storage;
      reading and writing its JSON text are left to the caller. */
  class FavoritesHook {
    var favorites: seq<int>
    var isLoaded: bool
    var written: Option<seq<int>>

    /** The initial state: nothing loaded yet. */
    constructor ()
      ensures favorites == [] && !isLoaded && written == None
    {
      favorites := [];
      isLoaded := false;
      written := None;
    }

    /** The load effect. `stored` is the text under the storage key, `parsed` the
        list `JSON.parse` gives for it or `None` when it throws. A missing or
        empty value, or one that does not parse, leaves the list as it is. */
    method Load(stored: Option<string>, parsed: Option<seq<int>>)
      modifies this
      ensures isLoaded
      ensures favorites == if Truthy(stored) && parsed.Some? then parsed.value else old(favorites)
      ensures written == old(written)
    {
      if stored.Some? && stored.value != "" {
        if parsed.Some? {
          favorites := parsed.value;
        }
      }
      isLoaded := true;
    }

    /** `toggleFavorite(id)`: the new list becomes the state and is written to storage. */
    method Toggle(id: int)
      modifies this
      ensures favorites == Toggled(old(favorites), id)
      ensures written == Some(favorites)
      ensures isLoaded == old(isLoaded)
    {
      var next: seq<int>;
      if id in favorites {
        next := Filter(favorites, IsNot(id));
      } else {
        next := favorites + [id];
      }
      written := Some(next);
      favorites := next;
    }

    /** `isFavorite(id)`. */
    predicate IsFavorite(id: int)
      reads this
    {
      id in favorites
    }
  }
}
