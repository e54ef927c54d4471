/**
 * The saved-looks page: the tutorials whose ids are favourites, and which of
 * the loading spinner, the empty message and the grid it shows.
 */
module SavedPage {
  import opened Wrappers
  import opened Seqs
  import opened Schema

  function InFavorites(favorites: seq<int>): Tutorial -> bool {
    (t: Tutorial) => t.id in favorites
  }

  /** `allTutorials?.filter(t => favorites.includes(t.id)) || []`. */
  function SavedTutorials(all: Option<seq<Tutorial>>, favorites: seq<int>): seq<Tutorial> {
    if all.None? then [] else Filter(all.value, InFavorites(favorites))
  }

  /** The selection holds exactly the listed tutorials whose id is a favourite,
      in the order of the tutorial list. */
  lemma SavedTutorialsSpec(all: seq<Tutorial>, favorites: seq<int>)
    ensures forall t :: t in SavedTutorials(Some(all), favorites) <==> t in all && t.id in favorites
    ensures IsSubsequence(SavedTutorials(Some(all), favorites), all)
  {
    FilterMembers(all, InFavorites(favorites));
    FilterIsSubsequence(all, InFavorites(favorites));
  }

  /** The selection depends only on which ids are favourites, not on their order
      or how often they occur. */
  lemma SavedTutorialsIgnoreRepeats(all: Option<seq<Tutorial>>, f: seq<int>, g: seq<int>)
    requires forall x :: x in f <==> x in g
    ensures SavedTutorials(all, f) == SavedTutorials(all, g)
  {
    if all.Some? {
      FilterAgree(all.value, InFavorites(f), InFavorites(g));
    }
  }

  /** Repeated favourite ids do not repeat a tutorial: each tutorial is selected
      as often as it is listed. */
  lemma SavedTutorialsCount(all: seq<Tutorial>, favorites: seq<int>, t: Tutorial)
    ensures multiset(SavedTutorials(Some(all), favorites))[t]
      == if t.id in favorites then multiset(all)[t] else 0
  {
    FilterCount(all, InFavorites(favorites), t);
  }

  /** What the page shows. */
  datatype View = Spinner | EmptyMessage | Grid(items: seq<Tutorial>)

  /** The spinner while either source loads; then the empty message when there
      is no favourite id at all, and the grid of the selection otherwise. */
  function PageView(isLoaded: bool, isLoading: bool, all: Option<seq<Tutorial>>, favorites: seq<int>): (v: View)
    ensures v == Spinner <==> !isLoaded || isLoading
    ensures v == EmptyMessage <==> isLoaded && !isLoading && |favorites| == 0
    ensures v.Grid? ==> v.items == SavedTutorials(all, favorites)
  {
    if !isLoaded || isLoading then Spinner
    else if |favorites| == 0 then EmptyMessage
    else Grid(SavedTutorials(all, favorites))
  }

  /** Favourite ids that match no tutorial give an empty grid, not the empty message. */
  lemma UnmatchedFavoritesGiveEmptyGrid(all: seq<Tutorial>, favorites: seq<int>)
    requires |favorites| > 0
    requires forall k :: 0 <= k < |all| ==> all[k].id !in favorites
    ensures PageView(true, false, Some(all), favorites) == Grid([])
  {
    FilterNone(all, InFavorites(favorites));
  }
}
