/**
 * The seasonal vault page: the season filter, grouping of the shown designs by
 * season, the season metadata lookup with its fallback, and the count line.
 */
module SeasonalVault {
  import opened Wrappers
  import opened Text
  import opened Seqs

  /** A design of the seasonal collection. */
  datatype Design = Design(
    id: int,
    title: string,
    imageUrl: string,
    season: string,
    category: Option<string>,
    description: Option<string>,
    tags: Option<seq<string>>,
    featured: bool,
    createdAt: string)

  /** The icons a season button can carry. */
  datatype Icon = Calendar | Snowflake | Flower | Sun | Leaf

  /** A season button: label, filter value, icon and icon colour. */
  datatype Season = Season(name: string, value: string, icon: Icon, color: string)

  const Seasons: seq<Season> := [
    Season("All", "", Calendar, "text-gray-600"),
    Season("Winter", "Winter", Snowflake, "text-blue-400"),
    Season("Spring", "Spring", Flower, "text-pink-400"),
    Season("Summer", "Summer", Sun, "text-yellow-400"),
    Season("Fall", "Fall", Leaf, "text-orange-400"),
    Season("Holidays", "Holiday", Calendar, "text-red-400")
  ]

  /** The "Holidays" button filters on "Holiday", not on its own label. */
  lemma HolidaysFilterValue()
    ensures Seasons[5].name == "Holidays" && Seasons[5].value == "Holiday"
    ensures forall k :: 0 <= k < |Seasons| ==> Seasons[k].value != "Holidays"
  {
  }

  function SeasonIs(season: string): Design -> bool {
    (d: Design) => d.season == season
  }

  /** The list the filter effect shows: every design when no season is
      selected, else the designs of exactly that season. */
  function SeasonFiltered(designs: seq<Design>, season: string): seq<Design> {
    if season != "" then Filter(designs, SeasonIs(season)) else designs
  }

  /** A selected season keeps exactly the designs of that season, in order. */
  lemma SeasonFilteredSpec(designs: seq<Design>, season: string)
    requires season != ""
    ensures forall d :: d in SeasonFiltered(designs, season) <==> d in designs && d.season == season
    ensures IsSubsequence(SeasonFiltered(designs, season), designs)
  {
    FilterMembers(designs, SeasonIs(season));
    FilterIsSubsequence(designs, SeasonIs(season));
  }

  /** The match is exact: a season that is only the start of a design's
      season, as "Holiday" is of "Holidays", does not keep the design. */
  lemma SeasonMatchIsExact(designs: seq<Design>, d: Design, season: string)
    requires season != "" && |season| < |d.season| && d.season[..|season|] == season
    ensures d !in SeasonFiltered(designs, season)
  {
    FilterMembers(designs, SeasonIs(season));
  }

  /** The page state. */
  class VaultPage {
    var designs: seq<Design>
    var filteredDesigns: seq<Design>
    var selectedSeason: string
    var isLoading: bool

    /** The initial state: no designs, no season, loading. */
    constructor ()
      ensures designs == [] && filteredDesigns == [] && selectedSeason == "" && isLoading
    {
      designs := [];
      filteredDesigns := [];
      selectedSeason := "";
      isLoading := true;
    }

    /** The collection request finished: with an OK reply its data becomes both
        lists; loading ends either way. */
    method FetchFinished(ok: bool, data: seq<Design>)
      modifies this
      ensures !isLoading && selectedSeason == old(selectedSeason)
      ensures ok ==> designs == data && filteredDesigns == data
      ensures !ok ==> designs == old(designs) && filteredDesigns == old(filteredDesigns)
    {
      if ok {
        designs := data;
        filteredDesigns := data;
      }
      isLoading := false;
    }

    /** The filter effect, run whenever the season or the designs change. */
    method ApplySeasonFilter()
      modifies this
      ensures filteredDesigns == SeasonFiltered(designs, selectedSeason)
      ensures designs == old(designs) && selectedSeason == old(selectedSeason) && isLoading == old(isLoading)
    {
      if selectedSeason != "" {
        filteredDesigns := Filter(designs, SeasonIs(selectedSeason));
      } else {
        filteredDesigns := designs;
      }
    }

    /** Choosing a season button; the filter effect runs after it. */
    method SelectSeason(value: string)
      modifies this
      ensures selectedSeason == value && filteredDesigns == SeasonFiltered(designs, value)
      ensures designs == old(designs) && isLoading == old(isLoading)
    {
      selectedSeason := value;
      ApplySeasonFilter();
    }
  }

  function SeasonOf(d: Design): string {
    d.season
  }

  /** Some design's season is a name a plain object inherits. */
  predicate HasInheritedSeason(filtered: seq<Design>) {
    exists k :: 0 <= k < |filtered| && filtered[k].season in ObjectPrototypeNames
  }

  /** The `groupedDesigns` reduce: one group per exact season, in the order
      seasons first appear, each holding its designs in list order. It throws
      (`None`) when a season is a name the accumulator `{}` inherits. */
  method GroupedDesigns(filtered: seq<Design>) returns (groups: Option<seq<Group<string, Design>>>)
    ensures groups.None? <==> HasInheritedSeason(filtered)
    ensures groups.Some? ==> groups.value == GroupBy(filtered, SeasonOf)
    ensures groups.Some? ==> Keys(groups.value) == Distinct(MapSeq(filtered, SeasonOf))
    ensures groups.Some? ==> TotalSize(groups.value) == |filtered|
    ensures groups.Some? ==> forall j :: 0 <= j < |groups.value| ==>
      groups.value[j].items == Filter(filtered, KeyIs(SeasonOf, groups.value[j].key))
  {
    groups := GroupInto(filtered, SeasonOf, ObjectPrototypeNames);
    GroupByKeys(filtered, SeasonOf);
    GroupBySize(filtered, SeasonOf);
    GroupByItems(filtered, SeasonOf);
  }

  function ValueIs(season: string): Season -> bool {
    (s: Season) => s.value == season
  }

  /** The icon and colour of a season section: those of the first button whose
      value is the season, or the calendar icon in grey. */
  function SectionStyle(season: string): (style: (Icon, string))
    ensures (exists k :: 0 <= k < |Seasons| && Seasons[k].value == season) ==>
      exists k :: 0 <= k < |Seasons| && Seasons[k].value == season && style == (Seasons[k].icon, Seasons[k].color)
    ensures (forall k :: 0 <= k < |Seasons| ==> Seasons[k].value != season) ==> style == (Calendar, "text-gray-600")
  {
    match FindIndex(Seasons, ValueIs(season))
    case Some(k) => (Seasons[k].icon, Seasons[k].color)
    case None => (Calendar, "text-gray-600")
  }

  /** A season the buttons do not list, such as "Holidays", gets the fallback. */
  lemma UnlistedSeasonFallback()
    ensures SectionStyle("Holidays") == (Calendar, "text-gray-600")
  {
    HolidaysFilterValue();
  }

  /** The results line: "<n> Design Found" for one design, "<n> Designs Found" otherwise. */
  function ResultsLabel(count: int): string {
    CountLabel(count, "Design")
  }
}
