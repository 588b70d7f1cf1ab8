/** The list page: the category view of the store, its search-and-sort
    pipeline, the per-item status value, the details text, and the actions
    that write back through the store, including the two bulk toggles that
    mark a whole season or a whole series by toggling episode after episode. */
module ListView {
  import opened Wrappers
  import opened Models
  import opened Text
  import opened Storage
  import opened Sorting

  // ---------------------------------------------------------------------------
  // Series aggregates

  /** `season.episodes.every(ep => ep.isWatched)`. */
  predicate SeasonWatched(season: Season)
  {
    forall j :: 0 <= j < |season.episodes| ==> season.episodes[j].isWatched
  }

  /** `series.seasons.every(isSeasonWatched)`: vacuously true with no seasons. */
  predicate SeriesWatched(seasons: seq<Season>)
  {
    forall i :: 0 <= i < |seasons| ==> SeasonWatched(seasons[i])
  }

  /** `episodes.filter(ep => ep.isWatched).length`. */
  function CountWatched(eps: seq<Episode>): (n: nat)
    ensures n <= |eps|
    ensures n == |eps| <==> forall j :: 0 <= j < |eps| ==> eps[j].isWatched
    ensures n == 0 <==> forall j :: 0 <= j < |eps| ==> !eps[j].isWatched
    decreases |eps|
  {
    if |eps| == 0 then 0
    else
      assert forall j :: 1 <= j < |eps| ==> eps[j] == eps[1..][j - 1];
      (if eps[0].isWatched then 1 else 0) + CountWatched(eps[1..])
  }

  /** The sum of the season lengths, folded left to right. */
  function TotalEpisodes(seasons: seq<Season>): nat
    decreases |seasons|
  {
    if |seasons| == 0 then 0
    else TotalEpisodes(seasons[..|seasons| - 1]) + |seasons[|seasons| - 1].episodes|
  }

  /** The sum of the watched counts, folded left to right. */
  function WatchedEpisodes(seasons: seq<Season>): (n: nat)
    ensures n <= TotalEpisodes(seasons)
    decreases |seasons|
  {
    if |seasons| == 0 then 0
    else WatchedEpisodes(seasons[..|seasons| - 1]) + CountWatched(seasons[|seasons| - 1].episodes)
  }

  /** All episodes are watched exactly when the watched count reaches the total. */
  lemma {:induction false} WatchedAllIffSeriesWatched(seasons: seq<Season>)
    ensures WatchedEpisodes(seasons) == TotalEpisodes(seasons) <==> SeriesWatched(seasons)
    decreases |seasons|
  {
    if |seasons| > 0 {
      var init := seasons[..|seasons| - 1];
      var last := seasons[|seasons| - 1];
      WatchedAllIffSeriesWatched(init);
      assert forall i :: 0 <= i < |init| ==> init[i] == seasons[i];
      assert SeriesWatched(seasons) <==> SeriesWatched(init) && SeasonWatched(last);
    }
  }

  /** The watched count is zero exactly when no episode of any season is watched. */
  lemma {:induction false} NoneWatchedIff(seasons: seq<Season>)
    ensures WatchedEpisodes(seasons) == 0 <==>
      forall i, j :: 0 <= i < |seasons| && 0 <= j < |seasons[i].episodes| ==> !seasons[i].episodes[j].isWatched
    decreases |seasons|
  {
    if |seasons| > 0 {
      var init := seasons[..|seasons| - 1];
      NoneWatchedIff(init);
      assert forall i :: 0 <= i < |init| ==> init[i] == seasons[i];
    }
  }

  /** The total is positive exactly when some season has an episode. */
  lemma {:induction false} TotalPositiveIff(seasons: seq<Season>)
    ensures TotalEpisodes(seasons) > 0 <==> exists i :: 0 <= i < |seasons| && |seasons[i].episodes| > 0
    decreases |seasons|
  {
    if |seasons| > 0 {
      var init := seasons[..|seasons| - 1];
      TotalPositiveIff(init);
      assert forall i :: 0 <= i < |init| ==> init[i] == seasons[i];
      if TotalEpisodes(init) > 0 {
        var i :| 0 <= i < |init| && |init[i].episodes| > 0;
        assert |seasons[i].episodes| > 0;
      }
    }
  }

  // ---------------------------------------------------------------------------
  // Details and status

  /** `value || fallback` on an optional string: absent and '' are both falsy. */
  function Or(value: Option<string>, fallback: string): string
  {
    if value.Some? && value.value != "" then value.value else fallback
  }

  /** `year || ''` concatenated into a string: absent and 0 give ''. */
  function YearText(year: Option<int>): string
  {
    if year.Some? && year.value != 0 then IntToString(year.value) else ""
  }

  /** The secondary text shown under each item and searched by the filter. */
  function Details(item: LeisureItem): string
  {
    match item
    case Concert(_, _, _, _, venue, year, _) =>
      Or(venue, "Lugar desconocido") + " " + YearText(year)
    case Book(_, _, _, _, author, _) =>
      author
    case Movie(_, _, _, _, director, cast, year, _) =>
      Or(director, "") + " " + YearText(year) + " " + Or(cast, "")
    case Series(_, _, _, _, platform, seasons) =>
      Or(platform, "TV") + " " + IntToString(|seasons|) + " T. "
        + IntToString(TotalEpisodes(seasons)) + " eps"
    case Game(_, _, _, _, platform, _) =>
      Or(platform, "PC")
  }

  /** A year shows as nothing exactly when it is absent or 0; a shown year
      reads back as the same number. */
  lemma YearTextMeaning(year: Option<int>)
    ensures YearText(year) == "" <==> year.None? || year.value == 0
    ensures YearText(year) != "" ==> ParseInt(YearText(year)) == Some(year.value)
  {
    if year.Some? && year.value != 0 {
      IntToStringRoundTrip(year.value);
    }
  }

  /** Books show their author; games their platform, or 'PC' when it is absent
      or empty; concerts their venue (or 'Lugar desconocido'), a space, and the
      year or nothing; a series counts its seasons and episodes. */
  lemma DetailsByCategory(item: LeisureItem)
    ensures item.Book? ==> Details(item) == item.author
    ensures item.Game? ==>
      Details(item) == (if item.platform.None? || item.platform.value == "" then "PC" else item.platform.value)
    ensures item.Concert? ==>
      var venue := if item.venue.None? || item.venue.value == "" then "Lugar desconocido" else item.venue.value;
      && Details(item)[..|venue|] == venue
      && Details(item)[|venue|..] == " " + YearText(item.year)
    ensures item.Movie? ==>
      var director := if item.director.None? || item.director.value == "" then "" else item.director.value;
      var cast := if item.cast.None? || item.cast.value == "" then "" else item.cast.value;
      Details(item) == director + " " + YearText(item.year) + " " + cast
    ensures item.Series? ==>
      var platform := if item.platform.None? || item.platform.value == "" then "TV" else item.platform.value;
      Details(item) == platform + " " + IntToString(|item.seasons|) + " T. " + IntToString(TotalEpisodes(item.seasons)) + " eps"
  {
    match item
    case Concert(_, _, _, _, v, year, _) =>
      var venue := Or(v, "Lugar desconocido");
      var rest := " " + YearText(year);
      assert Details(item) == venue + rest;
      assert (venue + rest)[..|venue|] == venue;
      assert (venue + rest)[|venue|..] == rest;
    case Book(_, _, _, _, _, _) =>
    case Movie(_, _, _, _, _, _, _, _) =>
    case Series(_, _, _, _, _, _) =>
    case Game(_, _, _, _, _, _) =>
  }

  /** The text a category shows first in its details, and for a movie its cast. */
  predicate ShownField(item: LeisureItem, field: string)
  {
    match item
    case Concert(_, _, _, _, venue, _, _) => field == Or(venue, "Lugar desconocido")
    case Book(_, _, _, _, author, _) => field == author
    case Movie(_, _, _, _, director, cast, _, _) => field == Or(director, "") || field == Or(cast, "")
    case Series(_, _, _, _, platform, _) => field == Or(platform, "TV")
    case Game(_, _, _, _, platform, _) => field == Or(platform, "PC")
  }

  /** A term found in a piece of the details is found by the search. */
  lemma MatchesViaDetails(item: LeisureItem, term: string, field: string, i: nat)
    requires i + |field| <= |Details(item)| && Details(item)[i..i + |field|] == field
    requires Includes(Lower(field), Lower(term))
    ensures Matches(item, term)
  {
    var d := Lower(Details(item));
    var f := Lower(field);
    var t := Lower(term);
    IncludesIffOccurs(f, t);
    var j :| OccursAt(f, t, j);
    forall k | 0 <= k < |t| ensures d[i + j + k] == t[k] {
      assert t[k] == f[j + k] == LowerChar(field[j + k]);
      assert field[j + k] == Details(item)[i + j + k];
    }
    assert d[i + j..i + j + |t|] == t;
    assert OccursAt(d, t, i + j);
    IncludesIffOccurs(d, t);
  }

  /** Searching for any part of the venue of a concert, the author of a book,
      the director or cast of a movie, or the platform of a series or a game
      (or the fallback shown in its place) finds the item, whatever the case
      of the term. */
  lemma SearchFindsShownField(item: LeisureItem, term: string, field: string)
    requires ShownField(item, field) && Includes(Lower(field), Lower(term))
    ensures Matches(item, term)
  {
    var i := ShownFieldPosition(item, field);
    MatchesViaDetails(item, term, field, i);
  }

  /** Where each shown field sits in the details text. */
  lemma ShownFieldPosition(item: LeisureItem, field: string) returns (i: nat)
    requires ShownField(item, field)
    ensures i + |field| <= |Details(item)| && Details(item)[i..i + |field|] == field
  {
    match item
    case Concert(_, _, _, _, _, _, _) => i := 0; ConcertVenueLeads(item);
    case Book(_, _, _, _, _, _) => i := 0;
    case Movie(_, _, _, _, _, _, _, _) => i := MovieFieldPosition(item, field);
    case Series(_, _, _, _, _, _) => i := 0; SeriesPlatformLeads(item);
    case Game(_, _, _, _, _, _) => i := 0;
  }

  lemma ConcertVenueLeads(item: LeisureItem)
    requires item.Concert?
    ensures var venue := Or(item.venue, "Lugar desconocido");
      |venue| <= |Details(item)| && Details(item)[0..|venue|] == venue
  {
    var venue := Or(item.venue, "Lugar desconocido");
    assert Details(item) == venue + (" " + YearText(item.year));
  }

  lemma SeriesPlatformLeads(item: LeisureItem)
    requires item.Series?
    ensures var platform := Or(item.platform, "TV");
      |platform| <= |Details(item)| && Details(item)[0..|platform|] == platform
  {
    var platform := Or(item.platform, "TV");
    assert Details(item) == platform + (" " + IntToString(|item.seasons|) + " T. "
      + IntToString(TotalEpisodes(item.seasons)) + " eps");
  }

  lemma MovieFieldPosition(item: LeisureItem, field: string) returns (i: nat)
    requires item.Movie? && ShownField(item, field)
    ensures i + |field| <= |Details(item)| && Details(item)[i..i + |field|] == field
  {
    if field == Or(item.director, "") {
      i := 0;
      MovieDirectorLeads(item);
    } else {
      i := |Details(item)| - |field|;
      MovieCastTrails(item);
    }
  }

  lemma MovieDirectorLeads(item: LeisureItem)
    requires item.Movie?
    ensures var director := Or(item.director, "");
      |director| <= |Details(item)| && Details(item)[0..|director|] == director
  {
    var director := Or(item.director, "");
    var rest := " " + YearText(item.year) + " " + Or(item.cast, "");
    assert Details(item) == director + rest;
  }

  lemma MovieCastTrails(item: LeisureItem)
    requires item.Movie?
    ensures var cast := Or(item.cast, "");
      |cast| <= |Details(item)| && Details(item)[|Details(item)| - |cast|..] == cast
  {
    var cast := Or(item.cast, "");
    var before := Or(item.director, "") + " " + YearText(item.year) + " ";
    assert Details(item) == before + cast;
  }

  /** The completion flag of a non-series item; a series has none. */
  predicate StatusFlag(item: LeisureItem)
  {
    match item
    case Concert(_, _, _, _, _, _, attended) => attended
    case Book(_, _, _, _, _, isRead) => isRead
    case Movie(_, _, _, _, _, _, _, isSeen) => isSeen
    case Series(_, _, _, _, _, _) => false
    case Game(_, _, _, _, _, isPlayed) => isPlayed
  }

  /** Fully done: every episode watched for a series, the flag set otherwise. */
  predicate Done(item: LeisureItem)
  {
    if item.Series? then SeriesWatched(item.seasons) else StatusFlag(item)
  }

  /** Begun at all: some episode watched for a series, the flag set otherwise. */
  predicate Started(item: LeisureItem)
  {
    if item.Series? then WatchedEpisodes(item.seasons) > 0 else StatusFlag(item)
  }

  /** A JavaScript number as the status value produces it: a ratio, or NaN
      from 0 / 0 for a series without episodes. */
  datatype Status = Ratio(value: real) | NaN

  /** `getStatusValue`: watched / total for a series, 1 or 0 otherwise. */
  function StatusValue(item: LeisureItem): Status
  {
    if item.Series? then
      var total := TotalEpisodes(item.seasons);
      if total == 0 then NaN
      else Ratio(WatchedEpisodes(item.seasons) as real / total as real)
    else if StatusFlag(item) then Ratio(1.0) else Ratio(0.0)
  }

  lemma RatioBounds(w: nat, t: nat)
    requires 0 < t && w <= t
    ensures 0.0 <= w as real / t as real <= 1.0
    ensures w as real / t as real == 1.0 <==> w == t
    ensures w as real / t as real == 0.0 <==> w == 0
  {
    var q := w as real / t as real;
    assert q * (t as real) == w as real;
  }

  /** The status value is NaN exactly for a series without episodes; otherwise
      it lies in [0, 1], is 1 exactly when the item is done and 0 exactly when
      it has not been started. */
  lemma StatusValueMeaning(item: LeisureItem)
    ensures StatusValue(item).NaN? <==> item.Series? && TotalEpisodes(item.seasons) == 0
    ensures StatusValue(item).Ratio? ==> 0.0 <= StatusValue(item).value <= 1.0
    ensures StatusValue(item).Ratio? ==> (StatusValue(item).value == 1.0 <==> Done(item))
    ensures StatusValue(item).Ratio? ==> (StatusValue(item).value == 0.0 <==> !Started(item))
  {
    if item.Series? && TotalEpisodes(item.seasons) > 0 {
      RatioBounds(WatchedEpisodes(item.seasons), TotalEpisodes(item.seasons));
      WatchedAllIffSeriesWatched(item.seasons);
    }
  }

  /** `toggleItemStatus` on the clone: flips the completion flag of a
      non-series item; a series goes back unchanged. */
  function FlipStatus(item: LeisureItem): (r: LeisureItem)
    ensures r.id == item.id && CategoryOf(r) == CategoryOf(item)
    ensures item.Series? ==> r == item
    ensures !item.Series? ==> StatusFlag(r) == !StatusFlag(item)
    ensures item.Concert? ==> r == item.(attended := r.attended)
    ensures item.Book? ==> r == item.(isRead := r.isRead)
    ensures item.Movie? ==> r == item.(isSeen := r.isSeen)
    ensures item.Game? ==> r == item.(isPlayed := r.isPlayed)
  {
    match item
    case Concert(_, _, _, _, _, _, attended) => item.(attended := !attended)
    case Book(_, _, _, _, _, isRead) => item.(isRead := !isRead)
    case Movie(_, _, _, _, _, _, _, isSeen) => item.(isSeen := !isSeen)
    case Series(_, _, _, _, _, _) => item
    case Game(_, _, _, _, _, isPlayed) => item.(isPlayed := !isPlayed)
  }

  /** Flipping the status twice gives the item back; for a non-series item the
      status value goes from v to 1 - v. */
  lemma FlipStatusTwice(item: LeisureItem)
    ensures FlipStatus(FlipStatus(item)) == item
    ensures !item.Series? ==> StatusValue(FlipStatus(item)) == Ratio(1.0 - StatusValue(item).value)
  {
  }

  // ---------------------------------------------------------------------------
  // Search

  /** The filter's test: an empty lower-cased term keeps everything, otherwise
      the lower-cased title or details must include it. */
  predicate Matches(item: LeisureItem, term: string)
  {
    var t := Lower(term);
    t == "" || Includes(Lower(item.title), t) || Includes(Lower(Details(item)), t)
  }

  /** An item matches exactly when the term is empty or its lower-cased form
      occurs in the lower-cased title or details. */
  lemma MatchesSpec(item: LeisureItem, term: string)
    ensures Matches(item, term) <==>
              (|| term == ""
               || (exists i :: OccursAt(Lower(item.title), Lower(term), i))
               || (exists i :: OccursAt(Lower(Details(item)), Lower(term), i)))
  {
    IncludesIffOccurs(Lower(item.title), Lower(term));
    IncludesIffOccurs(Lower(Details(item)), Lower(term));
  }

  /** Search ignores the case of the term. */
  lemma MatchesIgnoresCase(item: LeisureItem, term: string)
    ensures Matches(item, Lower(term)) == Matches(item, term)
  {
    LowerIdempotent(term);
  }

  /** The `filter` step of the pipeline. */
  function FilterBySearch(items: seq<LeisureItem>, term: string): (r: seq<LeisureItem>)
    ensures |r| <= |items|
    ensures forall x :: x in r <==> x in items && Matches(x, term)
    decreases |items|
  {
    if |items| == 0 then []
    else if Matches(items[0], term) then [items[0]] + FilterBySearch(items[1..], term)
    else FilterBySearch(items[1..], term)
  }

  /** The filter keeps the order of the items it keeps. */
  lemma {:induction false} FilterAppend(a: seq<LeisureItem>, b: seq<LeisureItem>, term: string)
    ensures FilterBySearch(a + b, term) == FilterBySearch(a, term) + FilterBySearch(b, term)
    decreases |a|
  {
    if |a| > 0 {
      var t := a[1..];
      assert (a + b)[0] == a[0];
      assert (a + b)[1..] == t + b;
      FilterAppend(t, b, term);
      var ft, fb := FilterBySearch(t, term), FilterBySearch(b, term);
      assert [a[0]] + (ft + fb) == ([a[0]] + ft) + fb;
    } else {
      assert a + b == b;
    }
  }

  /** With an empty search term every item is kept, in order. */
  lemma {:induction false} FilterEmptyTerm(items: seq<LeisureItem>)
    ensures FilterBySearch(items, "") == items
    decreases |items|
  {
    if |items| > 0 {
      FilterEmptyTerm(items[1..]);
      assert items == [items[0]] + items[1..];
    }
  }

  // ---------------------------------------------------------------------------
  // Sort

  datatype Direction = Asc | Desc

  /** The key the comparator reads for a column. */
  function ColumnKey(column: string): LeisureItem -> SortKey
  {
    (item: LeisureItem) =>
      if column == "title" then Str(Lower(item.title))
      else if column == "details" then Str(Lower(Details(item)))
      else if column == "status" then
        (match StatusValue(item) case Ratio(v) => Num(v) case NaN => Unordered)
      else Unordered
  }

  /** "`a` sorts strictly before `b`" for the direction: the comparator answers -1. */
  function Comparator(dir: Direction): (SortKey, SortKey) -> bool
  {
    (a, b) => Before(dir == Desc, a, b)
  }

  /** A status sort is only well defined when no NaN takes part: NaN compares
      neither less nor greater than any number, which makes the comparator
      inconsistent and the order the sort produces implementation-defined. */
  predicate StatusSortable(items: seq<LeisureItem>, term: string, column: string)
  {
    column == "status" ==>
      forall x :: x in FilterBySearch(items, term) ==> StatusValue(x).Ratio?
  }

  /** `filteredItems`: filter by the search term, then, when a column is set,
      sort stably by that column in the chosen direction. */
  function FilterAndSort(items: seq<LeisureItem>, term: string, column: string, dir: Direction): seq<LeisureItem>
    requires StatusSortable(items, term, column)
  {
    var filtered := FilterBySearch(items, term);
    if column == "" then filtered
    else SortBy(filtered, ColumnKey(column), Comparator(dir))
  }

  /** The pipeline's result is a permutation of the filtered items; with a
      column set it is ordered by that column in the chosen direction, and the
      items sharing a key keep their relative order (stability); with no
      column, or an unknown one, it is the filtered list itself. */
  lemma FilterAndSortSpec(items: seq<LeisureItem>, term: string, column: string, dir: Direction)
    requires StatusSortable(items, term, column)
    ensures var filtered := FilterBySearch(items, term);
      var r := FilterAndSort(items, term, column, dir);
      && multiset(r) == multiset(filtered)
      && (column != "" ==> Sorted(r, ColumnKey(column), Comparator(dir)))
      && (forall k :: KeyClass(r, ColumnKey(column), k) == KeyClass(filtered, ColumnKey(column), k))
      && (column !in {"title", "details", "status"} ==> r == filtered)
  {
    var filtered := FilterBySearch(items, term);
    var key := ColumnKey(column);
    var lt := Comparator(dir);
    SortByPermutes(filtered, key, lt);
    if column != "" {
      BeforeIsStrictOrder(dir == Desc);
      assert StrictOrder(lt);
      SortBySorted(filtered, key, lt);
      forall k {
        SortByStable(filtered, key, lt, k);
      }
      if column !in {"title", "details", "status"} {
        SortByConstantKey(filtered, key, lt, Unordered);
      }
    }
  }

  /** A click on a column header: the same column reverses the direction,
      another column becomes the sort column in ascending order. */
  datatype SortState = SortState(column: string, direction: Direction)

  function Click(st: SortState, column: string): (r: SortState)
    ensures r.column == column
    ensures st.column == column ==> r.direction != st.direction
    ensures st.column != column ==> r.direction == Asc
  {
    if st.column == column then
      st.(direction := if st.direction == Asc then Desc else Asc)
    else SortState(column, Asc)
  }

  /** Two clicks on the current column restore the state; two clicks on a new
      column sort it descending. */
  lemma ClickTwice(st: SortState, column: string)
    ensures st.column == column ==> Click(Click(st, column), column) == st
    ensures st.column != column ==> Click(Click(st, column), column) == SortState(column, Desc)
  {
  }

  /** Adds an absent element, removes a present one. */
  function ToggleMember(s: set<string>, x: string): (r: set<string>)
    ensures forall y :: y in r <==> (if y == x then y !in s else y in s)
  {
    if x in s then s - {x} else s + {x}
  }

  lemma ToggleMemberTwice(s: set<string>, x: string)
    ensures ToggleMember(ToggleMember(s, x), x) == s
  {
  }

  // ---------------------------------------------------------------------------
  // Bulk marking

  /** The episodes with the first `k` watched flags set to `t`. */
  function MarkEpisodes(eps: seq<Episode>, t: bool, k: nat): (r: seq<Episode>)
    ensures |r| == |eps|
  {
    seq(|eps|, j requires 0 <= j < |eps| => if j < k then eps[j].(isWatched := t) else eps[j])
  }

  /** The seasons with every season before `si` fully marked and the first `ei`
      episodes of season `si` marked. */
  function MarkSeasons(seasons: seq<Season>, t: bool, si: nat, ei: nat): (r: seq<Season>)
    ensures |r| == |seasons|
  {
    seq(|seasons|, i requires 0 <= i < |seasons| =>
      if i < si then seasons[i].(episodes := MarkEpisodes(seasons[i].episodes, t, |seasons[i].episodes|))
      else if i == si then seasons[i].(episodes := MarkEpisodes(seasons[i].episodes, t, ei))
      else seasons[i])
  }

  /** The series with the first `k` episodes of season `s` marked `t`. */
  function MarkSeasonUpTo(f: LeisureItem, s: nat, t: bool, k: nat): LeisureItem
    requires f.Series? && s < |f.seasons|
  {
    f.(seasons := f.seasons[s := f.seasons[s].(episodes := MarkEpisodes(f.seasons[s].episodes, t, k))])
  }

  /** The series with every episode of season `s` marked `t`. */
  function MarkSeason(f: LeisureItem, s: nat, t: bool): LeisureItem
    requires f.Series? && s < |f.seasons|
  {
    MarkSeasonUpTo(f, s, t, |f.seasons[s].episodes|)
  }

  /** The series with every episode marked `t`. */
  function MarkSeries(f: LeisureItem, t: bool): LeisureItem
    requires f.Series?
  {
    f.(seasons := MarkSeasons(f.seasons, t, |f.seasons|, 0))
  }

  /** `toggleSeasonWatched` on the store's list, for the series `f` shown in the
      view: with no episode nothing is toggled; otherwise every episode of the
      season ends up at the target, the negation of "all watched". */
  function ToggleSeasonWatchedIn(items: seq<LeisureItem>, f: LeisureItem, s: nat): seq<LeisureItem>
    requires f.Series? && s < |f.seasons|
  {
    if |f.seasons[s].episodes| == 0 then items
    else UpdateById(items, MarkSeason(f, s, !SeasonWatched(f.seasons[s])))
  }

  /** `toggleSeriesWatched` likewise, over every season. */
  function ToggleSeriesWatchedIn(items: seq<LeisureItem>, f: LeisureItem): seq<LeisureItem>
    requires f.Series?
  {
    if TotalEpisodes(f.seasons) == 0 then items
    else UpdateById(items, MarkSeries(f, !SeriesWatched(f.seasons)))
  }

  /** Marking a season sets the flag of each of its episodes to `t` and
      changes nothing else in the series. */
  lemma MarkSeasonEffect(f: LeisureItem, s: nat, t: bool)
    requires f.Series? && s < |f.seasons|
    ensures var g := MarkSeason(f, s, t);
      && g.Series? && g.id == f.id && |g.seasons| == |f.seasons|
      && g == f.(seasons := g.seasons)
      && (forall i :: 0 <= i < |f.seasons| && i != s ==> g.seasons[i] == f.seasons[i])
      && g.seasons[s].seasonNumber == f.seasons[s].seasonNumber
      && |g.seasons[s].episodes| == |f.seasons[s].episodes|
      && (forall j :: 0 <= j < |f.seasons[s].episodes| ==>
            g.seasons[s].episodes[j] == f.seasons[s].episodes[j].(isWatched := t))
  {
  }

  /** The season toggle flips "all watched" of a season that has episodes:
      a partly watched season becomes fully watched, a fully watched one
      becomes fully unwatched. */
  lemma ToggleSeasonFlipsWatched(f: LeisureItem, s: nat)
    requires f.Series? && s < |f.seasons| && |f.seasons[s].episodes| > 0
    ensures var w := SeasonWatched(f.seasons[s]);
      var g := MarkSeason(f, s, !w);
      && SeasonWatched(g.seasons[s]) == !w
      && (forall j :: 0 <= j < |g.seasons[s].episodes| ==> g.seasons[s].episodes[j].isWatched == !w)
  {
    var w := SeasonWatched(f.seasons[s]);
    var g := MarkSeason(f, s, !w);
    if w {
      assert !g.seasons[s].episodes[0].isWatched;
    }
  }

  /** Marking a series sets every episode's flag to `t` and changes nothing
      else. */
  lemma MarkSeriesEffect(f: LeisureItem, t: bool)
    requires f.Series?
    ensures var g := MarkSeries(f, t);
      && g.Series? && g == f.(seasons := g.seasons) && |g.seasons| == |f.seasons|
      && (forall i :: 0 <= i < |f.seasons| ==>
            && g.seasons[i].seasonNumber == f.seasons[i].seasonNumber
            && |g.seasons[i].episodes| == |f.seasons[i].episodes|
            && (forall j :: 0 <= j < |f.seasons[i].episodes| ==>
                  g.seasons[i].episodes[j] == f.seasons[i].episodes[j].(isWatched := t)))
  {
  }

  /** The series toggle flips "all watched" of a series that has episodes. */
  lemma ToggleSeriesFlipsWatched(f: LeisureItem)
    requires f.Series? && TotalEpisodes(f.seasons) > 0
    ensures var w := SeriesWatched(f.seasons);
      SeriesWatched(MarkSeries(f, !w).seasons) == !w
  {
    var w := SeriesWatched(f.seasons);
    var g := MarkSeries(f, !w);
    MarkSeriesEffect(f, !w);
    TotalPositiveIff(f.seasons);
    var i :| 0 <= i < |f.seasons| && |f.seasons[i].episodes| > 0;
    if w {
      assert !g.seasons[i].episodes[0].isWatched;
      assert !SeasonWatched(g.seasons[i]);
    }
  }

  /** With unique ids, the season toggle replaces only the series itself. */
  lemma ToggleSeasonWatchedUnique(items: seq<LeisureItem>, f: LeisureItem, s: nat, k: nat)
    requires UniqueIds(items) && k < |items| && items[k] == f
    requires f.Series? && s < |f.seasons| && |f.seasons[s].episodes| > 0
    ensures ToggleSeasonWatchedIn(items, f, s)
         == items[k := MarkSeason(f, s, !SeasonWatched(f.seasons[s]))]
  {
    UpdateUnique(items, MarkSeason(f, s, !SeasonWatched(f.seasons[s])), k);
  }

  // Step lemmas linking the marking functions to the episode-by-episode loops.

  lemma MarkEpisodesNone(eps: seq<Episode>, t: bool)
    ensures MarkEpisodes(eps, t, 0) == eps
  {
  }

  /** One more episode: marking it either flips it (when it differs from the
      target) or changes nothing (when it already has it). */
  lemma MarkEpisodesStep(eps: seq<Episode>, t: bool, k: nat)
    requires k < |eps|
    ensures MarkEpisodes(eps, t, k)[k] == eps[k]
    ensures eps[k].isWatched != t ==>
      MarkEpisodes(eps, t, k + 1) == MarkEpisodes(eps, t, k)[k := eps[k].(isWatched := !eps[k].isWatched)]
    ensures eps[k].isWatched == t ==> MarkEpisodes(eps, t, k + 1) == MarkEpisodes(eps, t, k)
  {
    if eps[k].isWatched == t {
      assert eps[k].(isWatched := t) == eps[k];
    }
  }

  lemma MarkSeasonStep(f: LeisureItem, s: nat, t: bool, k: nat)
    requires f.Series? && s < |f.seasons| && k < |f.seasons[s].episodes|
    ensures var g := MarkSeasonUpTo(f, s, t, k);
      && g.Series? && g.id == f.id && EpisodeInRange(g.seasons, s, k)
      && (f.seasons[s].episodes[k].isWatched != t ==>
            g.(seasons := FlipEpisode(g.seasons, s, k)) == MarkSeasonUpTo(f, s, t, k + 1))
      && (f.seasons[s].episodes[k].isWatched == t ==> g == MarkSeasonUpTo(f, s, t, k + 1))
  {
    MarkEpisodesStep(f.seasons[s].episodes, t, k);
  }

  lemma MarkSeasonsStart(seasons: seq<Season>, t: bool)
    ensures MarkSeasons(seasons, t, 0, 0) == seasons
  {
    assert forall i :: 0 <= i < |seasons| ==> MarkEpisodes(seasons[i].episodes, t, 0) == seasons[i].episodes;
  }

  lemma MarkSeasonsNext(seasons: seq<Season>, t: bool, si: nat)
    requires si < |seasons|
    ensures MarkSeasons(seasons, t, si, |seasons[si].episodes|) == MarkSeasons(seasons, t, si + 1, 0)
  {
    var a := MarkSeasons(seasons, t, si, |seasons[si].episodes|);
    var b := MarkSeasons(seasons, t, si + 1, 0);
    forall i | 0 <= i < |seasons| ensures a[i] == b[i] {
      if i > si {
        assert MarkEpisodes(seasons[i].episodes, t, 0) == seasons[i].episodes;
      }
    }
  }

  lemma MarkSeriesStep(f: LeisureItem, t: bool, si: nat, ei: nat)
    requires f.Series? && si < |f.seasons| && ei < |f.seasons[si].episodes|
    ensures var g := f.(seasons := MarkSeasons(f.seasons, t, si, ei));
      && g.Series? && g.id == f.id && EpisodeInRange(g.seasons, si, ei)
      && (f.seasons[si].episodes[ei].isWatched != t ==>
            g.(seasons := FlipEpisode(g.seasons, si, ei)) == f.(seasons := MarkSeasons(f.seasons, t, si, ei + 1)))
      && (f.seasons[si].episodes[ei].isWatched == t ==> g == f.(seasons := MarkSeasons(f.seasons, t, si, ei + 1)))
  {
    var eps := f.seasons[si].episodes;
    MarkEpisodesStep(eps, t, ei);
    var m := MarkSeasons(f.seasons, t, si, ei);
    var m' := MarkSeasons(f.seasons, t, si, ei + 1);
    if eps[ei].isWatched != t {
      var flipped := FlipEpisode(m, si, ei);
      forall i | 0 <= i < |m| ensures flipped[i] == m'[i] {
      }
      assert flipped == m';
    } else {
      forall i | 0 <= i < |m| ensures m[i] == m'[i] {
      }
      assert m == m';
    }
  }

  /** Every episode before position (si, ei), in season-then-episode order,
      already has the flag `t`. */
  ghost predicate Untouched(seasons: seq<Season>, t: bool, si: nat, ei: nat)
  {
    forall i, j :: 0 <= i < |seasons| && 0 <= j < |seasons[i].episodes| && (i < si || (i == si && j < ei)) ==>
      seasons[i].episodes[j].isWatched == t
  }

  /** Marking episodes that already carry the flag changes nothing. */
  lemma UntouchedMarksNothing(seasons: seq<Season>, t: bool, si: nat, ei: nat)
    requires Untouched(seasons, t, si, ei)
    ensures MarkSeasons(seasons, t, si, ei) == seasons
  {
    var m := MarkSeasons(seasons, t, si, ei);
    forall i | 0 <= i < |seasons| ensures m[i] == seasons[i] {
      var eps := seasons[i].episodes;
      if i < si {
        assert forall j :: 0 <= j < |eps| ==> eps[j].(isWatched := t) == eps[j];
        assert MarkEpisodes(eps, t, |eps|) == eps;
      } else if i == si {
        assert forall j :: 0 <= j < |eps| && j < ei ==> eps[j].(isWatched := t) == eps[j];
        assert MarkEpisodes(eps, t, ei) == eps;
      }
    }
  }

  /** A series with an episode has one whose flag differs from the series
      toggle's target. */
  lemma SeriesHasDiffering(seasons: seq<Season>)
    ensures TotalEpisodes(seasons) > 0 ==>
      exists i, j :: 0 <= i < |seasons| && 0 <= j < |seasons[i].episodes| &&
        seasons[i].episodes[j].isWatched != !SeriesWatched(seasons)
  {
    TotalPositiveIff(seasons);
    if TotalEpisodes(seasons) > 0 {
      var i :| 0 <= i < |seasons| && |seasons[i].episodes| > 0;
      if SeriesWatched(seasons) {
        assert seasons[i].episodes[0].isWatched;
      } else {
        var k :| 0 <= k < |seasons| && !SeasonWatched(seasons[k]);
        var j :| 0 <= j < |seasons[k].episodes| && !seasons[k].episodes[j].isWatched;
        assert seasons[k].episodes[j].isWatched != !SeriesWatched(seasons);
      }
    }
  }

  /** A season with an episode has one whose flag differs from the season
      toggle's target. */
  lemma SeasonHasDiffering(season: Season)
    ensures |season.episodes| > 0 ==>
      exists j :: 0 <= j < |season.episodes| && season.episodes[j].isWatched != !SeasonWatched(season)
  {
    if |season.episodes| > 0 && SeasonWatched(season) {
      assert season.episodes[0].isWatched;
    }
  }

  /** The first `e` episodes already have the flag `t`. */
  ghost predicate EpisodesUntouched(eps: seq<Episode>, t: bool, e: nat)
  {
    forall j :: 0 <= j < e && j < |eps| ==> eps[j].isWatched == t
  }

  /** Marking a season's episodes that already carry the flag changes nothing. */
  lemma SeasonUntouchedMarksNothing(f: LeisureItem, s: nat, t: bool, e: nat)
    requires f.Series? && s < |f.seasons| && EpisodesUntouched(f.seasons[s].episodes, t, e)
    ensures MarkSeasonUpTo(f, s, t, e) == f
  {
    var eps := f.seasons[s].episodes;
    assert forall j :: 0 <= j < |eps| && j < e ==> eps[j].(isWatched := t) == eps[j];
    assert MarkEpisodes(eps, t, e) == eps;
    assert f.seasons[s := f.seasons[s]] == f.seasons;
  }

  /** The state of the season loop before episode `e`: either nothing was
      toggled yet and every episode so far already had the target, or the
      store holds the series with the season marked up to there. */
  ghost predicate SeasonLoop(items: seq<LeisureItem>, items0: seq<LeisureItem>, f: LeisureItem, s: nat,
                             t: bool, touched: bool, e: nat)
    requires f.Series? && s < |f.seasons|
  {
    && (touched ==> 0 < e && items == UpdateById(items0, MarkSeasonUpTo(f, s, t, e)))
    && (!touched ==> items == items0 && EpisodesUntouched(f.seasons[s].episodes, t, e))
  }

  lemma SeasonLoopToggle(items: seq<LeisureItem>, items0: seq<LeisureItem>, id: string, f: LeisureItem, s: nat,
                         t: bool, touched: bool, e: nat)
    requires f.Series? && FindById(items0, id) == Some(f)
    requires s < |f.seasons| && e < |f.seasons[s].episodes| && f.seasons[s].episodes[e].isWatched != t
    requires SeasonLoop(items, items0, f, s, t, touched, e)
    ensures Addressable(items, id, s, e)
    ensures SeasonLoop(ToggleEpisodeIn(items, id, s, e), items0, f, s, t, true, e + 1)
  {
    FindByIdSpec(items0, id);
    MarkSeasonStep(f, s, t, e);
    if touched {
      ToggleAfterUpdate(items0, MarkSeasonUpTo(f, s, t, e), s, e);
    } else {
      SeasonUntouchedMarksNothing(f, s, t, e);
    }
  }

  lemma SeasonLoopSkip(items: seq<LeisureItem>, items0: seq<LeisureItem>, f: LeisureItem, s: nat,
                       t: bool, touched: bool, e: nat)
    requires f.Series? && s < |f.seasons| && e < |f.seasons[s].episodes| && f.seasons[s].episodes[e].isWatched == t
    requires SeasonLoop(items, items0, f, s, t, touched, e)
    ensures SeasonLoop(items, items0, f, s, t, touched, e + 1)
  {
    MarkSeasonStep(f, s, t, e);
  }

  lemma SeasonLoopDone(items: seq<LeisureItem>, items0: seq<LeisureItem>, f: LeisureItem, s: nat, touched: bool)
    requires f.Series? && s < |f.seasons|
    requires SeasonLoop(items, items0, f, s, !SeasonWatched(f.seasons[s]), touched, |f.seasons[s].episodes|)
    ensures items == ToggleSeasonWatchedIn(items0, f, s)
  {
    SeasonHasDiffering(f.seasons[s]);
  }

  /** The state of the series loop before episode (si, ei): either nothing
      was toggled yet and every episode so far already had the target, or the
      store holds the series marked up to there. */
  ghost predicate SeriesLoop(items: seq<LeisureItem>, items0: seq<LeisureItem>, f: LeisureItem,
                             t: bool, touched: bool, si: nat, ei: nat)
    requires f.Series?
  {
    && (touched ==> TotalEpisodes(f.seasons) > 0
                    && items == UpdateById(items0, f.(seasons := MarkSeasons(f.seasons, t, si, ei))))
    && (!touched ==> items == items0 && Untouched(f.seasons, t, si, ei))
  }

  lemma SeriesLoopToggle(items: seq<LeisureItem>, items0: seq<LeisureItem>, id: string, f: LeisureItem,
                         t: bool, touched: bool, si: nat, ei: nat)
    requires f.Series? && FindById(items0, id) == Some(f)
    requires si < |f.seasons| && ei < |f.seasons[si].episodes| && f.seasons[si].episodes[ei].isWatched != t
    requires SeriesLoop(items, items0, f, t, touched, si, ei)
    ensures Addressable(items, id, si, ei)
    ensures SeriesLoop(ToggleEpisodeIn(items, id, si, ei), items0, f, t, true, si, ei + 1)
  {
    FindByIdSpec(items0, id);
    MarkSeriesStep(f, t, si, ei);
    TotalPositiveIff(f.seasons);
    var g := f.(seasons := MarkSeasons(f.seasons, t, si, ei));
    if touched {
      ToggleAfterUpdate(items0, g, si, ei);
    } else {
      UntouchedMarksNothing(f.seasons, t, si, ei);
      assert g == f;
    }
  }

  lemma SeriesLoopSkip(items: seq<LeisureItem>, items0: seq<LeisureItem>, f: LeisureItem,
                       t: bool, touched: bool, si: nat, ei: nat)
    requires f.Series?
    requires si < |f.seasons| && ei < |f.seasons[si].episodes| && f.seasons[si].episodes[ei].isWatched == t
    requires SeriesLoop(items, items0, f, t, touched, si, ei)
    ensures SeriesLoop(items, items0, f, t, touched, si, ei + 1)
  {
    MarkSeriesStep(f, t, si, ei);
  }

  lemma SeriesLoopNext(items: seq<LeisureItem>, items0: seq<LeisureItem>, f: LeisureItem,
                       t: bool, touched: bool, si: nat)
    requires f.Series? && si < |f.seasons|
    requires SeriesLoop(items, items0, f, t, touched, si, |f.seasons[si].episodes|)
    ensures SeriesLoop(items, items0, f, t, touched, si + 1, 0)
  {
    MarkSeasonsNext(f.seasons, t, si);
  }

  lemma SeriesLoopDone(items: seq<LeisureItem>, items0: seq<LeisureItem>, f: LeisureItem, touched: bool)
    requires f.Series?
    requires SeriesLoop(items, items0, f, !SeriesWatched(f.seasons), touched, |f.seasons|, 0)
    ensures items == ToggleSeriesWatchedIn(items0, f)
  {
    SeriesHasDiffering(f.seasons);
  }

  // ---------------------------------------------------------------------------
  // The component

  class ListComponent {
    const storage: StorageService
    /** The route's category parameter; `None` when the route has none. */
    var category: Option<Category>
    var searchTerm: string
    var sortColumn: string
    var sortDirection: Direction
    var expandedSeries: set<string>

    constructor (storage: StorageService, category: Option<Category>)
      ensures this.storage == storage && this.category == category
      ensures searchTerm == "" && sortColumn == "" && sortDirection == Asc
      ensures expandedSeries == {}
    {
      this.storage := storage;
      this.category := category;
      searchTerm := "";
      sortColumn := "";
      sortDirection := Asc;
      expandedSeries := {};
    }

    /** The store's view of the current category; empty without one. */
    function Items(): seq<LeisureItem>
      reads this, storage
    {
      if category.None? then [] else ByCategory(storage.items, category.value)
    }

    /** What the page lists. */
    function FilteredItems(): seq<LeisureItem>
      reads this, storage
      requires StatusSortable(Items(), searchTerm, sortColumn)
    {
      FilterAndSort(Items(), searchTerm, sortColumn, sortDirection)
    }

    /** The item the view finds for the id is the one the store finds first
        (true whenever ids are unique), so the store's edits hit the series the
        view inspected. */
    predicate ShownIsStored(id: string)
      reads this, storage
    {
      var shown := FindById(Items(), id);
      shown.Some? ==> FindById(storage.items, id) == shown
    }

    method ToggleSort(column: string)
      modifies this`sortColumn, this`sortDirection
      ensures SortState(sortColumn, sortDirection) == Click(SortState(old(sortColumn), old(sortDirection)), column)
    {
      if sortColumn == column {
        sortDirection := if sortDirection == Asc then Desc else Asc;
      } else {
        sortColumn := column;
        sortDirection := Asc;
      }
    }

    method ToggleSeries(id: string)
      modifies this`expandedSeries
      ensures expandedSeries == ToggleMember(old(expandedSeries), id)
    {
      if id in expandedSeries {
        expandedSeries := expandedSeries - {id};
      } else {
        expandedSeries := expandedSeries + {id};
      }
    }

    method ToggleItemStatus(item: LeisureItem)
      modifies storage`items
      ensures storage.items == UpdateById(old(storage.items), FlipStatus(item))
    {
      var updated := item;
      match updated {
        case Concert(_, _, _, _, _, _, attended) => updated := updated.(attended := !attended);
        case Book(_, _, _, _, _, isRead) => updated := updated.(isRead := !isRead);
        case Movie(_, _, _, _, _, _, _, isSeen) => updated := updated.(isSeen := !isSeen);
        case Series(_, _, _, _, _, _) =>
        case Game(_, _, _, _, _, isPlayed) => updated := updated.(isPlayed := !isPlayed);
      }
      storage.UpdateItem(updated);
    }

    method ToggleEpisode(id: string, s: nat, e: nat)
      requires Addressable(storage.items, id, s, e)
      modifies storage`items
      ensures storage.items == ToggleEpisodeIn(old(storage.items), id, s, e)
    {
      storage.ToggleEpisode(id, s, e);
    }

    /** Deletes through the store once the confirmation dialog says yes. */
    method DeleteItem(id: string, confirmed: bool)
      modifies storage`items
      ensures storage.items == if confirmed then DeleteById(old(storage.items), id) else old(storage.items)
    {
      if confirmed {
        storage.DeleteItem(id);
      }
    }

    /** Toggles, one store call at a time, every episode of the season whose
        flag differs from the target. Reading the season of an item that is
        not a series, or a season past the end, throws before any store call:
        `threw` reports it and nothing changes. */
    method ToggleSeasonWatched(id: string, sIdx: nat) returns (threw: bool)
      requires ShownIsStored(id)
      modifies storage`items
      ensures var shown := FindById(old(Items()), id);
        threw <==> shown.Some? && !(shown.value.Series? && sIdx < |shown.value.seasons|)
      ensures var shown := FindById(old(Items()), id);
        storage.items == if shown.None? || threw then old(storage.items)
                         else ToggleSeasonWatchedIn(old(storage.items), shown.value, sIdx)
    {
      var shown := FindById(Items(), id);
      if shown.None? {
        return false;
      }
      var series := shown.value;
      if !(series.Series? && sIdx < |series.seasons|) {
        return true;
      }
      threw := false;
      var target := !SeasonWatched(series.seasons[sIdx]);
      ghost var items0 := storage.items;
      assert FindById(items0, id) == Some(series);
      ghost var touched := ToggleEpisodesOfShownSeason(id, series, sIdx, target, items0);
      SeasonLoopDone(storage.items, items0, series, sIdx, touched);
    }

    /** The `forEach` of the season toggle: one store call per episode whose
        flag differs from the target. */
    method ToggleEpisodesOfShownSeason(id: string, series: LeisureItem, sIdx: nat, target: bool,
                                       ghost items0: seq<LeisureItem>)
      returns (ghost touched: bool)
      requires series.Series? && FindById(items0, id) == Some(series) && sIdx < |series.seasons|
      requires SeasonLoop(storage.items, items0, series, sIdx, target, false, 0)
      modifies storage`items
      ensures SeasonLoop(storage.items, items0, series, sIdx, target, touched, |series.seasons[sIdx].episodes|)
    {
      touched := false;
      var episodes := series.seasons[sIdx].episodes;
      var eIdx := 0;
      while eIdx < |episodes|
        invariant 0 <= eIdx <= |episodes|
        invariant SeasonLoop(storage.items, items0, series, sIdx, target, touched, eIdx)
      {
        if episodes[eIdx].isWatched != target {
          SeasonLoopToggle(storage.items, items0, id, series, sIdx, target, touched, eIdx);
          storage.ToggleEpisode(id, sIdx, eIdx);
          touched := true;
        } else {
          SeasonLoopSkip(storage.items, items0, series, sIdx, target, touched, eIdx);
        }
        eIdx := eIdx + 1;
      }
    }

    /** Toggles, one store call at a time, every episode of every season whose
        flag differs from the target. Reading the seasons of an item that is
        not a series throws before any store call: `threw` reports it and
        nothing changes. */
    method ToggleSeriesWatched(id: string) returns (threw: bool)
      requires ShownIsStored(id)
      modifies storage`items
      ensures var shown := FindById(old(Items()), id);
        threw <==> shown.Some? && !shown.value.Series?
      ensures var shown := FindById(old(Items()), id);
        storage.items == if shown.None? || threw then old(storage.items)
                         else ToggleSeriesWatchedIn(old(storage.items), shown.value)
    {
      var shown := FindById(Items(), id);
      if shown.None? {
        return false;
      }
      var series := shown.value;
      if !series.Series? {
        return true;
      }
      threw := false;
      var target := !SeriesWatched(series.seasons);
      ghost var items0 := storage.items;
      assert FindById(items0, id) == Some(series);
      ghost var touched := false;
      var sIdx := 0;
      while sIdx < |series.seasons|
        invariant 0 <= sIdx <= |series.seasons|
        invariant SeriesLoop(storage.items, items0, series, target, touched, sIdx, 0)
      {
        touched := ToggleEpisodesOfSeason(id, series, sIdx, target, items0, touched);
        SeriesLoopNext(storage.items, items0, series, target, touched, sIdx);
        sIdx := sIdx + 1;
      }
      SeriesLoopDone(storage.items, items0, series, touched);
    }

    /** The inner `forEach` of the series toggle: one season's episodes. */
    method ToggleEpisodesOfSeason(id: string, series: LeisureItem, sIdx: nat, target: bool,
                                  ghost items0: seq<LeisureItem>, ghost touched: bool)
      returns (ghost touchedAfter: bool)
      requires series.Series? && FindById(items0, id) == Some(series) && sIdx < |series.seasons|
      requires SeriesLoop(storage.items, items0, series, target, touched, sIdx, 0)
      modifies storage`items
      ensures SeriesLoop(storage.items, items0, series, target, touchedAfter, sIdx, |series.seasons[sIdx].episodes|)
    {
      touchedAfter := touched;
      var episodes := series.seasons[sIdx].episodes;
      var eIdx := 0;
      while eIdx < |episodes|
        invariant 0 <= eIdx <= |episodes|
        invariant SeriesLoop(storage.items, items0, series, target, touchedAfter, sIdx, eIdx)
      {
        if episodes[eIdx].isWatched != target {
          SeriesLoopToggle(storage.items, items0, id, series, target, touchedAfter, sIdx, eIdx);
          storage.ToggleEpisode(id, sIdx, eIdx);
          touchedAfter := true;
        } else {
          SeriesLoopSkip(storage.items, items0, series, target, touchedAfter, sIdx, eIdx);
        }
        eIdx := eIdx + 1;
      }
    }

    /** Prompts with the episode's comment; a non-null answer (possibly empty)
        becomes the new comment, a cancelled prompt changes nothing. Reading
        the episode of an item that is not a series, or an episode out of
        range, throws before the prompt: `threw` reports it and nothing changes. */
    method EditEpisodeComment(id: string, sIdx: nat, eIdx: nat, answer: Option<string>) returns (threw: bool)
      requires ShownIsStored(id)
      modifies storage`items
      ensures var shown := FindById(old(Items()), id);
        threw <==> shown.Some? && !(shown.value.Series? && EpisodeInRange(shown.value.seasons, sIdx, eIdx))
      ensures var shown := FindById(old(Items()), id);
        storage.items == if shown.Some? && !threw && answer.Some?
                         then CommentEpisodeIn(old(storage.items), id, sIdx, eIdx, answer.value)
                         else old(storage.items)
    {
      var shown := FindById(Items(), id);
      if shown.None? {
        return false;
      }
      if !(shown.value.Series? && EpisodeInRange(shown.value.seasons, sIdx, eIdx)) {
        return true;
      }
      threw := false;
      if answer.Some? {
        storage.UpdateEpisodeComment(id, sIdx, eIdx, answer.value);
      }
    }

    /** Once confirmed, sets the episode's comment to the empty string. */
    method DeleteEpisodeComment(id: string, sIdx: nat, eIdx: nat, confirmed: bool)
      requires confirmed ==> Addressable(storage.items, id, sIdx, eIdx)
      modifies storage`items
      ensures storage.items == if confirmed then CommentEpisodeIn(old(storage.items), id, sIdx, eIdx, "")
                               else old(storage.items)
    {
      if confirmed {
        storage.UpdateEpisodeComment(id, sIdx, eIdx, "");
      }
    }
  }
}
