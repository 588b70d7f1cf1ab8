/** Concrete scenarios the application is expected to exhibit, stated over the
    model: add order, a single episode toggle and its undo, the season bulk
    toggle, the category-scoped search, a stable status sort and the
    memory-only fallback when the durable slot is unusable. */
module Scenarios {
  import opened Wrappers
  import opened Models
  import opened Text
  import opened Storage
  import opened Sorting
  import opened ListView

  /** Two adds put the later item first. */
  method AddOrdering(read: SlotRead, x: LeisureItem, y: LeisureItem) returns (store: StorageService)
    ensures |store.items| >= 2 && store.items[0] == y && store.items[1] == x
    ensures store.items[2..] == LoadedItems(read)
  {
    store := new StorageService(read);
    store.AddItem(x);
    store.AddItem(y);
  }

  /** When reading the slot throws, the store starts empty in memory-only mode
      and no later save reaches the slot. */
  method MemoryOnlyFallback(w1: WriteResult, w2: WriteResult) returns (store: StorageService)
    ensures store.items == [] && !store.storageAvailable && store.slot == None
  {
    store := new StorageService(Threw);
    store.SaveToStorage(w1);
    store.SaveToStorage(w2);
  }

  function Unwatched(n: int): Episode
  {
    Episode(n, false, None)
  }

  function ThreeEpisodeSeries(eps: seq<Episode>): LeisureItem
  {
    LeisureItem.Series("s1", "Serie", None, 0, None, [Season(1, eps)])
  }

  lemma FlipSecondOfThree()
    ensures var seasons := [Season(1, [Unwatched(1), Unwatched(2), Unwatched(3)])];
      EpisodeInRange(seasons, 0, 1)
      && FlipEpisode(seasons, 0, 1) == [Season(1, [Unwatched(1), Episode(2, true, None), Unwatched(3)])]
  {
    var seasons := [Season(1, [Unwatched(1), Unwatched(2), Unwatched(3)])];
    var r := FlipEpisode(seasons, 0, 1);
    assert r[0].episodes == [Unwatched(1), Episode(2, true, None), Unwatched(3)];
    assert r[0] == Season(1, [Unwatched(1), Episode(2, true, None), Unwatched(3)]);
  }

  /** One season of three unwatched episodes: toggling episode 1 marks exactly
      that one, toggling it again restores the list. */
  lemma EpisodeToggleScenario()
    ensures var before := [ThreeEpisodeSeries([Unwatched(1), Unwatched(2), Unwatched(3)])];
      && Addressable(before, "s1", 0, 1)
      && ToggleEpisodeIn(before, "s1", 0, 1)
         == [ThreeEpisodeSeries([Unwatched(1), Episode(2, true, None), Unwatched(3)])]
      && ToggleEpisodeIn(ToggleEpisodeIn(before, "s1", 0, 1), "s1", 0, 1) == before
  {
    var before := [ThreeEpisodeSeries([Unwatched(1), Unwatched(2), Unwatched(3)])];
    var after := ThreeEpisodeSeries([Unwatched(1), Episode(2, true, None), Unwatched(3)]);
    assert FindById(before, "s1") == Some(before[0]);
    FlipSecondOfThree();
    assert before[0].(seasons := FlipEpisode(before[0].seasons, 0, 1)) == after;
    assert UpdateById(before, after) == [after];
    ToggleEpisodeTwiceRestores(before, "s1", 0, 1);
  }

  lemma MarkThree(a: bool, b: bool, c: bool, t: bool)
    ensures MarkEpisodes([Episode(1, a, None), Episode(2, b, None), Episode(3, c, None)], t, 3)
         == [Episode(1, t, None), Episode(2, t, None), Episode(3, t, None)]
  {
    var r := MarkEpisodes([Episode(1, a, None), Episode(2, b, None), Episode(3, c, None)], t, 3);
    assert r[0] == Episode(1, t, None) && r[1] == Episode(2, t, None) && r[2] == Episode(3, t, None);
  }

  /** A season with two of three episodes watched: the season toggle marks all
      three watched, and toggling the result marks all three unwatched. */
  lemma SeasonToggleScenario()
    ensures var partly := ThreeEpisodeSeries([Episode(1, true, None), Unwatched(2), Episode(3, true, None)]);
      var all := ThreeEpisodeSeries([Episode(1, true, None), Episode(2, true, None), Episode(3, true, None)]);
      var none := ThreeEpisodeSeries([Unwatched(1), Unwatched(2), Unwatched(3)]);
      && ToggleSeasonWatchedIn([partly], partly, 0) == [all]
      && ToggleSeasonWatchedIn([all], all, 0) == [none]
  {
    var partly := ThreeEpisodeSeries([Episode(1, true, None), Unwatched(2), Episode(3, true, None)]);
    var all := ThreeEpisodeSeries([Episode(1, true, None), Episode(2, true, None), Episode(3, true, None)]);
    var none := ThreeEpisodeSeries([Unwatched(1), Unwatched(2), Unwatched(3)]);
    assert !SeasonWatched(partly.seasons[0]) by {
      assert !partly.seasons[0].episodes[1].isWatched;
    }
    MarkThree(true, false, true, true);
    assert [Season(1, [Episode(1, true, None), Unwatched(2), Episode(3, true, None)])][0 := Season(1, [Episode(1, true, None), Episode(2, true, None), Episode(3, true, None)])]
        == all.seasons;
    assert MarkSeason(partly, 0, true) == all;
    assert UpdateById([partly], all) == [all];
    assert SeasonWatched(all.seasons[0]);
    MarkThree(true, true, true, false);
    assert [Season(1, [Episode(1, true, None), Episode(2, true, None), Episode(3, true, None)])][0 := Season(1, [Unwatched(1), Unwatched(2), Unwatched(3)])]
        == none.seasons;
    assert MarkSeason(all, 0, false) == none;
    assert UpdateById([all], none) == [none];
  }

  const Dune: LeisureItem := Book("1", "Dune", None, 0, "Herbert", false)
  const Inception: LeisureItem := Movie("2", "Inception", None, 0, None, None, None, false)

  lemma ByCategoryOfTwo()
    ensures ByCategory([Dune, Inception], Books) == [Dune]
    ensures ByCategory([Dune, Inception], Movies) == [Inception]
  {
    assert [Dune, Inception][1..] == [Inception];
    assert [Inception][1..] == [];
  }

  lemma DuneMatchesHerb()
    ensures Matches(Dune, "herb")
  {
    var d := Lower("Herbert");
    assert Lower("herb") == "herb";
    assert d[..4] == "herb";
    assert Details(Dune) == "Herbert";
  }

  lemma InceptionTitleMissesHerb()
    ensures !Includes(Lower("Inception"), "herb")
  {
    var title := Lower("Inception");
    forall k | 0 <= k < |title| ensures title[k] != 'h' {
      assert "Inception"[k] in "Inception";
    }
    MissingFirstChar(title, "herb");
  }

  lemma InceptionDetailsMissHerb()
    ensures !Includes(Lower(Details(Inception)), "herb")
  {
    assert Details(Inception) == "  ";
    var details := Lower("  ");
    assert details == "  ";
    MissingFirstChar(details, "herb");
  }

  lemma InceptionMissesHerb()
    ensures !Matches(Inception, "herb")
  {
    assert Lower("herb") == "herb";
    InceptionTitleMissesHerb();
    InceptionDetailsMissHerb();
  }

  /** Searching "herb" finds the book through its author and nothing among the
      movies. */
  lemma SearchScenario()
    ensures FilterBySearch(ByCategory([Dune, Inception], Books), "herb") == [Dune]
    ensures FilterBySearch(ByCategory([Dune, Inception], Movies), "herb") == []
  {
    ByCategoryOfTwo();
    DuneMatchesHerb();
    InceptionMissesHerb();
    assert [Dune][1..] == [] && [Inception][1..] == [];
  }

  function Watchable(id: string, seen: bool): LeisureItem
  {
    Movie(id, id, None, 0, None, None, None, seen)
  }

  lemma StatusKeys()
    ensures ColumnKey("status")(Watchable("A", true)) == Num(1.0)
    ensures ColumnKey("status")(Watchable("B", false)) == Num(0.0)
    ensures ColumnKey("status")(Watchable("C", true)) == Num(1.0)
  {
  }

  lemma SortThree()
    ensures var a := Watchable("A", true);
      var b := Watchable("B", false);
      var c := Watchable("C", true);
      SortBy([a, b, c], ColumnKey("status"), Comparator(Asc)) == [b, a, c]
  {
    var a := Watchable("A", true);
    var b := Watchable("B", false);
    var c := Watchable("C", true);
    var key := ColumnKey("status");
    var lt := Comparator(Asc);
    StatusKeys();
    assert [a, b, c][..2] == [a, b] && [a, b][..1] == [a] && [a][..0] == [];
    assert SortBy([a], key, lt) == [a];
    assert lt(key(b), key(a));
    assert SortBy([a, b], key, lt) == [b, a];
    assert !lt(key(c), key(b)) && !lt(key(c), key(a));
    assert [b, a][1..] == [a] && [a][1..] == [];
    assert Insert(c, [a], key, lt) == [a, c];
    assert Insert(c, [b, a], key, lt) == [b, a, c];
  }

  /** Status values [1, 0, 1] for A, B, C sort ascending to B, A, C: the two
      equal keys keep their order. */
  lemma StableStatusSortScenario()
    ensures var a := Watchable("A", true);
      var b := Watchable("B", false);
      var c := Watchable("C", true);
      && StatusSortable([a, b, c], "", "status")
      && FilterAndSort([a, b, c], "", "status", Asc) == [b, a, c]
  {
    var a := Watchable("A", true);
    var b := Watchable("B", false);
    var c := Watchable("C", true);
    FilterEmptyTerm([a, b, c]);
    assert StatusSortable([a, b, c], "", "status") by {
      assert forall x :: x in [a, b, c] ==> !x.Series?;
    }
    SortThree();
    assert FilterAndSort([a, b, c], "", "status", Asc)
        == SortBy([a, b, c], ColumnKey("status"), Comparator(Asc));
  }
}
