/** The store: one in-memory list of items, newest first, with prepend-add,
    replace-by-id, delete-by-id, a category view, two nested episode edits done
    as copy-then-replace, and the flag that switches persistence off. */
module Storage {
  import opened Wrappers
  import opened Models

  // ---------------------------------------------------------------------------
  // Identity and lookup

  predicate HasId(items: seq<LeisureItem>, id: string)
  {
    exists i :: 0 <= i < |items| && items[i].id == id
  }

  /** The invariant the application relies on: no two items share an id. */
  predicate UniqueIds(items: seq<LeisureItem>)
  {
    forall i, j :: 0 <= i < j < |items| ==> items[i].id != items[j].id
  }

  /** Position of the first item with the id, or `|items|` when there is none. */
  function FirstIndex(items: seq<LeisureItem>, id: string): (k: nat)
    ensures k <= |items|
    ensures k < |items| ==> items[k].id == id
    ensures forall j :: 0 <= j < k ==> items[j].id != id
    decreases |items|
  {
    if |items| == 0 then 0
    else if items[0].id == id then 0
    else 1 + FirstIndex(items[1..], id)
  }

  /** `items.find(i => i.id === id)`. */
  function FindById(items: seq<LeisureItem>, id: string): (r: Option<LeisureItem>)
  {
    var k := FirstIndex(items, id);
    if k < |items| then Some(items[k]) else None
  }

  /** `find` answers exactly when some item has the id, and then with one that has it. */
  lemma FindByIdSpec(items: seq<LeisureItem>, id: string)
    ensures FindById(items, id).Some? <==> HasId(items, id)
    ensures FindById(items, id).Some? ==> FindById(items, id).value in items && FindById(items, id).value.id == id
  {
  }

  // ---------------------------------------------------------------------------
  // The list transformations behind addItem, updateItem, deleteItem and
  // getItemsByCategory

  /** `items.map(item => item.id === updated.id ? updated : item)`. */
  function UpdateById(items: seq<LeisureItem>, updated: LeisureItem): (r: seq<LeisureItem>)
    ensures |r| == |items|
    ensures forall i :: 0 <= i < |items| ==>
              r[i] == (if items[i].id == updated.id then updated else items[i])
    decreases |items|
  {
    if |items| == 0 then []
    else [if items[0].id == updated.id then updated else items[0]] + UpdateById(items[1..], updated)
  }

  /** `items.filter(item => item.id !== id)`. */
  function DeleteById(items: seq<LeisureItem>, id: string): (r: seq<LeisureItem>)
    ensures |r| <= |items|
    ensures forall x :: x in r <==> x in items && x.id != id
    decreases |items|
  {
    if |items| == 0 then []
    else if items[0].id == id then DeleteById(items[1..], id)
    else [items[0]] + DeleteById(items[1..], id)
  }

  /** `items.filter(item => item.category === category)`. */
  function ByCategory(items: seq<LeisureItem>, c: Category): (r: seq<LeisureItem>)
    ensures |r| <= |items|
    ensures forall x :: x in r <==> x in items && CategoryOf(x) == c
    decreases |items|
  {
    if |items| == 0 then []
    else if CategoryOf(items[0]) == c then [items[0]] + ByCategory(items[1..], c)
    else ByCategory(items[1..], c)
  }

  // ---------------------------------------------------------------------------
  // Properties of update

  /** With no item carrying the id, update leaves the list as it was. */
  lemma UpdateAbsent(items: seq<LeisureItem>, updated: LeisureItem)
    requires !HasId(items, updated.id)
    ensures UpdateById(items, updated) == items
  {
  }

  /** A second update with the same id overrides the first: updating twice is
      updating once with the later value, and updating again with the same value
      changes nothing. */
  lemma UpdateTwice(items: seq<LeisureItem>, first: LeisureItem, second: LeisureItem)
    requires first.id == second.id
    ensures UpdateById(UpdateById(items, first), second) == UpdateById(items, second)
  {
  }

  /** When ids are unique, update replaces the one item holding the id and no other. */
  lemma UpdateUnique(items: seq<LeisureItem>, updated: LeisureItem, k: nat)
    requires UniqueIds(items) && k < |items| && items[k].id == updated.id
    ensures UpdateById(items, updated) == items[k := updated]
  {
  }

  /** Update keeps every id where it was, so it keeps ids unique. */
  lemma UpdateKeepsIds(items: seq<LeisureItem>, updated: LeisureItem)
    ensures forall i :: 0 <= i < |items| ==> UpdateById(items, updated)[i].id == items[i].id
    ensures UniqueIds(items) ==> UniqueIds(UpdateById(items, updated))
  {
  }

  /** After an update of a present id, `find` returns the new value. */
  lemma FindAfterUpdate(items: seq<LeisureItem>, updated: LeisureItem)
    requires HasId(items, updated.id)
    ensures FindById(UpdateById(items, updated), updated.id) == Some(updated)
  {
    var r := UpdateById(items, updated);
    var k := FirstIndex(items, updated.id);
    assert forall j :: 0 <= j < |r| ==> (r[j].id == updated.id <==> items[j].id == updated.id);
    FirstIndexUnique(r, updated.id, k);
  }

  /** The first index is determined by where the id first occurs. */
  lemma FirstIndexUnique(items: seq<LeisureItem>, id: string, k: nat)
    requires k < |items| && items[k].id == id
    requires forall j :: 0 <= j < k ==> items[j].id != id
    ensures FirstIndex(items, id) == k
  {
  }

  // ---------------------------------------------------------------------------
  // Properties of delete

  /** Delete distributes over concatenation: it keeps the survivors in order. */
  lemma {:induction false} DeleteAppend(a: seq<LeisureItem>, b: seq<LeisureItem>, id: string)
    ensures DeleteById(a + b, id) == DeleteById(a, id) + DeleteById(b, id)
    decreases |a|
  {
    if |a| > 0 {
      var t := a[1..];
      assert (a + b)[0] == a[0];
      assert (a + b)[1..] == t + b;
      DeleteAppend(t, b, id);
      var dt, db := DeleteById(t, id), DeleteById(b, id);
      assert [a[0]] + (dt + db) == ([a[0]] + dt) + db;
    } else {
      assert a + b == b;
    }
  }

  /** Deleting an id that is absent changes nothing. */
  lemma {:induction false} DeleteAbsent(items: seq<LeisureItem>, id: string)
    requires !HasId(items, id)
    ensures DeleteById(items, id) == items
    decreases |items|
  {
    if |items| > 0 {
      assert !HasId(items[1..], id) by {
        forall i | 0 <= i < |items[1..]| ensures items[1..][i].id != id {
          assert items[1..][i] == items[i + 1];
        }
      }
      DeleteAbsent(items[1..], id);
      assert items == [items[0]] + items[1..];
    }
  }

  /** Deleting twice is deleting once. */
  lemma DeleteIdempotent(items: seq<LeisureItem>, id: string)
    ensures DeleteById(DeleteById(items, id), id) == DeleteById(items, id)
  {
    var once := DeleteById(items, id);
    assert !HasId(once, id) by {
      forall i | 0 <= i < |once| ensures once[i].id != id {
        assert once[i] in once;
      }
    }
    DeleteAbsent(once, id);
  }

  /** In a list with unique ids, the tail is unique too and shares no id with
      the head. */
  lemma UniqueSplit(items: seq<LeisureItem>)
    requires |items| > 0 && UniqueIds(items)
    ensures UniqueIds(items[1..])
    ensures forall x :: x in items[1..] ==> x.id != items[0].id
  {
    var tail := items[1..];
    forall i, j | 0 <= i < j < |tail| ensures tail[i].id != tail[j].id {
      assert tail[i] == items[i + 1] && tail[j] == items[j + 1];
    }
    forall x | x in tail ensures x.id != items[0].id {
      var k :| 0 <= k < |tail| && tail[k] == x;
      assert items[k + 1] == x;
    }
  }

  /** Delete keeps ids unique. */
  lemma {:induction false} DeleteKeepsUnique(items: seq<LeisureItem>, id: string)
    requires UniqueIds(items)
    ensures UniqueIds(DeleteById(items, id))
    decreases |items|
  {
    if |items| > 0 {
      var tail := items[1..];
      var rest := DeleteById(tail, id);
      UniqueSplit(items);
      DeleteKeepsUnique(tail, id);
      if items[0].id != id {
        var r := [items[0]] + rest;
        forall i, j | 0 <= i < j < |r| ensures r[i].id != r[j].id {
          var y := rest[j - 1];
          assert r[j] == y;
          if i == 0 {
            assert y in rest;
          } else {
            assert r[i] == rest[i - 1];
          }
        }
      }
    }
  }


  // ---------------------------------------------------------------------------
  // Properties of add and of the category view

  /** Add puts the new item first, followed by the old list; with a fresh id it
      keeps ids unique. */
  lemma AddKeepsUnique(items: seq<LeisureItem>, item: LeisureItem)
    requires UniqueIds(items) && !HasId(items, item.id)
    ensures UniqueIds([item] + items)
  {
    var r := [item] + items;
    forall i, j | 0 <= i < j < |r| ensures r[i].id != r[j].id {
      if i == 0 {
        assert r[j] == items[j - 1];
      } else {
        assert r[i] == items[i - 1] && r[j] == items[j - 1];
      }
    }
  }

  /** The category view distributes over concatenation (it keeps list order). */
  lemma {:induction false} ByCategoryAppend(a: seq<LeisureItem>, b: seq<LeisureItem>, c: Category)
    ensures ByCategory(a + b, c) == ByCategory(a, c) + ByCategory(b, c)
    decreases |a|
  {
    if |a| > 0 {
      var t := a[1..];
      assert (a + b)[0] == a[0];
      assert (a + b)[1..] == t + b;
      ByCategoryAppend(t, b, c);
      var ct, cb := ByCategory(t, c), ByCategory(b, c);
      assert [a[0]] + (ct + cb) == ([a[0]] + ct) + cb;
    } else {
      assert a + b == b;
    }
  }

  /** A newly added item heads its category's view and is absent from the others. */
  lemma ByCategoryAfterAdd(items: seq<LeisureItem>, item: LeisureItem, c: Category)
    ensures ByCategory([item] + items, c)
         == (if CategoryOf(item) == c then [item] + ByCategory(items, c) else ByCategory(items, c))
  {
    assert ([item] + items)[1..] == items;
  }

  /** Filtering by category and deleting by id commute. */
  lemma {:induction false} ByCategoryDelete(items: seq<LeisureItem>, id: string, c: Category)
    ensures ByCategory(DeleteById(items, id), c) == DeleteById(ByCategory(items, c), id)
    decreases |items|
  {
    if |items| > 0 {
      ByCategoryDelete(items[1..], id, c);
      var x := items[0];
      if x.id == id {
        if CategoryOf(x) == c {
          assert DeleteById([x] + ByCategory(items[1..], c), id)
              == DeleteById(ByCategory(items[1..], c), id) by {
            assert ([x] + ByCategory(items[1..], c))[1..] == ByCategory(items[1..], c);
          }
        }
      } else {
        assert DeleteById(items, id) == [x] + DeleteById(items[1..], id);
        assert ([x] + DeleteById(items[1..], id))[1..] == DeleteById(items[1..], id);
        if CategoryOf(x) == c {
          assert ([x] + ByCategory(items[1..], c))[1..] == ByCategory(items[1..], c);
        }
      }
    }
  }

  // ---------------------------------------------------------------------------
  // Nested episode edits

  /** Season `s` and its episode `e` exist. */
  predicate EpisodeInRange(seasons: seq<Season>, s: nat, e: nat)
  {
    s < |seasons| && e < |seasons[s].episodes|
  }

  /** The seasons with episode [s][e] replaced by `ep`. */
  function WithEpisode(seasons: seq<Season>, s: nat, e: nat, ep: Episode): (r: seq<Season>)
    requires EpisodeInRange(seasons, s, e)
    ensures |r| == |seasons| && EpisodeInRange(r, s, e)
    ensures forall i :: 0 <= i < |seasons| && i != s ==> r[i] == seasons[i]
    ensures r[s].seasonNumber == seasons[s].seasonNumber
    ensures |r[s].episodes| == |seasons[s].episodes|
    ensures forall j :: 0 <= j < |r[s].episodes| && j != e ==> r[s].episodes[j] == seasons[s].episodes[j]
    ensures r[s].episodes[e] == ep
  {
    var season := seasons[s];
    seasons[s := season.(episodes := season.episodes[e := ep])]
  }

  /** `episode.isWatched = !episode.isWatched` on a copy of the seasons. */
  function FlipEpisode(seasons: seq<Season>, s: nat, e: nat): (r: seq<Season>)
    requires EpisodeInRange(seasons, s, e)
  {
    var ep := seasons[s].episodes[e];
    WithEpisode(seasons, s, e, ep.(isWatched := !ep.isWatched))
  }

  /** `episode.comment = comment` on a copy of the seasons. */
  function CommentEpisode(seasons: seq<Season>, s: nat, e: nat, comment: string): (r: seq<Season>)
    requires EpisodeInRange(seasons, s, e)
  {
    var ep := seasons[s].episodes[e];
    WithEpisode(seasons, s, e, ep.(comment := Some(comment)))
  }

  /** What the episode helpers need in order not to throw: when the first item
      with the id is a series, season `s` and episode `e` exist in it. */
  predicate Addressable(items: seq<LeisureItem>, id: string, s: nat, e: nat)
  {
    var found := FindById(items, id);
    found.Some? && found.value.Series? ==> EpisodeInRange(found.value.seasons, s, e)
  }

  /** `toggleEpisode`: find the first item with the id; if it is a series, copy
      it, flip episode [s][e] of the copy and update by id with the copy. */
  function ToggleEpisodeIn(items: seq<LeisureItem>, id: string, s: nat, e: nat): (r: seq<LeisureItem>)
    requires Addressable(items, id, s, e)
  {
    var found := FindById(items, id);
    if found.Some? && found.value.Series? then
      UpdateById(items, found.value.(seasons := FlipEpisode(found.value.seasons, s, e)))
    else items
  }

  /** `updateEpisodeComment`: the same lookup and copy, setting the comment of episode [s][e]. */
  function CommentEpisodeIn(items: seq<LeisureItem>, id: string, s: nat, e: nat, comment: string): (r: seq<LeisureItem>)
    requires Addressable(items, id, s, e)
  {
    var found := FindById(items, id);
    if found.Some? && found.value.Series? then
      UpdateById(items, found.value.(seasons := CommentEpisode(found.value.seasons, s, e, comment)))
    else items
  }

  /** Both helpers leave the list alone when the id is absent or names a non-series. */
  lemma EpisodeEditsNeedSeries(items: seq<LeisureItem>, id: string, s: nat, e: nat, comment: string)
    requires FindById(items, id).None? || !FindById(items, id).value.Series?
    ensures ToggleEpisodeIn(items, id, s, e) == items
    ensures CommentEpisodeIn(items, id, s, e, comment) == items
  {
  }

  /** With unique ids, toggling episode [s][e] of a series changes that one item
      and, in it, only the watched flag of that one episode. */
  lemma ToggleEpisodeEffect(items: seq<LeisureItem>, id: string, s: nat, e: nat)
    requires UniqueIds(items) && Addressable(items, id, s, e)
    requires FindById(items, id).Some? && FindById(items, id).value.Series?
    ensures var k := FirstIndex(items, id);
      var old_ := items[k];
      var ep := old_.seasons[s].episodes[e];
      ToggleEpisodeIn(items, id, s, e)
        == items[k := old_.(seasons := WithEpisode(old_.seasons, s, e, ep.(isWatched := !ep.isWatched)))]
  {
    var k := FirstIndex(items, id);
    var it := items[k];
    UpdateUnique(items, it.(seasons := FlipEpisode(it.seasons, s, e)), k);
  }

  /** Flipping the same flag twice restores the seasons. */
  lemma FlipEpisodeTwice(seasons: seq<Season>, s: nat, e: nat)
    requires EpisodeInRange(seasons, s, e)
    ensures EpisodeInRange(FlipEpisode(seasons, s, e), s, e)
    ensures FlipEpisode(FlipEpisode(seasons, s, e), s, e) == seasons
  {
    var once := FlipEpisode(seasons, s, e);
    var twice := FlipEpisode(once, s, e);
    assert twice[s].episodes == seasons[s].episodes;
    assert twice[s] == seasons[s];
  }

  /** Toggling the same episode twice gives back the list in which every item
      carrying the id is replaced by the first one carrying it. */
  lemma ToggleEpisodeTwice(items: seq<LeisureItem>, id: string, s: nat, e: nat)
    requires Addressable(items, id, s, e)
    ensures Addressable(ToggleEpisodeIn(items, id, s, e), id, s, e)
    ensures var found := FindById(items, id);
      ToggleEpisodeIn(ToggleEpisodeIn(items, id, s, e), id, s, e)
        == if found.Some? && found.value.Series? then UpdateById(items, found.value) else items
  {
    var found := FindById(items, id);
    if found.Some? && found.value.Series? {
      var it := found.value;
      var flipped := it.(seasons := FlipEpisode(it.seasons, s, e));
      FindAfterUpdate(items, flipped);
      FlipEpisodeTwice(it.seasons, s, e);
      assert flipped.(seasons := FlipEpisode(flipped.seasons, s, e)) == it;
      UpdateTwice(items, flipped, it);
    }
  }

  /** With unique ids, toggling the same episode twice restores the list. */
  lemma ToggleEpisodeTwiceRestores(items: seq<LeisureItem>, id: string, s: nat, e: nat)
    requires UniqueIds(items) && Addressable(items, id, s, e)
    ensures Addressable(ToggleEpisodeIn(items, id, s, e), id, s, e)
    ensures ToggleEpisodeIn(ToggleEpisodeIn(items, id, s, e), id, s, e) == items
  {
    ToggleEpisodeTwice(items, id, s, e);
    var found := FindById(items, id);
    if found.Some? && found.value.Series? {
      var k := FirstIndex(items, id);
      UpdateUnique(items, found.value, k);
      assert items[k := found.value] == items;
    }
  }

  lemma CommentEpisodeTwice(seasons: seq<Season>, s: nat, e: nat, first: string, second: string)
    requires EpisodeInRange(seasons, s, e)
    ensures EpisodeInRange(CommentEpisode(seasons, s, e, first), s, e)
    ensures CommentEpisode(CommentEpisode(seasons, s, e, first), s, e, second)
      == CommentEpisode(seasons, s, e, second)
  {
    var once := CommentEpisode(seasons, s, e, first);
    var twice := CommentEpisode(once, s, e, second);
    var direct := CommentEpisode(seasons, s, e, second);
    assert twice[s].episodes == direct[s].episodes;
    assert twice[s] == direct[s];
  }

  /** Toggling after an update of the same id works on the updated value: this
      is how successive toggles of one series compose. */
  lemma ToggleAfterUpdate(items: seq<LeisureItem>, g: LeisureItem, s: nat, e: nat)
    requires HasId(items, g.id) && g.Series? && EpisodeInRange(g.seasons, s, e)
    ensures Addressable(UpdateById(items, g), g.id, s, e)
    ensures ToggleEpisodeIn(UpdateById(items, g), g.id, s, e)
         == UpdateById(items, g.(seasons := FlipEpisode(g.seasons, s, e)))
  {
    FindAfterUpdate(items, g);
    UpdateTwice(items, g, g.(seasons := FlipEpisode(g.seasons, s, e)));
  }

  /** Setting an episode's comment is idempotent. */
  lemma CommentEpisodeIdempotent(items: seq<LeisureItem>, id: string, s: nat, e: nat, comment: string)
    requires Addressable(items, id, s, e)
    ensures Addressable(CommentEpisodeIn(items, id, s, e, comment), id, s, e)
    ensures var once := CommentEpisodeIn(items, id, s, e, comment);
      CommentEpisodeIn(once, id, s, e, comment) == once
  {
    var found := FindById(items, id);
    if found.Some? && found.value.Series? {
      var it := found.value;
      var edited := it.(seasons := CommentEpisode(it.seasons, s, e, comment));
      FindAfterUpdate(items, edited);
      CommentEpisodeTwice(it.seasons, s, e, comment, comment);
      assert edited.(seasons := CommentEpisode(edited.seasons, s, e, comment)) == edited;
      UpdateTwice(items, edited, edited);
    }
  }

  /** With unique ids, setting a comment changes only that one episode's comment. */
  lemma CommentEpisodeEffect(items: seq<LeisureItem>, id: string, s: nat, e: nat, comment: string)
    requires UniqueIds(items) && Addressable(items, id, s, e)
    requires FindById(items, id).Some? && FindById(items, id).value.Series?
    ensures var k := FirstIndex(items, id);
      var old_ := items[k];
      var ep := old_.seasons[s].episodes[e];
      CommentEpisodeIn(items, id, s, e, comment)
        == items[k := old_.(seasons := WithEpisode(old_.seasons, s, e, ep.(comment := Some(comment))))]
  {
    var k := FirstIndex(items, id);
    var it := items[k];
    UpdateUnique(items, it.(seasons := CommentEpisode(it.seasons, s, e, comment)), k);
  }

  // ---------------------------------------------------------------------------
  // Persistence

  /** What reading the durable slot yields: nothing stored (absent or empty
      text), a parsed list, or an exception (storage access or parsing threw). */
  datatype SlotRead = Empty | Stored(items: seq<LeisureItem>) | Threw

  /** How writing the durable slot ends. */
  datatype WriteResult = Written | SecurityError | OtherError

  /** The list `loadFromStorage` returns. */
  function LoadedItems(read: SlotRead): (r: seq<LeisureItem>)
    ensures read.Stored? ==> r == read.items
    ensures !read.Stored? ==> r == []
  {
    match read
    case Empty => []
    case Stored(xs) => xs
    case Threw => []
  }

  /** The availability flag after one save attempt. */
  function AvailableAfterSave(available: bool, w: WriteResult): bool
  {
    available && !w.SecurityError?
  }

  /** The availability flag after a run of save attempts. */
  function AvailableAfterSaves(available: bool, ws: seq<WriteResult>): bool
    decreases |ws|
  {
    if |ws| == 0 then available
    else AvailableAfterSaves(AvailableAfterSave(available, ws[0]), ws[1..])
  }

  /** Persistence, once off, stays off; while on, it goes off exactly when some
      write fails with a security error. */
  lemma {:induction false} AvailabilityIsMonotone(available: bool, ws: seq<WriteResult>)
    ensures AvailableAfterSaves(available, ws)
        <==> available && forall i :: 0 <= i < |ws| ==> !ws[i].SecurityError?
    decreases |ws|
  {
    if |ws| > 0 {
      AvailabilityIsMonotone(AvailableAfterSave(available, ws[0]), ws[1..]);
      assert forall i :: 1 <= i < |ws| ==> ws[i] == ws[1..][i - 1];
    }
  }

  // ---------------------------------------------------------------------------
  // The service

  class StorageService {
    /** The authoritative list, newest first. */
    var items: seq<LeisureItem>
    /** Whether saves still reach the durable slot. */
    var storageAvailable: bool
    /** The last list written to the durable slot by this service, if any. */
    var slot: Option<seq<LeisureItem>>

    /** Starts with persistence on, then loads: an empty slot gives [], a
        failed read gives [] and turns persistence off. */
    constructor (read: SlotRead)
      ensures items == LoadedItems(read)
      ensures storageAvailable == !read.Threw?
      ensures slot == None
    {
      storageAvailable := true;
      slot := None;
      items := [];
      new;
      var loaded := LoadFromStorage(read);
      items := loaded;
    }

    method LoadFromStorage(read: SlotRead) returns (loaded: seq<LeisureItem>)
      modifies this`storageAvailable
      ensures loaded == LoadedItems(read)
      ensures storageAvailable == (old(storageAvailable) && !read.Threw?)
    {
      match read {
        case Empty =>
          loaded := [];
        case Stored(xs) =>
          loaded := xs;
        case Threw =>
          storageAvailable := false;
          loaded := [];
      }
    }

    /** The auto-save run after a change: nothing once persistence is off;
        otherwise the whole list is written, and only a security error turns
        persistence off. */
    method SaveToStorage(w: WriteResult)
      modifies this`storageAvailable, this`slot
      ensures storageAvailable == AvailableAfterSave(old(storageAvailable), w)
      ensures slot == if old(storageAvailable) && w.Written? then Some(items) else old(slot)
    {
      if !storageAvailable {
        return;
      }
      match w {
        case Written =>
          slot := Some(items);
        case SecurityError =>
          storageAvailable := false;
        case OtherError =>
      }
    }

    method AddItem(item: LeisureItem)
      modifies this`items
      ensures items == [item] + old(items)
    {
      items := [item] + items;
    }

    method UpdateItem(updated: LeisureItem)
      modifies this`items
      ensures items == UpdateById(old(items), updated)
    {
      items := UpdateById(items, updated);
    }

    method DeleteItem(id: string)
      modifies this`items
      ensures items == DeleteById(old(items), id)
    {
      items := DeleteById(items, id);
    }

    /** The derived view of one category. */
    function ItemsByCategory(c: Category): (r: seq<LeisureItem>)
      reads this
      ensures forall x :: x in r <==> x in items && CategoryOf(x) == c
    {
      ByCategory(items, c)
    }

    /** Copies the series, flips the episode in the copy, then updates by id. */
    method ToggleEpisode(id: string, s: nat, e: nat)
      requires Addressable(items, id, s, e)
      modifies this`items
      ensures items == ToggleEpisodeIn(old(items), id, s, e)
    {
      var found := FindById(items, id);
      if found.Some? && found.value.Series? {
        var updated := found.value;
        var seasons := updated.seasons;
        var season := seasons[s];
        var episode := season.episodes[e];
        episode := episode.(isWatched := !episode.isWatched);
        season := season.(episodes := season.episodes[e := episode]);
        updated := updated.(seasons := seasons[s := season]);
        UpdateItem(updated);
      }
    }

    /** Copies the series, sets the episode's comment in the copy, then updates by id. */
    method UpdateEpisodeComment(id: string, s: nat, e: nat, comment: string)
      requires Addressable(items, id, s, e)
      modifies this`items
      ensures items == CommentEpisodeIn(old(items), id, s, e, comment)
    {
      var found := FindById(items, id);
      if found.Some? && found.value.Series? {
        var updated := found.value;
        var seasons := updated.seasons;
        var season := seasons[s];
        var episode := season.episodes[e];
        episode := episode.(comment := Some(comment));
        season := season.(episodes := season.episodes[e := episode]);
        updated := updated.(seasons := seasons[s := season]);
        UpdateItem(updated);
      }
    }
  }
}
