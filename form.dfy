/** The add/edit form: the seasons editor (a growable array of season groups,
    each holding its episode rows) and the submit step that turns the form's
    values into one item of the selected category and hands it to the store. */
module Form {
  import opened Wrappers
  import opened Models
  import opened Text
  import opened Storage

  /** One episode row of a season group: the comment control holds a string. */
  datatype EpisodeRow = EpisodeRow(number: int, isWatched: bool, comment: string)

  /** One season group: its number, the "episode count" helper control and the
      episode rows. */
  datatype SeasonGroup = SeasonGroup(seasonNumber: int, episodeCount: int, episodes: seq<EpisodeRow>)

  /** The scalar controls of the form; `year` is null when marked unknown. */
  datatype Fields = Fields(
    title: string, comment: string,
    venue: string, year: Option<int>, attended: bool,
    author: string, isRead: bool,
    director: string, cast: string, isSeen: bool,
    platform: string, isPlayed: bool)

  /** A freshly generated row: numbered `n`, unwatched, empty comment. */
  function NewRow(n: int): EpisodeRow
  {
    EpisodeRow(n, false, "")
  }

  /** `createSeasonGroup`: the given number, a count helper of 10, no rows. */
  function CreateSeasonGroup(n: int): SeasonGroup
  {
    SeasonGroup(n, 10, [])
  }

  /** `generateEpisodes`: grow by appending rows numbered after the current
      length, or shrink by removing rows from the end, until there are `count`. */
  method GenerateEpisodes(group: SeasonGroup, count: nat) returns (r: SeasonGroup)
    ensures r.seasonNumber == group.seasonNumber && r.episodeCount == group.episodeCount
    ensures |r.episodes| == count
    ensures count >= |group.episodes| ==>
      && r.episodes[..|group.episodes|] == group.episodes
      && forall k :: |group.episodes| <= k < count ==> r.episodes[k] == NewRow(k + 1)
    ensures count <= |group.episodes| ==> r.episodes == group.episodes[..count]
  {
    var rows := group.episodes;
    var currentLength := |rows|;
    if count > currentLength {
      var i := currentLength + 1;
      while i <= count
        invariant currentLength + 1 <= i <= count + 1
        invariant |rows| == i - 1
        invariant rows[..currentLength] == group.episodes
        invariant forall k :: currentLength <= k < |rows| ==> rows[k] == NewRow(k + 1)
      {
        rows := rows + [NewRow(i)];
        i := i + 1;
      }
    } else if count < currentLength {
      var i: int := currentLength - 1;
      while i >= count
        invariant count - 1 <= i <= currentLength - 1
        invariant rows == group.episodes[..i + 1]
      {
        rows := rows[..i] + rows[i + 1..];
        i := i - 1;
      }
    }
    r := group.(episodes := rows);
  }

  /** What a submitted season group becomes: only `seasonNumber` and the rows,
      each row's string comment becoming a present comment. */
  function SeasonOf(g: SeasonGroup): (s: Season)
    ensures s.seasonNumber == g.seasonNumber && |s.episodes| == |g.episodes|
    ensures forall j :: 0 <= j < |g.episodes| ==>
      s.episodes[j] == Episode(g.episodes[j].number, g.episodes[j].isWatched, Some(g.episodes[j].comment))
  {
    Season(g.seasonNumber, seq(|g.episodes|, j requires 0 <= j < |g.episodes| =>
      Episode(g.episodes[j].number, g.episodes[j].isWatched, Some(g.episodes[j].comment))))
  }

  /** How editing a series rebuilds a season group: the count helper set to the
      number of episodes, an absent or empty comment shown as ''. */
  function GroupOf(s: Season): (g: SeasonGroup)
    ensures g.seasonNumber == s.seasonNumber && g.episodeCount == |s.episodes| && |g.episodes| == |s.episodes|
    ensures forall j :: 0 <= j < |s.episodes| ==>
      && g.episodes[j].number == s.episodes[j].number
      && g.episodes[j].isWatched == s.episodes[j].isWatched
      && (s.episodes[j].comment.Some? ==> g.episodes[j].comment == s.episodes[j].comment.value)
      && (s.episodes[j].comment.None? ==> g.episodes[j].comment == "")
  {
    SeasonGroup(s.seasonNumber, |s.episodes|, seq(|s.episodes|, j requires 0 <= j < |s.episodes| =>
      EpisodeRow(s.episodes[j].number, s.episodes[j].isWatched,
                 if s.episodes[j].comment.Some? then s.episodes[j].comment.value else "")))
  }

  /** Loading a submitted group back into the form gives the group again, when
      its count helper matched its rows. */
  lemma GroupRoundTrip(g: SeasonGroup)
    requires g.episodeCount == |g.episodes|
    ensures GroupOf(SeasonOf(g)) == g
  {
    assert GroupOf(SeasonOf(g)).episodes == g.episodes;
  }

  /** Submitting a loaded season gives the season again, when every episode
      carries a comment (an absent comment comes back as ''). */
  lemma SeasonRoundTrip(s: Season)
    requires forall j :: 0 <= j < |s.episodes| ==> s.episodes[j].comment.Some?
    ensures SeasonOf(GroupOf(s)) == s
  {
    assert SeasonOf(GroupOf(s)).episodes == s.episodes;
  }

  /** `itemId() || generateId()`: the edited item's id, otherwise a fresh one. */
  function EffectiveId(itemId: Option<string>, freshId: string): string
  {
    if itemId.Some? && itemId.value != "" then itemId.value else freshId
  }

  /** The `switch` of `onSubmit`: the base fields plus exactly the selected
      category's own fields. */
  function BuildItem(c: Category, f: Fields, groups: seq<SeasonGroup>, id: string, now: int): (r: LeisureItem)
    ensures CategoryOf(r) == c
    ensures r.id == id && r.title == f.title && r.comment == Some(f.comment) && r.createdAt == now
    ensures r.Concert? ==> r.venue == Some(f.venue) && r.year == f.year && r.attended == f.attended
    ensures r.Book? ==> r.author == f.author && r.isRead == f.isRead
    ensures r.Movie? ==> r.director == Some(f.director) && r.cast == Some(f.cast) && r.year == f.year && r.isSeen == f.isSeen
    ensures r.Game? ==> r.platform == Some(f.platform) && r.isPlayed == f.isPlayed
    ensures r.Series? ==> r.platform == Some(f.platform)
    ensures r.Series? ==> |r.seasons| == |groups| && forall i :: 0 <= i < |groups| ==> r.seasons[i] == SeasonOf(groups[i])
  {
    match c
    case Concerts => Concert(id, f.title, Some(f.comment), now, Some(f.venue), f.year, f.attended)
    case Books => Book(id, f.title, Some(f.comment), now, f.author, f.isRead)
    case Movies => Movie(id, f.title, Some(f.comment), now, Some(f.director), Some(f.cast), f.year, f.isSeen)
    case Games => Game(id, f.title, Some(f.comment), now, Some(f.platform), f.isPlayed)
    case Series =>
      LeisureItem.Series(id, f.title, Some(f.comment), now, Some(f.platform),
                         seq(|groups|, i requires 0 <= i < |groups| => SeasonOf(groups[i])))
  }

  /** The form rejects a submit when the required title is empty. */
  predicate Invalid(f: Fields)
  {
    f.title == ""
  }

  /** What a submit does to the store's list: nothing for an invalid form or
      an unknown category tag; otherwise update in edit mode and add otherwise. */
  function SubmitTo(items: seq<LeisureItem>, editMode: bool, itemId: Option<string>, category: Option<Category>,
                    f: Fields, groups: seq<SeasonGroup>, freshId: string, now: int): seq<LeisureItem>
  {
    if Invalid(f) || category.None? then items
    else
      var item := BuildItem(category.value, f, groups, EffectiveId(itemId, freshId), now);
      if editMode then UpdateById(items, item) else [item] + items
  }

  /** A valid edit of a stored item keeps its id and replaces it with the
      rebuilt item (whose creation time is the submit time); a valid add puts
      the new item first under the fresh id. */
  lemma SubmitEffect(items: seq<LeisureItem>, editMode: bool, id: string, c: Category,
                     f: Fields, groups: seq<SeasonGroup>, freshId: string, now: int)
    requires !Invalid(f) && id != ""
    ensures var item := BuildItem(c, f, groups, id, now);
      && (HasId(items, id) ==>
            FindById(SubmitTo(items, true, Some(id), Some(c), f, groups, freshId, now), id) == Some(item))
      && item.createdAt == now
      && SubmitTo(items, false, None, Some(c), f, groups, freshId, now)
         == [BuildItem(c, f, groups, freshId, now)] + items
  {
    var item := BuildItem(c, f, groups, id, now);
    if HasId(items, id) {
      FindAfterUpdate(items, item);
    }
  }

  /** An invalid form stores nothing, in either mode. */
  lemma InvalidSubmitStoresNothing(items: seq<LeisureItem>, editMode: bool, itemId: Option<string>,
                                   category: Option<Category>, f: Fields, groups: seq<SeasonGroup>,
                                   freshId: string, now: int)
    requires Invalid(f)
    ensures SubmitTo(items, editMode, itemId, category, f, groups, freshId, now) == items
  {
  }

  /** The position a form array reads for `index`: a negative index counts
      from the end, as Angular's `FormArray` does. */
  function AdjustIndex(index: int, length: nat): (k: int)
    ensures 0 <= index ==> k == index
    ensures index < 0 ==> k < length && length - k == -index
  {
    if index < 0 then index + length else index
  }

  class FormComponent {
    const storage: StorageService
    var editMode: bool
    var itemId: Option<string>
    /** The selected category tag; `None` stands for a tag outside the five. */
    var selectedCategory: Option<Category>
    var fields: Fields
    var seasons: seq<SeasonGroup>

    /** An add form, or an edit form when the route carries a non-empty id. */
    constructor (storage: StorageService, routeId: Option<string>, thisYear: int)
      ensures this.storage == storage
      ensures editMode == (routeId.Some? && routeId.value != "")
      ensures itemId == if editMode then routeId else None
      ensures selectedCategory == Some(Concerts) && seasons == []
      ensures fields == Fields("", "", "", Some(thisYear), false, "", false, "", "", false, "", false)
    {
      this.storage := storage;
      editMode := routeId.Some? && routeId.value != "";
      itemId := if routeId.Some? && routeId.value != "" then routeId else None;
      selectedCategory := Some(Concerts);
      fields := Fields("", "", "", Some(thisYear), false, "", false, "", "", false, "", false);
      seasons := [];
    }

    /** Appends a season numbered one past the current count, pre-filled with
        ten unwatched episodes numbered 1 to 10. */
    method AddSeason()
      modifies this`seasons
      ensures |seasons| == |old(seasons)| + 1 && seasons[..|old(seasons)|] == old(seasons)
      ensures var added := seasons[|old(seasons)|];
        && added.seasonNumber == |old(seasons)| + 1 && added.episodeCount == 10
        && |added.episodes| == 10
        && forall k :: 0 <= k < 10 ==> added.episodes[k] == NewRow(k + 1)
    {
      var nextNum := |seasons| + 1;
      var group := CreateSeasonGroup(nextNum);
      group := GenerateEpisodes(group, 10);
      seasons := seasons + [group];
    }

    /** `removeAt(index)`: a negative index counts from the end and is then
        clamped at 0; the season at that position goes and the rest keep their
        order; a position past the end removes nothing (`splice` semantics). */
    method RemoveSeason(index: int)
      modifies this`seasons
      ensures var k := if AdjustIndex(index, |old(seasons)|) < 0 then 0 else AdjustIndex(index, |old(seasons)|);
        seasons == if k < |old(seasons)| then old(seasons)[..k] + old(seasons)[k + 1..] else old(seasons)
    {
      var k := AdjustIndex(index, |seasons|);
      if k < 0 {
        k := 0;
      }
      if k < |seasons| {
        seasons := seasons[..k] + seasons[k + 1..];
      }
    }

    /** Resizes one season's rows to the parsed count; a count that does not
        parse or is below 1 changes nothing. Otherwise the season is read with
        `at(index)`; when there is none there, `generateEpisodes` throws on the
        missing group: `threw` reports it and nothing changes. */
    method UpdateEpisodesForSeason(index: int, count: string) returns (threw: bool)
      modifies this`seasons
      ensures var v := ParseInt(count); var k := AdjustIndex(index, |old(seasons)|);
        threw <==> v.Some? && v.value >= 1 && !(0 <= k < |old(seasons)|)
      ensures var v := ParseInt(count); var k := AdjustIndex(index, |old(seasons)|);
        if v.None? || v.value < 1 || threw then seasons == old(seasons)
        else
          && |seasons| == |old(seasons)|
          && (forall i :: 0 <= i < |seasons| && i != k ==> seasons[i] == old(seasons)[i])
          && seasons[k] == old(seasons)[k].(episodes := seasons[k].episodes)
          && |seasons[k].episodes| == v.value
          && (v.value <= |old(seasons)[k].episodes| ==>
                seasons[k].episodes == old(seasons)[k].episodes[..v.value])
          && (v.value >= |old(seasons)[k].episodes| ==>
                && seasons[k].episodes[..|old(seasons)[k].episodes|] == old(seasons)[k].episodes
                && forall j :: |old(seasons)[k].episodes| <= j < v.value ==>
                     seasons[k].episodes[j] == NewRow(j + 1))
    {
      var val := ParseInt(count);
      if val.None? || val.value < 1 {
        return false;
      }
      var k := AdjustIndex(index, |seasons|);
      if !(0 <= k < |seasons|) {
        return true;
      }
      threw := false;
      var group := GenerateEpisodes(seasons[k], val.value);
      seasons := seasons[k := group];
    }

    /** Builds the item from the form and stores it: update in edit mode, add
        otherwise. `now` and `freshId` stand for the clock and the id generator. */
    method OnSubmit(now: int, freshId: string)
      modifies storage`items
      ensures storage.items == SubmitTo(old(storage.items), editMode, itemId, selectedCategory,
                                        fields, seasons, freshId, now)
    {
      if Invalid(fields) {
        return;
      }
      if selectedCategory.None? {
        return;
      }
      var id := EffectiveId(itemId, freshId);
      var finalItem := BuildItem(selectedCategory.value, fields, seasons, id, now);
      if editMode {
        storage.UpdateItem(finalItem);
      } else {
        storage.AddItem(finalItem);
      }
    }
  }
}
