/** The item model of the leisure tracker: one closed sum type over the five
    categories, with series nesting seasons and seasons nesting episodes. */
module Models {
  import opened Wrappers

  /** The five kinds of entry the tracker keeps. */
  datatype Category = Concerts | Books | Movies | Series | Games

  /** One episode of a season: its number, whether it was watched and an optional note. */
  datatype Episode = Episode(number: int, isWatched: bool, comment: Option<string>)

  /** A season: a caller-assigned number and its episodes in order. */
  datatype Season = Season(seasonNumber: int, episodes: seq<Episode>)

  /** A tracked entry. Every variant carries the base fields `id`, `title`,
      `comment` (optional) and `createdAt`, then exactly the fields of its own
      category; a field of another category cannot be present. */
  datatype LeisureItem =
    | Concert(id: string, title: string, comment: Option<string>, createdAt: int,
              venue: Option<string>, year: Option<int>, attended: bool)
    | Book(id: string, title: string, comment: Option<string>, createdAt: int,
           author: string, isRead: bool)
    | Movie(id: string, title: string, comment: Option<string>, createdAt: int,
            director: Option<string>, cast: Option<string>, year: Option<int>, isSeen: bool)
    | Series(id: string, title: string, comment: Option<string>, createdAt: int,
             platform: Option<string>, seasons: seq<Season>)
    | Game(id: string, title: string, comment: Option<string>, createdAt: int,
           platform: Option<string>, isPlayed: bool)

  /** The `category` tag of an item: always the tag of its own variant. */
  function CategoryOf(item: LeisureItem): Category
  {
    match item
    case Concert(_, _, _, _, _, _, _) => Concerts
    case Book(_, _, _, _, _, _) => Books
    case Movie(_, _, _, _, _, _, _, _) => Movies
    case Series(_, _, _, _, _, _) => Category.Series
    case Game(_, _, _, _, _, _) => Games
  }

  /** The variant an item has for a given category tag. */
  predicate HasVariant(item: LeisureItem, c: Category)
  {
    match c
    case Concerts => item.Concert?
    case Books => item.Book?
    case Movies => item.Movie?
    case Series => item.Series?
    case Games => item.Game?
  }

  /** Suggested (not enforced) streaming platforms for series. */
  const PlatformsSeries: seq<string> :=
    ["Netflix", "Prime", "Movistar", "HBO", "Filmin", "Disney", "RTVE", "Otra"]

  /** Suggested (not enforced) platforms for games. */
  const PlatformsGames: seq<string> :=
    ["Steam", "GoG", "Epic", "Amazon", "EA", "Ubisoft", "Otra"]

  /** An item's tag names its variant and no other: each item is exactly one
      of the five variants, and two items share a tag iff they share a variant. */
  lemma CategoryIsVariant(item: LeisureItem, c: Category)
    ensures CategoryOf(item) == c <==> HasVariant(item, c)
  {
  }

  /** Both suggestion lists are fixed, free of repeats, and end with the catch-all 'Otra'. */
  lemma PlatformListsEndWithOther()
    ensures |PlatformsSeries| == 8 && PlatformsSeries[|PlatformsSeries| - 1] == "Otra"
    ensures |PlatformsGames| == 7 && PlatformsGames[|PlatformsGames| - 1] == "Otra"
    ensures forall i, j :: 0 <= i < j < |PlatformsSeries| ==> PlatformsSeries[i] != PlatformsSeries[j]
    ensures forall i, j :: 0 <= i < j < |PlatformsGames| ==> PlatformsGames[i] != PlatformsGames[j]
  {
  }
}
