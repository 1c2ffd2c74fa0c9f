/**
 * The category grid: the per-category "Play Sample" path and the optional
 * stats badges of each card.
 */
module CategoryBrowser {
  import opened Common
  import opened Text
  import opened Catalog

  /**
   * `getSampleAudio`: a fixed storage path per known category id, `''` for
   * any other. Paths are written as the `/`-join of their segments.
   */
  function SampleAudio(category: Category): string
  {
    match category.categoryId
    case "film-songs" => Join(["film-songs", "hit-kannada-songs-vol1", "MonsoonRaga", "Hombisilina (PenduJatt.Com.Se).mp3"], '/')
    case "podcasts" => Join(["podcasts", "season1", "episode1.mp3"], '/')
    case "stories" => Join(["stories", "horror", "BhootadaMane1", "season1", "episode1.mp3"], '/')
    case "web-series" => Join(["web-series", "jackie1", "season1", "episode1.mp3"], '/')
    case _ => ""
  }

  /** A sample exists exactly for the known ids, and it lies under the category's own folder. */
  lemma SampleAudioSpec(category: Category)
    ensures SampleAudio(category) != "" <==> category.categoryId in KnownCategoryIds
    ensures SampleAudio(category) != "" ==> StartsWith(SampleAudio(category), category.categoryId + "/")
  {
    match category.categoryId
    case "film-songs" =>
      JoinStartsWith(["film-songs", "hit-kannada-songs-vol1", "MonsoonRaga", "Hombisilina (PenduJatt.Com.Se).mp3"], '/');
    case "podcasts" =>
      JoinStartsWith(["podcasts", "season1", "episode1.mp3"], '/');
    case "stories" =>
      JoinStartsWith(["stories", "horror", "BhootadaMane1", "season1", "episode1.mp3"], '/');
    case "web-series" =>
      JoinStartsWith(["web-series", "jackie1", "season1", "episode1.mp3"], '/');
    case _ =>
  }

  /** The sample depends on the category id alone. */
  lemma SampleAudioOnlyById(a: Category, b: Category)
    requires a.categoryId == b.categoryId
    ensures SampleAudio(a) == SampleAudio(b)
  {
  }

  // ---------------------------------------------------------------------
  // Stats badges

  datatype StatKind = ShowsStat | SeasonsStat | TypesStat

  /** One badge: which list it counts and the length shown. */
  datatype Badge = Badge(kind: StatKind, count: nat)

  /** The optional field a badge reads. */
  function StatField(category: Category, kind: StatKind): Option<seq<string>>
  {
    match kind
    case ShowsStat => category.shows
    case SeasonsStat => category.seasons
    case TypesStat => category.subcategories
  }

  /** Rendering position of each badge kind. */
  function Rank(kind: StatKind): nat
  {
    match kind
    case ShowsStat => 0
    case SeasonsStat => 1
    case TypesStat => 2
  }

  /**
   * The badges of one card, in order: shows, seasons, subcategories. A list
   * that is present is truthy even when empty, so its badge appears.
   */
  function Stats(category: Category): seq<Badge>
  {
    (if category.shows.Some? then [Badge(ShowsStat, |category.shows.value|)] else [])
    + (if category.seasons.Some? then [Badge(SeasonsStat, |category.seasons.value|)] else [])
    + (if category.subcategories.Some? then [Badge(TypesStat, |category.subcategories.value|)] else [])
  }

  /** A badge kind is shown exactly when its field is present; it shows that list's length; kinds appear once each, in order. */
  lemma StatsSpec(category: Category)
    ensures forall kind: StatKind ::
      (exists i :: 0 <= i < |Stats(category)| && Stats(category)[i].kind == kind) <==> StatField(category, kind).Some?
    ensures forall i :: 0 <= i < |Stats(category)| ==>
      && StatField(category, Stats(category)[i].kind).Some?
      && Stats(category)[i].count == |StatField(category, Stats(category)[i].kind).value|
    ensures forall i, j :: 0 <= i < j < |Stats(category)| ==> Rank(Stats(category)[i].kind) < Rank(Stats(category)[j].kind)
  {
    var s := Stats(category);
    forall kind: StatKind
      ensures (exists i :: 0 <= i < |s| && s[i].kind == kind) <==> StatField(category, kind).Some?
    {
      if StatField(category, kind).Some? {
        var i := match kind
          case ShowsStat => 0
          case SeasonsStat => if category.shows.Some? then 1 else 0
          case TypesStat => (if category.shows.Some? then 1 else 0) + (if category.seasons.Some? then 1 else 0);
        assert s[i].kind == kind;
      }
    }
  }
}
