/**
 * The show-list page of one category: the static fallback table, the
 * cover-image URL, the header title and the `shows`/`loading` state that
 * `fetchShows` updates.
 *
 * The route parameter `categoryId` may be undefined; it is an
 * `Option<string>` here.
 */
module ShowDetails {
  import opened Common
  import opened Text
  import opened Catalog

  /** The shows endpoint; it takes no category parameter. */
  const ShowsEndpoint: string := "https://fz7forxwz8.execute-api.ap-south-1.amazonaws.com/prod/categories/shows"

  /** How a template literal renders the route parameter: an undefined one becomes "undefined". */
  function Interpolate(categoryId: Option<string>): string
  {
    match categoryId
    case Some(id) => id
    case None => "undefined"
  }

  // Each storage path is written as the `/`-join of its segments; the value
  // is the path string of the table, segment for segment.

  const FilmSongsShow: Show :=
    Show("hit-kannada-songs-vol1", "Hit Kannada Songs Vol 1", "Popular Kannada film songs collection",
         Some("monsoon-raga-thumb.jpg"),
         [ Episode("ep1", "Hombisilina",
                   Join(["film-songs", "hit-kannada-songs-vol1", "MonsoonRaga", "Hombisilina (PenduJatt.Com.Se).mp3"], '/'),
                   "4:30"),
           Episode("ep2", "Muddada Moothi",
                   Join(["film-songs", "hit-kannada-songs-vol1", "MonsoonRaga", "Muddada Moothi (PenduJatt.Com.Se).mp3"], '/'),
                   "3:45"),
           Episode("ep3", "Hesaru Poorthi",
                   Join(["film-songs", "hit-kannada-songs-vol1", "Paramathma", "Hesaru Poorthi (PenduJatt.Com.Se).mp3"], '/'),
                   "4:15"),
           Episode("ep4", "Kuch Kuch Anthide",
                   Join(["film-songs", "hit-kannada-songs-vol1", "Raj", "Kuch Kuch Anthide (PenduJatt.Com.Se).mp3"], '/'),
                   "3:20") ])

  const StoriesShow: Show :=
    Show("bhootada-mane-1", "Bhootada Mane Season 1", "Thrilling horror stories in Kannada",
         Some("bhootada-mane-1-thumb.jpg"),
         [ Episode("ep1", "Episode 1", Join(["stories", "horror", "BhootadaMane1", "season1", "episode1.mp3"], '/'), "25:00"),
           Episode("ep2", "Episode 2", Join(["stories", "horror", "BhootadaMane1", "season1", "episode2.mp3"], '/'), "28:00") ])

  const WebSeriesShow: Show :=
    Show("jackie1", "Jackie Season 1", "Engaging Kannada web series",
         Some("jackie1-thumb.jpg"),
         [ Episode("ep1", "Episode 1", Join(["web-series", "jackie1", "season1", "episode1.mp3"], '/'), "30:00"),
           Episode("ep2", "Episode 2", Join(["web-series", "jackie1", "season1", "episode2.mp3"], '/'), "32:00") ])

  /** The podcasts fallback has no `cover_image`. */
  const PodcastsShow: Show :=
    Show("season1", "Podcast Season 1", "Interesting Kannada podcasts and talk shows",
         None,
         [ Episode("ep1", "Episode 1", Join(["podcasts", "season1", "episode1.mp3"], '/'), "45:00"),
           Episode("ep2", "Episode 2", Join(["podcasts", "season1", "episode2.mp3"], '/'), "42:00") ])

  /** `getSampleShows`: the hard-coded fallback shows of each category. */
  function SampleShows(categoryId: Option<string>): (shows: seq<Show>)
    ensures |shows| <= 1
  {
    match categoryId
    case Some("film-songs") => [FilmSongsShow]
    case Some("stories") => [StoriesShow]
    case Some("web-series") => [WebSeriesShow]
    case Some("podcasts") => [PodcastsShow]
    case _ => []
  }

  /** Episode ids within a show are pairwise distinct. */
  predicate DistinctEpisodeIds(show: Show)
  {
    forall i, j :: 0 <= i < j < |show.episodes| ==> show.episodes[i].episodeId != show.episodes[j].episodeId
  }

  /** Every episode of the show lies under the folder `<id>/`. */
  predicate UnderFolder(show: Show, id: string)
  {
    forall k :: 0 <= k < |show.episodes| ==> StartsWith(show.episodes[k].audioPath, id + "/")
  }

  /** Exactly the four known categories have a fallback, and it is a single show. */
  lemma SampleShowsDomain(categoryId: Option<string>)
    ensures |SampleShows(categoryId)| == (if categoryId.Some? && categoryId.value in KnownCategoryIds then 1 else 0)
  {
    match categoryId
    case Some("film-songs") =>
    case Some("stories") =>
    case Some("web-series") =>
    case Some("podcasts") =>
    case _ =>
  }

  /** A fallback show is well formed for a category: distinct episode ids, all audio under `<id>/`. */
  predicate WellFormedFallback(show: Show, id: string)
  {
    DistinctEpisodeIds(show) && UnderFolder(show, id)
  }

  /** A path whose first segment is the category id lies under the category's folder. */
  lemma FolderPath(segments: seq<string>, id: string)
    requires |segments| >= 2 && segments[0] == id
    ensures StartsWith(Join(segments, '/'), id + "/")
  {
    JoinStartsWith(segments, '/');
  }

  /** A two-episode show is well formed once its two ids differ and both paths lie under the folder. */
  lemma TwoEpisodeFallback(show: Show, id: string)
    requires |show.episodes| == 2
    requires show.episodes[0].episodeId != show.episodes[1].episodeId
    requires StartsWith(show.episodes[0].audioPath, id + "/") && StartsWith(show.episodes[1].audioPath, id + "/")
    ensures WellFormedFallback(show, id)
  {
  }

  /** A four-episode show is well formed once its ids differ pairwise and all paths lie under the folder. */
  lemma FourEpisodeFallback(show: Show, id: string)
    requires |show.episodes| == 4
    requires var e := show.episodes;
      && e[0].episodeId != e[1].episodeId && e[0].episodeId != e[2].episodeId && e[0].episodeId != e[3].episodeId
      && e[1].episodeId != e[2].episodeId && e[1].episodeId != e[3].episodeId && e[2].episodeId != e[3].episodeId
    requires StartsWith(show.episodes[0].audioPath, id + "/") && StartsWith(show.episodes[1].audioPath, id + "/")
    requires StartsWith(show.episodes[2].audioPath, id + "/") && StartsWith(show.episodes[3].audioPath, id + "/")
    ensures WellFormedFallback(show, id)
  {
  }

  lemma FilmSongsPaths()
    ensures var e := FilmSongsShow.episodes;
      && |e| == 4
      && StartsWith(e[0].audioPath, "film-songs" + "/")
      && StartsWith(e[1].audioPath, "film-songs" + "/")
      && StartsWith(e[2].audioPath, "film-songs" + "/")
      && StartsWith(e[3].audioPath, "film-songs" + "/")
  {
    FolderPath(["film-songs", "hit-kannada-songs-vol1", "MonsoonRaga", "Hombisilina (PenduJatt.Com.Se).mp3"], "film-songs");
    FolderPath(["film-songs", "hit-kannada-songs-vol1", "MonsoonRaga", "Muddada Moothi (PenduJatt.Com.Se).mp3"], "film-songs");
    FolderPath(["film-songs", "hit-kannada-songs-vol1", "Paramathma", "Hesaru Poorthi (PenduJatt.Com.Se).mp3"], "film-songs");
    FolderPath(["film-songs", "hit-kannada-songs-vol1", "Raj", "Kuch Kuch Anthide (PenduJatt.Com.Se).mp3"], "film-songs");
  }

  lemma FilmSongsIds()
    ensures var e := FilmSongsShow.episodes; |e| == 4 && e[0].episodeId == "ep1" && e[1].episodeId == "ep2" && e[2].episodeId == "ep3" && e[3].episodeId == "ep4"
  {
  }

  lemma FilmSongsWellFormed()
    ensures WellFormedFallback(FilmSongsShow, "film-songs")
  {
    FilmSongsPaths();
    FilmSongsIds();
    FourEpisodeFallback(FilmSongsShow, "film-songs");
  }

  lemma StoriesPaths()
    ensures var e := StoriesShow.episodes;
      && |e| == 2
      && StartsWith(e[0].audioPath, "stories" + "/")
      && StartsWith(e[1].audioPath, "stories" + "/")
  {
    FolderPath(["stories", "horror", "BhootadaMane1", "season1", "episode1.mp3"], "stories");
    FolderPath(["stories", "horror", "BhootadaMane1", "season1", "episode2.mp3"], "stories");
  }

  lemma StoriesIds()
    ensures var e := StoriesShow.episodes; |e| == 2 && e[0].episodeId == "ep1" && e[1].episodeId == "ep2"
  {
  }

  lemma StoriesWellFormed()
    ensures WellFormedFallback(StoriesShow, "stories")
  {
    StoriesPaths();
    StoriesIds();
    TwoEpisodeFallback(StoriesShow, "stories");
  }

  lemma WebSeriesPaths()
    ensures var e := WebSeriesShow.episodes;
      && |e| == 2
      && StartsWith(e[0].audioPath, "web-series" + "/")
      && StartsWith(e[1].audioPath, "web-series" + "/")
  {
    FolderPath(["web-series", "jackie1", "season1", "episode1.mp3"], "web-series");
    FolderPath(["web-series", "jackie1", "season1", "episode2.mp3"], "web-series");
  }

  lemma WebSeriesIds()
    ensures var e := WebSeriesShow.episodes; |e| == 2 && e[0].episodeId == "ep1" && e[1].episodeId == "ep2"
  {
  }

  lemma WebSeriesWellFormed()
    ensures WellFormedFallback(WebSeriesShow, "web-series")
  {
    WebSeriesPaths();
    WebSeriesIds();
    TwoEpisodeFallback(WebSeriesShow, "web-series");
  }

  lemma PodcastsPaths()
    ensures var e := PodcastsShow.episodes;
      && |e| == 2
      && StartsWith(e[0].audioPath, "podcasts" + "/")
      && StartsWith(e[1].audioPath, "podcasts" + "/")
  {
    FolderPath(["podcasts", "season1", "episode1.mp3"], "podcasts");
    FolderPath(["podcasts", "season1", "episode2.mp3"], "podcasts");
  }

  lemma PodcastsIds()
    ensures var e := PodcastsShow.episodes; |e| == 2 && e[0].episodeId == "ep1" && e[1].episodeId == "ep2"
  {
  }

  lemma PodcastsWellFormed()
    ensures WellFormedFallback(PodcastsShow, "podcasts")
  {
    PodcastsPaths();
    PodcastsIds();
    TwoEpisodeFallback(PodcastsShow, "podcasts");
  }

  /** In every fallback show the episode ids are distinct, and every audio path lies under the category's folder. */
  lemma SampleShowsWellFormed(id: string)
    ensures forall k :: 0 <= k < |SampleShows(Some(id))| ==> WellFormedFallback(SampleShows(Some(id))[k], id)
  {
    if id == "film-songs" {
      FilmSongsWellFormed();
    } else if id == "stories" {
      StoriesWellFormed();
    } else if id == "web-series" {
      WebSeriesWellFormed();
    } else if id == "podcasts" {
      PodcastsWellFormed();
    }
  }

  /** The `stories` fallback: one show, `bhootada-mane-1`, with two episodes, the first `Episode 1`. */
  lemma StoriesFallback()
    ensures var shows := SampleShows(Some("stories"));
      && |shows| == 1
      && shows[0].showId == "bhootada-mane-1"
      && |shows[0].episodes| == 2
      && shows[0].episodes[0].episodeId == "ep1"
      && shows[0].episodes[0].title == "Episode 1"
      && shows[0].episodes[0].audioPath == Join(["stories", "horror", "BhootadaMane1", "season1", "episode1.mp3"], '/')
  {
  }

  /** `getCoverImage`: the category background when the image name is absent or empty, else the thumbnail. */
  const ThumbnailPrefix: string := CdnOrigin + "/images/thumbnails/"
  const BackgroundPrefix: string := CdnOrigin + "/images/backgrounds/"

  function CoverImage(categoryId: Option<string>, imageName: Option<string>): string
  {
    if imageName == None || imageName.value == "" then
      BackgroundPrefix + Interpolate(categoryId) + "-bg.jpg"
    else
      ThumbnailPrefix + imageName.value
  }

  /** The two prefixes part ways right after `/images/`. */
  lemma PrefixesDiffer()
    ensures |CdnOrigin| + 8 < |ThumbnailPrefix| && |CdnOrigin| + 8 < |BackgroundPrefix|
    ensures ThumbnailPrefix[|CdnOrigin| + 8] == 't' && BackgroundPrefix[|CdnOrigin| + 8] == 'b'
  {
  }

  /** A string cannot start with two prefixes that differ at some index both reach. */
  lemma StartsWithOne(s: string, p: string, q: string, k: nat)
    requires StartsWith(s, q) && k < |p| && k < |q| && p[k] != q[k]
    ensures !StartsWith(s, p)
  {
    assert s[k] == s[..|q|][k] == q[k];
    assert |p| <= |s| ==> s[..|p|][k] == s[k];
  }

  /** A cover URL is a thumbnail exactly when a non-empty image name is given, and then it carries the name unencoded. */
  lemma CoverImageKinds(categoryId: Option<string>, imageName: Option<string>)
    ensures var url := CoverImage(categoryId, imageName);
      && (StartsWith(url, ThumbnailPrefix) <==> imageName.Some? && imageName.value != "")
      && (StartsWith(url, ThumbnailPrefix) ==> url[|ThumbnailPrefix|..] == imageName.value)
      && (!StartsWith(url, ThumbnailPrefix) ==>
            StartsWith(url, BackgroundPrefix) && url[|BackgroundPrefix|..] == Interpolate(categoryId) + "-bg.jpg")
  {
    var url := CoverImage(categoryId, imageName);
    if imageName == None || imageName.value == "" {
      var rest := Interpolate(categoryId) + "-bg.jpg";
      assert url == BackgroundPrefix + rest;
      StartsWithAppend(BackgroundPrefix, rest);
      PrefixesDiffer();
      StartsWithOne(url, ThumbnailPrefix, BackgroundPrefix, |CdnOrigin| + 8);
    } else {
      StartsWithAppend(ThumbnailPrefix, imageName.value);
    }
  }

  /** The page header: `categoryId?.replace('-', ' ').toUpperCase()`; nothing when the parameter is undefined. */
  function HeaderTitle(categoryId: Option<string>): string
  {
    match categoryId
    case None => ""
    case Some(id) => ToUpper(ReplaceFirst(id, '-', ' '))
  }

  /** Only the first hyphen becomes a space; every other character is upper-cased in place, later hyphens included. */
  lemma HeaderTitleSpec(id: string)
    ensures |HeaderTitle(Some(id))| == |id|
    ensures '-' !in id ==> HeaderTitle(Some(id)) == ToUpper(id)
    ensures '-' in id ==>
      var i := FirstIndex(id, '-');
      && HeaderTitle(Some(id))[i] == ' '
      && (forall k :: 0 <= k < |id| && k != i ==> HeaderTitle(Some(id))[k] == UpperChar(id[k]))
      && (forall k :: i < k < |id| && id[k] == '-' ==> HeaderTitle(Some(id))[k] == '-')
  {
    ReplaceFirstSpec(id, '-', ' ');
  }

  lemma WebSeriesHyphen()
    ensures ReplaceFirst("web-series", '-', ' ') == "web series"
  {
    ReplaceFirstAt("web", "series", '-', ' ');
    assert "web" + ['-'] + "series" == "web-series";
    assert "web" + [' '] + "series" == "web series";
  }

  lemma WebSeriesUpper()
    ensures ToUpper("web series") == "WEB SERIES"
  {
  }

  lemma WebSeriesTitle()
    ensures HeaderTitle(Some("web-series")) == "WEB SERIES"
  {
    WebSeriesHyphen();
    WebSeriesUpper();
  }

  /** The state of one `ShowDetails` page. */
  class ShowDetailsState {
    var categoryId: Option<string>
    var shows: seq<Show>
    var loading: bool

    constructor (categoryId: Option<string>)
      ensures this.categoryId == categoryId && shows == [] && loading
    {
      this.categoryId := categoryId;
      shows := [];
      loading := true;
    }

    /** `fetchShows`: the response data verbatim on success, the whole fallback of the current category on failure. */
    method FetchShows(get: string -> Response<seq<Show>>)
      modifies this
      ensures categoryId == old(categoryId)
      ensures shows == (match get(ShowsEndpoint)
                        case Success(data) => data
                        case Failure => SampleShows(categoryId))
      ensures !loading
    {
      var response := get(ShowsEndpoint);
      match response {
        case Success(data) => shows := data;
        case Failure => shows := SampleShows(categoryId);
      }
      loading := false;
    }

    /** The effect that reruns `fetchShows` when the route's `categoryId` changes. */
    method CategoryChanged(newId: Option<string>, get: string -> Response<seq<Show>>)
      modifies this
      ensures categoryId == newId
      ensures shows == (match get(ShowsEndpoint)
                        case Success(data) => data
                        case Failure => SampleShows(newId))
      ensures !loading
    {
      categoryId := newId;
      FetchShows(get);
    }
  }
}
