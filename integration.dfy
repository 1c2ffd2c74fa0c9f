/**
 * Facts that tie the components together: the category grid's sample
 * paths against the show page's fallback table, and what `playAudio` makes
 * of them.
 */
module Integration {
  import opened Common
  import opened Text
  import opened Uri
  import opened Catalog
  import opened App
  import opened ShowDetails
  import opened CategoryBrowser

  /** For every known category the sample is the first episode of its fallback show. */
  lemma SampleIsFirstFallbackEpisode(category: Category)
    requires category.categoryId in KnownCategoryIds
    ensures var shows := SampleShows(Some(category.categoryId));
      |shows| == 1 && |shows[0].episodes| >= 1 && SampleAudio(category) == shows[0].episodes[0].audioPath
  {
    match category.categoryId
    case "film-songs" =>
      assert SampleShows(Some("film-songs")) == [FilmSongsShow];
    case "podcasts" =>
      assert SampleShows(Some("podcasts")) == [PodcastsShow];
    case "stories" =>
      assert SampleShows(Some("stories")) == [StoriesShow];
    case "web-series" =>
      assert SampleShows(Some("web-series")) == [WebSeriesShow];
  }

  /** An unknown category's sample plays as the bare CDN root. */
  lemma UnknownSamplePlaysBareRoot(category: Category)
    requires category.categoryId !in KnownCategoryIds
    ensures AudioUrl(SampleAudio(category)) == "https://d1jespy3mv91ys.cloudfront.net/"
  {
    EmptyPathUrl();
  }

  /**
   * Browsing `stories` while the catalog service is down, then playing the
   * first episode: the fallback show `bhootada-mane-1` with two episodes is
   * shown and the player gets the URL of that episode's path.
   *
   * `App` does not render the show page itself; the scenario wires the page's
   * `onPlayAudio` to `App`'s `playAudio`, as a parent rendering both would.
   * `playAudio` takes only the path, so `title` is read from the fallback
   * table, not from the player.
   */
  method StoriesOutageScenario() returns (shows: seq<Show>, title: string, nowPlaying: Option<string>, playerShown: bool)
    ensures |shows| == 1 && shows[0].showId == "bhootada-mane-1" && |shows[0].episodes| == 2
    ensures title == "Episode 1"
    ensures nowPlaying == Some(AudioUrl(Join(["stories", "horror", "BhootadaMane1", "season1", "episode1.mp3"], '/')))
    ensures playerShown
  {
    var page := new ShowDetailsState(Some("stories"));
    page.FetchShows(url => Failure);
    shows := page.shows;
    var episode := shows[0].episodes[0];
    title := episode.title;
    var app := new AppState();
    app.FetchCategories(url => Failure);
    app.PlayAudio(episode.audioPath);
    StoriesFallback();
    nowPlaying := app.currentAudio;
    playerShown := app.PlayerShown();
  }

  /** Playing twice replaces the first URL; closing hides the player whatever was playing. */
  method PlayReplaceClose(first: string, second: string) returns (afterFirst: Option<string>, afterSecond: Option<string>, afterClose: Option<string>, shownAfterClose: bool)
    ensures afterFirst == Some(AudioUrl(first))
    ensures afterSecond == Some(AudioUrl(second))
    ensures afterClose == None && !shownAfterClose
  {
    var app := new AppState();
    app.PlayAudio(first);
    afterFirst := app.currentAudio;
    app.PlayAudio(second);
    afterSecond := app.currentAudio;
    app.ClosePlayer();
    afterClose := app.currentAudio;
    shownAfterClose := app.PlayerShown();
  }
}
