/**
 * The catalog records the client receives from the catalog service and
 * the fixed CDN origin from which all audio and images are served.
 */
module Catalog {
  import opened Common

  /** The CDN origin, without a trailing slash. */
  const CdnOrigin: string := "https://d1jespy3mv91ys.cloudfront.net"

  /** The category ids the client's static tables know about. */
  const KnownCategoryIds: set<string> := {"film-songs", "podcasts", "stories", "web-series"}

  /** A category as the catalog service returns it; the three lists are optional fields. */
  datatype Category = Category(
    categoryId: string,
    displayName: string,
    description: string,
    backgroundImage: string,
    shows: Option<seq<string>>,
    subcategories: Option<seq<string>>,
    seasons: Option<seq<string>>)

  /** An episode; `audioPath` is the raw storage key, not URL-encoded. */
  datatype Episode = Episode(episodeId: string, title: string, audioPath: string, duration: string)

  datatype Show = Show(
    showId: string,
    title: string,
    description: string,
    coverImage: Option<string>,
    episodes: seq<Episode>)
}
