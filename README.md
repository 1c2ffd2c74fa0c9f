# PKRK FM client — a Dafny model of its core logic

PKRK FM is a small React client for a Kannada audio catalogue. This project
models the parts of the client that compute something:

- **The audio URL built by `playAudio`** (`App.tsx`). The storage path is split
  on `/`. Each segment goes through `encodeURIComponent`, as defined in
  section 18.2.6.5 of ECMA-262 6th edition: UTF-8 octets written `%HH` with
  uppercase hex. The segments are joined again with `/`, and the result is
  prefixed with the CDN root `https://d1jespy3mv91ys.cloudfront.net/`.
- **The `App` component state**: `categories`, `loading` and `currentAudio`. The
  transitions are `fetchCategories`, `playAudio` and the player's `onClose`.
- **The show page** (`ShowDetails.tsx`):
  - the static fallback table `getSampleShows`;
  - the `fetchShows` success/failure outcome on `shows` and `loading`;
  - `getCoverImage`;
  - the header title, which replaces only the first `-`.
- **The category grid** (`CategoryBrowser.tsx`): the `getSampleAudio` lookup and
  the stats badges for optional fields.

Files:

- `common.dfy`: `Option` and the two-outcome `Response` of a request.
- `text.dfy`: the JavaScript string built-ins the client calls, on `seq<char>`: `split`,
  `join`, one-character `replace` (first occurrence only) and ASCII `toUpperCase`.
  It also defines `StartsWith`, which the client never calls; it is only used to
  state properties.
- `uri.dfy`: `encodeURIComponent`, its output shape, and a reference decoder
  (`decodeURIComponent`) that serves as its inverse.
- `catalog.dfy`: the catalogue records and the CDN origin.
- `app.dfy`: the path encoder, with a character-level reference definition and a
  decoder as partners, and the `AppState` class.
- `show_details.dfy`: the fallback table, the cover URL, the header title and the
  `ShowDetailsState` class.
- `category_browser.dfy`: the sample lookup and the badges.
- `integration.dfy`: facts that link the components. The category sample is the
  first fallback episode. Two short scenarios exercise the classes.

The network is a parameter. A request is a function `get` from URL to
`Success(data) | Failure`. Each fetch method calls `get` with its fixed
endpoint, so the model shows that the shows request does not depend on the
category. The route parameter `categoryId` can be undefined, so it is an
`Option<string>`:

- in a template literal, an undefined parameter renders as `undefined`;
- in the header, optional chaining renders nothing.

In a few places the code does something a reader might not expect; the model follows the code:

- `(` and `)` are not percent-encoded, because `encodeURIComponent` leaves them
  alone;
- a failed category fetch leaves `categories` as they were (initially empty),
  with no fallback list;
- there are no Loading/Playing/Error session states, no request sequence
  numbers and no last-request-wins rule;
- the shows endpoint carries no category parameter.

The player is shown when `loading` is false and `currentAudio` is truthy
(`App.tsx:77`, `:90`). The URL is never empty, so after `playAudio` the
player is shown exactly when loading is over.

## Model

| member | source | states |
|---|---|---|
| Text.Split | src/App.tsx:51 | `split('/')` always returns at least one piece |
| Text.JoinSplit | src/App.tsx:50-53 | joining the pieces of a split with the same separator gives back the original string |
| Text.SplitSeparatorFree | src/App.tsx:51 | no piece of a split contains the separator |
| Text.SplitLength | src/App.tsx:51 | a split has exactly one more piece than the string has separators |
| Text.JoinCount | src/App.tsx:53 | a join of separator-free pieces contains exactly one separator fewer than there are pieces |
| Text.Join | src/App.tsx:53 | `join('/')`; Text.JoinSplit, Text.JoinCount and Text.SplitJoin state how it undoes `split` |
| Text.SplitJoin | src/App.tsx:50-53 | splitting a join of separator-free pieces gives back the pieces |
| Text.FirstIndex | src/components/ShowDetails.tsx:172 | the index found holds the character, and no earlier index does |
| Text.Count | src/App.tsx:51 | a count is zero exactly when the character is absent |
| Text.ReplaceFirstSpec | src/components/ShowDetails.tsx:172 | `replace` with a string pattern keeps the length and changes only the first occurrence, to the replacement; with no occurrence it changes nothing |
| Text.ReplaceFirst | src/components/ShowDetails.tsx:172 | `replace('-', ' ')` with a string pattern; Text.ReplaceFirstSpec and Text.ReplaceFirstAt state which character it changes |
| Text.FirstIndexAt | src/components/ShowDetails.tsx:172 | when `before` has no `c`, the first `c` of `before + [c] + after` is the one right after `before` |
| Text.ReplaceFirstAt | src/components/ShowDetails.tsx:172 | the replacement hits the first occurrence, and later occurrences stay |
| Text.UpperChar | src/components/ShowDetails.tsx:172 | the result is never an ASCII lower-case letter, and it differs from the input exactly when the input is one |
| Text.ToUpper | src/components/ShowDetails.tsx:172 | `toUpperCase` keeps the length and leaves no ASCII lower-case letter |
| Text.UpperCharTable | src/components/ShowDetails.tsx:172 | upper-casing looks a letter of `abc…z` up at the same index of `ABC…Z`; a character outside `abc…z` is kept |
| Text.UpperCharIdempotent | src/components/ShowDetails.tsx:172 | upper-casing a character twice is the same as once |
| Text.ToUpperIdempotent | src/components/ShowDetails.tsx:172 | upper-casing a string twice is the same as once |
| Text.ToUpperAppend | src/components/ShowDetails.tsx:172 | upper-casing a concatenation is concatenating the upper-cased parts |
| Text.ToUpperIdentity | src/components/ShowDetails.tsx:172 | a string is unchanged exactly when it holds no ASCII lower-case letter |
| Text.JoinStartsWith | src/components/CategoryBrowser.tsx:28-34 | a path joined from two or more segments starts with its first segment and `/` |
| Uri.HexDigit | src/App.tsx:52 | a hex digit of an octet is `0`–`9` or an uppercase `A`–`F` |
| Uri.HexRoundTrip | src/App.tsx:52 | reading back the digit written for a nibble gives the nibble |
| Uri.PercentBytes | src/App.tsx:52 | three characters per octet; Uri.PercentBytesEncoded proves they are `%HH` triples, and Uri.PercentDecodeBytes that the octets read back |
| Uri.PercentBytesEncoded | src/App.tsx:52 | the `%HH` text of any octets, before an encoded string, is itself an encoded string: uppercase-hex triples |
| Uri.PercentDecodeBytes | src/App.tsx:52 | percent-decoding the `%HH` text of some octets gives those octets back, in order, ahead of whatever follows |
| Uri.Utf8Char | src/App.tsx:52 | a scalar value takes 1 to 4 octets, and just one exactly when it is ASCII |
| Uri.EncodeChar | src/App.tsx:52 | an unreserved character is kept; any other becomes three characters per UTF-8 octet, starting with `%` (Uri.PercentBytesEncoded and Uri.PercentDecodeBytes give the `%HH` triples and their octets) |
| Uri.EncodeUriComponent | src/App.tsx:52 | `encodeURIComponent`, character by character; its promises are Uri.EncodeUriComponentIsEncoded, Uri.EncodeUriComponentIdentity, Uri.EncodeUriComponentLength and Uri.EncodeUriComponentRoundTrip |
| Uri.EncodeUriComponentIsEncoded | src/App.tsx:52 | every encoded segment is made only of unreserved characters and `%HH` triples with uppercase hex |
| Uri.EncodedHasNoSlashOrSpace | src/App.tsx:52 | such a string contains neither `/` nor a space |
| Uri.EncodeCharClean | src/App.tsx:52 | the encoding of any one character contains neither `/` nor a space |
| Uri.EncodeUriComponentAppend | src/App.tsx:52 | encoding a concatenation is concatenating the encodings |
| Uri.EncodeUriComponentLength | src/App.tsx:52 | the encoding is never shorter than its input, and it has the same length exactly when every character is unreserved |
| Uri.EncodeUriComponentIdentity | src/App.tsx:52 | a segment is unchanged exactly when all of its characters are unreserved |
| Uri.UnreservedIdentity | src/App.tsx:52 | a segment of unreserved characters is unchanged |
| Uri.ParenthesesKept | src/App.tsx:52 | `(` and `)` are written as they are |
| Uri.SpaceEncoding | src/App.tsx:49-52 | a space becomes `%20` |
| Uri.Utf8DecodeFirstOfChar | src/App.tsx:52 | the validating UTF-8 decoder reads back the character whose octets were written, and their count |
| Uri.Utf8RoundTrip | src/App.tsx:52 | UTF-8 decoding undoes UTF-8 encoding |
| Uri.PercentDecodeOfEncode | src/App.tsx:52 | percent-decoding an encoded segment gives the UTF-8 octets of the original |
| Uri.EncodeUriComponentRoundTrip | src/App.tsx:50-53 | `decodeURIComponent(encodeURIComponent(s)) == s` for every segment |
| App.EncodeSegments | src/App.tsx:52 | `map(encodeURIComponent)`; that no encoded segment holds `/` is App.EncodedSegmentsSlashFree, and that each decodes back is App.DecodeEncodedSegments |
| App.EncodePath | src/App.tsx:50-53 | the `encodedPath` of `playAudio`; its promises are App.EncodePathSegments, App.EncodePathPerCharacter, App.EncodePathIdentity and App.EncodePathRoundTrip |
| App.AudioUrl | src/App.tsx:55 | the `fullURL` of `playAudio`; its shape is App.AudioUrlShape |
| App.AudioUrlShape | src/App.tsx:55 | the URL starts with the CDN root, the rest is the encoded path, and it is longer than the root exactly when the path is non-empty |
| App.EmptyPathUrl | src/App.tsx:50-55 | the empty path gives the bare root `https://d1jespy3mv91ys.cloudfront.net/` |
| App.EncodedSegmentsSlashFree | src/App.tsx:52 | no encoded segment contains `/` |
| App.EncodePathSegments | src/App.tsx:50-53 | splitting the encoded path on `/` gives exactly the encoded segments of the raw path |
| App.EncodePathSlashCount | src/App.tsx:50-53 | the encoded path has as many `/` as the raw path |
| App.EncodePathPerCharacter | src/App.tsx:50-53 | the split–encode–join pipeline equals the character-level reference: keep each `/`, encode every other character in place |
| App.EncodeKeepingSlashesLength | src/App.tsx:50-53 | the reference never shortens its input; it keeps the length exactly when every character is unreserved or `/`, and then it changes nothing |
| App.EncodePathLength | src/App.tsx:50-53 | the encoded path is never shorter than the raw path |
| App.EncodePathIdentity | src/App.tsx:50-53 | a path is passed through unchanged exactly when it holds only unreserved characters and `/`, so `(` and `)` stay literal |
| App.EncodePathNoSpace | src/App.tsx:49-53 | the encoded path has no space |
| App.EncodePathSpace | src/App.tsx:49-53 | a space becomes `%20` in its place, and the text on either side is encoded as it would be on its own |
| App.EncodeJoinedPath | src/App.tsx:50-53 | a path joined from separator-free segments encodes to the join of the encoded segments |
| App.DecodeEncodedSegments | src/App.tsx:52 | decoding each encoded segment recovers the segments |
| App.EncodePathRoundTrip | src/App.tsx:50-53 | decoding the encoded path segment by segment recovers the raw path |
| App.AppState.constructor | src/App.tsx:24-27 | there are no categories at first, `loading` is true and nothing is playing |
| App.AppState.FetchCategories | src/App.tsx:33-46 | on success the response replaces `categories`; on failure they are left as they were; `loading` ends false either way; `currentAudio` is untouched |
| App.AppState.PlayAudio | src/App.tsx:48-62 | `currentAudio` becomes the URL of the new path whatever was playing; nothing else changes; the player is then shown exactly when loading is over |
| App.AppState.ClosePlayer | src/App.tsx:90-94 | `currentAudio` is reset to null and the player is not shown |
| App.AppState.PlayerShown | src/App.tsx:77-95 | the player is rendered once loading is over and `currentAudio` is truthy; App.AppState.PlayAudio and App.AppState.ClosePlayer state when it holds |
| ShowDetails.SampleShows | src/components/ShowDetails.tsx:50-150 | the fallback holds at most one show |
| ShowDetails.SampleShowsDomain | src/components/ShowDetails.tsx:51-148 | exactly `film-songs`, `stories`, `web-series` and `podcasts` get one fallback show; any other or undefined id gets `[]` |
| ShowDetails.FilmSongsWellFormed | src/components/ShowDetails.tsx:52-84 | the film-songs fallback has distinct episode ids, and all its paths lie under `film-songs/` |
| ShowDetails.StoriesWellFormed | src/components/ShowDetails.tsx:85-105 | the stories fallback has distinct episode ids, and all its paths lie under `stories/` |
| ShowDetails.WebSeriesWellFormed | src/components/ShowDetails.tsx:106-126 | the web-series fallback has distinct episode ids, and all its paths lie under `web-series/` |
| ShowDetails.PodcastsWellFormed | src/components/ShowDetails.tsx:127-146 | the podcasts fallback has distinct episode ids, and all its paths lie under `podcasts/` |
| ShowDetails.SampleShowsWellFormed | src/components/ShowDetails.tsx:62-144 | every fallback show of every id has pairwise distinct episode ids, and every audio path starts with the requested id and `/` |
| ShowDetails.StoriesFallback | src/components/ShowDetails.tsx:85-105 | the stories fallback is the single show `bhootada-mane-1` with two episodes; the first is `ep1`, `Episode 1`, at `stories/horror/BhootadaMane1/season1/episode1.mp3` |
| ShowDetails.Interpolate | src/components/ShowDetails.tsx:153 | a template literal renders the route id as it is, and an undefined one as `undefined`; ShowDetails.CoverImageKinds uses it |
| ShowDetails.CoverImage | src/components/ShowDetails.tsx:152-155 | `getCoverImage`; ShowDetails.CoverImageKinds states which URL it gives |
| ShowDetails.CoverImageKinds | src/components/ShowDetails.tsx:152-155 | the cover is a thumbnail URL exactly when the image name is present and non-empty, and it then ends in the unencoded name; otherwise it is the background URL ending in `<categoryId>-bg.jpg` |
| ShowDetails.HeaderTitle | src/components/ShowDetails.tsx:172 | the header text, empty for an undefined id; ShowDetails.HeaderTitleSpec and ShowDetails.WebSeriesTitle state what it is |
| ShowDetails.HeaderTitleSpec | src/components/ShowDetails.tsx:172 | the title keeps the length; the first `-` becomes a space; every other character is upper-cased in place, and later hyphens stay |
| ShowDetails.WebSeriesTitle | src/components/ShowDetails.tsx:172 | `web-series` is titled `WEB SERIES` |
| ShowDetails.ShowDetailsState.constructor | src/components/ShowDetails.tsx:26-29 | the page starts with no shows and `loading` true, for the route's category |
| ShowDetails.ShowDetailsState.FetchShows | src/components/ShowDetails.tsx:35-48 | the request goes to the fixed shows endpoint; on success `shows` is the response verbatim, on failure it is the whole fallback of the current category; `loading` ends false |
| ShowDetails.ShowDetailsState.CategoryChanged | src/components/ShowDetails.tsx:31-33 | a new route category reruns the fetch, whose outcome is stated for the new id |
| CategoryBrowser.SampleAudio | src/components/CategoryBrowser.tsx:25-38 | `getSampleAudio`; CategoryBrowser.SampleAudioSpec and Integration.SampleIsFirstFallbackEpisode state what it returns |
| CategoryBrowser.SampleAudioSpec | src/components/CategoryBrowser.tsx:25-38 | a sample path exists exactly for the four known ids (`''` for any other), and it starts with the category id and `/` |
| CategoryBrowser.SampleAudioOnlyById | src/components/CategoryBrowser.tsx:25-26 | the sample depends on `category_id` alone |
| CategoryBrowser.Stats | src/components/CategoryBrowser.tsx:67-77 | the badges of one card; CategoryBrowser.StatsSpec states which appear, with what count, in what order |
| CategoryBrowser.StatsSpec | src/components/CategoryBrowser.tsx:67-77 | a badge for shows, seasons or subcategories appears exactly when that optional field is present (even when empty), shows that list's length, and badges keep the order shows, seasons, types |
| Integration.SampleIsFirstFallbackEpisode | src/components/CategoryBrowser.tsx:28-34 | for each known category the sample path is the first episode's path in that category's fallback show |
| Integration.UnknownSamplePlaysBareRoot | src/components/CategoryBrowser.tsx:36 | an unknown category's sample, played, gives exactly the bare root URL |
| Integration.StoriesOutageScenario | src/components/ShowDetails.tsx:35-48 | with the catalogue service down, the stories page shows `bhootada-mane-1` with two episodes, and playing its first episode's path sets the player to that path's URL, shown; this assumes a parent that passes `App`'s `playAudio` to the page as `onPlayAudio`, and `title == "Episode 1"` is read from the fallback table, since `playAudio` ignores the title |
| Integration.PlayReplaceClose | src/App.tsx:61-93 | a second `playAudio` replaces the first URL, and closing clears it and hides the player |

## Left out

- Network requests (axios, the API Gateway endpoints): the response is an input, `Success(data)` or `Failure`, and the error value is not modelled.
- React rendering, hooks, routing (`useParams`, `useNavigate`), CSS, and the image `onError` handler at `src/components/ShowDetails.tsx:182-184`.
- `src/components/AudioPlayer.tsx` and the `ReactPlayer` library it wraps. AudioPlayer.tsx is not part of this model; only its appearance condition is.
- `src/aws-exports.ts`, Amplify configuration and `withAuthenticator`: identity-provider setup.
- Console logging (`src/App.tsx:35-42`, `57-59`; `src/components/ShowDetails.tsx:42`).
- `selectedCategory` and `onCategorySelect`: they are stored but never read by the modelled logic.
- Async ordering: two requests in flight, and a response that arrives after the category changed. The code has no logic for this.
- Text.ToUpper: only ASCII letters are upper-cased. JavaScript's full Unicode case mapping is not modelled.
- Uri.EncodeUriComponent: the `URIError` for a lone surrogate is not modelled, because Dafny characters are Unicode scalar values.
- The badge text (icon, decimal count and word, `src/components/CategoryBrowser.tsx:69-75`): a badge is modelled as its kind and its count only.
- Episode durations, titles and descriptions are carried as data, and nothing is proved about them beyond the `stories` fallback.
- The storage paths of both tables are written as the `/`-join of their segments. The resulting strings are the ones in the source.
