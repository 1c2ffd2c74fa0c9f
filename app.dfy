/**
 * The application shell: the storage-path-to-URL encoder used by
 * `playAudio`, and the component state `categories`, `loading` and
 * `currentAudio` with the transitions `fetchCategories`, `playAudio` and
 * the player's `onClose`.
 */
module App {
  import opened Common
  import opened Text
  import opened Uri
  import opened Catalog

  /** Every audio URL starts with this. */
  const CdnRoot: string := CdnOrigin + "/"

  const CategoriesEndpoint: string := "https://fz7forxwz8.execute-api.ap-south-1.amazonaws.com/prod/categories"

  /** `segments.map(segment => encodeURIComponent(segment))`. */
  function EncodeSegments(segments: seq<string>): (r: seq<string>)
    ensures |r| == |segments|
    ensures forall k :: 0 <= k < |r| ==> r[k] == EncodeUriComponent(segments[k])
  {
    seq(|segments|, k requires 0 <= k < |segments| => EncodeUriComponent(segments[k]))
  }

  /** `audioPath.split('/').map(encodeURIComponent).join('/')`. */
  function EncodePath(audioPath: string): string
  {
    Join(EncodeSegments(Split(audioPath, '/')), '/')
  }

  /** The full URL `playAudio` stores. */
  function AudioUrl(audioPath: string): string
  {
    CdnRoot + EncodePath(audioPath)
  }

  // ---------------------------------------------------------------------
  // Reference definitions

  /** Character-level reading of the encoder: `/` kept, every other character encoded on its own. */
  function EncodeKeepingSlashes(s: string): string
  {
    if s == [] then []
    else (if s[0] == '/' then "/" else EncodeChar(s[0])) + EncodeKeepingSlashes(s[1..])
  }

  /** Decodes each `/`-separated segment with `decodeURIComponent` and rejoins them. */
  function DecodePath(encoded: string): Option<string>
  {
    match DecodeSegments(Split(encoded, '/'))
    case None => None
    case Some(segments) => Some(Join(segments, '/'))
  }

  function DecodeSegments(segments: seq<string>): (r: Option<seq<string>>)
    ensures r.Some? ==> |r.value| == |segments|
  {
    if segments == [] then Some([])
    else
      match (DecodeUriComponent(segments[0]), DecodeSegments(segments[1..]))
      case (Some(d), Some(rest)) => Some([d] + rest)
      case _ => None
  }

  // ---------------------------------------------------------------------
  // Properties of the encoder

  /** The URL is the CDN root followed by the encoded path. */
  lemma AudioUrlShape(audioPath: string)
    ensures StartsWith(AudioUrl(audioPath), CdnRoot)
    ensures AudioUrl(audioPath)[|CdnRoot|..] == EncodePath(audioPath)
    ensures |AudioUrl(audioPath)| > |CdnRoot| <==> audioPath != ""
  {
    if audioPath != "" {
      EncodePathLength(audioPath);
    }
  }

  /** The empty path gives the bare root with its trailing slash. */
  lemma EmptyPathUrl()
    ensures AudioUrl("") == "https://d1jespy3mv91ys.cloudfront.net/"
  {
    assert Split("", '/') == [""];
    assert EncodeUriComponent("") == "";
  }

  lemma EncodedSegmentsSlashFree(segments: seq<string>)
    ensures SeparatorFree(EncodeSegments(segments), '/')
  {
    forall k | 0 <= k < |segments|
      ensures '/' !in EncodeSegments(segments)[k]
    {
      EncodeUriComponentIsEncoded(segments[k]);
      EncodedHasNoSlashOrSpace(EncodeUriComponent(segments[k]));
    }
  }

  /** The encoded path splits into exactly the encoded segments of the raw path. */
  lemma EncodePathSegments(audioPath: string)
    ensures Split(EncodePath(audioPath), '/') == EncodeSegments(Split(audioPath, '/'))
  {
    EncodedSegmentsSlashFree(Split(audioPath, '/'));
    SplitJoin(EncodeSegments(Split(audioPath, '/')), '/');
  }

  /** Encoding neither adds nor removes a `/`. */
  lemma EncodePathSlashCount(audioPath: string)
    ensures Count(EncodePath(audioPath), '/') == Count(audioPath, '/')
  {
    var segments := Split(audioPath, '/');
    EncodedSegmentsSlashFree(segments);
    JoinCount(EncodeSegments(segments), '/');
    SplitLength(audioPath, '/');
  }

  lemma {:induction false} EncodeKeepingSlashesAppend(a: string, b: string)
    ensures EncodeKeepingSlashes(a + b) == EncodeKeepingSlashes(a) + EncodeKeepingSlashes(b)
  {
    if a == [] {
      assert a + b == b;
    } else {
      assert (a + b)[1..] == a[1..] + b;
      EncodeKeepingSlashesAppend(a[1..], b);
    }
  }

  lemma {:induction false} SlashFreeEncoding(s: string)
    requires '/' !in s
    ensures EncodeKeepingSlashes(s) == EncodeUriComponent(s)
  {
    if s != [] {
      assert s[0] in s;
      assert forall c :: c in s[1..] ==> c in s;
      SlashFreeEncoding(s[1..]);
    }
  }

  lemma EncodeSegmentsCons(segment: string, rest: seq<string>)
    ensures EncodeSegments([segment] + rest) == [EncodeUriComponent(segment)] + EncodeSegments(rest)
  {
    var l, r := EncodeSegments([segment] + rest), [EncodeUriComponent(segment)] + EncodeSegments(rest);
    assert |l| == |r|;
    forall k | 0 <= k < |l|
      ensures l[k] == r[k]
    {
      if k > 0 {
        assert ([segment] + rest)[k] == rest[k - 1];
      }
    }
  }

  /** Peeling off the first segment of a path that contains `/`. */
  lemma EncodePathFirstSegment(audioPath: string, i: nat)
    requires '/' in audioPath && i == FirstIndex(audioPath, '/')
    ensures EncodePath(audioPath) == EncodeUriComponent(audioPath[..i]) + "/" + EncodePath(audioPath[i + 1..])
  {
    var head := audioPath[..i];
    var tail := Split(audioPath[i + 1..], '/');
    assert Split(audioPath, '/') == [head] + tail;
    EncodeSegmentsCons(head, tail);
    JoinCons(EncodeUriComponent(head), EncodeSegments(tail), '/');
  }

  lemma SlashKept()
    ensures EncodeKeepingSlashes("/") == "/"
  {
    assert "/"[1..] == [];
  }

  /** The character-level encoder keeps a `/` at index `i` and encodes both sides of it. */
  lemma EncodeKeepingSlashesAt(s: string, i: nat)
    requires i < |s| && s[i] == '/'
    ensures EncodeKeepingSlashes(s) == EncodeKeepingSlashes(s[..i]) + "/" + EncodeKeepingSlashes(s[i + 1..])
  {
    var head, rest := s[..i], s[i + 1..];
    AroundIndex(s, i);
    SlashKept();
    EncodeKeepingSlashesAppend(head + "/", rest);
    EncodeKeepingSlashesAppend(head, "/");
  }

  /** Encoding the segments separately is the same as encoding every non-`/` character in place. */
  lemma {:induction false} EncodePathPerCharacter(audioPath: string)
    ensures EncodePath(audioPath) == EncodeKeepingSlashes(audioPath)
    decreases |audioPath|
  {
    if '/' !in audioPath {
      SlashFreeEncoding(audioPath);
    } else {
      var i := FirstIndex(audioPath, '/');
      EncodePathFirstSegment(audioPath, i);
      SlashFreeEncoding(audioPath[..i]);
      EncodePathPerCharacter(audioPath[i + 1..]);
      EncodeKeepingSlashesAt(audioPath, i);
    }
  }

  /** Characters the encoder leaves alone: the unreserved ones and the separator. */
  predicate PathSafe(c: char)
  {
    Unreserved(c) || c == '/'
  }

  lemma {:induction false} EncodeKeepingSlashesLength(s: string)
    ensures |EncodeKeepingSlashes(s)| >= |s|
    ensures |EncodeKeepingSlashes(s)| == |s| <==> forall k :: 0 <= k < |s| ==> PathSafe(s[k])
    ensures (forall k :: 0 <= k < |s| ==> PathSafe(s[k])) ==> EncodeKeepingSlashes(s) == s
  {
    if s != [] {
      EncodeKeepingSlashesLength(s[1..]);
      if forall k :: 0 <= k < |s| ==> PathSafe(s[k]) {
        forall k | 0 <= k < |s[1..]| ensures PathSafe(s[1..][k]) {
          assert s[1..][k] == s[k + 1];
        }
        assert s == [s[0]] + s[1..];
      } else {
        var j :| 0 <= j < |s| && !PathSafe(s[j]);
        if j > 0 {
          assert s[1..][j - 1] == s[j];
        }
      }
    }
  }

  lemma EncodePathLength(audioPath: string)
    ensures |EncodePath(audioPath)| >= |audioPath|
  {
    EncodePathPerCharacter(audioPath);
    EncodeKeepingSlashesLength(audioPath);
  }

  /** A path is passed through unchanged exactly when it holds only unreserved characters and `/`. */
  lemma EncodePathIdentity(audioPath: string)
    ensures EncodePath(audioPath) == audioPath <==> forall k :: 0 <= k < |audioPath| ==> PathSafe(audioPath[k])
  {
    EncodePathPerCharacter(audioPath);
    EncodeKeepingSlashesLength(audioPath);
  }

  lemma {:induction false} EncodeKeepingSlashesNoSpace(s: string)
    ensures ' ' !in EncodeKeepingSlashes(s)
  {
    if s != [] {
      EncodeKeepingSlashesNoSpace(s[1..]);
      if s[0] != '/' {
        EncodeCharClean(s[0]);
      }
    }
  }

  /** The encoded path holds no space. */
  lemma EncodePathNoSpace(audioPath: string)
    ensures ' ' !in EncodePath(audioPath)
  {
    EncodePathPerCharacter(audioPath);
    EncodeKeepingSlashesNoSpace(audioPath);
  }

  /** A space in a path becomes `%20` in its place; the text around it is encoded as it would be alone. */
  lemma EncodePathSpace(before: string, after: string)
    ensures EncodePath(before + " " + after) == EncodePath(before) + "%20" + EncodePath(after)
  {
    EncodePathPerCharacter(before + " " + after);
    EncodePathPerCharacter(before);
    EncodePathPerCharacter(after);
    EncodeKeepingSlashesAppend(before + " ", after);
    EncodeKeepingSlashesAppend(before, " ");
    SpaceEncoding();
    assert EncodeUriComponent(" ") == EncodeChar(' ') + EncodeUriComponent("");
    assert EncodeKeepingSlashes(" ") == EncodeChar(' ') + EncodeKeepingSlashes("");
  }

  /** A path given as separator-free segments is encoded segment by segment. */
  lemma EncodeJoinedPath(segments: seq<string>)
    requires |segments| >= 1
    requires SeparatorFree(segments, '/')
    ensures EncodePath(Join(segments, '/')) == Join(EncodeSegments(segments), '/')
  {
    SplitJoin(segments, '/');
  }

  lemma {:induction false} DecodeEncodedSegments(segments: seq<string>)
    ensures DecodeSegments(EncodeSegments(segments)) == Some(segments)
  {
    if segments != [] {
      EncodeUriComponentRoundTrip(segments[0]);
      assert EncodeSegments(segments)[1..] == EncodeSegments(segments[1..]);
      DecodeEncodedSegments(segments[1..]);
      assert segments == [segments[0]] + segments[1..];
    }
  }

  /** Decoding the encoded path segment by segment recovers the raw path. */
  lemma EncodePathRoundTrip(audioPath: string)
    ensures DecodePath(EncodePath(audioPath)) == Some(audioPath)
  {
    EncodePathSegments(audioPath);
    DecodeEncodedSegments(Split(audioPath, '/'));
    JoinSplit(audioPath, '/');
  }

  // ---------------------------------------------------------------------
  // Component state

  /** The state of the `App` component. */
  class AppState {
    var categories: seq<Category>
    var loading: bool
    var currentAudio: Option<string>

    /** The initial `useState` values. */
    constructor ()
      ensures categories == [] && loading && currentAudio == None
    {
      categories := [];
      loading := true;
      currentAudio := None;
    }

    /** The audio player is rendered once loading is over and `currentAudio` is truthy. */
    predicate PlayerShown()
      reads this
    {
      !loading && currentAudio.Some? && currentAudio.value != ""
    }

    /** `fetchCategories`: the response replaces `categories` on success; on failure they stay; `loading` ends false. */
    method FetchCategories(get: string -> Response<seq<Category>>)
      modifies this
      ensures categories == (match get(CategoriesEndpoint)
                             case Success(data) => data
                             case Failure => old(categories))
      ensures !loading
      ensures currentAudio == old(currentAudio)
    {
      var response := get(CategoriesEndpoint);
      match response {
        case Success(data) => categories := data;
        case Failure =>
      }
      loading := false;
    }

    /** `playAudio`: whatever was playing, `currentAudio` becomes the URL of the new path. */
    method PlayAudio(audioPath: string)
      modifies this
      ensures currentAudio == Some(AudioUrl(audioPath))
      ensures categories == old(categories) && loading == old(loading)
      ensures PlayerShown() <==> !loading
    {
      currentAudio := Some(AudioUrl(audioPath));
    }

    /** The player's `onClose`: `currentAudio` is reset to null and the player disappears. */
    method ClosePlayer()
      modifies this
      ensures currentAudio == None
      ensures categories == old(categories) && loading == old(loading)
      ensures !PlayerShown()
    {
      currentAudio := None;
    }
  }
}
