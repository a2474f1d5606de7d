/**
 * Extraction of a YouTube video id from free-form URL text.
 *
 * The source uses one regular expression,
 *   ^.*((youtu.be\/)|(v\/)|(\/u\/\w\/)|(embed\/)|(watch\?))\??v?=?([^#&?]*).*
 * and keeps capture group 7 when it is exactly 11 characters long. Because the
 * leading `.*` is greedy and everything after the marker group always matches,
 * the regex settles on the LAST position (within the first line) at which one of
 * the five markers matches; from the end of that marker it skips an optional `?`,
 * `v` and `=`, and captures the longest run of characters other than `#`, `&`, `?`.
 * This module writes that out as a scanner and proves it against a declarative
 * description of the match.
 */
module VideoIdExtraction {
  import opened Types

  /** The characters that `.` does not match in a JavaScript regex without the s flag. */
  predicate IsLineTerminator(c: char) {
    c == '\n' || c == '\r' || c == '\U{2028}' || c == '\U{2029}'
  }

  /** `\w` in a JavaScript regex without the u flag. */
  predicate IsWordChar(c: char) {
    ('a' <= c <= 'z') || ('A' <= c <= 'Z') || ('0' <= c <= '9') || c == '_'
  }

  /** The characters excluded by `[^#&?]`. */
  predicate IsStop(c: char) {
    c == '#' || c == '&' || c == '?'
  }

  /** The five alternatives of the marker group, in the order the regex tries them. */
  datatype Marker = ShortLink | VPath | UserPath | Embed | Watch {
    function Length(): nat {
      match this
      case ShortLink => 9  // youtu.be/
      case VPath => 2      // v/
      case UserPath => 5   // /u/\w/
      case Embed => 6      // embed/
      case Watch => 6      // watch?
    }
  }

  /** Marker `m` matches the text at position `p`. */
  predicate MatchesAt(s: string, p: nat, m: Marker) {
    p + m.Length() <= |s| &&
    match m
    case ShortLink =>
      s[p] == 'y' && s[p + 1] == 'o' && s[p + 2] == 'u' && s[p + 3] == 't' && s[p + 4] == 'u' &&
      !IsLineTerminator(s[p + 5]) && s[p + 6] == 'b' && s[p + 7] == 'e' && s[p + 8] == '/'
    case VPath => s[p] == 'v' && s[p + 1] == '/'
    case UserPath => s[p] == '/' && s[p + 1] == 'u' && s[p + 2] == '/' && IsWordChar(s[p + 3]) && s[p + 4] == '/'
    case Embed =>
      s[p] == 'e' && s[p + 1] == 'm' && s[p + 2] == 'b' && s[p + 3] == 'e' && s[p + 4] == 'd' && s[p + 5] == '/'
    case Watch =>
      s[p] == 'w' && s[p + 1] == 'a' && s[p + 2] == 't' && s[p + 3] == 'c' && s[p + 4] == 'h' && s[p + 5] == '?'
  }

  /** The alternative of the marker group that matches at `p`, if any. */
  function MarkerAt(s: string, p: nat): (r: Option<Marker>)
    ensures r.Some? ==> MatchesAt(s, p, r.value)
    ensures r.None? ==> forall m :: !MatchesAt(s, p, m)
  {
    if MatchesAt(s, p, ShortLink) then Some(ShortLink)
    else if MatchesAt(s, p, VPath) then Some(VPath)
    else if MatchesAt(s, p, UserPath) then Some(UserPath)
    else if MatchesAt(s, p, Embed) then Some(Embed)
    else if MatchesAt(s, p, Watch) then Some(Watch)
    else None
  }

  /** The markers begin with five different characters, so at most one matches at a position. */
  lemma MarkerUnique(s: string, p: nat, m1: Marker, m2: Marker)
    requires MatchesAt(s, p, m1) && MatchesAt(s, p, m2)
    ensures m1 == m2
  {
  }

  /** The position of the first line terminator at or after `i`, or the end of the text:
      `^.*` can only consume the text before it. */
  function LineEnd(s: string, i: nat): (j: nat)
    requires i <= |s|
    ensures i <= j <= |s|
    ensures forall k :: i <= k < j ==> !IsLineTerminator(s[k])
    ensures j == |s| || IsLineTerminator(s[j])
    decreases |s| - i
  {
    if i == |s| || IsLineTerminator(s[i]) then i else LineEnd(s, i + 1)
  }

  /** Backtracking of the greedy `^.*`: try the positions `p`, `p - 1`, ..., `0` in turn and
      stop at the first one where a marker matches. */
  function LastMarkerFrom(s: string, p: nat): (r: Option<nat>)
    ensures r.Some? ==> r.value <= p && MarkerAt(s, r.value).Some?
    ensures r.Some? ==> forall q :: r.value < q <= p ==> MarkerAt(s, q).None?
    ensures r.None? ==> forall q :: 0 <= q <= p ==> MarkerAt(s, q).None?
    decreases p
  {
    if MarkerAt(s, p).Some? then Some(p)
    else if p == 0 then None
    else LastMarkerFrom(s, p - 1)
  }

  /** One optional literal character: `c?`. */
  function SkipOptional(s: string, i: nat, c: char): (j: nat)
    requires i <= |s|
    ensures j <= |s|
  {
    if i < |s| && s[i] == c then i + 1 else i
  }

  /** `\??v?=?` starting at `e`: where the capture group begins. */
  function ValueStart(s: string, e: nat): (j: nat)
    requires e <= |s|
    ensures e <= j <= e + 3 && j <= |s|
  {
    SkipOptional(s, SkipOptional(s, SkipOptional(s, e, '?'), 'v'), '=')
  }

  /** `[^#&?]*` starting at `i`: where the greedy capture ends. */
  function CaptureEnd(s: string, i: nat): (j: nat)
    requires i <= |s|
    ensures i <= j <= |s|
    ensures forall k :: i <= k < j ==> !IsStop(s[k])
    ensures j == |s| || IsStop(s[j])
    decreases |s| - i
  {
    if i < |s| && !IsStop(s[i]) then CaptureEnd(s, i + 1) else i
  }

  /** Where the value after the marker matched at `p` begins. */
  function ValueStartAfter(s: string, p: nat): (j: nat)
    requires MarkerAt(s, p).Some?
    ensures p < j <= |s|
  {
    ValueStart(s, p + MarkerAt(s, p).value.Length())
  }

  /** Capture group 7 when the marker group matched at `p`. */
  function CaptureAfter(s: string, p: nat): (v: string)
    requires MarkerAt(s, p).Some?
    ensures forall k :: 0 <= k < |v| ==> !IsStop(v[k])
  {
    var start := ValueStartAfter(s, p);
    s[start..CaptureEnd(s, start)]
  }

  /** `extractVideoId`: an empty input gives null; otherwise the regex capture when it has
      exactly 11 characters, and null when the regex does not match or the capture has another length. */
  function ExtractVideoId(url: string): (r: Option<string>)
    ensures url == [] ==> r == None
    ensures r.Some? ==> |r.value| == 11 && forall k :: 0 <= k < |r.value| ==> !IsStop(r.value[k])
  {
    if url == [] then None
    else
      match LastMarkerFrom(url, LineEnd(url, 0))
      case None => None
      case Some(p) =>
        var id := CaptureAfter(url, p);
        if |id| == 11 then Some(id) else None
  }

  // ---------------------------------------------------------------------------
  // A declarative description of the match

  /** `p` is the last position of the first line at which a marker matches. */
  ghost predicate IsLastMarker(s: string, p: nat) {
    p <= LineEnd(s, 0) && MarkerAt(s, p).Some? &&
    forall q :: p < q <= LineEnd(s, 0) ==> MarkerAt(s, q).None?
  }

  /** `v` is the maximal run of non-stop characters beginning at `i`. */
  ghost predicate IsRunAt(s: string, i: nat, v: string) {
    i + |v| <= |s| && s[i..i + |v|] == v &&
    (forall k :: 0 <= k < |v| ==> !IsStop(v[k])) &&
    (i + |v| == |s| || IsStop(s[i + |v|]))
  }

  lemma LastMarkerUnique(s: string, p1: nat, p2: nat)
    requires IsLastMarker(s, p1) && IsLastMarker(s, p2)
    ensures p1 == p2
  {
    assert MarkerAt(s, p1).Some? && MarkerAt(s, p2).Some?;
  }

  /** A maximal run is what the greedy capture takes. */
  lemma {:induction false} RunIsCapture(s: string, i: nat, v: string)
    requires IsRunAt(s, i, v)
    ensures v == s[i..CaptureEnd(s, i)]
    decreases |v|
  {
    if |v| > 0 {
      assert s[i] == s[i..i + |v|][0] == v[0];
      assert s[i + 1..i + |v|] == s[i..i + |v|][1..] == v[1..];
      RunIsCapture(s, i + 1, v[1..]);
    }
  }

  lemma CaptureIsRun(s: string, i: nat)
    requires i <= |s|
    ensures IsRunAt(s, i, s[i..CaptureEnd(s, i)])
  {
  }

  /** The result of `extractVideoId`, in both directions: `id` comes back exactly when the input
      is non-empty, a marker matches somewhere in its first line, and the maximal run of characters
      other than `#`, `&` and `?` after the last such marker (and an optional `?`, `v`, `=`) is `id`,
      of length 11. */
  lemma ExtractVideoIdCharacterized(url: string, id: string)
    ensures ExtractVideoId(url) == Some(id) <==>
      url != [] && |id| == 11 &&
      exists p :: IsLastMarker(url, p) && IsRunAt(url, ValueStartAfter(url, p), id)
  {
    if ExtractVideoId(url) == Some(id) {
      ExtractedAfterLastMarker(url);
    }
    if url != [] && |id| == 11 && exists p :: IsLastMarker(url, p) && IsRunAt(url, ValueStartAfter(url, p), id) {
      var p :| IsLastMarker(url, p) && IsRunAt(url, ValueStartAfter(url, p), id);
      ExtractFromLastMarker(url, p, id);
    }
  }

  /** A non-null result is the maximal run after the last marker. */
  lemma ExtractedAfterLastMarker(url: string)
    requires ExtractVideoId(url).Some?
    ensures exists p :: IsLastMarker(url, p) && IsRunAt(url, ValueStartAfter(url, p), ExtractVideoId(url).value)
  {
    var r := LastMarkerFrom(url, LineEnd(url, 0));
    assert r.Some?;
    var p := r.value;
    assert IsLastMarker(url, p);
    CaptureIsRun(url, ValueStartAfter(url, p));
    assert IsRunAt(url, ValueStartAfter(url, p), ExtractVideoId(url).value);
  }

  /** Text in whose first line no marker matches gives null. */
  lemma NoMarkerNoId(url: string)
    requires forall q :: 0 <= q <= LineEnd(url, 0) ==> MarkerAt(url, q).None?
    ensures ExtractVideoId(url) == None
  {
    if url != [] {
      var r := LastMarkerFrom(url, LineEnd(url, 0));
      assert r.Some? ==> MarkerAt(url, r.value).Some?;
    }
  }

  // ---------------------------------------------------------------------------
  // The five URL shapes

  /** The characters of a YouTube video id. */
  predicate IsIdChar(c: char) {
    ('a' <= c <= 'z') || ('A' <= c <= 'Z') || ('0' <= c <= '9') || c == '_' || c == '-'
  }

  predicate IsValidId(id: string) {
    |id| == 11 && forall k :: 0 <= k < |id| ==> IsIdChar(id[k])
  }

  /** The recognized shapes, written as the text that precedes the id. */
  datatype Shape = ShortLinkShape | VPathShape | UserShape(digit: char) | EmbedShape | WatchShape {
    function Text(): string {
      match this
      case ShortLinkShape => "youtu.be/"
      case VPathShape => "v/"
      case UserShape(d) => "/u/" + [d] + "/"
      case EmbedShape => "embed/"
      case WatchShape => "watch?v="
    }
    function MarkerOf(): Marker {
      match this
      case ShortLinkShape => ShortLink
      case VPathShape => VPath
      case UserShape(_) => UserPath
      case EmbedShape => Embed
      case WatchShape => Watch
    }
  }

  /** Every marker ends with `/` or `?`. */
  lemma MarkerEndsWithSeparator(s: string, q: nat, m: Marker)
    ensures MatchesAt(s, q, m) ==> s[q + m.Length() - 1] == '/' || s[q + m.Length() - 1] == '?'
  {
  }

  predicate NoSeparator(t: string) {
    forall k :: 0 <= k < |t| ==> t[k] != '/' && t[k] != '?'
  }

  predicate EndsWithWatch(id: string) {
    |id| >= 5 && id[|id| - 5..] == "watch"
  }

  /** A tail after the id that adds no marker: nothing, or `#`, `&` or `?` followed by text
      without `/` or `?`. After `?` the id must not end in `watch`, which with the `?` would
      form a later `watch?` marker. */
  predicate TailAllowed(id: string, tail: string) {
    tail == [] ||
    (IsStop(tail[0]) && NoSeparator(tail[1..]) && (tail[0] == '?' ==> !EndsWithWatch(id)))
  }

  /** No marker matches at a position after the start of a shape's text and ending inside it. */
  lemma NoMarkerInsideShape(s: string, p: nat, sh: Shape, q: nat, m: Marker)
    requires sh.UserShape? ==> '0' <= sh.digit <= '9'
    requires p + |sh.Text()| <= |s| && s[p..p + |sh.Text()|] == sh.Text()
    requires p < q
    ensures q + m.Length() <= p + |sh.Text()| ==> !MatchesAt(s, q, m)
  {
    var t := sh.Text();
    forall k | 0 <= k < |t| ensures s[p + k] == t[k] {
      assert s[p..p + |t|][k] == t[k];
    }
  }

  /** The layout of a text that holds a shape's text at `p`, an id right after it, and a tail. */
  ghost predicate ShapeLaidOut(s: string, p: nat, sh: Shape, id: string) {
    var e := p + |sh.Text()|;
    e + |id| <= |s| && s[p..e] == sh.Text() && s[e..e + |id|] == id
  }

  /** A `watch?` marker closed by the first character after an 11-character id lies in the id's
      last five characters, so the id ends in `watch`. */
  lemma WatchEndingInId(s: string, e: nat, id: string)
    requires |id| == 11 && e + 11 <= |s| && s[e..e + 11] == id
    ensures MatchesAt(s, e + 6, Watch) ==> EndsWithWatch(id)
  {
    if MatchesAt(s, e + 6, Watch) {
      forall i | 0 <= i < 5 ensures id[6..][i] == "watch"[i] {
        assert s[e..e + 11][6 + i] == s[e + 6 + i];
      }
    }
  }

  /** After a shape's text and a valid id, no marker matches anywhere past the shape's start. */
  lemma NoMarkerAfterShape(s: string, p: nat, sh: Shape, id: string)
    requires sh.UserShape? ==> '0' <= sh.digit <= '9'
    requires IsValidId(id) && ShapeLaidOut(s, p, sh, id)
    requires TailAllowed(id, s[p + |sh.Text()| + |id|..])
    ensures forall q :: p < q <= |s| ==> MarkerAt(s, q).None?
  {
    var e := p + |sh.Text()|;
    var f := e + |id|;
    assert f < |s| ==> s[f] == s[f..][0];
    WatchEndingInId(s, e, id);
    assert NoSeparator(s[e..e + |id|]) by {
      assert s[e..e + |id|] == id;
      forall k | 0 <= k < |id| ensures id[k] != '/' && id[k] != '?' {
        assert IsIdChar(id[k]);
      }
    }
    forall q, m | p < q <= |s| ensures !MatchesAt(s, q, m) {
      var last := q + m.Length() - 1;
      MarkerEndsWithSeparator(s, q, m);
      NoMarkerInsideShape(s, p, sh, q, m);
      assert f < last < |s| ==> s[last] == s[f..][1..][last - f - 1];
      assert e <= last < f ==> s[last] == s[e..f][last - e];
    }
  }

  /** A shape's text at `p` is a marker match there, and the value after it begins right after the text. */
  lemma ShapeMarker(s: string, p: nat, sh: Shape, id: string)
    requires sh.UserShape? ==> '0' <= sh.digit <= '9'
    requires IsValidId(id) && ShapeLaidOut(s, p, sh, id)
    ensures MarkerAt(s, p) == Some(sh.MarkerOf())
    ensures sh.WatchShape? || id[0] != 'v' ==> ValueStartAfter(s, p) == p + |sh.Text()|
    ensures !sh.WatchShape? && id[0] == 'v' ==> ValueStartAfter(s, p) == p + |sh.Text()| + 1
  {
    var t := sh.Text();
    var e := p + |t|;
    var m := sh.MarkerOf();
    assert forall k :: 0 <= k < |t| ==> s[p + k] == t[k] by {
      forall k | 0 <= k < |t| ensures s[p + k] == t[k] {
        assert s[p..e][k] == t[k];
      }
    }
    match sh {
    case ShortLinkShape =>
      assert s[p] == t[0] && s[p + 1] == t[1] && s[p + 2] == t[2] && s[p + 3] == t[3] && s[p + 4] == t[4];
      assert s[p + 5] == t[5] && s[p + 6] == t[6] && s[p + 7] == t[7] && s[p + 8] == t[8];
    case VPathShape =>
      assert s[p] == t[0] && s[p + 1] == t[1];
    case UserShape(_) =>
      assert s[p] == t[0] && s[p + 1] == t[1] && s[p + 2] == t[2] && s[p + 3] == t[3] && s[p + 4] == t[4];
    case EmbedShape =>
      assert s[p] == t[0] && s[p + 1] == t[1] && s[p + 2] == t[2] && s[p + 3] == t[3] && s[p + 4] == t[4];
      assert s[p + 5] == t[5];
    case WatchShape =>
      assert s[p] == t[0] && s[p + 1] == t[1] && s[p + 2] == t[2] && s[p + 3] == t[3] && s[p + 4] == t[4];
      assert s[p + 5] == t[5] && s[p + 6] == t[6] && s[p + 7] == t[7];
    }
    assert MatchesAt(s, p, m);
    MarkerUnique(s, p, m, if MarkerAt(s, p).Some? then MarkerAt(s, p).value else m);
    assert s[e] == id[0] && s[e + 1] == id[1] by {
      assert s[e..e + |id|][0] == id[0];
      assert s[e..e + |id|][1] == id[1];
    }
    assert IsIdChar(id[0]) && IsIdChar(id[1]);
  }

  /** The extraction from a laid-out text: the last marker is the shape's, and the value after it is the id. */
  lemma ShapeExtractedAt(s: string, p: nat, sh: Shape, id: string)
    requires IsValidId(id) && ShapeLaidOut(s, p, sh, id)
    requires forall k :: 0 <= k < p ==> !IsLineTerminator(s[k])
    requires sh.UserShape? ==> '0' <= sh.digit <= '9'
    requires !sh.WatchShape? ==> id[0] != 'v'
    requires TailAllowed(id, s[p + |sh.Text()| + |id|..])
    ensures ExtractVideoId(s) == Some(id)
  {
    var e := p + |sh.Text()|;
    assert e + |id| < |s| ==> s[e + |id|] == s[e + |id|..][0];
    assert p <= LineEnd(s, 0);
    NoMarkerAfterShape(s, p, sh, id);
    ShapeMarker(s, p, sh, id);
    assert IsLastMarker(s, p);
    forall k | 0 <= k < |id| ensures !IsStop(id[k]) {
      assert IsIdChar(id[k]);
    }
    assert IsRunAt(s, e, id);
    ExtractFromLastMarker(s, p, id);
  }


  /** Every well-formed 11-character id embedded after any of the five shapes is extracted,
      when the text before the shape is on one line, the tail after the id adds no marker, and,
      for all shapes but `watch?v=`, the id does not start with `v`. */
  lemma ShapeExtracted(prefix: string, sh: Shape, id: string, suffix: string)
    requires forall k :: 0 <= k < |prefix| ==> !IsLineTerminator(prefix[k])
    requires sh.UserShape? ==> '0' <= sh.digit <= '9'
    requires IsValidId(id)
    requires !sh.WatchShape? ==> id[0] != 'v'
    requires TailAllowed(id, suffix)
    ensures ExtractVideoId(prefix + sh.Text() + id + suffix) == Some(id)
  {
    var s := prefix + sh.Text() + id + suffix;
    var p := |prefix|;
    var e := p + |sh.Text()|;
    assert s[p..e] == sh.Text();
    assert s[e..e + 11] == id;
    assert s[e + 11..] == suffix;
    assert forall k :: 0 <= k < p ==> s[k] == prefix[k];
    ShapeExtractedAt(s, p, sh, id);
  }

  /** With the last marker at `p` and the maximal run after it known, the extraction is that run
      when it has 11 characters and null otherwise. */
  lemma ExtractFromLastMarker(s: string, p: nat, v: string)
    requires s != [] && IsLastMarker(s, p) && IsRunAt(s, ValueStartAfter(s, p), v)
    ensures ExtractVideoId(s) == if |v| == 11 then Some(v) else None
  {
    var start := ValueStartAfter(s, p);
    RunIsCapture(s, start, v);
    LastMarkerFound(s, p);
    assert CaptureAfter(s, p) == v;
  }

  /** The backward scan from the end of the first line stops at the last marker. */
  lemma LastMarkerFound(s: string, p: nat)
    requires IsLastMarker(s, p)
    ensures LastMarkerFrom(s, LineEnd(s, 0)) == Some(p)
  {
    var r := LastMarkerFrom(s, LineEnd(s, 0));
    assert r.Some?;
    assert IsLastMarker(s, r.value);
    LastMarkerUnique(s, p, r.value);
  }


  /** For every shape but `watch?v=`, an id that begins with `v` loses that letter to the `v?` of
      the pattern, so the capture is 10 characters long and the result is null. */
  lemma LeadingVLost(prefix: string, sh: Shape, id: string, suffix: string)
    requires forall k :: 0 <= k < |prefix| ==> !IsLineTerminator(prefix[k])
    requires sh.UserShape? ==> '0' <= sh.digit <= '9'
    requires IsValidId(id) && !sh.WatchShape? && id[0] == 'v'
    requires TailAllowed(id, suffix)
    ensures ExtractVideoId(prefix + sh.Text() + id + suffix) == None
  {
    var s := prefix + sh.Text() + id + suffix;
    var p := |prefix|;
    var e := p + |sh.Text()|;
    assert s[p..e] == sh.Text();
    assert s[e..e + 11] == id;
    assert s[e + 11..] == suffix;
    assert forall k :: 0 <= k < p ==> s[k] == prefix[k];
    LeadingVLostAt(s, p, sh, id);
  }

  /** The same, for a laid-out text: the capture starts one past the `v` and has 10 characters. */
  lemma LeadingVLostAt(s: string, p: nat, sh: Shape, id: string)
    requires IsValidId(id) && ShapeLaidOut(s, p, sh, id)
    requires forall k :: 0 <= k < p ==> !IsLineTerminator(s[k])
    requires sh.UserShape? ==> '0' <= sh.digit <= '9'
    requires !sh.WatchShape? && id[0] == 'v'
    requires TailAllowed(id, s[p + |sh.Text()| + |id|..])
    ensures ExtractVideoId(s) == None
  {
    var e := p + |sh.Text()|;
    assert s[e + 1..e + 11] == s[e..e + 11][1..] == id[1..];
    assert e + 11 < |s| ==> s[e + 11] == s[e + 11..][0];
    assert p <= LineEnd(s, 0);
    NoMarkerAfterShape(s, p, sh, id);
    ShapeMarker(s, p, sh, id);
    assert IsLastMarker(s, p);
    forall k | 0 <= k < 10 ensures !IsStop(id[1..][k]) {
      assert IsIdChar(id[k + 1]);
    }
    assert IsRunAt(s, e + 1, id[1..]);
    ExtractFromLastMarker(s, p, id[1..]);
  }


  /** Every marker contains `/` or `?`, so text without either character gives null; in particular
      a bare 11-character id is not accepted. */
  lemma NoSeparatorNoId(url: string)
    requires NoSeparator(url)
    ensures ExtractVideoId(url) == None
  {
    forall q, m ensures !MatchesAt(url, q, m) {
      MarkerEndsWithSeparator(url, q, m);
    }
    NoMarkerNoId(url);
  }

  lemma WatchUrlExample()
    ensures ExtractVideoId("https://www.youtube.com/watch?v=dQw4w9WgXcQ&t=5") == Some("dQw4w9WgXcQ")
  {
    var prefix := "https://www.youtube.com/";
    assert prefix + WatchShape.Text() + "dQw4w9WgXcQ" + "&t=5" == "https://www.youtube.com/watch?v=dQw4w9WgXcQ&t=5";
    ShapeExtracted(prefix, WatchShape, "dQw4w9WgXcQ", "&t=5");
  }

  lemma ShortLinkExample()
    ensures ExtractVideoId("https://youtu.be/dQw4w9WgXcQ") == Some("dQw4w9WgXcQ")
  {
    assert "https://" + ShortLinkShape.Text() + "dQw4w9WgXcQ" + "" == "https://youtu.be/dQw4w9WgXcQ";
    ShapeExtracted("https://", ShortLinkShape, "dQw4w9WgXcQ", "");
  }

  lemma ShortLinkTimestampExample()
    ensures ExtractVideoId("https://youtu.be/dQw4w9WgXcQ?t=5") == Some("dQw4w9WgXcQ")
  {
    assert "https://" + ShortLinkShape.Text() + "dQw4w9WgXcQ" + "?t=5" == "https://youtu.be/dQw4w9WgXcQ?t=5";
    ShapeExtracted("https://", ShortLinkShape, "dQw4w9WgXcQ", "?t=5");
  }

  lemma VPathExample()
    ensures ExtractVideoId("https://www.youtube.com/v/dQw4w9WgXcQ") == Some("dQw4w9WgXcQ")
  {
    assert "https://www.youtube.com/" + VPathShape.Text() + "dQw4w9WgXcQ" + "" == "https://www.youtube.com/v/dQw4w9WgXcQ";
    ShapeExtracted("https://www.youtube.com/", VPathShape, "dQw4w9WgXcQ", "");
  }

  lemma UserPathExample()
    ensures ExtractVideoId("https://www.youtube.com/user/name#p/u/1/dQw4w9WgXcQ") == Some("dQw4w9WgXcQ")
  {
    var prefix := "https://www.youtube.com/user/name#p";
    assert prefix + UserShape('1').Text() + "dQw4w9WgXcQ" + "" == "https://www.youtube.com/user/name#p/u/1/dQw4w9WgXcQ";
    ShapeExtracted(prefix, UserShape('1'), "dQw4w9WgXcQ", "");
  }

  lemma EmbedExample()
    ensures ExtractVideoId("https://www.youtube.com/embed/dQw4w9WgXcQ") == Some("dQw4w9WgXcQ")
  {
    assert "https://www.youtube.com/" + EmbedShape.Text() + "dQw4w9WgXcQ" + "" == "https://www.youtube.com/embed/dQw4w9WgXcQ";
    ShapeExtracted("https://www.youtube.com/", EmbedShape, "dQw4w9WgXcQ", "");
  }

  lemma BareIdExample()
    ensures ExtractVideoId("dQw4w9WgXcQ") == None
  {
    NoSeparatorNoId("dQw4w9WgXcQ");
  }

  lemma LeadingVExample()
    ensures ExtractVideoId("https://youtu.be/vQw4w9WgXcQ") == None
  {
    assert "https://" + ShortLinkShape.Text() + "vQw4w9WgXcQ" + "" == "https://youtu.be/vQw4w9WgXcQ";
    LeadingVLost("https://", ShortLinkShape, "vQw4w9WgXcQ", "");
  }
}
