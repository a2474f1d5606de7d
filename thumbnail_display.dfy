/**
 * The ThumbnailDisplay component's selection state: which tier is selected, whether the
 * availability probes are still running, and what they found. `verify` runs the four probes and
 * records their results, falling back to `hq` when the max-resolution image is missing; a tier
 * button accepts a click only when its tier is not known to be missing.
 *
 * The image loader is a parameter `load`: what loading a URL yields.
 */
module ThumbnailSelection {
  import opened Types
  import opened Thumbnails
  import opened VideoIdExtraction

  /** `availableRes[key] !== false`: a tier is disabled only when a probe said it is missing. */
  predicate IsAvailable(availableRes: map<Tier, bool>, t: Tier) {
    !(t in availableRes && !availableRes[t])
  }

  /** The availability map `verify` stores: each tier's probe on that tier's URL. */
  function AvailabilityOf(data: ThumbnailData, load: string -> ImageLoad): map<Tier, bool> {
    map[MaxRes := CheckThumbnailAvailability(load(data.maxRes)),
        Hq := CheckThumbnailAvailability(load(data.hq)),
        Mq := CheckThumbnailAvailability(load(data.mq)),
        Sd := CheckThumbnailAvailability(load(data.sd))]
  }

  /** `if (!checks[0]) setSelectedRes('hq')` */
  function SelectionAfterVerify(selected: Tier, availableRes: map<Tier, bool>): Tier
    requires MaxRes in availableRes
  {
    if !availableRes[MaxRes] then Hq else selected
  }

  /** A click on tier `t`: a disabled button ignores it. */
  function SelectionAfterClick(availableRes: map<Tier, bool>, selected: Tier, t: Tier): Tier {
    if IsAvailable(availableRes, t) then t else selected
  }

  /** `https://www.ssyoutube.com/watch?v=<videoId>` */
  function RedirectUrl(videoId: string): string {
    "https://www.ssyoutube.com/watch?v=" + videoId
  }

  /** The inverse of Tier.Key. */
  function TierOfKey(key: string): (r: Option<Tier>)
    ensures r.Some? ==> r.value.Key() == key
  {
    if key == "maxRes" then Some(MaxRes)
    else if key == "hq" then Some(Hq)
    else if key == "mq" then Some(Mq)
    else if key == "sd" then Some(Sd)
    else None
  }

  class ThumbnailDisplay {
    /** The `data` prop. */
    var data: ThumbnailData
    var selectedRes: Tier
    var isVerifying: bool
    var availableRes: map<Tier, bool>

    /** Once verified, every tier has a probe result. */
    ghost predicate Valid()
      reads this
    {
      !isVerifying ==> availableRes.Keys == {MaxRes, Hq, Mq, Sd}
    }

    /** Mounting: max resolution selected, verification pending, nothing known. */
    constructor(d: ThumbnailData)
      ensures Valid()
      ensures data == d && selectedRes == MaxRes && isVerifying && availableRes == map[]
    {
      data := d;
      selectedRes := MaxRes;
      isVerifying := true;
      availableRes := map[];
    }

    /** A new `data` prop; the component keeps its state until `verify` runs again. */
    method SetData(d: ThumbnailData)
      requires Valid()
      modifies this
      ensures Valid()
      ensures data == d && selectedRes == old(selectedRes) && isVerifying == old(isVerifying)
      ensures availableRes == old(availableRes)
    {
      data := d;
    }

    /** The effect's `verify`, run to completion: the four probes resolve with `load`. */
    method Verify(load: string -> ImageLoad)
      requires Valid()
      modifies this
      ensures Valid()
      ensures data == old(data) && !isVerifying
      ensures availableRes.Keys == {MaxRes, Hq, Mq, Sd}
      ensures forall t :: t in availableRes && availableRes[t] == CheckThumbnailAvailability(load(data.Get(t)))
      ensures selectedRes == SelectionAfterVerify(old(selectedRes), availableRes)
    {
      isVerifying := true;
      var checks := [CheckThumbnailAvailability(load(data.maxRes)),
                     CheckThumbnailAvailability(load(data.hq)),
                     CheckThumbnailAvailability(load(data.mq)),
                     CheckThumbnailAvailability(load(data.sd))];
      availableRes := map[MaxRes := checks[0], Hq := checks[1], Mq := checks[2], Sd := checks[3]];
      if !checks[0] {
        selectedRes := Hq;
      }
      isVerifying := false;
      forall t ensures t in availableRes && availableRes[t] == CheckThumbnailAvailability(load(data.Get(t))) {
        match t {
          case MaxRes =>
          case Hq =>
          case Mq =>
          case Sd =>
        }
      }
    }

    /** A click on the button of tier `t`; `accepted` tells whether the button was enabled. */
    method SelectTier(t: Tier) returns (accepted: bool)
      requires Valid()
      modifies this
      ensures Valid()
      ensures accepted <==> IsAvailable(availableRes, t)
      ensures !isVerifying ==> t in availableRes && (accepted <==> availableRes[t])
      ensures selectedRes == SelectionAfterClick(availableRes, old(selectedRes), t)
      ensures data == old(data) && isVerifying == old(isVerifying) && availableRes == old(availableRes)
    {
      accepted := IsAvailable(availableRes, t);
      if accepted {
        selectedRes := t;
      }
    }

    /** The download button: `onDownload(selectedRes, data[selectedRes])`. */
    method DownloadRequest() returns (res: string, url: string)
      ensures TierOfKey(res) == Some(selectedRes) && url == data.Get(selectedRes)
    {
      res := selectedRes.Key();
      url := data.Get(selectedRes);
      TierKeyRoundTrip(selectedRes);
    }

    /** The image the preview shows: none while verifying. */
    function Preview(): (r: Option<string>)
      reads this
      ensures r.Some? <==> !isVerifying
      ensures r.Some? ==> r.value == data.Get(selectedRes)
    {
      if isVerifying then None else Some(data.Get(selectedRes))
    }

    /** `handleVideoDownloadRequest(quality)`: the URL opened, the same for every quality. */
    method VideoDownloadRequest(quality: string) returns (redirect: string)
      ensures redirect == RedirectUrl(data.videoId)
    {
      redirect := "https://www.ssyoutube.com/watch?v=" + data.videoId;
    }
  }

  lemma TierKeyRoundTrip(t: Tier)
    ensures TierOfKey(t.Key()) == Some(t)
  {
  }

  /** The four tier keys are distinct, so the queue's resolution string names one tier. */
  lemma TierKeyInjective(t: Tier, u: Tier)
    ensures t.Key() == u.Key() <==> t == u
  {
    TierKeyRoundTrip(t);
    TierKeyRoundTrip(u);
  }

  /** Before any probe has answered every tier is enabled. */
  lemma EmptyMapAllAvailable(t: Tier)
    ensures IsAvailable(map[], t)
  {
  }

  /** After verification a tier is enabled exactly when its probe found a real image. */
  lemma AvailabilityOfMeaning(data: ThumbnailData, load: string -> ImageLoad, t: Tier)
    ensures AvailabilityOf(data, load).Keys == {MaxRes, Hq, Mq, Sd}
    ensures IsAvailable(AvailabilityOf(data, load), t) <==> CheckThumbnailAvailability(load(data.Get(t)))
  {
  }

  /** The fallback selects `hq` exactly when the max-resolution probe failed (or `hq` already was
      selected), and otherwise keeps the selection. */
  lemma VerifyFallback(selected: Tier, availableRes: map<Tier, bool>)
    requires MaxRes in availableRes
    ensures SelectionAfterVerify(selected, availableRes) == Hq <==> !availableRes[MaxRes] || selected == Hq
    ensures availableRes[MaxRes] ==> SelectionAfterVerify(selected, availableRes) == selected
  {
  }

  /** On the first verification the selection ends on an enabled tier exactly when the
      max-resolution or the high-quality image exists. */
  lemma FirstVerifySelection(data: ThumbnailData, load: string -> ImageLoad)
    ensures var m := AvailabilityOf(data, load);
      IsAvailable(m, SelectionAfterVerify(MaxRes, m)) <==>
        CheckThumbnailAvailability(load(data.maxRes)) || CheckThumbnailAvailability(load(data.hq))
  {
  }

  /** The fallback does not check `hq`: when every probe fails, the selected tier is disabled. */
  lemma FallbackToUnavailableHq(data: ThumbnailData)
    ensures var m := AvailabilityOf(data, _ => LoadError);
      SelectionAfterVerify(MaxRes, m) == Hq && !IsAvailable(m, Hq)
  {
  }

  /** A click moves the selection only onto an enabled tier; a click on a disabled one changes nothing. */
  lemma ClickSelectsOnlyEnabled(availableRes: map<Tier, bool>, selected: Tier, t: Tier)
    ensures var s := SelectionAfterClick(availableRes, selected, t);
      (s == t <==> IsAvailable(availableRes, t) || selected == t) &&
      (s != selected ==> IsAvailable(availableRes, s))
  {
  }

  /** The download hand-off names a tier the queue can tell apart and, for templated data, a URL
      that names the video and that tier. */
  lemma DownloadHandOff(videoId: string, t: Tier)
    ensures var d := ThumbnailData(videoId, ThumbnailUrl(videoId, MaxRes), ThumbnailUrl(videoId, Hq),
                                   ThumbnailUrl(videoId, Mq), ThumbnailUrl(videoId, Sd));
      TierOfKey(t.Key()) == Some(t) && ParseThumbnailUrl(d.Get(t)) == Some((videoId, t))
  {
    TierKeyRoundTrip(t);
    UrlRoundTrip(videoId, t);
  }

  /** The redirect URL is a watch URL from which the extractor recovers the video id. */
  lemma RedirectRoundTrip(videoId: string)
    requires IsValidId(videoId)
    ensures ExtractVideoId(RedirectUrl(videoId)) == Some(videoId)
  {
    var prefix := RedirectHost();
    assert RedirectUrl(videoId) == prefix + WatchShape.Text() + videoId + [];
    ShapeExtracted(prefix, WatchShape, videoId, []);
  }

  /** The host part of the redirect URL, before the `watch?v=` marker. */
  function RedirectHost(): (h: string)
    ensures forall k :: 0 <= k < |h| ==> !IsLineTerminator(h[k])
    ensures h + "watch?v=" == "https://www.ssyoutube.com/watch?v="
  {
    "https://www.ssyoutube.com/"
  }
}
