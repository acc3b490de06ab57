/**
 * The older `PlexSubDownloader` (package `plex_sub_downloader`). Its check
 * for missing subtitles takes `languagesNotFound = self.config['languages']`
 * and removes the covered codes from that list: not from a copy but from
 * the configured list itself. The field `languages` is that list, so each
 * check starts from what the checks before it left. There is no format
 * allow-list (`fp == None` in `LanguageGap`), and the item key of a
 * webhook is fetched as it is, without a `try`.
 */
module DownloaderOld {
  import opened Wrappers
  import opened Seqs
  import opened PlexMedia
  import opened LanguageGap
  import opened WebhookEvent
  import opened SubliminalHelper
  import opened Downloader

  /** One check of a video: the list it leaves behind. The check answers True exactly when that list is empty. */
  function CheckedList(langs: seq<string>, video: Item): seq<string>
  {
    Remaining(langs, None, SubtitleStreams(video.media))
  }

  /** The checks of `leaves` one after the other: the videos reported as missing a language, and the list left at the end. */
  function OldLeaves(langs: seq<string>, leaves: seq<Item>): (seq<Item>, seq<string>)
  {
    if leaves == [] then ([], langs)
    else
      var last := leaves[|leaves| - 1];
      var before := OldLeaves(langs, leaves[..|leaves| - 1]);
      var after := CheckedList(before.1, last);
      (before.0 + (if after != [] then [last] else []), after)
  }

  /** The old `getVidsMissingSubtitles`: the report and the configured list it leaves. */
  function OldScan(langs: seq<string>, videos: seq<Item>, episodesOf: Item -> seq<Item>): (seq<Item>, seq<string>)
  {
    if videos == [] then ([], langs)
    else
      var before := OldScan(langs, videos[..|videos| - 1], episodesOf);
      var last := OldLeaves(before.1, Leaves(videos[|videos| - 1], episodesOf));
      (before.0 + last.0, last.1)
  }

  lemma OldLeavesPrefixStep(langs: seq<string>, leaves: seq<Item>, j: int)
    requires 0 <= j < |leaves|
    ensures OldLeaves(langs, leaves[..j + 1]).1 == CheckedList(OldLeaves(langs, leaves[..j]).1, leaves[j])
    ensures OldLeaves(langs, leaves[..j + 1]).0 == OldLeaves(langs, leaves[..j]).0 +
      (if OldLeaves(langs, leaves[..j + 1]).1 != [] then [leaves[j]] else [])
  {
    assert leaves[..j + 1][..j] == leaves[..j];
  }

  /** Checking one video: it is reported when the check leaves some language over. */
  lemma OldLeavesOfOne(langs: seq<string>, v: Item)
    ensures OldLeaves(langs, [v]).1 == CheckedList(langs, v)
    ensures OldLeaves(langs, [v]).0 == if CheckedList(langs, v) != [] then [v] else []
  {
    assert [v][..0] == [];
  }

  lemma OldScanPrefixStep(langs: seq<string>, videos: seq<Item>, i: int, episodesOf: Item -> seq<Item>)
    requires 0 <= i < |videos|
    ensures OldScan(langs, videos[..i + 1], episodesOf).0 ==
      OldScan(langs, videos[..i], episodesOf).0 + OldLeaves(OldScan(langs, videos[..i], episodesOf).1, Leaves(videos[i], episodesOf)).0
    ensures OldScan(langs, videos[..i + 1], episodesOf).1 ==
      OldLeaves(OldScan(langs, videos[..i], episodesOf).1, Leaves(videos[i], episodesOf)).1
  {
    assert videos[..i + 1][..i] == videos[..i];
  }

  /** The checks only ever delete from the configured list: what is left is a subsequence of it. */
  lemma {:induction false} OldLeavesShrinks(langs: seq<string>, leaves: seq<Item>)
    ensures IsSubsequence(OldLeaves(langs, leaves).1, langs)
    decreases |leaves|
  {
    if leaves == [] {
      SubsequenceRefl(langs);
    } else {
      var before := OldLeaves(langs, leaves[..|leaves| - 1]);
      OldLeavesShrinks(langs, leaves[..|leaves| - 1]);
      RemainingSubsequence(before.1, None, SubtitleStreams(leaves[|leaves| - 1].media));
      SubsequenceTrans(OldLeaves(langs, leaves).1, before.1, langs);
    }
  }

  /** The configured list after a scan is a subsequence of the list before it. */
  lemma {:induction false} OldScanShrinks(langs: seq<string>, videos: seq<Item>, episodesOf: Item -> seq<Item>)
    ensures IsSubsequence(OldScan(langs, videos, episodesOf).1, langs)
    decreases |videos|
  {
    if videos == [] {
      SubsequenceRefl(langs);
    } else {
      var before := OldScan(langs, videos[..|videos| - 1], episodesOf);
      OldScanShrinks(langs, videos[..|videos| - 1], episodesOf);
      OldLeavesShrinks(before.1, Leaves(videos[|videos| - 1], episodesOf));
      SubsequenceTrans(OldScan(langs, videos, episodesOf).1, before.1, langs);
    }
  }

  /** Once the list is empty every check answers True: nothing is reported and the list stays empty. */
  lemma {:induction false} OldLeavesAfterEmpty(leaves: seq<Item>)
    ensures OldLeaves([], leaves).0 == [] && OldLeaves([], leaves).1 == []
    decreases |leaves|
  {
    if leaves != [] {
      var init := leaves[..|leaves| - 1];
      OldLeavesAfterEmpty(init);
      RemainingOfNothing(None, SubtitleStreams(leaves[|leaves| - 1].media));
      assert CheckedList([], leaves[|leaves| - 1]) == [];
      assert OldLeaves([], init).0 + [] == [];
    }
  }

  /** An emptied configuration reports no video at all, whatever the videos. */
  lemma {:induction false} OldScanAfterEmpty(videos: seq<Item>, episodesOf: Item -> seq<Item>)
    ensures OldScan([], videos, episodesOf).0 == [] && OldScan([], videos, episodesOf).1 == []
    decreases |videos|
  {
    if videos != [] {
      var init := videos[..|videos| - 1];
      OldScanAfterEmpty(init, episodesOf);
      OldLeavesAfterEmpty(Leaves(videos[|videos| - 1], episodesOf));
      assert OldScan([], init, episodesOf).0 + OldLeaves([], Leaves(videos[|videos| - 1], episodesOf)).0 == [];
    }
  }

  /** The first check after `configure` gives the answer the current revision gives with no format list. */
  lemma FirstCheckAgrees(langs: seq<string>, v: Item, episodesOf: Item -> seq<Item>)
    requires v.kind == "movie" || v.kind == "episode"
    ensures OldScan(langs, [v], episodesOf).0 == MissingVideos(langs, None, [v], episodesOf)
  {
    assert [v][..0] == [];
    assert Leaves(v, episodesOf) == [v];
    assert OldLeaves(langs, [v]).0 == if IsMissing(langs, None, v) then [v] else [];
    assert OldScan(langs, [v], episodesOf).0 == [] + OldLeaves(langs, [v]).0;
    MissingVideosOfOne(langs, None, v, episodesOf);
  }

  /** An English SubRip subtitle stream. */
  const EnglishSrt := SubtitleStream(1, Some("eng"), Some("srt"), false)

  /** A movie whose one part carries `EnglishSrt`. */
  const SubtitledMovie := Item("movie", "/library/metadata/1", "First", None, None, None, None, None, None, [],
    [Media([Part("/movies/first.mkv", 1, [SubtitleTrack(EnglishSrt)])])])

  /** A movie whose one part has no streams. */
  const BareMovie := Item("movie", "/library/metadata/2", "Second", None, None, None, None, None, None, [],
    [Media([Part("/movies/second.mkv", 1, [])])])

  lemma SubtitledMovieCoversEnglish()
    ensures CheckedList(["eng"], SubtitledMovie) == []
  {
    assert PartSubtitles([SubtitleTrack(EnglishSrt)]) == [EnglishSrt];
    assert PartsSubtitles(SubtitledMovie.media[0].parts) == [EnglishSrt];
    assert SubtitleStreams(SubtitledMovie.media) == [EnglishSrt];
    StepCounts(["eng"], None, EnglishSrt);
    assert RemoveFirst(["eng"], "eng") == [];
    assert Step(["eng"], None, EnglishSrt) == [];
    assert [EnglishSrt][1..] == [];
    assert Remaining(["eng"], None, [EnglishSrt]) == Remaining([], None, []);
  }

  lemma BareMovieCoversNothing(langs: seq<string>)
    ensures CheckedList(langs, BareMovie) == langs
  {
    assert PartsSubtitles(BareMovie.media[0].parts) == [];
    assert SubtitleStreams(BareMovie.media) == [];
  }

  /** The old scan of one movie, as a report and the list it leaves. */
  lemma OldScanOfMovie(langs: seq<string>, v: Item, episodesOf: Item -> seq<Item>)
    requires v.kind == "movie"
    ensures OldScan(langs, [v], episodesOf).1 == CheckedList(langs, v)
    ensures OldScan(langs, [v], episodesOf).0 == if CheckedList(langs, v) != [] then [v] else []
  {
    assert [v][..0] == [];
    assert Leaves(v, episodesOf) == [v];
    OldLeavesOfOne(langs, v);
    assert OldScan(langs, [v], episodesOf).0 == [] + OldLeaves(langs, [v]).0;
  }

  /** The current revision reports exactly the bare movie. */
  lemma CurrentReportsBareMovie(episodesOf: Item -> seq<Item>)
    ensures IsMissing(["eng"], None, BareMovie)
    ensures MissingVideos(["eng"], None, [SubtitledMovie, BareMovie], episodesOf) == [BareMovie]
  {
    SubtitledMovieCoversEnglish();
    BareMovieCoversNothing(["eng"]);
    MissingVideosAppend(["eng"], None, [SubtitledMovie], [BareMovie], episodesOf);
    assert [SubtitledMovie] + [BareMovie] == [SubtitledMovie, BareMovie];
    MissingVideosOfOne(["eng"], None, SubtitledMovie, episodesOf);
    MissingVideosOfOne(["eng"], None, BareMovie, episodesOf);
  }

  /** The old scan of the two movies: the first check empties the configured list, so nothing is reported. */
  lemma OldScanHidesBareMovie(episodesOf: Item -> seq<Item>)
    ensures OldScan(["eng"], [SubtitledMovie, BareMovie], episodesOf).0 == []
    ensures OldScan(["eng"], [SubtitledMovie, BareMovie], episodesOf).1 == []
  {
    var videos := [SubtitledMovie, BareMovie];
    SubtitledMovieCoversEnglish();
    BareMovieCoversNothing([]);
    OldScanOfMovie(["eng"], SubtitledMovie, episodesOf);
    assert videos[..1] == [SubtitledMovie];
    assert videos[..2] == videos;
    OldScanPrefixStep(["eng"], videos, 1, episodesOf);
    assert Leaves(BareMovie, episodesOf) == [BareMovie];
    OldLeavesOfOne([], BareMovie);
  }

  /**
   * The aliasing at work: with `languages: ["eng"]`, a movie with an English
   * subtitle followed by a movie with none. The first check removes "eng"
   * from the configured list, so the second movie is taken to have every
   * language and the old scan reports nothing; the current revision reports it.
   */
  lemma AliasingHidesMissingVideo(episodesOf: Item -> seq<Item>)
    ensures IsMissing(["eng"], None, BareMovie)
    ensures OldScan(["eng"], [SubtitledMovie, BareMovie], episodesOf).0 == []
    ensures OldScan(["eng"], [SubtitledMovie, BareMovie], episodesOf).1 == []
    ensures MissingVideos(["eng"], None, [SubtitledMovie, BareMovie], episodesOf) == [BareMovie]
  {
    OldScanHidesBareMovie(episodesOf);
    CurrentReportsBareMovie(episodesOf);
  }

  /** The old handling of a webhook event, and the configured list it leaves. */
  function OldEventOutcome(
    langs: seq<string>, destination: string, event: Event,
    fetch: Json -> Option<Item>, episodesOf: Item -> seq<Item>): (r: (Outcome, seq<string>))
    ensures r.0.Download? ==> event.event == JStr("library.new")
    ensures event.event.JStr? && event.event != JStr("library.new") ==> r == (NotHandled, langs)
    ensures r.0.Download? ==> r.0.videos != [] && (r.0.toMetadata <==> destination == "metadata")
    ensures !r.0.VideoNotFound?
    ensures IsSubsequence(r.1, langs)
  {
    SubsequenceRefl(langs);
    if !event.event.JStr? then (Raised, langs)
    else if event.event.s != "library.new" then (NotHandled, langs)
    else if event.metadata.None? then (Raised, langs)
    else
      var video := fetch(event.metadata.value.key);
      if video.None? then (Raised, langs)
      else
        var scan := OldScan(langs, [video.value], episodesOf);
        OldScanShrinks(langs, [video.value], episodesOf);
        (DownloadDecision(scan.0, destination), scan.1)
  }

  /** The old downloader; `languages` is the list object `config['languages']`. */
  class PlexSubDownloaderOld {
    var config: Option<Config>
    /** The list object `config['languages']` as the checks have left it; `config.value.languages` keeps the list as first configured and is not read after `Configure`. */
    var languages: seq<string>
    var subtitleDestination: string
    var helper: Option<Helper>

    constructor()
      ensures config.None? && helper.None?
    {
      config := None;
      languages := [];
      subtitleDestination := "with_media";
      helper := None;
    }

    /** The old `configure`: the helper is given the configured languages, as a set made at this point. */
    method Configure(c: Config, librariesWritable: bool) returns (r: Option<bool>)
      modifies this
      ensures config == Some(c) && languages == c.languages
      ensures subtitleDestination == if c.subtitleDestination.Some? then c.subtitleDestination.value else "with_media"
      ensures helper == Some(NewHelper(c.languages, c.subtitleProviders, c.subtitleProviderConfigs, None))
      ensures r.None? <==> c.subtitleDestination.None?
      ensures r == Some(false) <==> c.subtitleDestination == Some("with_media") && !librariesWritable
    {
      config := Some(c);
      languages := c.languages;
      subtitleDestination := if c.subtitleDestination.Some? then c.subtitleDestination.value else "with_media";
      helper := Some(NewHelper(c.languages, c.subtitleProviders, c.subtitleProviderConfigs, None));
      if c.subtitleDestination.None? {
        return None;
      }
      if c.subtitleDestination.value == "with_media" && !librariesWritable {
        return Some(false);
      }
      return Some(true);
    }

    /** `checkVideoForSubtitles`: removes the video's codes from the configured list and answers whether the list is now empty. */
    method CheckVideoForSubtitles(video: Item) returns (b: bool)
      modifies this
      ensures languages == CheckedList(old(languages), video)
      ensures b <==> languages == []
      ensures IsSubsequence(languages, old(languages))
      ensures config == old(config) && subtitleDestination == old(subtitleDestination) && helper == old(helper)
    {
      ghost var langs := languages;
      var subtitles := SubtitleStreams(video.media);
      RemoveCoveredCodes(subtitles);
      RemainingSubsequence(langs, None, subtitles);
      b := |languages| == 0;
    }

    /** The loop of `checkVideoForSubtitles` over the video's subtitle streams; the list it removes from is the configured one. */
    method RemoveCoveredCodes(subs: seq<SubtitleStream>)
      modifies this
      ensures languages == Remaining(old(languages), None, subs)
      ensures config == old(config) && subtitleDestination == old(subtitleDestination) && helper == old(helper)
    {
      ghost var langs := languages;
      ghost var fp: Option<seq<string>> := None;
      var i := 0;
      assert subs[..0] == [];
      while i < |subs|
        invariant 0 <= i <= |subs|
        invariant languages == Remaining(langs, fp, subs[..i])
        invariant config == old(config) && subtitleDestination == old(subtitleDestination) && helper == old(helper)
      {
        var sub := subs[i];
        ghost var prev := languages;
        if sub.languageCode.Some? && sub.languageCode.value in languages {
          // `languagesNotFound` is the configured list itself
          languages := RemoveFirst(languages, sub.languageCode.value);
        }
        StepCounts(prev, fp, sub);
        assert languages == Step(prev, fp, sub);
        RemainingPrefixStep(langs, fp, subs, i);
        assert languages == Remaining(langs, fp, subs[..i + 1]);
        i := i + 1;
      }
      assert subs[..i] == subs;
    }

    /** The inner loop of the old `getVidsMissingSubtitles`, over the episodes of a season or show. */
    method EpisodesMissingSubtitles(eps: seq<Item>) returns (r: seq<Item>)
      modifies this
      ensures r == OldLeaves(old(languages), eps).0
      ensures languages == OldLeaves(old(languages), eps).1
      ensures config == old(config) && subtitleDestination == old(subtitleDestination) && helper == old(helper)
    {
      ghost var langs := languages;
      r := [];
      var j := 0;
      assert eps[..0] == [];
      while j < |eps|
        invariant 0 <= j <= |eps|
        invariant r == OldLeaves(langs, eps[..j]).0
        invariant languages == OldLeaves(langs, eps[..j]).1
        invariant config == old(config) && subtitleDestination == old(subtitleDestination) && helper == old(helper)
      {
        OldLeavesPrefixStep(langs, eps, j);
        ghost var prev := languages;
        var found := CheckVideoForSubtitles(eps[j]);
        assert languages == CheckedList(prev, eps[j]);
        if !found {
          r := r + [eps[j]];
        }
        j := j + 1;
      }
      assert eps[..j] == eps;
    }

    /** One turn of the old `getVidsMissingSubtitles`: a movie or episode is checked, the episodes of a season or show are checked in turn, anything else is skipped. */
    method LeavesMissingSubtitles(v: Item, episodesOf: Item -> seq<Item>) returns (r: seq<Item>)
      modifies this
      ensures r == OldLeaves(old(languages), Leaves(v, episodesOf)).0
      ensures languages == OldLeaves(old(languages), Leaves(v, episodesOf)).1
      ensures config == old(config) && subtitleDestination == old(subtitleDestination) && helper == old(helper)
    {
      ghost var before := languages;
      if v.kind == "movie" || v.kind == "episode" {
        var found := CheckVideoForSubtitles(v);
        OldLeavesOfOne(before, v);
        assert Leaves(v, episodesOf) == [v];
        r := if found then [] else [v];
      } else if v.kind == "season" || v.kind == "show" {
        assert Leaves(v, episodesOf) == episodesOf(v);
        r := EpisodesMissingSubtitles(episodesOf(v));
      } else {
        assert Leaves(v, episodesOf) == [];
        r := [];
      }
    }

    /** The old `getVidsMissingSubtitles`: the report, and the configured list as the checks leave it. */
    method GetVidsMissingSubtitles(videos: seq<Item>, episodesOf: Item -> seq<Item>) returns (r: seq<Item>)
      modifies this
      ensures r == OldScan(old(languages), videos, episodesOf).0
      ensures languages == OldScan(old(languages), videos, episodesOf).1
      ensures config == old(config) && subtitleDestination == old(subtitleDestination) && helper == old(helper)
    {
      ghost var langs := languages;
      r := [];
      var i := 0;
      assert videos[..0] == [];
      while i < |videos|
        invariant 0 <= i <= |videos|
        invariant r == OldScan(langs, videos[..i], episodesOf).0
        invariant languages == OldScan(langs, videos[..i], episodesOf).1
        invariant config == old(config) && subtitleDestination == old(subtitleDestination) && helper == old(helper)
      {
        OldScanPrefixStep(langs, videos, i, episodesOf);
        var missing := LeavesMissingSubtitles(videos[i], episodesOf);
        r := r + missing;
        i := i + 1;
      }
      assert videos[..i] == videos;
    }

    /** The old `handleWebhookEvent`: `fetch` is `fetchItem` with `reload` on the key as the event gives it, None where it raises. */
    method HandleWebhookEvent(event: Event, fetch: Json -> Option<Item>, episodesOf: Item -> seq<Item>) returns (r: Outcome)
      modifies this
      ensures (r, languages) == OldEventOutcome(old(languages), subtitleDestination, event, fetch, episodesOf)
      ensures config == old(config) && subtitleDestination == old(subtitleDestination) && helper == old(helper)
    {
      if !event.event.JStr? {
        return Raised;
      }
      if event.event.s != "library.new" {
        return NotHandled;
      }
      if event.metadata.None? {
        return Raised;
      }
      var video := fetch(event.metadata.value.key);
      if video.None? {
        return Raised;
      }
      var missingVideos := GetVidsMissingSubtitles([video.value], episodesOf);
      if |missingVideos| > 0 {
        return Download(missingVideos, subtitleDestination == "metadata");
      }
      return NothingMissing;
    }
  }
}
