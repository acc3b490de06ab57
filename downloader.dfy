/**
 * The current `PlexSubDownloader`: it reacts to a `library.new` webhook by
 * fetching the new item, finding the videos that lack a requested subtitle
 * language, and either saving the downloaded subtitles next to the videos or
 * uploading them to Plex. Plex, subliminal and the socket lookup are
 * parameters: `fetch` (`fetchItem` and `reload`), `episodesOf` (`episodes()`,
 * each episode reloaded), `save` and `getPath` (subliminal's saving), and
 * `interfaceIp`.
 */
module Downloader {
  import opened Wrappers
  import opened Seqs
  import opened PlexMedia
  import opened LanguageGap
  import opened WebhookEvent
  import opened Endpoint
  import opened SubliminalHelper
  import PlexHelper

  /**
   * The entries of the configuration the core reads. An entry read with
   * `config.get` is an Option; `languages` is read with `config['languages']`.
   */
  datatype Config = Config(
    languages: seq<string>,
    subtitleDestination: Option<string>,
    formatPriority: Option<seq<string>>,
    subtitleProviders: Option<seq<string>>,
    subtitleProviderConfigs: Option<seq<(string, ProviderConfig)>>,
    webhookHost: Option<string>,
    webhookPort: Option<int>)

  /** `format_priority` as `configure` keeps it: an empty list is the same as no list. */
  function NormalisePriority(fp: Option<seq<string>>): (r: Option<seq<string>>)
    ensures r.None? <==> fp.None? || fp.value == []
    ensures r.Some? ==> r == fp && r.value != []
  {
    if fp.Some? && |fp.value| == 0 then None else fp
  }

  /** An empty `format_priority` would filter out every candidate and every existing stream; normalised, it filters nothing. */
  lemma EmptyPriorityAllowsAll(subs: seq<Subtitle>, t: SubtitleStream)
    ensures subs != [] ==> FilterSubtitles(Some([]), subs) != subs
    ensures FilterSubtitles(NormalisePriority(Some([])), subs) == subs
    ensures !Counts(Some([]), t) && Counts(NormalisePriority(Some([])), t)
  {
  }

  // ---- which videos miss a language ------------------------------------------

  /** A video misses a requested language: some requested occurrence is left after its streams have had their turn. */
  predicate IsMissing(langs: seq<string>, fp: Option<seq<string>>, v: Item) {
    Remaining(langs, fp, SubtitleStreams(v.media)) != []
  }

  /** The videos an item stands for: a movie or episode itself, the episodes of a season or show, and nothing for any other type. */
  function Leaves(v: Item, episodesOf: Item -> seq<Item>): seq<Item>
  {
    if v.kind == "movie" || v.kind == "episode" then [v]
    else if v.kind == "season" || v.kind == "show" then episodesOf(v)
    else []
  }

  /** The videos among `leaves` that miss a language, in order. */
  function MissingLeaves(langs: seq<string>, fp: Option<seq<string>>, leaves: seq<Item>): seq<Item>
  {
    if leaves == [] then []
    else
      var last := leaves[|leaves| - 1];
      MissingLeaves(langs, fp, leaves[..|leaves| - 1]) + (if IsMissing(langs, fp, last) then [last] else [])
  }

  /** What `getVidsMissingSubtitles` reports: the videos each item stands for that miss a language, item by item. */
  function MissingVideos(langs: seq<string>, fp: Option<seq<string>>, videos: seq<Item>, episodesOf: Item -> seq<Item>): seq<Item>
  {
    if videos == [] then []
    else
      MissingVideos(langs, fp, videos[..|videos| - 1], episodesOf) +
        MissingLeaves(langs, fp, Leaves(videos[|videos| - 1], episodesOf))
  }

  /** The missing leaves are exactly the leaves that miss a language, in their order. */
  lemma {:induction false} MissingLeavesFilter(langs: seq<string>, fp: Option<seq<string>>, leaves: seq<Item>)
    ensures IsSubsequence(MissingLeaves(langs, fp, leaves), leaves)
    ensures forall x :: x in MissingLeaves(langs, fp, leaves) <==> x in leaves && IsMissing(langs, fp, x)
    decreases |leaves|
  {
    if leaves == [] {
      SubsequenceRefl(leaves);
    } else {
      var init := leaves[..|leaves| - 1];
      var last := leaves[|leaves| - 1];
      var tail := if IsMissing(langs, fp, last) then [last] else [];
      MissingLeavesFilter(langs, fp, init);
      if tail == [] {
        assert IsSubsequence(tail, [last]);
      } else {
        SubsequenceRefl(tail);
      }
      SubsequenceAppend(MissingLeaves(langs, fp, init), init, tail, [last]);
      assert leaves == init + [last];
    }
  }

  /** The report for two lists of items is the two reports one after the other. */
  lemma {:induction false} MissingVideosAppend(langs: seq<string>, fp: Option<seq<string>>, a: seq<Item>, b: seq<Item>, episodesOf: Item -> seq<Item>)
    ensures MissingVideos(langs, fp, a + b, episodesOf) == MissingVideos(langs, fp, a, episodesOf) + MissingVideos(langs, fp, b, episodesOf)
    decreases |b|
  {
    if b == [] {
      assert a + b == a;
    } else {
      var init := b[..|b| - 1];
      var v := b[|b| - 1];
      assert b == init + [v];
      assert a + b == (a + init) + [v];
      MissingVideosAppend(langs, fp, a, init, episodesOf);
      MissingVideosSnoc(langs, fp, a + init, v, episodesOf);
      MissingVideosSnoc(langs, fp, init, v, episodesOf);
      var x, y, z := MissingVideos(langs, fp, a, episodesOf), MissingVideos(langs, fp, init, episodesOf), MissingLeaves(langs, fp, Leaves(v, episodesOf));
      ConcatAssoc(x, y, z);
    }
  }

  lemma MissingVideosSnoc(langs: seq<string>, fp: Option<seq<string>>, videos: seq<Item>, v: Item, episodesOf: Item -> seq<Item>)
    ensures MissingVideos(langs, fp, videos + [v], episodesOf) ==
      MissingVideos(langs, fp, videos, episodesOf) + MissingLeaves(langs, fp, Leaves(v, episodesOf))
  {
    assert (videos + [v])[..|videos|] == videos;
  }

  /** For one item: a movie or episode is reported exactly when it misses a language, a season or show gives its episodes that miss one, and any other item gives nothing. */
  lemma MissingVideosOfOne(langs: seq<string>, fp: Option<seq<string>>, v: Item, episodesOf: Item -> seq<Item>)
    ensures v.kind == "movie" || v.kind == "episode" ==>
      MissingVideos(langs, fp, [v], episodesOf) == (if IsMissing(langs, fp, v) then [v] else [])
    ensures v.kind == "season" || v.kind == "show" ==>
      forall x :: x in MissingVideos(langs, fp, [v], episodesOf) <==> x in episodesOf(v) && IsMissing(langs, fp, x)
    ensures v.kind !in {"movie", "episode", "season", "show"} ==> MissingVideos(langs, fp, [v], episodesOf) == []
  {
    OneItem(langs, fp, v, episodesOf);
    if v.kind == "movie" || v.kind == "episode" {
      assert Leaves(v, episodesOf) == [v];
      MissingLeavesOfOne(langs, fp, v);
    } else if v.kind == "season" || v.kind == "show" {
      MissingLeavesFilter(langs, fp, episodesOf(v));
    }
  }

  lemma OneItem(langs: seq<string>, fp: Option<seq<string>>, v: Item, episodesOf: Item -> seq<Item>)
    ensures MissingVideos(langs, fp, [v], episodesOf) == MissingLeaves(langs, fp, Leaves(v, episodesOf))
  {
    assert [v][..0] == [];
  }

  lemma MissingLeavesOfOne(langs: seq<string>, fp: Option<seq<string>>, v: Item)
    ensures MissingLeaves(langs, fp, [v]) == if IsMissing(langs, fp, v) then [v] else []
  {
    assert [v][..0] == [];
  }

  lemma MissingLeavesPrefixStep(langs: seq<string>, fp: Option<seq<string>>, leaves: seq<Item>, j: int)
    requires 0 <= j < |leaves|
    ensures MissingLeaves(langs, fp, leaves[..j + 1]) ==
      MissingLeaves(langs, fp, leaves[..j]) + (if IsMissing(langs, fp, leaves[j]) then [leaves[j]] else [])
  {
    assert leaves[..j + 1][..j] == leaves[..j];
  }

  lemma MissingVideosPrefixStep(langs: seq<string>, fp: Option<seq<string>>, videos: seq<Item>, i: int, episodesOf: Item -> seq<Item>)
    requires 0 <= i < |videos|
    ensures MissingVideos(langs, fp, videos[..i + 1], episodesOf) ==
      MissingVideos(langs, fp, videos[..i], episodesOf) + MissingLeaves(langs, fp, Leaves(videos[i], episodesOf))
  {
    assert videos[..i + 1][..i] == videos[..i];
  }

  /** Every reported video misses a language and stands for one of the items. */
  lemma {:induction false} MissingVideosSound(langs: seq<string>, fp: Option<seq<string>>, videos: seq<Item>, episodesOf: Item -> seq<Item>, x: Item)
    requires x in MissingVideos(langs, fp, videos, episodesOf)
    ensures IsMissing(langs, fp, x)
    ensures exists i :: 0 <= i < |videos| && x in Leaves(videos[i], episodesOf)
    decreases |videos|
  {
    var init := videos[..|videos| - 1];
    var last := videos[|videos| - 1];
    MissingLeavesFilter(langs, fp, Leaves(last, episodesOf));
    if x in MissingVideos(langs, fp, init, episodesOf) {
      MissingVideosSound(langs, fp, init, episodesOf, x);
      var i :| 0 <= i < |init| && x in Leaves(init[i], episodesOf);
      assert videos[i] == init[i];
    } else {
      assert x in Leaves(videos[|videos| - 1], episodesOf);
    }
  }

  /** Every video an item stands for that misses a language is reported. */
  lemma MissingVideosComplete(langs: seq<string>, fp: Option<seq<string>>, videos: seq<Item>, episodesOf: Item -> seq<Item>, i: int, x: Item)
    requires 0 <= i < |videos| && x in Leaves(videos[i], episodesOf) && IsMissing(langs, fp, x)
    ensures x in MissingVideos(langs, fp, videos, episodesOf)
  {
    var pre, v, post := videos[..i], videos[i], videos[i + 1..];
    SplitAround(videos, i);
    MissingVideosAppend(langs, fp, pre + [v], post, episodesOf);
    MissingVideosSnoc(langs, fp, pre, v, episodesOf);
    MissingLeavesFilter(langs, fp, Leaves(v, episodesOf));
    var here := MissingLeaves(langs, fp, Leaves(v, episodesOf));
    assert x in here;
    assert x in MissingVideos(langs, fp, pre, episodesOf) + here;
  }

  // ---- the outcome of a webhook event ----------------------------------------

  /** How handling a webhook event ends. */
  datatype Outcome =
    | NotHandled                                   // not a `library.new` event
    | Raised                                       // an exception escapes the handler
    | VideoNotFound                                // the item could not be fetched
    | NothingMissing                               // no video misses a language
    | Download(videos: seq<Item>, toMetadata: bool) // these videos go on to the download step (which, in the current revision, calls `search_videos` with an argument too many)

  /** `handleDownloadingVideoSubtitles` once the missing videos are known: download when there are any, uploading to Plex for the destination "metadata". */
  function DownloadDecision(missing: seq<Item>, destination: string): (r: Outcome)
    ensures r == NothingMissing <==> missing == []
    ensures r.Download? <==> missing != []
    ensures r.Download? ==> r.videos == missing && (r.toMetadata <==> destination == "metadata")
  {
    if missing == [] then NothingMissing else Download(missing, destination == "metadata")
  }

  /**
   * The whole handling of an event: `"Event type: " + event.event` raises
   * for a non-string event name; a `library.new` event without a Metadata
   * section raises when its title is logged, one whose key is not a string
   * raises at `key.replace`; a failed fetch is logged and ends the handling.
   */
  function EventOutcome(
    langs: seq<string>, fp: Option<seq<string>>, destination: string, event: Event,
    fetch: string -> Option<Item>, episodesOf: Item -> seq<Item>): (r: Outcome)
    ensures r.Download? ==> event.event == JStr("library.new")
    ensures event.event.JStr? && event.event != JStr("library.new") ==> r == NotHandled
    ensures r.Download? ==> r.videos != [] && (r.toMetadata <==> destination == "metadata")
    ensures r.Download? ==> forall x :: x in r.videos ==> IsMissing(langs, fp, x)
  {
    if !event.event.JStr? then Raised
    else if event.event.s != "library.new" then NotHandled
    else if event.metadata.None? || !event.metadata.value.key.JStr? then Raised
    else
      var video := PlexHelper.GetVideoItem(event.metadata.value.key.s, fetch);
      if video.None? then VideoNotFound
      else
        var missing := MissingVideos(langs, fp, [video.value], episodesOf);
        forall x | x in missing ensures IsMissing(langs, fp, x) {
          MissingVideosSound(langs, fp, [video.value], episodesOf, x);
        }
        DownloadDecision(missing, destination)
  }

  /** A new movie that misses a language is downloaded for, by itself; one that misses none leads to nothing. */
  lemma NewMovieOutcome(
    langs: seq<string>, fp: Option<seq<string>>, destination: string, event: Event,
    fetch: string -> Option<Item>, episodesOf: Item -> seq<Item>, movie: Item)
    requires event.event == JStr("library.new") && event.metadata.Some? && event.metadata.value.key.JStr?
    requires PlexHelper.GetVideoItem(event.metadata.value.key.s, fetch) == Some(movie) && movie.kind == "movie"
    ensures EventOutcome(langs, fp, destination, event, fetch, episodesOf) ==
      if IsMissing(langs, fp, movie) then Download([movie], destination == "metadata") else NothingMissing
  {
    MissingVideosOfOne(langs, fp, movie, episodesOf);
  }

  // ---- uploading to Plex -------------------------------------------------------

  /** One call the upload makes on Plex. */
  datatype Effect =
    | Upload(videoKey: string, path: string)         // `video.uploadSubtitles(path)`
    | SetDefault(part: Part, stream: SubtitleStream) // `mediaPart.setDefaultSubtitleStream(stream)`
    | ResetDefault(part: Part)                       // `mediaPart.resetDefaultSubtitleStream()`

  /** The first stream marked as the default. */
  function FirstDefault(streams: seq<SubtitleStream>): (r: Option<SubtitleStream>)
    ensures r.None? <==> forall i :: 0 <= i < |streams| ==> !streams[i].isDefault
    ensures r.Some? ==> exists i :: (0 <= i < |streams| && streams[i] == r.value && r.value.isDefault &&
      forall j :: 0 <= j < i ==> !streams[j].isDefault)
  {
    if streams == [] then None
    else if streams[0].isDefault then Some(streams[0])
    else
      var r := FirstDefault(streams[1..]);
      assert forall i :: 1 <= i < |streams| ==> streams[i] == streams[1..][i - 1];
      if r.Some? then
        var i :| 0 <= i < |streams[1..]| && streams[1..][i] == r.value && r.value.isDefault &&
          forall j :: 0 <= j < i ==> !streams[1..][j].isDefault;
        assert streams[i + 1] == r.value && forall j :: 0 <= j < i + 1 ==> !streams[j].isDefault;
        r
      else r
  }

  /** The restore after an upload: the stream that was the default is made the default again, and with none the default is reset. */
  function Restore(part: Part, original: Option<SubtitleStream>): (r: Effect)
    ensures original.Some? <==> r.SetDefault?
    ensures !r.Upload? && r.part == part
    ensures r.SetDefault? ==> r.stream == original.value
  {
    if original.Some? then SetDefault(part, original.value) else ResetDefault(part)
  }

  /** The restore for a video: to its first part, with the default among the streams the video object holds (it is not reloaded after an upload). */
  function RestoreOf(video: Item): Effect
    requires HasFirstPart(video)
  {
    Restore(video.media[0].parts[0], FirstDefault(SubtitleStreams(video.media)))
  }

  /** Uploading the saved files one by one, each followed by the restore. */
  function UploadEffects(video: Item, paths: seq<string>): seq<Effect>
    requires HasFirstPart(video)
  {
    if paths == [] then []
    else UploadEffects(video, paths[..|paths| - 1]) + [Upload(video.key, paths[|paths| - 1]), RestoreOf(video)]
  }

  /** `effects` is uploads to `video`, each directly followed by its restore. */
  predicate RestoredAfterEach(effects: seq<Effect>, video: Item)
    requires HasFirstPart(video)
  {
    |effects| % 2 == 0 &&
    forall k :: 0 <= k < |effects| ==>
      if k % 2 == 0 then effects[k].Upload? && effects[k].videoKey == video.key
      else effects[k] == RestoreOf(video)
  }

  lemma RestoredAfterEachAppend(a: seq<Effect>, b: seq<Effect>, video: Item)
    requires HasFirstPart(video) && RestoredAfterEach(a, video) && RestoredAfterEach(b, video)
    ensures RestoredAfterEach(a + b, video)
  {
    forall k | |a| <= k < |a + b| ensures (a + b)[k] == b[k - |a|] && (k % 2 == 0 <==> (k - |a|) % 2 == 0) {
    }
  }

  /** Each saved file is uploaded in turn, and each upload is directly followed by the restore of the original default. */
  lemma {:induction false} UploadEffectsPairs(video: Item, paths: seq<string>)
    requires HasFirstPart(video)
    ensures |UploadEffects(video, paths)| == 2 * |paths|
    ensures RestoredAfterEach(UploadEffects(video, paths), video)
    ensures forall k :: 0 <= k < |paths| ==> UploadEffects(video, paths)[2 * k] == Upload(video.key, paths[k])
    decreases |paths|
  {
    if paths != [] {
      var init := paths[..|paths| - 1];
      UploadEffectsPairs(video, init);
      var prev := UploadEffects(video, init);
      var pair := [Upload(video.key, paths[|paths| - 1]), RestoreOf(video)];
      var all := UploadEffects(video, paths);
      assert all == prev + pair;
      assert RestoredAfterEach(pair, video);
      RestoredAfterEachAppend(prev, pair, video);
      forall k | 0 <= k < |paths| ensures all[2 * k] == Upload(video.key, paths[k]) {
        if k < |init| {
          assert all[2 * k] == prev[2 * k];
          assert paths[k] == init[k];
        } else {
          assert all[2 * k] == pair[0];
        }
      }
    }
  }

  /** What one dict entry leads to for a video: nothing unless its file is the video's and it has subtitles; then the uploads of the files saved to the temporary directory. */
  function EntryEffects(
    video: Item, entry: (SubVideo, seq<Subtitle>), tempdir: string,
    save: (SubVideo, seq<Subtitle>, string) -> seq<Subtitle>,
    getPath: (SubVideo, Subtitle) -> string): seq<Effect>
    requires HasFirstPart(video)
  {
    if entry.0.name == FirstFile(video) && entry.1 != [] then
      UploadEffects(video, SavedPaths(entry.0, entry.1, tempdir, save, getPath))
    else []
  }

  /** The effects of the loop over the dict for one video. */
  function VideoEffects(
    video: Item, entries: Listing, tempdir: string,
    save: (SubVideo, seq<Subtitle>, string) -> seq<Subtitle>,
    getPath: (SubVideo, Subtitle) -> string): seq<Effect>
    requires HasFirstPart(video)
  {
    if entries == [] then []
    else
      VideoEffects(video, entries[..|entries| - 1], tempdir, save, getPath) +
        EntryEffects(video, entries[|entries| - 1], tempdir, save, getPath)
  }

  /** The effects of `uploadSubtitlesToMetadata`, video by video. */
  function AllEffects(
    videos: seq<Item>, entries: Listing, tempdir: string,
    save: (SubVideo, seq<Subtitle>, string) -> seq<Subtitle>,
    getPath: (SubVideo, Subtitle) -> string): seq<Effect>
    requires forall i :: 0 <= i < |videos| ==> HasFirstPart(videos[i])
  {
    if videos == [] then []
    else
      AllEffects(videos[..|videos| - 1], entries, tempdir, save, getPath) +
        VideoEffects(videos[|videos| - 1], entries, tempdir, save, getPath)
  }

  /** For each video, every upload is followed by the restore of that video's original default. */
  lemma {:induction false} VideoEffectsRestored(
    video: Item, entries: Listing, tempdir: string,
    save: (SubVideo, seq<Subtitle>, string) -> seq<Subtitle>,
    getPath: (SubVideo, Subtitle) -> string)
    requires HasFirstPart(video)
    ensures RestoredAfterEach(VideoEffects(video, entries, tempdir, save, getPath), video)
    decreases |entries|
  {
    if entries != [] {
      var last := entries[|entries| - 1];
      VideoEffectsRestored(video, entries[..|entries| - 1], tempdir, save, getPath);
      if last.0.name == FirstFile(video) && last.1 != [] {
        UploadEffectsPairs(video, SavedPaths(last.0, last.1, tempdir, save, getPath));
      }
      RestoredAfterEachAppend(
        VideoEffects(video, entries[..|entries| - 1], tempdir, save, getPath),
        EntryEffects(video, last, tempdir, save, getPath), video);
    }
  }

  /** Entries for other files, and entries without subtitles, cause no call at all. */
  lemma {:induction false} UnmatchedEntriesIgnored(
    video: Item, entries: Listing, tempdir: string,
    save: (SubVideo, seq<Subtitle>, string) -> seq<Subtitle>,
    getPath: (SubVideo, Subtitle) -> string)
    requires HasFirstPart(video)
    requires forall i :: 0 <= i < |entries| ==> entries[i].0.name != FirstFile(video) || entries[i].1 == []
    ensures VideoEffects(video, entries, tempdir, save, getPath) == []
    decreases |entries|
  {
    if entries != [] {
      var init := entries[..|entries| - 1];
      assert forall i :: 0 <= i < |init| ==> init[i] == entries[i];
      UnmatchedEntriesIgnored(video, init, tempdir, save, getPath);
    }
  }

  /** `for sub in existingSubs: if sub.default: originalDefault = sub; break`. */
  method FindOriginalDefault(streams: seq<SubtitleStream>) returns (r: Option<SubtitleStream>)
    ensures r == FirstDefault(streams)
  {
    r := None;
    var i := 0;
    while i < |streams|
      invariant 0 <= i <= |streams|
      invariant FirstDefault(streams[i..]) == FirstDefault(streams)
    {
      assert streams[i..][1..] == streams[i + 1..];
      if streams[i].isDefault {
        r := Some(streams[i]);
        break;
      }
      i := i + 1;
    }
  }

  /** The loop of `getMissingSubtitleLanguages` over the video's subtitle streams, on its own copy of the requested codes. */
  method RemoveCoveredLanguages(langs: seq<string>, fp: Option<seq<string>>, subtitles: seq<SubtitleStream>) returns (missing: seq<string>)
    ensures missing == Remaining(langs, fp, subtitles)
  {
    var requested := langs;
    var i := 0;
    assert subtitles[..0] == [];
    while i < |subtitles|
      invariant 0 <= i <= |subtitles|
      invariant requested == Remaining(langs, fp, subtitles[..i])
    {
      var subtitle := subtitles[i];
      RemainingPrefixStep(langs, fp, subtitles, i);
      i := i + 1;
      if fp.Some? && (subtitle.format.None? || subtitle.format.value !in fp.value) {
        StepSkips(requested, fp, subtitle);
        continue;
      }
      StepCounts(requested, fp, subtitle);
      if subtitle.languageCode.Some? && subtitle.languageCode.value in requested {
        requested := RemoveFirst(requested, subtitle.languageCode.value);
      }
    }
    assert subtitles[..i] == subtitles;
    missing := requested;
  }

  /** The loop over the saved paths: upload, then restore the default found before the upload. */
  method UploadSavedPaths(video: Item, paths: seq<string>) returns (effects: seq<Effect>)
    requires HasFirstPart(video)
    ensures effects == UploadEffects(video, paths)
  {
    var mediaPart := video.media[0].parts[0];
    effects := [];
    var i := 0;
    while i < |paths|
      invariant 0 <= i <= |paths|
      invariant effects == UploadEffects(video, paths[..i])
    {
      var originalDefault := FindOriginalDefault(SubtitleStreams(video.media));
      effects := effects + [Upload(video.key, paths[i])];
      // a failure of either call is logged and swallowed
      if originalDefault.Some? {
        effects := effects + [SetDefault(mediaPart, originalDefault.value)];
      } else {
        effects := effects + [ResetDefault(mediaPart)];
      }
      assert paths[..i + 1][..i] == paths[..i];
      i := i + 1;
    }
    assert paths[..i] == paths;
  }

  /** The loop over the dict for one video. */
  method UploadForVideo(
    video: Item, entries: Listing, tempdir: string,
    save: (SubVideo, seq<Subtitle>, string) -> seq<Subtitle>,
    getPath: (SubVideo, Subtitle) -> string) returns (effects: seq<Effect>)
    requires HasFirstPart(video)
    ensures effects == VideoEffects(video, entries, tempdir, save, getPath)
  {
    var filepath := video.media[0].parts[0].file;
    effects := [];
    var i := 0;
    assert entries[..0] == [];
    while i < |entries|
      invariant 0 <= i <= |entries|
      invariant effects == VideoEffects(video, entries[..i], tempdir, save, getPath)
    {
      var (subVideo, subtitles) := entries[i];
      assert entries[..i + 1][..i] == entries[..i];
      ghost var step := EntryEffects(video, entries[i], tempdir, save, getPath);
      assert VideoEffects(video, entries[..i + 1], tempdir, save, getPath) ==
        VideoEffects(video, entries[..i], tempdir, save, getPath) + step;
      if subVideo.name == filepath {
        if |subtitles| == 0 {
          assert step == [];
          i := i + 1;
          continue;
        }
        var saved := SaveSubtitle(subVideo, SubtitleList(subtitles), Some(tempdir), save, getPath);
        var uploads := UploadSavedPaths(video, saved);
        assert uploads == step;
        effects := effects + uploads;
      } else {
        assert step == [];
      }
      i := i + 1;
    }
    assert entries[..i] == entries;
  }

  // ---- the downloader ------------------------------------------------------------

  /** The downloader's state once `configure` has run. */
  class PlexSubDownloader {
    var config: Option<Config>
    var subtitleDestination: string
    var formatPriority: Option<seq<string>>
    var helper: Option<Helper>

    constructor()
      ensures config.None? && helper.None?
    {
      config := None;
      subtitleDestination := "with_media";
      formatPriority := None;
      helper := None;
    }

    /**
     * `configure`: None where `config['subtitle_destination']` raises
     * `KeyError` (after every field is set); otherwise whether the libraries
     * passed the permission check, which runs only for the destination
     * "with_media" and whose result is `librariesWritable`. The helper is
     * built without `languages`, so it searches for English.
     */
    method Configure(c: Config, librariesWritable: bool) returns (r: Option<bool>)
      modifies this
      ensures config == Some(c)
      ensures subtitleDestination == if c.subtitleDestination.Some? then c.subtitleDestination.value else "with_media"
      ensures formatPriority == NormalisePriority(c.formatPriority)
      ensures helper == Some(NewHelper(["eng"], c.subtitleProviders, c.subtitleProviderConfigs, formatPriority))
      ensures r.None? <==> c.subtitleDestination.None?
      ensures r == Some(false) <==> c.subtitleDestination == Some("with_media") && !librariesWritable
    {
      config := Some(c);
      subtitleDestination := if c.subtitleDestination.Some? then c.subtitleDestination.value else "with_media";
      formatPriority := c.formatPriority;
      if formatPriority.Some? && |formatPriority.value| == 0 {
        formatPriority := None;
      }
      helper := Some(NewHelper(["eng"], c.subtitleProviders, c.subtitleProviderConfigs, formatPriority));
      if c.subtitleDestination.None? {
        return None;
      }
      if c.subtitleDestination.value == "with_media" && !librariesWritable {
        return Some(false);
      }
      return Some(true);
    }

    /** The configured language codes, `config['languages']`. */
    function Requested(): seq<string>
      reads this
      requires config.Some?
    {
      config.value.languages
    }

    /** `getMissingSubtitleLanguages`: the requested codes, copied, minus one occurrence per counted stream of that language. */
    method GetMissingSubtitleLanguages(video: Item) returns (missing: seq<string>)
      requires config.Some?
      ensures missing == Remaining(Requested(), formatPriority, SubtitleStreams(video.media))
      ensures IsSubsequence(missing, Requested())
      ensures multiset(missing) == multiset(Requested()) - multiset(Codes(formatPriority, SubtitleStreams(video.media)))
    {
      var requested := config.value.languages;
      var subtitles := SubtitleStreams(video.media);
      missing := RemoveCoveredLanguages(requested, formatPriority, subtitles);
      RemainingSubsequence(requested, formatPriority, subtitles);
      RemainingMultiset(requested, formatPriority, subtitles);
    }

    /** `isVideoMissingSubtitles`: some requested occurrence is not covered by a counted stream. */
    method IsVideoMissingSubtitles(video: Item) returns (b: bool)
      requires config.Some?
      ensures b == IsMissing(Requested(), formatPriority, video)
      ensures b <==> !(multiset(Requested()) <= multiset(Codes(formatPriority, SubtitleStreams(video.media))))
    {
      var missing := GetMissingSubtitleLanguages(video);
      NothingMissingIff(Requested(), formatPriority, SubtitleStreams(video.media));
      b := |missing| > 0;
    }

    /** `getVidsMissingSubtitles`. */
    method GetVidsMissingSubtitles(videos: seq<Item>, episodesOf: Item -> seq<Item>) returns (r: seq<Item>)
      requires config.Some?
      ensures r == MissingVideos(Requested(), formatPriority, videos, episodesOf)
    {
      ghost var langs := Requested();
      ghost var fp := formatPriority;
      r := [];
      var i := 0;
      assert videos[..0] == [];
      while i < |videos|
        invariant 0 <= i <= |videos|
        invariant r == MissingVideos(langs, fp, videos[..i], episodesOf)
      {
        var v := videos[i];
        MissingVideosPrefixStep(langs, fp, videos, i, episodesOf);
        if v.kind == "movie" || v.kind == "episode" {
          var missing := IsVideoMissingSubtitles(v);
          if missing {
            r := r + [v];
          }
          MissingLeavesOfOne(langs, fp, v);
        } else if v.kind == "season" || v.kind == "show" {
          var missingEpisodes := EpisodesMissingSubtitles(episodesOf(v));
          r := r + missingEpisodes;
        }
        i := i + 1;
      }
      assert videos[..i] == videos;
    }

    /** The inner loop of `getVidsMissingSubtitles`, over the (reloaded) episodes of a season or show. */
    method EpisodesMissingSubtitles(eps: seq<Item>) returns (r: seq<Item>)
      requires config.Some?
      ensures r == MissingLeaves(Requested(), formatPriority, eps)
    {
      ghost var langs := Requested();
      ghost var fp := formatPriority;
      r := [];
      var j := 0;
      assert eps[..0] == [];
      while j < |eps|
        invariant 0 <= j <= |eps|
        invariant r == MissingLeaves(langs, fp, eps[..j])
      {
        var missing := IsVideoMissingSubtitles(eps[j]);
        MissingLeavesPrefixStep(langs, fp, eps, j);
        if missing {
          r := r + [eps[j]];
        }
        j := j + 1;
      }
      assert eps[..j] == eps;
    }

    /** `handleDownloadingVideoSubtitles`, up to the download itself. */
    method HandleDownloadingVideoSubtitles(video: Item, episodesOf: Item -> seq<Item>) returns (r: Outcome)
      requires config.Some?
      ensures r == DownloadDecision(MissingVideos(Requested(), formatPriority, [video], episodesOf), subtitleDestination)
    {
      var missingVideos := GetVidsMissingSubtitles([video], episodesOf);
      if |missingVideos| > 0 {
        return Download(missingVideos, subtitleDestination == "metadata");
      }
      return NothingMissing;
    }

    /** `handleWebhookEvent` with `handleLibraryNewEvent` and `getVideoItemFromEvent`. */
    method HandleWebhookEvent(event: Event, fetch: string -> Option<Item>, episodesOf: Item -> seq<Item>) returns (r: Outcome)
      requires config.Some?
      ensures r == EventOutcome(Requested(), formatPriority, subtitleDestination, event, fetch, episodesOf)
    {
      if !event.event.JStr? {
        return Raised;
      }
      if event.event.s != "library.new" {
        return NotHandled;
      }
      if event.metadata.None? || !event.metadata.value.key.JStr? {
        return Raised;
      }
      var video := PlexHelper.GetVideoItem(event.metadata.value.key.s, fetch);
      if video.None? {
        return VideoNotFound;
      }
      r := HandleDownloadingVideoSubtitles(video.value, episodesOf);
    }

    /** `uploadSubtitlesToMetadata`: the calls it makes on Plex, in order; every video needs a first media part. */
    method UploadSubtitlesToMetadata(
      plexVideos: seq<Item>, entries: Listing, tempdir: string,
      save: (SubVideo, seq<Subtitle>, string) -> seq<Subtitle>,
      getPath: (SubVideo, Subtitle) -> string) returns (effects: seq<Effect>)
      requires forall i :: 0 <= i < |plexVideos| ==> HasFirstPart(plexVideos[i])
      ensures effects == AllEffects(plexVideos, entries, tempdir, save, getPath)
    {
      effects := [];
      var i := 0;
      while i < |plexVideos|
        invariant 0 <= i <= |plexVideos|
        invariant effects == AllEffects(plexVideos[..i], entries, tempdir, save, getPath)
      {
        var e := UploadForVideo(plexVideos[i], entries, tempdir, save, getPath);
        assert plexVideos[..i + 1][..i] == plexVideos[..i];
        effects := effects + e;
        i := i + 1;
      }
      assert plexVideos[..i] == plexVideos;
    }

    /** `getExternalHost` with `webhook_host`, which defaults to "0.0.0.0". */
    function GetExternalHost(interfaceIp: Family -> string): (r: string)
      reads this
      requires config.Some?
      ensures config.value.webhookHost.None? ==> r == interfaceIp(IPv4)
      ensures config.value.webhookHost == Some("0.0.0.0") ==> r == interfaceIp(IPv4)
      ensures config.value.webhookHost == Some("::") ==> r == interfaceIp(IPv6)
      ensures config.value.webhookHost.Some? && config.value.webhookHost.value !in {"0.0.0.0", "::"} ==>
        r == config.value.webhookHost.value
    {
      ExternalHost(if config.value.webhookHost.Some? then config.value.webhookHost.value else "0.0.0.0", interfaceIp)
    }

    /** `getWebhookUrl` with `webhook_port`: the port written as "None" when it is not configured. */
    function GetWebhookUrl(interfaceIp: Family -> string): (r: string)
      reads this
      requires config.Some?
      ensures |r| >= 15 && r[..7] == "http://" && r[|r| - 8..] == "/webhook"
      ensures r[7..|r| - 8] == GetExternalHost(interfaceIp) + PortText(config.value.webhookPort)
      ensures config.value.webhookPort.None? ==> r == "http://" + GetExternalHost(interfaceIp) + "None/webhook"
    {
      WebhookUrlWithoutPort(GetExternalHost(interfaceIp));
      WebhookUrl(GetExternalHost(interfaceIp), config.value.webhookPort)
    }
  }

  /** The downloader and a `PlexHelper` built with the same host and port give Plex the same webhook URL. */
  lemma SameUrlAsHelper(d: PlexSubDownloader, h: PlexHelper.PlexHelper, interfaceIp: Family -> string)
    requires d.config.Some?
    requires h.host == (if d.config.value.webhookHost.Some? then d.config.value.webhookHost.value else "0.0.0.0")
    requires h.port == d.config.value.webhookPort
    ensures d.GetWebhookUrl(interfaceIp) == h.GetWebhookUrl(interfaceIp)
  {
  }
}
