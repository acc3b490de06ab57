/**
 * The plexapi objects the downloader reads: a library item (movie, episode,
 * season or show), its media, their parts and the parts' streams, and a
 * playback session. Only the attributes the downloader uses are kept.
 */
module PlexMedia {
  import opened Wrappers
  import opened Seqs

  /** A `plexapi.media.SubtitleStream`: its id, language code, format (`srt`, `ass`, ...) and whether it is the part's default. */
  datatype SubtitleStream = SubtitleStream(id: int, languageCode: Option<string>, format: Option<string>, isDefault: bool)

  /** A stream of a media part: a subtitle stream, or a stream of any other kind (video, audio, lyrics). */
  datatype Stream = SubtitleTrack(sub: SubtitleStream) | OtherStream(id: int)

  /** A `MediaPart`: the file on disk, its size in bytes and its streams. */
  datatype Part = Part(file: string, size: int, streams: seq<Stream>)

  datatype Media = Media(parts: seq<Part>)

  /**
   * A `plexapi.video.Video`. `kind` is plexapi's `type` ("movie", "episode",
   * "season", "show", ...); `guids` holds the `id` of each of its `Guid`
   * tags, such as "imdb://tt0111161".
   */
  datatype Item = Item(
    kind: string,
    key: string,
    title: string,
    grandparentTitle: Option<string>,
    parentTitle: Option<string>,
    seasonNumber: Option<int>,
    episodeNumber: Option<int>,
    index: Option<int>,
    year: Option<int>,
    guids: seq<string>,
    media: seq<Media>)

  /** A playback session: the user's id, the played item's guid, and what is being played. */
  datatype Session = Session(userId: int, guid: string, media: seq<Media>)

  /** The subtitle streams among `streams`, in order (`MediaPart.subtitleStreams()`). */
  function PartSubtitles(streams: seq<Stream>): (r: seq<SubtitleStream>)
    ensures |r| <= |streams|
  {
    if streams == [] then []
    else (if streams[0].SubtitleTrack? then [streams[0].sub] else []) + PartSubtitles(streams[1..])
  }

  function PartsSubtitles(parts: seq<Part>): seq<SubtitleStream>
  {
    if parts == [] then [] else PartSubtitles(parts[0].streams) + PartsSubtitles(parts[1..])
  }

  /** `Video.subtitleStreams()`: the subtitle streams of every part of every media, in media, part, stream order. */
  function SubtitleStreams(media: seq<Media>): seq<SubtitleStream>
  {
    if media == [] then [] else PartsSubtitles(media[0].parts) + SubtitleStreams(media[1..])
  }

  lemma {:induction false} PartSubtitlesAppend(a: seq<Stream>, b: seq<Stream>)
    ensures PartSubtitles(a + b) == PartSubtitles(a) + PartSubtitles(b)
  {
    if a == [] {
      assert a + b == b;
    } else {
      var c := a + b;
      assert c[0] == a[0];
      assert c[1..] == a[1..] + b;
      assert PartSubtitles(c) == (if c[0].SubtitleTrack? then [c[0].sub] else []) + PartSubtitles(c[1..]);
      PartSubtitlesAppend(a[1..], b);
      var x, y, z := (if a[0].SubtitleTrack? then [a[0].sub] else []), PartSubtitles(a[1..]), PartSubtitles(b);
      assert PartSubtitles(a) == x + y;
      ConcatAssoc(x, y, z);
    }
  }

  lemma {:induction false} PartsSubtitlesAppend(a: seq<Part>, b: seq<Part>)
    ensures PartsSubtitles(a + b) == PartsSubtitles(a) + PartsSubtitles(b)
  {
    if a == [] {
      assert a + b == b;
    } else {
      var c := a + b;
      assert c[0] == a[0];
      assert c[1..] == a[1..] + b;
      assert PartsSubtitles(c) == PartSubtitles(c[0].streams) + PartsSubtitles(c[1..]);
      PartsSubtitlesAppend(a[1..], b);
      var x, y, z := PartSubtitles(a[0].streams), PartsSubtitles(a[1..]), PartsSubtitles(b);
      assert PartsSubtitles(a) == x + y;
      ConcatAssoc(x, y, z);
    }
  }

  lemma {:induction false} SubtitleStreamsAppend(a: seq<Media>, b: seq<Media>)
    ensures SubtitleStreams(a + b) == SubtitleStreams(a) + SubtitleStreams(b)
  {
    if a == [] {
      assert a + b == b;
    } else {
      var c := a + b;
      assert c[0] == a[0];
      assert c[1..] == a[1..] + b;
      assert SubtitleStreams(c) == PartsSubtitles(c[0].parts) + SubtitleStreams(c[1..]);
      SubtitleStreamsAppend(a[1..], b);
      var x, y, z := PartsSubtitles(a[0].parts), SubtitleStreams(a[1..]), SubtitleStreams(b);
      assert SubtitleStreams(a) == x + y;
      ConcatAssoc(x, y, z);
    }
  }

  lemma PartsSubtitlesPrefixStep(parts: seq<Part>, j: int)
    requires 0 <= j < |parts|
    ensures PartsSubtitles(parts[..j + 1]) == PartsSubtitles(parts[..j]) + PartSubtitles(parts[j].streams)
  {
    assert parts[..j + 1] == parts[..j] + [parts[j]];
    PartsSubtitlesAppend(parts[..j], [parts[j]]);
    assert PartsSubtitles([parts[j]]) == PartSubtitles(parts[j].streams) + PartsSubtitles([]);
  }

  lemma PartsSubtitlesSplit(parts: seq<Part>, j: int)
    requires 0 <= j <= |parts|
    ensures PartsSubtitles(parts) == PartsSubtitles(parts[..j]) + PartsSubtitles(parts[j..])
  {
    assert parts == parts[..j] + parts[j..];
    PartsSubtitlesAppend(parts[..j], parts[j..]);
  }

  lemma SubtitleStreamsPrefixStep(media: seq<Media>, i: int)
    requires 0 <= i < |media|
    ensures SubtitleStreams(media[..i + 1]) == SubtitleStreams(media[..i]) + PartsSubtitles(media[i].parts)
  {
    assert media[..i + 1] == media[..i] + [media[i]];
    SubtitleStreamsAppend(media[..i], [media[i]]);
    assert SubtitleStreams([media[i]]) == PartsSubtitles(media[i].parts) + SubtitleStreams([]);
  }

  lemma SubtitleStreamsSplit(media: seq<Media>, i: int)
    requires 0 <= i <= |media|
    ensures SubtitleStreams(media) == SubtitleStreams(media[..i]) + SubtitleStreams(media[i..])
  {
    assert media == media[..i] + media[i..];
    SubtitleStreamsAppend(media[..i], media[i..]);
  }

  lemma PartSubtitlesPrefixStep(streams: seq<Stream>, k: int)
    requires 0 <= k < |streams|
    ensures PartSubtitles(streams[..k + 1]) ==
      PartSubtitles(streams[..k]) + (if streams[k].SubtitleTrack? then [streams[k].sub] else [])
  {
    assert streams[..k + 1] == streams[..k] + [streams[k]];
    PartSubtitlesAppend(streams[..k], [streams[k]]);
    assert [streams[k]][1..] == [];
  }

  lemma PartSubtitlesSplit(streams: seq<Stream>, k: int)
    requires 0 <= k <= |streams|
    ensures PartSubtitles(streams) == PartSubtitles(streams[..k]) + PartSubtitles(streams[k..])
  {
    assert streams == streams[..k] + streams[k..];
    PartSubtitlesAppend(streams[..k], streams[k..]);
  }

  /** `video.media[0].parts[0]` exists. */
  predicate HasFirstPart(v: Item) {
    |v.media| > 0 && |v.media[0].parts| > 0
  }

  /** `video.media[0].parts[0].file`. */
  function FirstFile(v: Item): string
    requires HasFirstPart(v)
  {
    v.media[0].parts[0].file
  }
}
