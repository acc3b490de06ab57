/**
 * The subliminal side of the downloader (class `SubliminalHelper`): turning a
 * Plex item into the video descriptor subliminal searches for, ranking the
 * subtitles subliminal lists for a video and keeping the best one, and the
 * paths the saved subtitle files end up at. subliminal itself is a set of
 * parameters: `compute_score` and the `hash_*` functions are functions passed
 * in, and what `list_subtitles` and `core.save_subtitles` return is input.
 */
module SubliminalHelper {
  import opened Wrappers
  import opened PyStr
  import opened PosixPath
  import opened Seqs
  import opened StableSort
  import opened PlexMedia

  /** A `subliminal.subtitle.Subtitle`, reduced to what the helper looks at. */
  datatype Subtitle = Subtitle(provider: string, id: string, language: string, filename: string)

  /** A `subliminal.video.Video`: an `Episode` or a `Movie`, named by the path of its file. */
  datatype SubVideo =
    | Episode(name: string, series: Option<string>, season: int, episode: int, title: string, hashes: map<string, string>)
    | Movie(name: string, title: string, year: Option<int>, imdbIds: seq<Option<int>>, hashes: map<string, string>)

  /** One provider's settings from `provider_configs` (user name, password, ...). */
  type ProviderConfig = map<string, string>

  /**
   * The helper's configuration. `languages` stands for the set of babelfish
   * languages built from the codes; `providerConfigs` keeps the dict's
   * entries in their order.
   */
  datatype Helper = Helper(
    languages: set<string>,
    formatPriority: Option<seq<string>>,
    providers: Option<seq<string>>,
    providerConfigs: Option<seq<(string, ProviderConfig)>>)

  /** `SubliminalHelper.__init__`: with no provider list given, the providers are the names that have a configuration. */
  function NewHelper(
    languages: seq<string>,
    providers: Option<seq<string>>,
    providerConfigs: Option<seq<(string, ProviderConfig)>>,
    formatPriority: Option<seq<string>>): (h: Helper)
    ensures forall l :: l in h.languages <==> l in languages
    ensures h.formatPriority == formatPriority && h.providerConfigs == providerConfigs
    ensures providers.Some? ==> h.providers == providers
    ensures providers.None? ==> (h.providers.Some? <==> providerConfigs.Some?)
    ensures providers.None? && providerConfigs.Some? ==>
      |h.providers.value| == |providerConfigs.value| &&
      forall i :: 0 <= i < |providerConfigs.value| ==> h.providers.value[i] == providerConfigs.value[i].0
  {
    var names :=
      if providers.None? && providerConfigs.Some? then Some(Map(providerConfigs.value, (e: (string, ProviderConfig)) => e.0))
      else providers;
    Helper((set l | l in languages), formatPriority, names, providerConfigs)
  }

  // ---- formats and their priority --------------------------------------------

  /** `_get_subtitle_format`: the suffix of the subtitle's file name with every dot removed. */
  function Format(s: Subtitle): string
  {
    RemoveAll(Suffix(s.filename), ".")
  }

  /** The format is the suffix without its dot, and empty when there is no suffix. */
  lemma FormatShape(s: Subtitle)
    ensures '.' !in Format(s)
    ensures Suffix(s.filename) == [] ==> Format(s) == []
    ensures Suffix(s.filename) != [] ==> Suffix(s.filename) == "." + Format(s)
  {
    var suffix := Suffix(s.filename);
    if suffix != [] {
      assert suffix == "." + suffix[1..];
      RemoveLeadingDot(suffix[1..]);
    } else {
      assert !Contains(suffix, ".");
    }
  }

  /** A file name with an extension has that extension as its format. */
  lemma FormatOfExtension(s: Subtitle, stem: string, ext: string)
    requires s.filename == stem + "." + ext
    requires ext != [] && '.' !in ext && '/' !in ext && BaseName(stem) != []
    ensures Format(s) == ext
  {
    SuffixOfExtension(stem, ext);
    FormatShape(s);
    var f := Format(s);
    assert "." + ext == "." + f;
    assert ("." + ext)[1..] == ext && ("." + f)[1..] == f;
  }

  /** `_get_subtitle_format_priority`: 0 for everything without a priority list, -1 for a format not on it, and `len - index` otherwise. */
  function FormatPriority(fp: Option<seq<string>>, s: Subtitle): (r: int)
    ensures fp.None? ==> r == 0
    ensures fp.Some? && Format(s) !in fp.value ==> r == -1
    ensures fp.Some? && Format(s) in fp.value ==> 1 <= r <= |fp.value|
  {
    if fp.None? then 0
    else if Format(s) !in fp.value then -1
    else |fp.value| - IndexOf(fp.value, Format(s))
  }

  /** On listed formats the priority orders subtitles exactly as the list does: earlier means strictly higher. */
  lemma EarlierFormatRanksHigher(fp: seq<string>, a: Subtitle, b: Subtitle)
    requires Format(a) in fp && Format(b) in fp
    ensures FormatPriority(Some(fp), a) > FormatPriority(Some(fp), b) <==> IndexOf(fp, Format(a)) < IndexOf(fp, Format(b))
    ensures FormatPriority(Some(fp), a) == FormatPriority(Some(fp), b) <==> Format(a) == Format(b)
  {
    var fa, fb := Format(a), Format(b);
    assert FormatPriority(Some(fp), a) == |fp| - IndexOf(fp, fa);
    assert FormatPriority(Some(fp), b) == |fp| - IndexOf(fp, fb);
    IndexOfInjective(fp, fa, fb);
  }

  /** The subtitle passes the filter: no priority list, or its format is on it. */
  predicate Allowed(fp: Option<seq<string>>, s: Subtitle) {
    fp.None? || Format(s) in fp.value
  }

  /** `filter_subtitles`: the subtitles whose format is on the priority list, in their order; all of them without a list. */
  function FilterSubtitles(fp: Option<seq<string>>, subs: seq<Subtitle>): (r: seq<Subtitle>)
    ensures fp.None? ==> r == subs
    ensures IsSubsequence(r, subs)
    ensures forall x :: x in r ==> Allowed(fp, x)
  {
    if subs == [] then []
    else
      var rest := FilterSubtitles(fp, subs[1..]);
      assert subs == [subs[0]] + subs[1..];
      if Allowed(fp, subs[0]) then
        SubsequenceCons(subs[0], rest, subs[1..]);
        [subs[0]] + rest
      else
        SubsequenceSkip(subs[0], rest, subs[1..]);
        rest
  }

  /** Every allowed subtitle passes the filter. */
  lemma {:induction false} FilterKeepsAllowed(fp: Option<seq<string>>, subs: seq<Subtitle>, x: Subtitle)
    requires x in subs && Allowed(fp, x)
    ensures x in FilterSubtitles(fp, subs)
  {
    if subs[0] != x {
      assert x in subs[1..];
      FilterKeepsAllowed(fp, subs[1..], x);
    }
  }

  // ---- choosing the best subtitle --------------------------------------------

  /** The sort key `compute_score(subtitle, video)`. */
  function ScoreKey(video: SubVideo, score: (Subtitle, SubVideo) -> int): (k: Subtitle -> int)
    ensures forall s :: k(s) == score(s, video)
  {
    s => score(s, video)
  }

  /** The sort key `_get_subtitle_format_priority(subtitle)`. */
  function PriorityKey(fp: Option<seq<string>>): (k: Subtitle -> int)
    ensures forall s :: k(s) == FormatPriority(fp, s)
  {
    s => FormatPriority(fp, s)
  }

  /** The allowed subtitles after both stable descending sorts: by score, then by format priority. */
  function Ranked(fp: Option<seq<string>>, video: SubVideo, subs: seq<Subtitle>, score: (Subtitle, SubVideo) -> int): seq<Subtitle>
  {
    SortDesc(SortDesc(FilterSubtitles(fp, subs), ScoreKey(video, score)), PriorityKey(fp))
  }

  /** The subtitle `select_best_subtitle` returns: the head of the ranked list, none when no subtitle is allowed. */
  function BestSubtitle(fp: Option<seq<string>>, video: SubVideo, subs: seq<Subtitle>, score: (Subtitle, SubVideo) -> int): (r: Option<Subtitle>)
    ensures r.None? <==> FilterSubtitles(fp, subs) == []
    ensures r.Some? ==> r.value in FilterSubtitles(fp, subs) && r.value in subs
  {
    var filtered := FilterSubtitles(fp, subs);
    var ranked := Ranked(fp, video, subs, score);
    var s1 := SortDesc(filtered, ScoreKey(video, score));
    assert multiset(ranked) == multiset(filtered);
    if |ranked| == 0 then None
    else
      assert ranked[0] in multiset(ranked);
      SubsequenceMembers(filtered, subs);
      Some(ranked[0])
  }

  /** A subtitle decorated as the comprehension does: `(score, priority, subtitle)`. */
  function Decorate(fp: Option<seq<string>>, video: SubVideo, score: (Subtitle, SubVideo) -> int): (d: Subtitle -> (int, int, Subtitle))
    ensures forall s :: d(s) == (score(s, video), FormatPriority(fp, s), s)
  {
    s => (score(s, video), FormatPriority(fp, s), s)
  }

  /** `itemgetter(0)`, `itemgetter(1)` and the undecorating comprehension's pick on a decorated subtitle. */
  function ItemScore(t: (int, int, Subtitle)): int { t.0 }
  function ItemPriority(t: (int, int, Subtitle)): int { t.1 }
  function ItemSubtitle(t: (int, int, Subtitle)): Subtitle { t.2 }

  /** Sorting the decorated list by its first and then its second component, and undecorating, ranks the plain subtitles by score and then priority. */
  lemma DecoratedRanking(fp: Option<seq<string>>, video: SubVideo, subs: seq<Subtitle>, score: (Subtitle, SubVideo) -> int)
    ensures var d := Decorate(fp, video, score);
      Map(SortDesc(SortDesc(Map(FilterSubtitles(fp, subs), d), ItemScore), ItemPriority), ItemSubtitle) == Ranked(fp, video, subs, score)
  {
    var f := FilterSubtitles(fp, subs);
    var d := Decorate(fp, video, score);
    var sk := ScoreKey(video, score);
    var pk := PriorityKey(fp);
    SortMap(f, d, sk, ItemScore);
    var s1 := SortDesc(f, sk);
    SortMap(s1, d, pk, ItemPriority);
    var ranked := SortDesc(s1, pk);
    assert Map(Map(ranked, d), ItemSubtitle) == ranked;
  }

  /** `select_best_subtitle`: filter, decorate, sort by `itemgetter(0)` and then `itemgetter(1)`, both descending, undecorate and take the head. */
  method SelectBestSubtitle(fp: Option<seq<string>>, video: SubVideo, subs: seq<Subtitle>, score: (Subtitle, SubVideo) -> int)
    returns (r: Option<Subtitle>)
    ensures r == BestSubtitle(fp, video, subs, score)
  {
    var filtered := FilterSubtitles(fp, subs);
    var decorated := Map(filtered, Decorate(fp, video, score));
    decorated := SortDesc(decorated, ItemScore);
    decorated := SortDesc(decorated, ItemPriority);
    var ranked := Map(decorated, ItemSubtitle);
    DecoratedRanking(fp, video, subs, score);
    if |ranked| == 0 {
      return None;
    }
    return Some(ranked[0]);
  }

  /**
   * The chosen subtitle is the lexicographic maximum of (format priority,
   * score) over the allowed subtitles, and among the allowed subtitles with
   * exactly that priority and score it is the earliest in the input.
   */
  lemma BestIsLexicographicMax(fp: Option<seq<string>>, video: SubVideo, subs: seq<Subtitle>, score: (Subtitle, SubVideo) -> int)
    requires FilterSubtitles(fp, subs) != []
    ensures var f := FilterSubtitles(fp, subs);
      var b := BestSubtitle(fp, video, subs, score).value;
      (forall j :: 0 <= j < |f| ==>
        FormatPriority(fp, f[j]) < FormatPriority(fp, b) ||
        (FormatPriority(fp, f[j]) == FormatPriority(fp, b) && score(f[j], video) <= score(b, video))) &&
      exists i :: 0 <= i < |f| && f[i] == b &&
        forall j :: 0 <= j < i ==> !(FormatPriority(fp, f[j]) == FormatPriority(fp, b) && score(f[j], video) == score(b, video))
  {
    BestBound(fp, video, subs, score);
    BestEarliest(fp, video, subs, score);
  }

  lemma BestIsHead(fp: Option<seq<string>>, video: SubVideo, subs: seq<Subtitle>, score: (Subtitle, SubVideo) -> int)
    requires FilterSubtitles(fp, subs) != []
    ensures BestSubtitle(fp, video, subs, score) ==
      Some(SortDesc(SortDesc(FilterSubtitles(fp, subs), ScoreKey(video, score)), PriorityKey(fp))[0])
  {
  }

  lemma BestBound(fp: Option<seq<string>>, video: SubVideo, subs: seq<Subtitle>, score: (Subtitle, SubVideo) -> int)
    requires FilterSubtitles(fp, subs) != []
    ensures var f := FilterSubtitles(fp, subs);
      var b := BestSubtitle(fp, video, subs, score).value;
      forall j :: 0 <= j < |f| ==>
        FormatPriority(fp, f[j]) < FormatPriority(fp, b) ||
        (FormatPriority(fp, f[j]) == FormatPriority(fp, b) && score(f[j], video) <= score(b, video))
  {
    var f := FilterSubtitles(fp, subs);
    var sk := ScoreKey(video, score);
    var pk := PriorityKey(fp);
    BestIsHead(fp, video, subs, score);
    var b := SortDesc(SortDesc(f, sk), pk)[0];
    LexHeadBound(f, pk, sk);
    var pb, sb := FormatPriority(fp, b), score(b, video);
    assert pk(b) == pb && sk(b) == sb;
    forall j | 0 <= j < |f|
      ensures FormatPriority(fp, f[j]) < pb || (FormatPriority(fp, f[j]) == pb && score(f[j], video) <= sb)
    {
      assert pk(f[j]) == FormatPriority(fp, f[j]) && sk(f[j]) == score(f[j], video);
    }
  }

  lemma BestEarliest(fp: Option<seq<string>>, video: SubVideo, subs: seq<Subtitle>, score: (Subtitle, SubVideo) -> int)
    requires FilterSubtitles(fp, subs) != []
    ensures var f := FilterSubtitles(fp, subs);
      var b := BestSubtitle(fp, video, subs, score).value;
      exists i :: 0 <= i < |f| && f[i] == b &&
        forall j :: 0 <= j < i ==> !(FormatPriority(fp, f[j]) == FormatPriority(fp, b) && score(f[j], video) == score(b, video))
  {
    var f := FilterSubtitles(fp, subs);
    var sk := ScoreKey(video, score);
    var pk := PriorityKey(fp);
    BestIsHead(fp, video, subs, score);
    var b := SortDesc(SortDesc(f, sk), pk)[0];
    var i := LexHeadEarliest(f, pk, sk);
    var pb, sb := FormatPriority(fp, b), score(b, video);
    assert pk(b) == pb && sk(b) == sb;
    forall j | 0 <= j < i
      ensures !(FormatPriority(fp, f[j]) == pb && score(f[j], video) == sb)
    {
      assert pk(f[j]) == FormatPriority(fp, f[j]) && sk(f[j]) == score(f[j], video);
    }
    assert 0 <= i < |f| && f[i] == b &&
      forall j :: 0 <= j < i ==> !(FormatPriority(fp, f[j]) == pb && score(f[j], video) == sb);
  }

  /** Format priority dominates score: an allowed subtitle in an earlier-listed format keeps any later-listed one from being chosen, whatever its score. */
  lemma PriorityDominates(fp: seq<string>, video: SubVideo, subs: seq<Subtitle>, score: (Subtitle, SubVideo) -> int, a: Subtitle, b: Subtitle)
    requires a in subs && Format(a) in fp && Format(b) in fp
    requires IndexOf(fp, Format(a)) < IndexOf(fp, Format(b))
    ensures BestSubtitle(Some(fp), video, subs, score) != Some(b)
  {
    var pk := PriorityKey(Some(fp));
    FilterKeepsAllowed(Some(fp), subs, a);
    BestIsHead(Some(fp), video, subs, score);
    EarlierFormatRanksHigher(fp, a, b);
    assert pk(a) > pk(b);
    LexHeadNotDominated(FilterSubtitles(Some(fp), subs), pk, ScoreKey(video, score), a, b);
  }

  // ---- the per-video loop of `_search_videos` ---------------------------------

  /** What `list_subtitles` returns, in the dict's order: each video with the subtitles found for it. */
  type Listing = seq<(SubVideo, seq<Subtitle>)>

  /** The videos of a listing, in order. */
  function Videos(l: Listing): (r: seq<SubVideo>)
    ensures |r| == |l| && forall i :: 0 <= i < |l| ==> r[i] == l[i].0
  {
    Map(l, VideoOf)
  }

  function VideoOf(e: (SubVideo, seq<Subtitle>)): SubVideo { e.0 }

  /** `select_best_subtitle` as a function of the video and its subtitles. */
  function BestOf(fp: Option<seq<string>>, score: (Subtitle, SubVideo) -> int): (c: (SubVideo, seq<Subtitle>) -> Option<Subtitle>)
    ensures forall v, subs :: c(v, subs) == BestSubtitle(fp, v, subs, score)
  {
    (v, subs) => BestSubtitle(fp, v, subs, score)
  }

  /** Each video of the listing with the one-element list of what `choose` picks for it, in listing order; videos it picks nothing for are left out. */
  function Collect(listed: Listing, choose: (SubVideo, seq<Subtitle>) -> Option<Subtitle>): Listing
  {
    if listed == [] then []
    else
      var last := listed[|listed| - 1];
      var pick := choose(last.0, last.1);
      Collect(listed[..|listed| - 1], choose) + (if pick.Some? then [(last.0, [pick.value])] else [])
  }

  /** The loop of `_search_videos`: `best_subtitles`, every video with a best subtitle mapped to the list holding just that one. */
  method SearchVideos(h: Helper, listed: Listing, score: (Subtitle, SubVideo) -> int) returns (best: Listing)
    ensures best == Collect(listed, BestOf(h.formatPriority, score))
  {
    ghost var choose := BestOf(h.formatPriority, score);
    best := [];
    var i := 0;
    assert listed[..0] == [];
    while i < |listed|
      invariant 0 <= i <= |listed|
      invariant best == Collect(listed[..i], choose)
    {
      var entry := listed[i];
      var bestSub := SelectBestSubtitle(h.formatPriority, entry.0, entry.1, score);
      CollectPrefixStep(listed, choose, i);
      assert bestSub == choose(entry.0, entry.1);
      if bestSub.Some? {
        best := best + [(entry.0, [bestSub.value])];
      }
      i := i + 1;
    }
    assert listed[..i] == listed;
  }

  lemma CollectPrefixStep(listed: Listing, choose: (SubVideo, seq<Subtitle>) -> Option<Subtitle>, i: int)
    requires 0 <= i < |listed|
    ensures Collect(listed[..i + 1], choose) == Collect(listed[..i], choose) +
      (var pick := choose(listed[i].0, listed[i].1); if pick.Some? then [(listed[i].0, [pick.value])] else [])
  {
    assert listed[..i + 1][..i] == listed[..i];
  }

  /** The entry maps its video to exactly one subtitle, the one `choose` picks for that video in the listing. */
  predicate ChosenFrom(listed: Listing, choose: (SubVideo, seq<Subtitle>) -> Option<Subtitle>, e: (SubVideo, seq<Subtitle>)) {
    |e.1| == 1 &&
    exists i :: 0 <= i < |listed| && listed[i].0 == e.0 && choose(listed[i].0, listed[i].1) == Some(e.1[0])
  }

  /** No video gets more than one subtitle, and each one gets the pick from its own list. */
  lemma {:induction false} CollectEntries(listed: Listing, choose: (SubVideo, seq<Subtitle>) -> Option<Subtitle>)
    ensures forall k :: 0 <= k < |Collect(listed, choose)| ==> ChosenFrom(listed, choose, Collect(listed, choose)[k])
  {
    if listed != [] {
      var init := listed[..|listed| - 1];
      var last := listed[|listed| - 1];
      CollectEntries(init, choose);
      var prev := Collect(init, choose);
      var b := choose(last.0, last.1);
      var best := prev + (if b.Some? then [(last.0, [b.value])] else []);
      assert best == Collect(listed, choose);
      forall k | 0 <= k < |best| ensures ChosenFrom(listed, choose, best[k]) {
        if k < |prev| {
          assert best[k] == prev[k];
          assert ChosenFrom(init, choose, prev[k]);
          var i :| 0 <= i < |init| && init[i].0 == prev[k].0 && choose(init[i].0, init[i].1) == Some(prev[k].1[0]);
          assert listed[i] == init[i];
        } else {
          assert best[k] == (last.0, [b.value]);
          assert listed[|listed| - 1] == last;
        }
      }
    }
  }

  /** Every video with a pick is in the result, with it. */
  lemma {:induction false} CollectComplete(listed: Listing, choose: (SubVideo, seq<Subtitle>) -> Option<Subtitle>, i: int)
    requires 0 <= i < |listed| && choose(listed[i].0, listed[i].1).Some?
    ensures (listed[i].0, [choose(listed[i].0, listed[i].1).value]) in Collect(listed, choose)
  {
    var init := listed[..|listed| - 1];
    if i < |init| {
      assert listed[i] == init[i];
      CollectComplete(init, choose, i);
    }
  }

  /** The result lists its videos in listing order. */
  lemma {:induction false} CollectOrder(listed: Listing, choose: (SubVideo, seq<Subtitle>) -> Option<Subtitle>)
    ensures IsSubsequence(Videos(Collect(listed, choose)), Videos(listed))
  {
    if listed != [] {
      var init := listed[..|listed| - 1];
      var last := listed[|listed| - 1];
      CollectOrder(init, choose);
      var prev := Collect(init, choose);
      var b := choose(last.0, last.1);
      var extra := if b.Some? then [(last.0, [b.value])] else [];
      assert listed == init + [last];
      MapAppend(init, [last], VideoOf);
      MapAppend(prev, extra, VideoOf);
      assert Videos([last]) == [last.0];
      assert Videos(listed) == Videos(init) + [last.0];
      assert Videos(prev + extra) == Videos(prev) + Videos(extra);
      SubsequenceRefl([last.0]);
      assert IsSubsequence(Videos(extra), [last.0]);
      SubsequenceAppend(Videos(prev), Videos(init), Videos(extra), [last.0]);
      assert Collect(listed, choose) == prev + extra;
    }
  }

  /** With the listing's videos distinct (it comes from a dict), a video without a pick is left out. */
  lemma NoPickMeansOmitted(listed: Listing, choose: (SubVideo, seq<Subtitle>) -> Option<Subtitle>, i: int)
    requires 0 <= i < |listed|
    requires forall j, k :: 0 <= j < k < |listed| ==> listed[j].0 != listed[k].0
    requires choose(listed[i].0, listed[i].1).None?
    ensures listed[i].0 !in Videos(Collect(listed, choose))
  {
    var best := Collect(listed, choose);
    CollectEntries(listed, choose);
    forall k | 0 <= k < |best| ensures best[k].0 != listed[i].0 {
      assert ChosenFrom(listed, choose, best[k]);
      var j :| 0 <= j < |listed| && listed[j].0 == best[k].0 && choose(listed[j].0, listed[j].1) == Some(best[k].1[0]);
      assert j != i;
    }
  }

  // ---- the video descriptor ----------------------------------------------------

  /** Part size above which file hashes are computed: 10 MiB. */
  const HashSizeThreshold := 10485760

  /** The providers the helper can hash a file for (the keys of `hash_functions`). */
  const HashFunctionNames: set<string> := {"opensubtitles", "shooter", "thesubdb", "napiprojekt"}

  /** Outcome of the imdb-id search over a video's guids: no imdb guid, its number, or an `int()` failure. */
  datatype ImdbLookup = NoImdb | Imdb(id: int) | ImdbParseError

  /** The guid id splits on "://" into exactly two pieces, the first being "imdb". */
  predicate IsImdbGuid(g: string) {
    var parts := Split(g, "://");
    |parts| == 2 && parts[0] == "imdb"
  }

  /** `int(piece.replace("tt", ""))` for the second piece of an imdb guid. */
  function ImdbOfGuid(g: string): ImdbLookup
    requires IsImdbGuid(g)
  {
    match ParseInt(RemoveAll(Split(g, "://")[1], "tt"))
    case None => ImdbParseError
    case Some(n) => Imdb(n)
  }

  /** The position of the first imdb guid, `|guids|` when there is none. */
  function FirstImdbGuid(guids: seq<string>): (k: nat)
    ensures k <= |guids|
    ensures k < |guids| ==> IsImdbGuid(guids[k])
    ensures forall j :: 0 <= j < k ==> !IsImdbGuid(guids[j])
  {
    if guids == [] || IsImdbGuid(guids[0]) then 0
    else
      var k := FirstImdbGuid(guids[1..]);
      assert forall j :: 1 <= j < k + 1 ==> guids[j] == guids[1..][j - 1];
      k + 1
  }

  /** The imdb id of the first imdb guid; none when no guid is one. */
  function ImdbIdOf(guids: seq<string>): (r: ImdbLookup)
    ensures r.NoImdb? <==> forall i :: 0 <= i < |guids| ==> !IsImdbGuid(guids[i])
    ensures !r.NoImdb? ==> FirstImdbGuid(guids) < |guids| && r == ImdbOfGuid(guids[FirstImdbGuid(guids)])
  {
    var k := FirstImdbGuid(guids);
    if k == |guids| then NoImdb else ImdbOfGuid(guids[k])
  }

  /** The guid loop of `build_subliminal_video`, with its `break` at the first imdb guid. */
  method FindImdbId(guids: seq<string>) returns (r: ImdbLookup)
    ensures r == ImdbIdOf(guids)
  {
    r := NoImdb;
    var i := 0;
    while i < |guids|
      invariant 0 <= i <= |guids|
      invariant r == NoImdb
      invariant forall j :: 0 <= j < i ==> !IsImdbGuid(guids[j])
    {
      var parts := Split(guids[i], "://");
      if |parts| == 2 && parts[0] == "imdb" {
        assert FirstImdbGuid(guids) == i;
        r := ImdbOfGuid(guids[i]);
        return;
      }
      i := i + 1;
    }
  }

  /** An imdb guid as Plex writes it, "imdb://tt" followed by the number, gives that number. */
  lemma ImdbGuidNumber(n: nat)
    ensures IsImdbGuid("imdb://tt" + NatString(n))
    ensures ImdbOfGuid("imdb://tt" + NatString(n)) == Imdb(n)
  {
    var digits := NatString(n);
    var rest := "tt" + digits;
    assert "imdb://tt" + digits == "imdb" + "://" + rest;
    NotContainsWithoutHead("imdb", "://");
    NatStringHasNo(n, ':');
    NatStringHasNo(n, 't');
    assert ':' !in rest;
    NotContainsWithoutHead(rest, "://");
    SplitTwo("imdb", "://", rest);
    RemoveAllPrefix("tt", digits);
    NotContainsWithoutHead(digits, "tt");
    ParseIntString(n);
  }

  /** The imdb id list a `Movie` gets: `[imdb_id]`, holding None when no guid is an imdb one. */
  function ImdbIds(l: ImdbLookup): seq<Option<int>>
    requires !l.ImdbParseError?
  {
    if l.Imdb? then [Some(l.id)] else [None]
  }

  /**
   * `video.hashes` after `set_video_hashes` has gone over `providers`: each
   * provider with a hash function gets the hash of the file, later entries
   * overwriting nothing but their own key.
   */
  function Hashed(hashes: map<string, string>, providers: seq<string>, name: string, hashFn: (string, string) -> string): (r: map<string, string>)
    ensures r.Keys == hashes.Keys + (set p | p in providers && p in HashFunctionNames)
    ensures forall p :: p in providers && p in HashFunctionNames ==> r[p] == hashFn(p, name)
    ensures forall p :: p in hashes && !(p in providers && p in HashFunctionNames) ==> r[p] == hashes[p]
  {
    if providers == [] then hashes
    else
      var init := providers[..|providers| - 1];
      var p := providers[|providers| - 1];
      assert forall q :: q in providers <==> q in init || q == p;
      var m := Hashed(hashes, init, name, hashFn);
      if p in HashFunctionNames then m[p := hashFn(p, name)] else m
  }

  lemma HashedPrefixStep(hashes: map<string, string>, providers: seq<string>, name: string, hashFn: (string, string) -> string, i: int)
    requires 0 <= i < |providers|
    ensures Hashed(hashes, providers[..i + 1], name, hashFn) ==
      var m := Hashed(hashes, providers[..i], name, hashFn);
      if providers[i] in HashFunctionNames then m[providers[i] := hashFn(providers[i], name)] else m
  {
    assert providers[..i + 1][..i] == providers[..i];
  }

  /** The loop of `set_video_hashes` over the provider list. */
  method SetVideoHashes(hashes: map<string, string>, providers: seq<string>, name: string, hashFn: (string, string) -> string)
    returns (r: map<string, string>)
    ensures r == Hashed(hashes, providers, name, hashFn)
  {
    r := hashes;
    var i := 0;
    while i < |providers|
      invariant 0 <= i <= |providers|
      invariant r == Hashed(hashes, providers[..i], name, hashFn)
    {
      HashedPrefixStep(hashes, providers, name, hashFn, i);
      var provider := providers[i];
      if provider in HashFunctionNames {
        r := r[provider := hashFn(provider, name)];
      }
      assert r == Hashed(hashes, providers[..i + 1], name, hashFn);
      i := i + 1;
    }
    assert providers[..i] == providers;
  }

  /**
   * The descriptor `build_subliminal_video` makes, None where it raises: no
   * media or part, an imdb id `int()` rejects, an episode without season or
   * episode number, or a large file with no provider list to hash for.
   */
  function Descriptor(h: Helper, video: Item, hashFn: (string, string) -> string): Option<SubVideo>
  {
    if !HasFirstPart(video) then None
    else
      var part := video.media[0].parts[0];
      var imdb := ImdbIdOf(video.guids);
      if imdb.ImdbParseError? then None
      else if video.kind == "episode" && (video.seasonNumber.None? || video.episodeNumber.None?) then None
      else
        var plain :=
          if video.kind == "episode" then
            Episode(part.file, video.grandparentTitle, video.seasonNumber.value, video.episodeNumber.value, video.title, map[])
          else Movie(part.file, video.title, video.year, ImdbIds(imdb), map[]);
        if part.size <= HashSizeThreshold then Some(plain)
        else if h.providers.None? then None
        else Some(plain.(hashes := Hashed(map[], h.providers.value, part.file, hashFn)))
  }

  /** `build_subliminal_video`. */
  method BuildSubliminalVideo(h: Helper, video: Item, hashFn: (string, string) -> string) returns (r: Option<SubVideo>)
    ensures r == Descriptor(h, video, hashFn)
    ensures r.None? <==>
      !HasFirstPart(video) || ImdbIdOf(video.guids).ImdbParseError? ||
      (video.kind == "episode" && (video.seasonNumber.None? || video.episodeNumber.None?)) ||
      (video.media[0].parts[0].size > HashSizeThreshold && h.providers.None?)
    ensures r.Some? ==> r.value.name == FirstFile(video) && (r.value.Episode? <==> video.kind == "episode")
    ensures r.Some? && r.value.Movie? ==> r.value.imdbIds == ImdbIds(ImdbIdOf(video.guids))
    ensures r.Some? && video.media[0].parts[0].size <= HashSizeThreshold ==> r.value.hashes == map[]
    ensures r.Some? && video.media[0].parts[0].size > HashSizeThreshold ==>
      r.value.hashes.Keys == set p | p in h.providers.value && p in HashFunctionNames
  {
    if |video.media| == 0 || |video.media[0].parts| == 0 {
      return None;
    }
    var part := video.media[0].parts[0];
    var imdb := FindImdbId(video.guids);
    if imdb.ImdbParseError? {
      return None;
    }
    var subVideo: SubVideo;
    if video.kind == "episode" {
      if video.seasonNumber.None? || video.episodeNumber.None? {
        return None;
      }
      subVideo := Episode(part.file, video.grandparentTitle, video.seasonNumber.value, video.episodeNumber.value, video.title, map[]);
    } else {
      subVideo := Movie(part.file, video.title, video.year, ImdbIds(imdb), map[]);
    }
    if part.size > HashSizeThreshold {
      if h.providers.None? {
        return None;
      }
      var hashes := SetVideoHashes(subVideo.hashes, h.providers.value, subVideo.name, hashFn);
      subVideo := subVideo.(hashes := hashes);
    }
    return Some(subVideo);
  }

  // ---- saving ------------------------------------------------------------------

  /** The `subtitle` argument of `save_subtitle`: one subtitle or a list of them. */
  datatype SubtitleArg = OneSubtitle(sub: Subtitle) | SubtitleList(subs: seq<Subtitle>)

  /** `subtitle if isinstance(subtitle, list) else [subtitle]`. */
  function AsList(a: SubtitleArg): seq<Subtitle>
  {
    match a
    case OneSubtitle(s) => [s]
    case SubtitleList(l) => l
  }

  /** The directory the subtitles go to: the destination, or the directory of the video file. */
  function SaveDirectory(destination: Option<string>, video: SubVideo): string
  {
    if destination.Some? then destination.value else DirName(video.name)
  }

  /**
   * The paths `save_subtitle` reports: for each subtitle `core.save_subtitles`
   * says it saved (`save`), the file name of its default path (`get_path`)
   * joined to the directory.
   */
  function SavedPaths(
    video: SubVideo, subs: seq<Subtitle>, dir: string,
    save: (SubVideo, seq<Subtitle>, string) -> seq<Subtitle>,
    getPath: (SubVideo, Subtitle) -> string): seq<string>
  {
    Map(save(video, subs, dir), (s: Subtitle) => SavedPath(video, dir, getPath, s))
  }

  /** Where one saved subtitle is reported: its default file name inside the directory. */
  function SavedPath(video: SubVideo, dir: string, getPath: (SubVideo, Subtitle) -> string, s: Subtitle): string
  {
    PathJoin(dir, BaseName(getPath(video, s)))
  }

  /** `save_subtitle`. */
  method SaveSubtitle(
    video: SubVideo, subtitle: SubtitleArg, destination: Option<string>,
    save: (SubVideo, seq<Subtitle>, string) -> seq<Subtitle>,
    getPath: (SubVideo, Subtitle) -> string) returns (r: seq<string>)
    ensures r == SavedPaths(video, AsList(subtitle), SaveDirectory(destination, video), save, getPath)
  {
    var dir := if destination.Some? then destination.value else DirName(video.name);
    var subtitles := AsList(subtitle);
    var saved := save(video, subtitles, dir);
    r := JoinSavedPaths(video, dir, getPath, saved);
  }

  /** The loop of `save_subtitle` over what `core.save_subtitles` reports. */
  method JoinSavedPaths(video: SubVideo, dir: string, getPath: (SubVideo, Subtitle) -> string, saved: seq<Subtitle>)
    returns (r: seq<string>)
    ensures r == Map(saved, (s: Subtitle) => SavedPath(video, dir, getPath, s))
  {
    r := [];
    var i := 0;
    while i < |saved|
      invariant 0 <= i <= |saved|
      invariant |r| == i && forall k :: 0 <= k < i ==> r[k] == SavedPath(video, dir, getPath, saved[k])
    {
      r := r + [SavedPath(video, dir, getPath, saved[i])];
      i := i + 1;
    }
  }

  /** Each reported path is the saved subtitle's file name inside the directory it was saved to. */
  lemma SavedPathsLocation(
    video: SubVideo, subs: seq<Subtitle>, dir: string,
    save: (SubVideo, seq<Subtitle>, string) -> seq<Subtitle>,
    getPath: (SubVideo, Subtitle) -> string)
    ensures var saved := save(video, subs, dir);
      var r := SavedPaths(video, subs, dir, save, getPath);
      |r| == |saved| &&
      (forall k :: 0 <= k < |r| ==> BaseName(r[k]) == BaseName(getPath(video, saved[k]))) &&
      (dir != [] && dir[|dir| - 1] != '/' ==> forall k :: 0 <= k < |r| ==> DirName(r[k]) == dir)
  {
    var saved := save(video, subs, dir);
    forall k | 0 <= k < |saved|
      ensures BaseName(PathJoin(dir, BaseName(getPath(video, saved[k])))) == BaseName(getPath(video, saved[k]))
      ensures dir != [] && dir[|dir| - 1] != '/' ==> DirName(PathJoin(dir, BaseName(getPath(video, saved[k])))) == dir
    {
      BaseNameOfJoin(dir, BaseName(getPath(video, saved[k])));
      if dir != [] && dir[|dir| - 1] != '/' {
        DirNameOfJoin(dir, BaseName(getPath(video, saved[k])));
      }
    }
  }

  /** Without a destination a subtitle lands next to its video: in the video file's directory. */
  lemma SavedNextToVideo(
    video: SubVideo, subs: seq<Subtitle>, folder: string, file: string,
    save: (SubVideo, seq<Subtitle>, string) -> seq<Subtitle>,
    getPath: (SubVideo, Subtitle) -> string)
    requires video.name == folder + "/" + file
    requires folder != [] && folder[|folder| - 1] != '/' && '/' !in file
    ensures SaveDirectory(None, video) == folder
    ensures forall k :: 0 <= k < |SavedPaths(video, subs, folder, save, getPath)| ==>
      DirName(SavedPaths(video, subs, folder, save, getPath)[k]) == folder
  {
    DirNameOfJoin(folder, file);
    SavedPathsLocation(video, subs, folder, save, getPath);
  }

  /** The paths `save_subtitles` reports for a dict of videos and their subtitles, saved next to each video. */
  function AllSavedPaths(
    entries: Listing,
    save: (SubVideo, seq<Subtitle>, string) -> seq<Subtitle>,
    getPath: (SubVideo, Subtitle) -> string): seq<string>
  {
    if entries == [] then []
    else
      var last := entries[|entries| - 1];
      AllSavedPaths(entries[..|entries| - 1], save, getPath) +
        SavedPaths(last.0, last.1, SaveDirectory(None, last.0), save, getPath)
  }

  /** The report for two batches of videos is the two reports one after the other. */
  lemma {:induction false} AllSavedPathsAppend(
    a: Listing, b: Listing,
    save: (SubVideo, seq<Subtitle>, string) -> seq<Subtitle>,
    getPath: (SubVideo, Subtitle) -> string)
    ensures AllSavedPaths(a + b, save, getPath) == AllSavedPaths(a, save, getPath) + AllSavedPaths(b, save, getPath)
    decreases |b|
  {
    if b == [] {
      assert a + b == a;
    } else {
      var init := b[..|b| - 1];
      var last := b[|b| - 1];
      assert (a + b)[..|a + b| - 1] == a + init;
      assert (a + b)[|a + b| - 1] == last;
      AllSavedPathsAppend(a, init, save, getPath);
      var x, y, z := AllSavedPaths(a, save, getPath), AllSavedPaths(init, save, getPath),
        SavedPaths(last.0, last.1, SaveDirectory(None, last.0), save, getPath);
      ConcatAssoc(x, y, z);
    }
  }

  /** `save_subtitles`: save each video's subtitles next to it and concatenate the reports. */
  method SaveSubtitles(
    entries: Listing,
    save: (SubVideo, seq<Subtitle>, string) -> seq<Subtitle>,
    getPath: (SubVideo, Subtitle) -> string) returns (r: seq<string>)
    ensures r == AllSavedPaths(entries, save, getPath)
  {
    r := [];
    var i := 0;
    while i < |entries|
      invariant 0 <= i <= |entries|
      invariant r == AllSavedPaths(entries[..i], save, getPath)
    {
      var saved := SaveSubtitle(entries[i].0, SubtitleList(entries[i].1), None, save, getPath);
      assert entries[..i + 1][..i] == entries[..i];
      r := r + saved;
      i := i + 1;
    }
    assert entries[..i] == entries;
  }
}
