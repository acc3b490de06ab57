/**
 * The older `SubliminalHelper` (package `plex_sub_downloader`). It differs from
 * the current one only in the descriptor it builds: the season number is read
 * from the season's title ("Season 3"), the episode number is the item's
 * `index`, and no file hashes are ever computed. Its constructor, the imdb-id
 * search and the saving code are the current helper's `NewHelper` (with no
 * format priority), `FindImdbId`, `SaveSubtitle` and `SaveSubtitles`.
 */
module SubliminalHelperOld {
  import opened Wrappers
  import opened PyStr
  import opened PlexMedia
  import opened SubliminalHelper

  /** `int(parentTitle.replace("Season ", ""))`, None where Python raises (no title, or text `int()` rejects). */
  function SeasonOfTitle(parentTitle: Option<string>): Option<int>
  {
    if parentTitle.None? then None else ParseInt(RemoveAll(parentTitle.value, "Season "))
  }

  /** The season title Plex gives season `n` yields `n`. */
  lemma SeasonOfTitleNumber(n: nat)
    ensures SeasonOfTitle(Some("Season " + NatString(n))) == Some(n)
  {
    RemoveAllPrefix("Season ", NatString(n));
    NatStringHasNo(n, 'S');
    NotContainsWithoutHead(NatString(n), "Season ");
    ParseIntString(n);
  }

  /** A title without "Season " in it whose first character is not a digit or a sign, such as "Specials", gives no season: the `int()` forms `ParseInt` accepts all start with one. */
  lemma SeasonOfTitleWithoutNumber(t: string)
    requires !Contains(t, "Season ")
    requires t == [] || (!IsDigit(t[0]) && t[0] != '-' && t[0] != '+')
    ensures SeasonOfTitle(Some(t)) == None
  {
  }

  /** The descriptor the old `build_subliminal_video` makes, None where it raises. */
  function DescriptorOld(video: Item): Option<SubVideo>
  {
    if !HasFirstPart(video) then None
    else
      var file := video.media[0].parts[0].file;
      var imdb := ImdbIdOf(video.guids);
      if imdb.ImdbParseError? then None
      else if video.kind == "episode" then
        var season := SeasonOfTitle(video.parentTitle);
        if season.None? || video.index.None? then None
        else Some(Episode(file, video.grandparentTitle, season.value, video.index.value, video.title, map[]))
      else Some(Movie(file, video.title, video.year, ImdbIds(imdb), map[]))
  }

  /** The old `build_subliminal_video`. */
  method BuildSubliminalVideoOld(video: Item) returns (r: Option<SubVideo>)
    ensures r == DescriptorOld(video)
    ensures r.None? <==>
      !HasFirstPart(video) || ImdbIdOf(video.guids).ImdbParseError? ||
      (video.kind == "episode" && (SeasonOfTitle(video.parentTitle).None? || video.index.None?))
    ensures r.Some? ==> r.value.name == FirstFile(video) && r.value.hashes == map[]
    ensures r.Some? ==> (r.value.Episode? <==> video.kind == "episode")
    ensures r.Some? && r.value.Episode? ==>
      r.value.season == SeasonOfTitle(video.parentTitle).value && r.value.episode == video.index.value
    ensures r.Some? && r.value.Movie? ==> r.value.imdbIds == ImdbIds(ImdbIdOf(video.guids))
  {
    if |video.media| == 0 || |video.media[0].parts| == 0 {
      return None;
    }
    var fileName := video.media[0].parts[0].file;
    var imdb := FindImdbId(video.guids);
    if imdb.ImdbParseError? {
      return None;
    }
    if video.kind == "episode" {
      if video.parentTitle.None? {
        return None;
      }
      var season := ParseInt(RemoveAll(video.parentTitle.value, "Season "));
      if season.None? || video.index.None? {
        return None;
      }
      return Some(Episode(fileName, video.grandparentTitle, season.value, video.index.value, video.title, map[]));
    }
    return Some(Movie(fileName, video.title, video.year, ImdbIds(imdb), map[]));
  }

  /** For an episode of "Season n" whose file is below the hashing threshold, both revisions build the same descriptor, provided Plex's season number is `n` and its index the episode number. */
  lemma RevisionsAgreeOnEpisodes(h: Helper, video: Item, n: nat, hashFn: (string, string) -> string)
    requires HasFirstPart(video) && video.kind == "episode"
    requires video.media[0].parts[0].size <= HashSizeThreshold
    requires video.parentTitle == Some("Season " + NatString(n))
    requires video.seasonNumber == Some(n) && video.episodeNumber == video.index
    ensures DescriptorOld(video) == Descriptor(h, video, hashFn)
  {
    SeasonOfTitleNumber(n);
  }
}
