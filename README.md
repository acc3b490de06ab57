# Plex subtitle downloader: a verified model of its decision logic

The Plex subtitle downloader listens for Plex webhooks. When a `library.new` event arrives it does four things:

1. It fetches the new item.
2. A season or show is expanded into its episodes.
3. For each video it works out which requested subtitle languages no existing subtitle stream covers.
4. For the videos that miss one, it asks subliminal for candidate subtitles and picks one per video. Format priority decides first and subliminal's score second. It then either saves the pick next to the video file or uploads it to Plex, and restores the part's previous default stream afterwards. In the current revision the download step calls `search_videos` with an argument too many, so as written it stops there; the model describes this step from the subtitle helper's own functions.

The repository carries two revisions:

- the current package `src/plex_sub_downloader`;
- the older package `plex_sub_downloader`.

Both are modelled. The older revision has a different missing-subtitle check, a different descriptor builder and a different event handler. Everything else in it is shared with the current revision.

The model separates this logic from Plex, subliminal and the operating system. Everything external becomes a parameter:

| parameter | stands for |
|---|---|
| `fetch` | `fetchItem` with `reload`; `None` where plexapi raises |
| `episodesOf` | `episodes()`, each episode reloaded |
| `sessions` | the list `sessions()` returns |
| `score` | `compute_score` |
| `listed` | what `list_subtitles` returns |
| `hashFn` | the `hash_*` functions |
| `save` and `getPath` | `core.save_subtitles` and `Subtitle.get_path` |
| `interfaceIp` | the socket lookup `get_interface_ip` |
| `librariesWritable` | the result of `checkLibraryPermissions` |

Python's own operations have their own modules:

- `PyStr`: `str.split`, `str.join`, `str.replace(x, "")`, `str.find`, `int()` and `str()`;
- `PosixPath`: `os.path.basename`, `os.path.dirname`, `os.path.join` and `PurePosixPath.suffix`;
- `Seqs`: `list.remove`, `list.index` and subsequences;
- `StableSort`: `list.sort(key=..., reverse=True)`, a stable descending insertion sort;
- `WebhookEvent`: decoded JSON objects, which keep their keys in order.

Modules and what they model:

- `LanguageGap`: the loop that removes covered language codes.
- `PlexMedia`: the plexapi records the core reads.
- `WebhookEvent`: the webhook payload records. The file is identical in both revisions.
- `Endpoint`: the external host and the webhook URL.
- `PlexHelper`: `plexHelper.py`.
- `SubliminalHelper` and `SubliminalHelperOld`: the two `subliminalHelper.py` files.
- `Downloader` and `DownloaderOld`: the two `PlexSubDownloader.py` files.

Where code changes state step by step, the model does the same:

- The downloaders are classes with `modifies` clauses.
- In the old revision, the configured language list is a field that `checkVideoForSubtitles` rewrites.
- The loops are `while` loops, each proved equal to a specification function.

## Model

| member | source | states |
|---|---|---|
| LanguageGap.StepEffect | src/plex_sub_downloader/PlexSubDownloader.py:162-166 | one stream takes exactly its own counted code off the requested list, as a multiset, and keeps the other codes in order. A stream the format check skips (the `continue` at 163-164) counts no code and so takes nothing off |
| LanguageGap.CountedTracks | src/plex_sub_downloader/PlexSubDownloader.py:162-164 | every stream retained by the format check passes it |
| LanguageGap.RemainingAppend | src/plex_sub_downloader/PlexSubDownloader.py:162-166 | the loop over two runs of streams is the loop over the first run followed by the loop over the second |
| LanguageGap.RemainingSnoc | src/plex_sub_downloader/PlexSubDownloader.py:162-166 | one more stream is one more turn of the loop |
| LanguageGap.RemainingSubsequence | src/plex_sub_downloader/PlexSubDownloader.py:158-171 | the missing languages are a subsequence of the requested ones: nothing is added and the requested order is kept |
| LanguageGap.RemainingMultiset | src/plex_sub_downloader/PlexSubDownloader.py:158-171 | as multisets, the missing languages are the requested ones minus the codes of the counted streams: one occurrence per counted stream is gone |
| LanguageGap.IgnoredTracksNoEffect | src/plex_sub_downloader/PlexSubDownloader.py:163-164 | the result depends only on the streams whose format is allowed |
| LanguageGap.NothingMissingIff | src/plex_sub_downloader/PlexSubDownloader.py:149-150 | nothing is missing exactly when the counted codes cover every requested occurrence, as multisets |
| LanguageGap.UncoveredLanguageMissing | src/plex_sub_downloader/PlexSubDownloader.py:165-166 | a requested code that no counted stream carries stays in the result |
| LanguageGap.RemainingOfNothing | src/plex_sub_downloader/PlexSubDownloader.py:158-171 | an empty request list gives an empty result, whatever the streams |
| Downloader.NormalisePriority | src/plex_sub_downloader/PlexSubDownloader.py:34-36 | an empty `format_priority` becomes no list; a non-empty one is kept as it is |
| Downloader.EmptyPriorityAllowsAll | src/plex_sub_downloader/PlexSubDownloader.py:34-36 | left as an empty list, the priority would reject every candidate and every stream; once normalised, it rejects none |
| Downloader.PlexSubDownloader.constructor | src/plex_sub_downloader/PlexSubDownloader.py:20-23 | a new downloader has no configuration and no helper |
| Downloader.PlexSubDownloader.Configure | src/plex_sub_downloader/PlexSubDownloader.py:25-49 | it stores the configuration and the destination (default "with_media") and normalises the format priority. It builds the helper with the default languages ["eng"]. It fails with a KeyError when `subtitle_destination` is absent, and answers False exactly for "with_media" when the libraries are not writable |
| Downloader.PlexSubDownloader.GetMissingSubtitleLanguages | src/plex_sub_downloader/PlexSubDownloader.py:152-171 | it works on a copy of the configured codes, so the configuration is unchanged. The result is a subsequence of the requested codes and equals, as a multiset, the requested codes minus the counted streams' codes |
| Downloader.RemoveCoveredLanguages | src/plex_sub_downloader/PlexSubDownloader.py:162-166 | the loop over the subtitle streams computes the specification `Remaining` |
| Downloader.PlexSubDownloader.IsVideoMissingSubtitles | src/plex_sub_downloader/PlexSubDownloader.py:143-150 | true exactly when the counted streams' codes do not cover every requested occurrence |
| Downloader.PlexSubDownloader.GetVidsMissingSubtitles | src/plex_sub_downloader/PlexSubDownloader.py:120-141 | the report is `MissingVideos`: item by item, the videos each item stands for that miss a language |
| Downloader.PlexSubDownloader.EpisodesMissingSubtitles | src/plex_sub_downloader/PlexSubDownloader.py:135-139 | the inner loop keeps exactly the episodes that miss a language, in episode order |
| Downloader.MissingLeavesFilter | src/plex_sub_downloader/PlexSubDownloader.py:136-139 | the kept episodes are a subsequence of the episodes, and an episode is kept exactly when it misses a language |
| Downloader.MissingVideosAppend | src/plex_sub_downloader/PlexSubDownloader.py:129-141 | the report for two lists of items is the two reports one after the other: output order follows input order |
| Downloader.MissingVideosSnoc | src/plex_sub_downloader/PlexSubDownloader.py:129-141 | one more item adds its own videos to the end of the report |
| Downloader.MissingVideosOfOne | src/plex_sub_downloader/PlexSubDownloader.py:130-139 | a movie or episode is reported exactly when it misses a language. A season or show is replaced by its episodes that miss one. Any other type gives nothing |
| Downloader.OneItem | src/plex_sub_downloader/PlexSubDownloader.py:129-139 | the report for one item is the missing videos among the videos it stands for |
| Downloader.MissingLeavesOfOne | src/plex_sub_downloader/PlexSubDownloader.py:131-132 | one video is kept exactly when it misses a language |
| Downloader.MissingVideosSound | src/plex_sub_downloader/PlexSubDownloader.py:120-141 | every reported video misses a language and stands for one of the input items |
| Downloader.MissingVideosComplete | src/plex_sub_downloader/PlexSubDownloader.py:120-141 | every video an input item stands for that misses a language is reported |
| Downloader.DownloadDecision | src/plex_sub_downloader/PlexSubDownloader.py:91-99 | the download happens exactly when some video is missing, for exactly those videos. It uploads to Plex exactly for the destination "metadata" |
| Downloader.PlexSubDownloader.HandleDownloadingVideoSubtitles | src/plex_sub_downloader/PlexSubDownloader.py:87-99 | the decision is made on the videos the item stands for that miss a language |
| Downloader.EventOutcome | src/plex_sub_downloader/PlexSubDownloader.py:52-75 | only `library.new` leads to a download. A download is for a non-empty list of videos that all miss a language, and goes to Plex exactly for "metadata" |
| Downloader.PlexSubDownloader.HandleWebhookEvent | src/plex_sub_downloader/PlexSubDownloader.py:52-75 | handling an event gives `EventOutcome` for the stored configuration |
| Downloader.NewMovieOutcome | src/plex_sub_downloader/PlexSubDownloader.py:62-75 | a new movie that misses a language is downloaded for on its own; one that misses none leads to nothing |
| Downloader.FirstDefault | src/plex_sub_downloader/PlexSubDownloader.py:205-210 | none exactly when no stream is the default; otherwise the first default stream |
| Downloader.FindOriginalDefault | src/plex_sub_downloader/PlexSubDownloader.py:205-210 | the search loop with its `break` finds `FirstDefault` |
| Downloader.Restore | src/plex_sub_downloader/PlexSubDownloader.py:213-220 | the restore sets the original default again when there was one, and resets the default otherwise, on the video's first part |
| Downloader.RestoredAfterEachAppend | src/plex_sub_downloader/PlexSubDownloader.py:203-220 | uploads with their restores, followed by more uploads with their restores, keep that shape |
| Downloader.UploadEffectsPairs | src/plex_sub_downloader/PlexSubDownloader.py:203-220 | each saved path is uploaded in turn, in order, and every upload is directly followed by the restore of the original default |
| Downloader.UploadSavedPaths | src/plex_sub_downloader/PlexSubDownloader.py:203-220 | the loop over the saved paths makes exactly the calls `UploadEffects` lists |
| Downloader.VideoEffectsRestored | src/plex_sub_downloader/PlexSubDownloader.py:197-220 | for every video, each upload is followed by the restore of its original default |
| Downloader.UnmatchedEntriesIgnored | src/plex_sub_downloader/PlexSubDownloader.py:197-201 | entries for other files, or with no subtitles, cause no call |
| Downloader.UploadForVideo | src/plex_sub_downloader/PlexSubDownloader.py:197-220 | the loop over the dict for one video makes exactly the calls `VideoEffects` lists |
| Downloader.PlexSubDownloader.UploadSubtitlesToMetadata | src/plex_sub_downloader/PlexSubDownloader.py:186-220 | the calls made on Plex are those of every video in turn, in order |
| Downloader.PlexSubDownloader.GetExternalHost | src/plex_sub_downloader/PlexSubDownloader.py:291-301 | an absent `webhook_host` and "0.0.0.0" use the IPv4 interface lookup and "::" the IPv6 one; any other host is returned unchanged |
| Downloader.PlexSubDownloader.GetWebhookUrl | src/plex_sub_downloader/PlexSubDownloader.py:282-289 | "http://" + host + port text + "/webhook". With no `webhook_port` the text is the literal "None" |
| Downloader.SameUrlAsHelper | src/plex_sub_downloader/plexHelper.py:115-134 | the downloader and a helper built with the same host and port give the same URL |
| Endpoint.ExternalHost | src/plex_sub_downloader/plexHelper.py:124-134 | "0.0.0.0" maps to the IPv4 lookup and "::" to the IPv6 one; any other host is returned unchanged |
| Endpoint.PortText | src/plex_sub_downloader/plexHelper.py:117-119 | no port gives "None", and a port gives ":" followed by its decimal text, which parses back into the port |
| Endpoint.WebhookUrl | src/plex_sub_downloader/plexHelper.py:121 | the URL is "http://", then the host and the port text, then "/webhook" |
| Endpoint.WebhookUrlWithoutPort | src/plex_sub_downloader/plexHelper.py:115-122 | with no port, the URL reads `http://<host>None/webhook` |
| Endpoint.WebhookUrlDeterminesPort | src/plex_sub_downloader/plexHelper.py:115-122 | for one host, distinct ports, or a port and no port, give distinct URLs |
| PlexHelper.PlexHelper.constructor | src/plex_sub_downloader/plexHelper.py:13-16 | the helper stores the host and the port |
| PlexHelper.PlexHelper.GetExternalHost | src/plex_sub_downloader/plexHelper.py:124-134 | the stored host, with "0.0.0.0" and "::" replaced by the interface lookups |
| PlexHelper.PlexHelper.GetWebhookUrl | src/plex_sub_downloader/plexHelper.py:115-122 | "http://" + external host + port text + "/webhook", with "None" for no stored port |
| PlexHelper.NormaliseKey | src/plex_sub_downloader/plexHelper.py:26 | a key without "/children" is unchanged, and normalising never lengthens a key |
| PlexHelper.NormaliseChildrenKey | src/plex_sub_downloader/plexHelper.py:26 | a show's children key, `k + "/children"`, becomes `k` |
| PlexHelper.GetVideoItem | src/plex_sub_downloader/plexHelper.py:25-34 | a key without "/children" is fetched as it is; otherwise the key with every "/children" removed is fetched. A failed fetch gives None |
| PlexHelper.ChildrenKeyFetchesItem | src/plex_sub_downloader/plexHelper.py:25-34 | fetching a children key fetches the item itself; the downloader's `getVideoItem` (src/plex_sub_downloader/PlexSubDownloader.py:108-117) is the same lookup |
| PlexHelper.FindSession | src/plex_sub_downloader/plexHelper.py:36-42 | none exactly when no session has the event's user id and guid; otherwise the first session that does |
| PlexHelper.IntendedLookup | src/plex_sub_downloader/plexHelper.py:36-42 | with both sections present, the lookup gives `FindSession`'s session or no session. With no sessions it gives no session. A missing Account section raises |
| PlexHelper.PlexHelper.GetSessionForPlayEvent | src/plex_sub_downloader/plexHelper.py:36-42 | the loop with its early return computes `IntendedLookup` |
| PlexHelper.PlexHelper.GetSessionForPlayEventAsWritten | src/plex_sub_downloader/plexHelper.py:39 | as written, the lookup never finds a session: it raises as soon as there is one to compare |
| PlexHelper.SubscriptLosesEveryMatch | src/plex_sub_downloader/plexHelper.py:39 | whenever the event's session is among the sessions, the intended lookup finds it and the code as written raises |
| PlexHelper.PlexHelper.GetSubtitlesForSession | src/plex_sub_downloader/plexHelper.py:44-51 | none exactly when the session has no subtitle stream; otherwise the first in media, part, stream order |
| PlexHelper.FirstSubtitleOfMedia | src/plex_sub_downloader/plexHelper.py:46-51 | the outer loop finds the first subtitle stream of all media, and none exactly when there is none |
| PlexHelper.FirstSubtitleOfParts | src/plex_sub_downloader/plexHelper.py:47-50 | the middle loop finds the first subtitle stream of the parts |
| PlexHelper.FirstSubtitleOfStreams | src/plex_sub_downloader/plexHelper.py:48-50 | the inner loop finds the first stream that is a `SubtitleStream` |
| WebhookEvent.Lookup | src/plex_sub_downloader/PlexWebhookEvent.py:13-23 | `key in data` is false exactly when no field has the key; otherwise the value belongs to a field with that key |
| WebhookEvent.Iterate | src/plex_sub_downloader/PlexWebhookEvent.py:119 | a list's items are what `for` walks over; null, booleans and numbers cannot be iterated |
| WebhookEvent.MapAll | src/plex_sub_downloader/PlexWebhookEvent.py:116-121 | it succeeds exactly when every entry converts, giving one result per entry in order |
| WebhookEvent.ParseGuid | src/plex_sub_downloader/PlexWebhookEvent.py:103-110 | type and id are both set or both None. They are set exactly when the text splits on ":/" into two pieces, and then type + ":/" + id is the original text |
| WebhookEvent.ParseGuidOfParts | src/plex_sub_downloader/PlexWebhookEvent.py:103-110 | conversely, two pieces without ":/", joined around ":/", parse back into those pieces |
| WebhookEvent.ParseSchemeGuid | plex_sub_downloader/PlexWebhookEvent.py:105-110 | a guid such as "imdb://tt1" gives type "imdb" and id "/tt1"; the second slash stays with the id |
| WebhookEvent.GuidsOf | src/plex_sub_downloader/PlexWebhookEvent.py:116-121 | `createGuids` succeeds exactly when the value can be iterated and every entry converts; then it has one guid per entry, the i-th being the conversion of the i-th entry |
| WebhookEvent.PropsOf | src/plex_sub_downloader/PlexWebhookEvent.py:138-144 | `createProp` succeeds exactly when the value can be iterated and every entry converts; then it has one record per entry, the i-th being the conversion of the i-th entry |
| WebhookEvent.GuidEntry | src/plex_sub_downloader/PlexWebhookEvent.py:103-110 | `PlexGuid(d["id"])` succeeds exactly when the entry is an object whose "id" is a string (`src/plex_sub_downloader/PlexWebhookEvent.py:120`); the guid is that string's parse, and when its type is set, type + ":/" + id is the string |
| WebhookEvent.PropEntry | src/plex_sub_downloader/PlexWebhookEvent.py:126-132 | `PlexProp(d)` succeeds exactly for an object, and each of its six attributes is the entry's value for that name, or None when the entry lacks it |
| WebhookEvent.ParseAccount | src/plex_sub_downloader/PlexWebhookEvent.py:29-34 | an Account is built exactly from an object; id, thumb and title are its values for those names, or None when absent |
| WebhookEvent.ParsePlayer | src/plex_sub_downloader/PlexWebhookEvent.py:37-43 | a Player is built exactly from an object; local, publicAddress, title and uuid are its values for those names, or None when absent |
| WebhookEvent.ParseServer | src/plex_sub_downloader/PlexWebhookEvent.py:49-53 | a Server is built exactly from an object; title and uuid are its values for those names, or None when absent |
| WebhookEvent.AbsentDefaults | src/plex_sub_downloader/PlexWebhookEvent.py:61-94 | in any section, a key it lacks reads as None, and as an empty tag list and an empty guid list |
| WebhookEvent.AppendAll | src/plex_sub_downloader/PlexWebhookEvent.py:118-121 | the append loop computes `MapAll` |
| WebhookEvent.MapAllSnoc | src/plex_sub_downloader/PlexWebhookEvent.py:119-120 | one more entry appends its conversion at the end |
| WebhookEvent.MapAllFails | src/plex_sub_downloader/PlexWebhookEvent.py:119-120 | one entry that cannot be converted fails the whole list |
| WebhookEvent.CreateGuids | src/plex_sub_downloader/PlexWebhookEvent.py:116-121 | one guid per list entry, in order, each the conversion of its entry; the older copy of the file is identical |
| WebhookEvent.CreateProp | src/plex_sub_downloader/PlexWebhookEvent.py:138-144 | one record per list entry, in order, each the conversion of its entry |
| WebhookEvent.ParseMetadata | src/plex_sub_downloader/PlexWebhookEvent.py:61-94 | the record is built exactly when the section is an object whose tag lists and guid list convert. Every one of the 23 scalar attributes is the section's value for its name, or None when the section lacks it. Every tag list and the guid list is the conversion of the section's list, and empty when the section lacks it |
| WebhookEvent.Section | src/plex_sub_downloader/PlexWebhookEvent.py:13-23 | an absent section is None. A present one is built from its value, and the event fails when it cannot be |
| WebhookEvent.ParseEvent | src/plex_sub_downloader/PlexWebhookEvent.py:6-23 | `event` is required. Account, Player, Server and Metadata are each set exactly when the payload has the key; the older copy of the file is identical |
| WebhookEvent.BareEvent | src/plex_sub_downloader/PlexWebhookEvent.py:7-11 | a payload with only an event name gives an event with no sections |
| WebhookEvent.EmptyMetadata | src/plex_sub_downloader/PlexWebhookEvent.py:62-94 | in an empty Metadata section every scalar attribute is None and every tag list is empty |
| PlexMedia.PartSubtitles | src/plex_sub_downloader/plexHelper.py:48-50 | a part's subtitle streams are at most its streams |
| SubliminalHelper.NewHelper | src/plex_sub_downloader/subliminalHelper.py:25-47 | the languages are those given, as a set. With no provider list, the providers are the configured names when there are configurations, and none otherwise. The older constructor (plex_sub_downloader/subliminalHelper.py:21-30) does the same |
| SubliminalHelper.FormatShape | src/plex_sub_downloader/subliminalHelper.py:209-212 | the format holds no dot. It is empty when the file name has no suffix, and otherwise is the suffix without its dot |
| SubliminalHelper.FormatOfExtension | src/plex_sub_downloader/subliminalHelper.py:209-212 | a file name `stem.ext` has format `ext` |
| SubliminalHelper.FormatPriority | src/plex_sub_downloader/subliminalHelper.py:214-225 | 0 with no priority list, -1 for a format not on it, and otherwise a value in 1..len |
| SubliminalHelper.EarlierFormatRanksHigher | src/plex_sub_downloader/subliminalHelper.py:225 | on listed formats, a higher priority means an earlier place in the list (both directions), and equal priority means the same format |
| SubliminalHelper.FilterSubtitles | src/plex_sub_downloader/subliminalHelper.py:98-110 | the identity with no list; otherwise an order-preserving subsequence that holds only allowed formats |
| SubliminalHelper.FilterKeepsAllowed | src/plex_sub_downloader/subliminalHelper.py:107-108 | every subtitle with an allowed format is kept |
| SubliminalHelper.DecoratedRanking | src/plex_sub_downloader/subliminalHelper.py:88-91 | sorting the decorated list on component 0 and then component 1, then undecorating, ranks the subtitles by score and then by priority |
| SubliminalHelper.BestSubtitle | src/plex_sub_downloader/subliminalHelper.py:80-96 | none exactly when no subtitle passes the filter; otherwise a subtitle that passes it |
| SubliminalHelper.SelectBestSubtitle | src/plex_sub_downloader/subliminalHelper.py:80-96 | filter, decorate, two stable descending sorts, undecorate and head give `BestSubtitle` |
| SubliminalHelper.BestIsLexicographicMax | src/plex_sub_downloader/subliminalHelper.py:88-93 | the pick has the highest format priority and, among those, the highest score. Among exact ties it is the earliest allowed subtitle |
| SubliminalHelper.BestIsHead | src/plex_sub_downloader/subliminalHelper.py:88-96 | the pick is the head of the two-stage sort |
| SubliminalHelper.BestBound | src/plex_sub_downloader/subliminalHelper.py:89-90 | no allowed subtitle beats the pick on (priority, score) |
| SubliminalHelper.BestEarliest | src/plex_sub_downloader/subliminalHelper.py:89-91 | no allowed subtitle before the pick has both its priority and its score |
| SubliminalHelper.PriorityDominates | src/plex_sub_downloader/subliminalHelper.py:89-90 | a subtitle in a later-listed format is never picked while one in an earlier-listed format is present, whatever the scores |
| SubliminalHelper.Videos | src/plex_sub_downloader/subliminalHelper.py:71 | the videos of a listing, in order |
| SubliminalHelper.SearchVideos | src/plex_sub_downloader/subliminalHelper.py:65-77 | the loop of `_search_videos` builds `Collect` with the best-subtitle pick |
| SubliminalHelper.CollectPrefixStep | src/plex_sub_downloader/subliminalHelper.py:71-74 | one more listed video adds one entry exactly when it has a pick |
| SubliminalHelper.CollectEntries | src/plex_sub_downloader/subliminalHelper.py:71-74 | every entry maps a listed video to a one-element list holding the pick from its own subtitles; no video gets more than one subtitle |
| SubliminalHelper.CollectComplete | src/plex_sub_downloader/subliminalHelper.py:72-74 | every video with a pick is in the result, with that pick |
| SubliminalHelper.CollectOrder | src/plex_sub_downloader/subliminalHelper.py:71-74 | the result lists its videos in the listing's order |
| SubliminalHelper.NoPickMeansOmitted | src/plex_sub_downloader/subliminalHelper.py:73-74 | a video without a pick is left out |
| SubliminalHelper.FirstImdbGuid | src/plex_sub_downloader/subliminalHelper.py:182-186 | the position of the first guid that splits on "://" into ["imdb", x]; no guid before it does |
| SubliminalHelper.ImdbIdOf | src/plex_sub_downloader/subliminalHelper.py:182-186 | no id exactly when no guid is an imdb guid; otherwise the id of the first imdb guid with "tt" removed |
| SubliminalHelper.FindImdbId | src/plex_sub_downloader/subliminalHelper.py:182-186 | the guid loop with its `break` computes `ImdbIdOf`; the older loop (plex_sub_downloader/subliminalHelper.py:128-132) is the same search |
| SubliminalHelper.ImdbGuidNumber | src/plex_sub_downloader/subliminalHelper.py:183-185 | "imdb://tt" followed by a number gives that number |
| SubliminalHelper.Hashed | src/plex_sub_downloader/subliminalHelper.py:203-207 | hashes are set exactly for the configured providers that have a hash function; every other entry is unchanged |
| SubliminalHelper.HashedPrefixStep | src/plex_sub_downloader/subliminalHelper.py:204-206 | one more provider is one more turn of the loop |
| SubliminalHelper.SetVideoHashes | src/plex_sub_downloader/subliminalHelper.py:203-207 | the loop computes `Hashed` |
| SubliminalHelper.BuildSubliminalVideo | src/plex_sub_downloader/subliminalHelper.py:171-201 | the descriptor is named after the first part's file and is an episode exactly for episodes; a movie carries the imdb id list. Hashes are computed only above 10485760 bytes, for the configured hashable providers. It raises exactly on no part, a bad imdb id, an episode without numbers, or a large file with no provider list |
| SubliminalHelper.SaveSubtitle | src/plex_sub_downloader/subliminalHelper.py:122-144 | the subtitles, wrapped in a list when single, are saved to the destination or, without one, to the video file's directory. One path is reported per saved subtitle. The older `save_subtitle` (plex_sub_downloader/subliminalHelper.py:68-90) is the same |
| SubliminalHelper.JoinSavedPaths | src/plex_sub_downloader/subliminalHelper.py:140-143 | that loop gives, for each saved subtitle in order, `join(dir, basename(get_path))` |
| SubliminalHelper.SavedPathsLocation | src/plex_sub_downloader/subliminalHelper.py:140-143 | each reported path has the subtitle's file name as its base name, and the save directory as its directory |
| SubliminalHelper.SavedNextToVideo | src/plex_sub_downloader/subliminalHelper.py:130-133 | without a destination, the subtitles land in the video file's directory |
| SubliminalHelper.AllSavedPathsAppend | src/plex_sub_downloader/subliminalHelper.py:152-155 | the report for two batches of videos is the two reports one after the other |
| SubliminalHelper.SaveSubtitles | src/plex_sub_downloader/subliminalHelper.py:146-157 | the per-video reports are concatenated, in dict order; the older `save_subtitles` (plex_sub_downloader/subliminalHelper.py:92-103) is the same |
| SubliminalHelperOld.SeasonOfTitleNumber | plex_sub_downloader/subliminalHelper.py:137 | the season title "Season n" gives season n |
| SubliminalHelperOld.SeasonOfTitleWithoutNumber | plex_sub_downloader/subliminalHelper.py:137 | a title such as "Specials" makes `int()` fail |
| SubliminalHelperOld.BuildSubliminalVideoOld | plex_sub_downloader/subliminalHelper.py:117-144 | the season comes from the parent title and the episode number from `index`. Non-episodes become movies and no hashes are computed. It raises exactly on no part, a bad imdb id or an episode without numbers |
| SubliminalHelperOld.RevisionsAgreeOnEpisodes | plex_sub_downloader/subliminalHelper.py:134-141 | for a small episode file of "Season n" whose Plex numbers match, the two revisions build the same descriptor |
| DownloaderOld.OldLeavesOfOne | plex_sub_downloader/PlexSubDownloader.py:81-83 | a checked video is reported exactly when its check leaves a language over, and the configured list becomes what the check left |
| DownloaderOld.OldLeavesShrinks | plex_sub_downloader/PlexSubDownloader.py:102-109 | the configured list only ever loses elements across checks |
| DownloaderOld.OldScanShrinks | plex_sub_downloader/PlexSubDownloader.py:79-92 | after a whole scan, the configured list is a subsequence of what it was |
| DownloaderOld.OldLeavesAfterEmpty | plex_sub_downloader/PlexSubDownloader.py:111 | once the list is empty, every check answers True and no video is reported |
| DownloaderOld.OldScanAfterEmpty | plex_sub_downloader/PlexSubDownloader.py:79-92 | an emptied configuration reports nothing |
| DownloaderOld.FirstCheckAgrees | plex_sub_downloader/PlexSubDownloader.py:94-111 | the first check after configuring agrees with the current revision with no format list |
| DownloaderOld.SubtitledMovieCoversEnglish | plex_sub_downloader/PlexSubDownloader.py:106-109 | an English stream empties the list ["eng"] |
| DownloaderOld.BareMovieCoversNothing | plex_sub_downloader/PlexSubDownloader.py:106-109 | a movie without streams leaves the list as it is |
| DownloaderOld.OldScanOfMovie | plex_sub_downloader/PlexSubDownloader.py:81-83 | one movie is reported exactly when its check leaves a language over |
| DownloaderOld.CurrentReportsBareMovie | src/plex_sub_downloader/PlexSubDownloader.py:120-141 | the current revision reports the movie without subtitles |
| DownloaderOld.OldScanHidesBareMovie | plex_sub_downloader/PlexSubDownloader.py:102-109 | in the old revision the first movie empties the configured list, so the second is not reported |
| DownloaderOld.AliasingHidesMissingVideo | plex_sub_downloader/PlexSubDownloader.py:102-109 | for the same two movies, the old scan reports nothing and empties the configuration, while the current scan reports the movie that is missing English |
| DownloaderOld.OldEventOutcome | plex_sub_downloader/PlexSubDownloader.py:42-68 | only `library.new` leads to a download. A download is for a non-empty list and goes to Plex exactly for "metadata"; the configured list left over is a subsequence of the old one |
| DownloaderOld.PlexSubDownloaderOld.constructor | plex_sub_downloader/PlexSubDownloader.py:17-19 | a new downloader has no configuration and no helper |
| DownloaderOld.PlexSubDownloaderOld.Configure | plex_sub_downloader/PlexSubDownloader.py:21-39 | it stores the configuration, and the language list as the very list the checks will modify. It builds the helper with the configured languages. It fails with a KeyError on a missing destination, and answers False exactly for "with_media" when the libraries are not writable |
| DownloaderOld.PlexSubDownloaderOld.CheckVideoForSubtitles | plex_sub_downloader/PlexSubDownloader.py:94-111 | the configured list becomes what the video's codes leave of it, and the answer is True exactly when that is empty; nothing else changes |
| DownloaderOld.PlexSubDownloaderOld.RemoveCoveredCodes | plex_sub_downloader/PlexSubDownloader.py:106-109 | the loop removes one occurrence per stream code, with no format filter, from the configured list itself |
| DownloaderOld.PlexSubDownloaderOld.EpisodesMissingSubtitles | plex_sub_downloader/PlexSubDownloader.py:86-90 | the episodes are checked in turn, each against the list the previous checks left |
| DownloaderOld.PlexSubDownloaderOld.LeavesMissingSubtitles | plex_sub_downloader/PlexSubDownloader.py:81-90 | one turn of the outer loop checks the videos one item stands for, in order |
| DownloaderOld.PlexSubDownloaderOld.GetVidsMissingSubtitles | plex_sub_downloader/PlexSubDownloader.py:71-92 | the report and the new configured list are those of `OldScan` |
| DownloaderOld.PlexSubDownloaderOld.HandleWebhookEvent | plex_sub_downloader/PlexSubDownloader.py:42-68 | handling an event gives `OldEventOutcome`, and the configured list is the one the scan leaves |
| PyStr.Find | src/plex_sub_downloader/PlexWebhookEvent.py:105 | the index of the first occurrence of the separator, or -1 when there is none |
| PyStr.JoinSplit | src/plex_sub_downloader/PlexWebhookEvent.py:105-110 | joining the pieces of a split with the separator gives back the text |
| PyStr.SplitPiecesFree | src/plex_sub_downloader/PlexWebhookEvent.py:105 | no piece of a split contains the separator |
| PyStr.SplitFree | src/plex_sub_downloader/PlexWebhookEvent.py:105 | text without the separator splits into itself alone |
| PyStr.SplitTwo | src/plex_sub_downloader/PlexWebhookEvent.py:105-108 | for a separator whose first character does not occur again in it (`HeadUnique`, true of ":/"), `t + sep + u` with neither piece holding the separator splits into exactly [t, u] |
| PyStr.RemoveAll | src/plex_sub_downloader/plexHelper.py:26 | text without the pattern is unchanged by `replace(pattern, "")` |
| PyStr.RemoveAllAfterFree | src/plex_sub_downloader/plexHelper.py:26 | text before the first occurrence is kept and that occurrence is dropped |
| PyStr.RemoveAllPrefix | plex_sub_downloader/subliminalHelper.py:137 | a leading occurrence of the pattern is dropped |
| PyStr.RemoveLeadingDot | src/plex_sub_downloader/subliminalHelper.py:212 | removing every dot from "." + ext, with ext free of dots, gives ext |
| PyStr.RemoveAllLength | src/plex_sub_downloader/plexHelper.py:26 | `replace` shortens the text by the pattern's length for each occurrence it removes |
| PyStr.NatString | src/plex_sub_downloader/plexHelper.py:119 | `str(n)` of a natural number is a non-empty run of digits |
| PyStr.IntString | src/plex_sub_downloader/plexHelper.py:119 | `str(n)` starts with a minus or a digit |
| PyStr.NatStringValue | src/plex_sub_downloader/subliminalHelper.py:185 | the digits of `str(n)` have value n |
| PyStr.ParseIntString | src/plex_sub_downloader/subliminalHelper.py:185 | `int(str(n)) == n` |
| PyStr.NatStringHasNo | plex_sub_downloader/subliminalHelper.py:137 | the digits of a number hold no other character |
| PosixPath.BaseName | src/plex_sub_downloader/subliminalHelper.py:142 | the base name holds no slash and ends the path |
| PosixPath.DirName | src/plex_sub_downloader/subliminalHelper.py:133 | the directory name is a prefix of the path |
| PosixPath.BaseNameOfJoin | src/plex_sub_downloader/subliminalHelper.py:142 | joining a directory and a file name keeps the file name as the base name |
| PosixPath.DirNameOfJoin | src/plex_sub_downloader/subliminalHelper.py:142 | `dirname` gives back the directory that `join` was given |
| PosixPath.Suffix | src/plex_sub_downloader/subliminalHelper.py:212 | a suffix is empty, or a dot followed by at least one character that is neither a dot nor a slash |
| PosixPath.SuffixOfExtension | src/plex_sub_downloader/subliminalHelper.py:212 | `stem.ext` has the suffix `.ext` |
| StableSort.Insert | src/plex_sub_downloader/subliminalHelper.py:89-90 | insertion adds exactly the new element |
| StableSort.SortDesc | src/plex_sub_downloader/subliminalHelper.py:89-90 | the sort is a permutation of its input |
| StableSort.SortSorted | src/plex_sub_downloader/subliminalHelper.py:89-90 | the sort's output is in descending key order |
| StableSort.WhereSort | src/plex_sub_downloader/subliminalHelper.py:89-90 | stability: the elements of one class of a second key come out in the order the sort gives them alone |
| StableSort.SortKeyConstant | src/plex_sub_downloader/subliminalHelper.py:89-90 | stability: a list whose keys are all equal is left unchanged |
| StableSort.SortHead | src/plex_sub_downloader/subliminalHelper.py:93-96 | the sort's head has the largest key and is the first input element with that key |
| StableSort.LexHeadBound | src/plex_sub_downloader/subliminalHelper.py:89-90 | after sorting by k2 and then by k1, the head is maximal for k1 and, among those with its k1, for k2 |
| StableSort.LexHeadEarliest | src/plex_sub_downloader/subliminalHelper.py:89-91 | the head is the earliest input element with exactly its two keys |
| StableSort.LexHeadNotDominated | src/plex_sub_downloader/subliminalHelper.py:89-90 | an element the primary key ranks below some other element never comes first |
| StableSort.Map | src/plex_sub_downloader/subliminalHelper.py:91 | the comprehension keeps length and applies the function at each index |
| StableSort.SortMap | src/plex_sub_downloader/subliminalHelper.py:88-91 | sorting decorated elements by a key read off the decoration is sorting the plain elements by that key |
| Seqs.RemoveFirst | src/plex_sub_downloader/PlexSubDownloader.py:165-166 | `list.remove` of a member shortens the list by one. A non-member is left unchanged by the model; the source never passes one, since both call sites are guarded by `in` (src/plex_sub_downloader/PlexSubDownloader.py:165, plex_sub_downloader/PlexSubDownloader.py:108), and Python's `remove` would raise `ValueError` for it |
| Seqs.RemoveFirstMultiset | src/plex_sub_downloader/PlexSubDownloader.py:166 | exactly one occurrence is removed |
| Seqs.RemoveFirstShape | src/plex_sub_downloader/PlexSubDownloader.py:166 | the elements before the first occurrence stay in place, and those after it move up by one |
| Seqs.RemoveFirstSubsequence | src/plex_sub_downloader/PlexSubDownloader.py:166 | what `remove` leaves is a subsequence of the list |
| Seqs.IndexOf | src/plex_sub_downloader/subliminalHelper.py:225 | `list.index` is the first position holding the element |
| Seqs.IndexOfInjective | src/plex_sub_downloader/subliminalHelper.py:225 | two members have the same index exactly when they are equal |

## Left out

- I/O is not modelled: logging, the log messages, the dogpile cache set-up of subliminal, and the `PlexServer` connection itself.
- `checkLibraryPermissions`, in every file, checks the filesystem. Its answer is the `librariesWritable` parameter of `Configure`.
- `get_interface_ip` opens a socket. It is the parameter `interfaceIp`.
- `checkWebhookRegistration` and `addWebhookToPlex` need the Plex account over the network. Only the URL they compare is modelled.
- `downloadSubtitlesForVideos` (both revisions) and `search_videos` call subliminal. Its result enters as the listing given to `SearchVideos`.
- The current `downloadSubtitlesForVideos` passes two arguments to `search_videos`, which takes one. That call, and the list of missing languages it computes, are not modelled.
- The current `SubliminalHelper` is built without `languages`, so it falls back to ["eng"]. `Downloader.PlexSubDownloader.Configure` states exactly this.
- `search_video` and `search_sub_video` are single-video wrappers around subliminal, and `build_subliminal_videos` is a dict-building wrapper around `build_subliminal_video`. They are not modelled.
- `manuallyCheckVideoSubtitles` is `getVideoItem` followed by `handleDownloadingVideoSubtitles`, both modelled. It is not modelled itself.
- The old `uploadSubtitlesToMetadata` rebinds `subtitles` inside its own loop and has no restore step. It is not modelled.
- `SaveSubtitle`: the video argument is always a subliminal descriptor. A plexapi video, which the source converts with `build_subliminal_video` first, is not modelled.
- Exceptions are modelled as results, not as exceptions:
  - a failed `fetchItem` is `None` from `fetch`;
  - a failed `int()` is `None` from `ParseInt`;
  - a missing attribute or key is `None` from the parser, or a precondition where the source reads the key with `[]`.
- `PyStr.ParseInt` accepts the forms of `int()` that can occur here: an optional sign and decimal digits. It rejects surrounding whitespace, underscores and non-ASCII decimal digits (such as Arabic-Indic digits), all of which Python's `int()` accepts.
- JSON numbers are integers only. Floats are not modelled, and values are compared as decoded JSON values, so Python's `1 == 1.0 == True` (a session's user id against the webhook's account id) is not modelled.
- The configuration's `webhook_host` and `webhook_port` are an optional string and an optional integer. `config.schema.json`, which decides whether an explicit `null` may occur, is not part of this model. A `None` host in the model means the key is absent, so an explicit `null` host, which the source would turn into "http://None...", is not modelled. For the port, absent and `null` behave alike in the source and are both `None`.
- `PlexMedia.Item` and `PlexMedia.Session` keep only the attributes the core reads.
- Python set semantics for `languages` are modelled as membership.
- A listing's videos are identified by value; object identity in Python dicts is not modelled.
- The device playing a session is not modelled, and neither is what `session.user` is beyond its id.
- Play and resume events are not modelled: neither `handleWebhookEvent` acts on them (src/plex_sub_downloader/PlexSubDownloader.py:59-60; plex_sub_downloader/PlexSubDownloader.py:50).
- `_search_videos` keeps at most one subtitle per video (src/plex_sub_downloader/subliminalHelper.py:71-74). There is no per-language ranking and no cross-video matching, and the model has none either.
- `SubliminalHelper.NewHelper`: the source turns every configured code into a babelfish `Language`, which raises `ValueError` for a code it does not know (such as "en" or "xx"). This validation is not modelled: the model accepts every code.
- `DownloaderOld.PlexSubDownloaderOld.Configure`: its promise that it fails exactly when `subtitle_destination` is absent leaves out two more failures of the source: an unknown language code (as for `NewHelper`), and an absent `languages` key, for which the old `configure` iterates over `None` and raises `TypeError`. The model's configuration always has a `languages` list.
- The command-line entry points (`plex_sub_downloader.py` in both packages) and the logger module are not part of this model.

## Findings

| source | as written | input that shows it | evidently intended | confidence | as-written member | corrected member |
|---|---|---|---|---|---|---|
| plex_sub_downloader/PlexSubDownloader.py:102-109 | `languagesNotFound = self.config['languages']` aliases the configured list, and `remove` deletes covered codes from the configuration itself | languages ["eng"]; a scan of a movie with an English stream, then a movie without subtitles: the first check empties the configuration, so the second movie is not reported | check each video against the full requested list, on a copy, as the current revision does | not executed | DownloaderOld.AliasingHidesMissingVideo | Downloader.PlexSubDownloader.GetVidsMissingSubtitles |
| src/plex_sub_downloader/plexHelper.py:39 | `event.Account["id"]` and `event.Metadata["guid"]` subscript a `PlexAccount` and a `PlexMetadata` object (or None), which raises `TypeError` | any play event with at least one active session, including the session it was sent for | compare with the attributes `event.Account.id` and `event.Metadata.guid` and return the first matching session | not executed | PlexHelper.SubscriptLosesEveryMatch | PlexHelper.PlexHelper.GetSessionForPlayEvent |
