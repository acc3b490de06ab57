/**
 * `PlexHelper`: the lookups the downloader makes against the Plex server.
 * The server is left out: what it returns (`fetchItem` with its `reload`,
 * `sessions()`) and the interface-address lookup are parameters.
 */
module PlexHelper {
  import opened Wrappers
  import opened PyStr
  import opened PlexMedia
  import opened WebhookEvent
  import opened Endpoint

  /** `key.replace("/children", "")`: the metadata key of a show's or season's children names the item itself. */
  function NormaliseKey(key: string): (r: string)
    ensures !Contains(key, "/children") ==> r == key
    ensures |r| <= |key|
  {
    RemoveAllLength(key, "/children");
    RemoveAll(key, "/children")
  }

  /** `/library/metadata/45533/children` becomes `/library/metadata/45533`. */
  lemma NormaliseChildrenKey(k: string)
    requires !Contains(k, "/children")
    ensures NormaliseKey(k + "/children") == k
  {
    assert k + "/children" == k + "/children" + "";
    RemoveAllAfterFree(k, "/children", "");
  }

  /** `getVideoItem`: fetch (and reload) the item under the normalised key; `fetch` is None where plexapi raises, which the method turns into None. */
  function GetVideoItem(key: string, fetch: string -> Option<Item>): (r: Option<Item>)
    ensures !Contains(key, "/children") ==> r == fetch(key)
    ensures r == fetch(NormaliseKey(key))
  {
    fetch(NormaliseKey(key))
  }

  /** Asking for a show's children key fetches the show itself. */
  lemma ChildrenKeyFetchesItem(k: string, fetch: string -> Option<Item>)
    requires !Contains(k, "/children")
    ensures GetVideoItem(k + "/children", fetch) == GetVideoItem(k, fetch)
  {
    NormaliseChildrenKey(k);
  }

  // ---- sessions ------------------------------------------------------------

  /** What a session lookup gives: a session, none, or an exception. */
  datatype SessionLookup = Found(session: Session) | NoSession | Raised

  /** The session is the event's: same user id and same guid (compared as decoded JSON values; those hold integers only, so Python's `1 == 1.0 == True` is not modelled). */
  predicate SessionMatches(s: Session, accountId: Json, guid: Json) {
    JNum(s.userId) == accountId && JStr(s.guid) == guid
  }

  /** The first session matching the account id and guid. */
  function FindSession(sessions: seq<Session>, accountId: Json, guid: Json): (r: Option<Session>)
    ensures r.None? <==> forall i :: 0 <= i < |sessions| ==> !SessionMatches(sessions[i], accountId, guid)
    ensures r.Some? ==> exists i :: (0 <= i < |sessions| && sessions[i] == r.value && SessionMatches(r.value, accountId, guid) &&
      forall j :: 0 <= j < i ==> !SessionMatches(sessions[j], accountId, guid))
  {
    if sessions == [] then None
    else if SessionMatches(sessions[0], accountId, guid) then Some(sessions[0])
    else
      var r := FindSession(sessions[1..], accountId, guid);
      assert forall i :: 1 <= i < |sessions| ==> sessions[i] == sessions[1..][i - 1];
      if r.Some? then
        var i :| 0 <= i < |sessions[1..]| && sessions[1..][i] == r.value && SessionMatches(r.value, accountId, guid) &&
          forall j :: 0 <= j < i ==> !SessionMatches(sessions[1..][j], accountId, guid);
        assert sessions[i + 1] == r.value && forall j :: 0 <= j < i + 1 ==> !SessionMatches(sessions[j], accountId, guid);
        r
      else r
  }

  /**
   * The lookup `getSessionForPlayEvent` evidently means, reading the event's
   * attributes `Account.id` and `Metadata.guid`: a missing section raises when
   * the comparison reaches it, and otherwise the first matching session is found.
   */
  function IntendedLookup(sessions: seq<Session>, event: Event): (r: SessionLookup)
    ensures sessions == [] ==> r == NoSession
    ensures sessions != [] && event.account.None? ==> r == Raised
    ensures event.account.Some? && event.metadata.Some? ==>
      r == (var f := FindSession(sessions, event.account.value.id, event.metadata.value.guid);
            if f.Some? then Found(f.value) else NoSession)
  {
    if sessions == [] then NoSession
    else
      var s := sessions[0];
      if event.account.None? then Raised
      else if JNum(s.userId) != event.account.value.id then IntendedLookup(sessions[1..], event)
      else if event.metadata.None? then Raised
      else if JStr(s.guid) == event.metadata.value.guid then Found(s)
      else IntendedLookup(sessions[1..], event)
  }

  /** What `getSessionForPlayEvent` does as written: the first comparison subscripts a `PlexAccount` (or None), which raises `TypeError`. */
  function AsWrittenLookup(sessions: seq<Session>): SessionLookup
  {
    if sessions == [] then NoSession else Raised
  }

  /** Whenever the event's session is among the sessions, the intended lookup finds it and the code as written raises instead. */
  lemma SubscriptLosesEveryMatch(sessions: seq<Session>, event: Event, i: int)
    requires event.account.Some? && event.metadata.Some?
    requires 0 <= i < |sessions| && SessionMatches(sessions[i], event.account.value.id, event.metadata.value.guid)
    ensures IntendedLookup(sessions, event).Found?
    ensures AsWrittenLookup(sessions) == Raised
  {
  }

  /** The helper; `host` defaults to "0.0.0.0" and `port` to None in the source's constructor. */
  class PlexHelper {
    const host: string
    const port: Option<int>

    constructor(host: string, port: Option<int>)
      ensures this.host == host && this.port == port
    {
      this.host := host;
      this.port := port;
    }

    /** `getSessionForPlayEvent` as written. */
    method GetSessionForPlayEventAsWritten(sessions: seq<Session>, event: Event) returns (r: SessionLookup)
      ensures r == AsWrittenLookup(sessions)
      ensures !r.Found?
    {
      if |sessions| > 0 {
        // the loop's first comparison, `event.Account["id"]`, subscripts an object (or None)
        return Raised;
      }
      return NoSession;
    }

    /** `getSessionForPlayEvent` with the attributes read as attributes: the first session of the event's user playing the event's item. */
    method GetSessionForPlayEvent(sessions: seq<Session>, event: Event) returns (r: SessionLookup)
      ensures r == IntendedLookup(sessions, event)
    {
      var i := 0;
      while i < |sessions|
        invariant 0 <= i <= |sessions|
        invariant IntendedLookup(sessions[i..], event) == IntendedLookup(sessions, event)
      {
        assert sessions[i..][1..] == sessions[i + 1..];
        var session := sessions[i];
        if event.account.None? {
          return Raised;
        }
        if JNum(session.userId) == event.account.value.id {
          if event.metadata.None? {
            return Raised;
          }
          if JStr(session.guid) == event.metadata.value.guid {
            return Found(session);
          }
        }
        i := i + 1;
      }
      return NoSession;
    }

    /** `getSubtitlesForSession`: the first subtitle stream in media, part, stream order. */
    method GetSubtitlesForSession(session: Session) returns (r: Option<SubtitleStream>)
      ensures r.None? <==> SubtitleStreams(session.media) == []
      ensures r.Some? ==> r.value == SubtitleStreams(session.media)[0]
    {
      r := FirstSubtitleOfMedia(session.media);
    }

    /** `getExternalHost` with the stored host. */
    function GetExternalHost(interfaceIp: Family -> string): (r: string)
      ensures host == "0.0.0.0" ==> r == interfaceIp(IPv4)
      ensures host == "::" ==> r == interfaceIp(IPv6)
      ensures host != "0.0.0.0" && host != "::" ==> r == host
    {
      ExternalHost(host, interfaceIp)
    }

    /** `getWebhookUrl`: the external host and the stored port, the port written as "None" when there is none. */
    function GetWebhookUrl(interfaceIp: Family -> string): (r: string)
      ensures |r| >= 15 && r[..7] == "http://" && r[|r| - 8..] == "/webhook"
      ensures r[7..|r| - 8] == GetExternalHost(interfaceIp) + PortText(port)
      ensures port.None? ==> r == "http://" + GetExternalHost(interfaceIp) + "None/webhook"
    {
      WebhookUrlWithoutPort(GetExternalHost(interfaceIp));
      WebhookUrl(GetExternalHost(interfaceIp), port)
    }
  }

  /** The outer loop of `getSubtitlesForSession`, over the media of the session. */
  method FirstSubtitleOfMedia(media: seq<Media>) returns (r: Option<SubtitleStream>)
    ensures r.None? <==> SubtitleStreams(media) == []
    ensures r.Some? ==> r.value == SubtitleStreams(media)[0]
  {
    var i := 0;
    assert media[..0] == [];
    while i < |media|
      invariant 0 <= i <= |media|
      invariant SubtitleStreams(media[..i]) == []
    {
      r := FirstSubtitleOfParts(media[i].parts);
      SubtitleStreamsPrefixStep(media, i);
      if r.Some? {
        SubtitleStreamsSplit(media, i + 1);
        return;
      }
      i := i + 1;
    }
    assert media[..i] == media;
    return None;
  }

  /** The loop over the parts of one media: the first subtitle stream of its parts. */
  method FirstSubtitleOfParts(parts: seq<Part>) returns (r: Option<SubtitleStream>)
    ensures r.None? <==> PartsSubtitles(parts) == []
    ensures r.Some? ==> r.value == PartsSubtitles(parts)[0]
  {
    var j := 0;
    assert parts[..0] == [];
    while j < |parts|
      invariant 0 <= j <= |parts|
      invariant PartsSubtitles(parts[..j]) == []
    {
      r := FirstSubtitleOfStreams(parts[j].streams);
      PartsSubtitlesPrefixStep(parts, j);
      if r.Some? {
        PartsSubtitlesSplit(parts, j + 1);
        return;
      }
      j := j + 1;
    }
    assert parts[..j] == parts;
    return None;
  }

  /** The loop over the streams of one part: the first that is a `SubtitleStream`. */
  method FirstSubtitleOfStreams(streams: seq<Stream>) returns (r: Option<SubtitleStream>)
    ensures r.None? <==> PartSubtitles(streams) == []
    ensures r.Some? ==> r.value == PartSubtitles(streams)[0]
  {
    var k := 0;
    assert streams[..0] == [];
    while k < |streams|
      invariant 0 <= k <= |streams|
      invariant PartSubtitles(streams[..k]) == []
    {
      PartSubtitlesPrefixStep(streams, k);
      if streams[k].SubtitleTrack? {
        PartSubtitlesSplit(streams, k + 1);
        return Some(streams[k].sub);
      }
      k := k + 1;
    }
    assert streams[..k] == streams;
    return None;
  }
}
