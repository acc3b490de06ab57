/**
 * The webhook payload Plex posts, and the records the downloader builds from
 * it: the event name, and the Account, Player, Server and Metadata sections,
 * each present only when the payload has it. The two revisions of the
 * repository carry the same file, so this one model serves both.
 *
 * A Python failure while building a record (a missing `event` key, a section
 * that is not an object, a `Guid` entry without an `id`) yields `None`.
 */
module WebhookEvent {
  import opened Wrappers
  import opened PyStr

  /** A decoded JSON value. Objects keep their keys in payload order; numbers are integers. */
  datatype Json = JNull | JBool(b: bool) | JNum(n: int) | JStr(s: string) | JArr(items: seq<Json>) | JObj(fields: seq<(string, Json)>)

  /** `key in data` and `data[key]`: the value of the last occurrence of `key`, as the JSON decoder keeps it. */
  function Lookup(fields: seq<(string, Json)>, key: string): (r: Option<Json>)
    ensures r.None? <==> forall i :: 0 <= i < |fields| ==> fields[i].0 != key
    ensures r.Some? ==> exists i :: 0 <= i < |fields| && fields[i] == (key, r.value)
    decreases |fields|
  {
    if fields == [] then None
    else if fields[|fields| - 1].0 == key then Some(fields[|fields| - 1].1)
    else
      var r := Lookup(fields[..|fields| - 1], key);
      assert forall i :: 0 <= i < |fields| - 1 ==> fields[..|fields| - 1][i] == fields[i];
      r
  }

  /** `data.get(key, None)`. */
  function Get(fields: seq<(string, Json)>, key: string): Json
  {
    match Lookup(fields, key)
    case None => JNull
    case Some(v) => v
  }

  /** `data.get(key, [])`. */
  function GetList(fields: seq<(string, Json)>, key: string): Json
  {
    match Lookup(fields, key)
    case None => JArr([])
    case Some(v) => v
  }

  /** `v` is what `data.get(key, default)` gives: the payload's value for `key` when it has the key, and `default` when it does not. */
  predicate ReadOr(fields: seq<(string, Json)>, key: string, v: Json, default: Json) {
    (Lookup(fields, key).Some? ==> v == Lookup(fields, key).value) && (Lookup(fields, key).None? ==> v == default)
  }

  /** What `for d in value` walks over: a list's items, an object's keys, a string's characters; other values cannot be iterated. */
  function Iterate(value: Json): (r: Option<seq<Json>>)
    ensures value.JArr? ==> r == Some(value.items)
    ensures value.JNull? || value.JBool? || value.JNum? ==> r.None?
  {
    match value
    case JArr(items) => Some(items)
    case JObj(fields) => Some(seq(|fields|, i requires 0 <= i < |fields| => JStr(fields[i].0)))
    case JStr(s) => Some(seq(|s|, i requires 0 <= i < |s| => JStr([s[i]])))
    case _ => None
  }

  /** Applies `f` to every item, in order; fails as soon as one item fails. */
  function MapAll<A, B>(items: seq<A>, f: A -> Option<B>): (r: Option<seq<B>>)
    ensures r.Some? <==> forall i :: 0 <= i < |items| ==> f(items[i]).Some?
    ensures r.Some? ==> |r.value| == |items| && forall i :: 0 <= i < |items| ==> f(items[i]) == Some(r.value[i])
  {
    if items == [] then Some([])
    else
      match f(items[0])
      case None => None
      case Some(b) =>
        match MapAll(items[1..], f)
        case None =>
          assert forall i :: 1 <= i < |items| ==> items[1..][i - 1] == items[i];
          None
        case Some(bs) =>
          assert forall i :: 1 <= i < |items| ==> items[1..][i - 1] == items[i];
          Some([b] + bs)
  }

  // ---- records -------------------------------------------------------------

  datatype Account = Account(id: Json, thumb: Json, title: Json)
  datatype Player = Player(local: Json, publicAddress: Json, title: Json, uuid: Json)
  datatype Server = Server(title: Json, uuid: Json)
  datatype Prop = Prop(id: Json, filter: Json, tag: Json, count: Json, role: Json, thumb: Json)

  /** A `PlexGuid`: the text before and after `:/` in the guid string, or neither. */
  datatype Guid = Guid(kind: Option<string>, id: Option<string>)

  datatype Metadata = Metadata(
    librarySectionType: Json, ratingKey: Json, key: Json, guid: Json, studio: Json,
    kind: Json, title: Json, librarySectionTitle: Json, librarySectionID: Json,
    librarySectionKey: Json, contentRating: Json, summary: Json, audienceRating: Json,
    year: Json, tagline: Json, thumb: Json, art: Json, duration: Json,
    originallyAvailableAt: Json, addedAt: Json, updatedAt: Json,
    audienceRatingImage: Json, primaryExtraKey: Json,
    genre: seq<Prop>, director: seq<Prop>, writer: seq<Prop>, producer: seq<Prop>,
    country: seq<Prop>, rating: seq<Prop>, role: seq<Prop>,
    guids: seq<Guid>)

  datatype Event = Event(event: Json, account: Option<Account>, player: Option<Player>, server: Option<Server>, metadata: Option<Metadata>)

  /** `PlexGuid(id)`: split on ":/"; exactly two pieces give the type and the id, anything else gives neither. */
  function ParseGuid(id: string): (r: Guid)
    ensures r.kind.Some? <==> r.id.Some?
    ensures r.kind.Some? <==> |Split(id, ":/")| == 2
    ensures r.kind.Some? ==> r.kind.value + ":/" + r.id.value == id
  {
    var parts := Split(id, ":/");
    if |parts| == 2 then
      JoinSplit(id, ":/");
      assert parts[1..] == [parts[1]];
      Guid(Some(parts[0]), Some(parts[1]))
    else Guid(None, None)
  }

  /** Conversely, text joined around one ":/" from two pieces without ":/" parses back into those pieces. */
  lemma ParseGuidOfParts(kind: string, id: string)
    requires !Contains(kind, ":/") && !Contains(id, ":/")
    ensures ParseGuid(kind + ":/" + id) == Guid(Some(kind), Some(id))
  {
    SplitTwo(kind, ":/", id);
  }

  /** A `scheme://rest` guid, as Plex writes them, yields the scheme and `/rest`: the second slash stays with the id. */
  lemma ParseSchemeGuid(scheme: string, rest: string)
    requires ':' !in scheme && ':' !in rest
    ensures ParseGuid(scheme + "://" + rest) == Guid(Some(scheme), Some("/" + rest))
  {
    NotContainsWithoutHead(scheme, ":/");
    NotContainsWithoutHead("/" + rest, ":/");
    assert scheme + "://" + rest == scheme + ":/" + ("/" + rest);
    ParseGuidOfParts(scheme, "/" + rest);
  }

  /** One entry of `Guid`: `PlexGuid(d["id"])`, which needs an object with a string `id`. */
  function GuidEntry(d: Json): (r: Option<Guid>)
    ensures r.Some? <==> d.JObj? && Lookup(d.fields, "id").Some? && Lookup(d.fields, "id").value.JStr?
    ensures r.Some? ==> r.value == ParseGuid(Lookup(d.fields, "id").value.s)
    ensures r.Some? && r.value.kind.Some? ==> r.value.kind.value + ":/" + r.value.id.value == Lookup(d.fields, "id").value.s
  {
    if d.JObj? then
      match Lookup(d.fields, "id")
      case Some(JStr(s)) => Some(ParseGuid(s))
      case _ => None
    else None
  }

  /** One entry of a tag list such as `Genre`: `PlexProp(d)`, which needs an object. */
  function PropEntry(d: Json): (r: Option<Prop>)
    ensures r.Some? <==> d.JObj?
    ensures r.Some? ==> PropReads(d.fields, r.value)
  {
    if d.JObj? then
      var f := d.fields;
      Some(Prop(Get(f, "id"), Get(f, "filter"), Get(f, "tag"), Get(f, "count"), Get(f, "role"), Get(f, "thumb")))
    else None
  }

  /** Each attribute of a `PlexProp` is `data.get(name, None)`. */
  predicate PropReads(f: seq<(string, Json)>, p: Prop) {
    ReadOr(f, "id", p.id, JNull) && ReadOr(f, "filter", p.filter, JNull) && ReadOr(f, "tag", p.tag, JNull) &&
    ReadOr(f, "count", p.count, JNull) && ReadOr(f, "role", p.role, JNull) && ReadOr(f, "thumb", p.thumb, JNull)
  }

  /** `PlexGuid.createGuids(data)`: one guid per entry, in order. */
  function GuidsOf(data: Json): (r: Option<seq<Guid>>)
    ensures r.Some? <==> Iterate(data).Some? && forall i :: 0 <= i < |Iterate(data).value| ==> GuidEntry(Iterate(data).value[i]).Some?
    ensures r.Some? ==> (|r.value| == |Iterate(data).value| &&
      forall i :: 0 <= i < |r.value| ==> GuidEntry(Iterate(data).value[i]) == Some(r.value[i]))
  {
    match Iterate(data)
    case None => None
    case Some(items) => MapAll(items, GuidEntry)
  }

  /** `PlexProp.createProp(arr)`: one record per entry, in order. */
  function PropsOf(arr: Json): (r: Option<seq<Prop>>)
    ensures r.Some? <==> Iterate(arr).Some? && forall i :: 0 <= i < |Iterate(arr).value| ==> PropEntry(Iterate(arr).value[i]).Some?
    ensures r.Some? ==> (|r.value| == |Iterate(arr).value| &&
      forall i :: 0 <= i < |r.value| ==> PropEntry(Iterate(arr).value[i]) == Some(r.value[i]))
  {
    match Iterate(arr)
    case None => None
    case Some(items) => MapAll(items, PropEntry)
  }

  /** The append loop shared by `createGuids` and `createProp`: `f` applied to each entry in turn, stopping at the first failure. */
  method AppendAll<A, B>(items: seq<A>, f: A -> Option<B>) returns (r: Option<seq<B>>)
    ensures r == MapAll(items, f)
  {
    var out: seq<B> := [];
    var i := 0;
    assert items[..0] == [];
    while i < |items|
      invariant 0 <= i <= |items|
      invariant MapAll(items[..i], f) == Some(out)
    {
      var y := f(items[i]);
      if y.None? {
        MapAllFails(items, f, i);
        return None;
      }
      MapAllSnoc(items[..i], items[i], f);
      assert items[..i + 1] == items[..i] + [items[i]];
      assert MapAll(items[..i + 1], f) == Some(out + [y.value]);
      out := out + [y.value];
      i := i + 1;
    }
    assert items[..i] == items;
    r := Some(out);
  }

  /** `createGuids`: one guid per entry, in order. */
  method CreateGuids(data: Json) returns (r: Option<seq<Guid>>)
    ensures r == GuidsOf(data)
    ensures data.JArr? && r.Some? ==> (|r.value| == |data.items|
                && forall i :: 0 <= i < |data.items| ==> GuidEntry(data.items[i]) == Some(r.value[i]))
  {
    var items := Iterate(data);
    if items.None? {
      return None;
    }
    r := AppendAll(items.value, GuidEntry);
  }

  /** `createProp`: one record per entry, in order. */
  method CreateProp(arr: Json) returns (r: Option<seq<Prop>>)
    ensures r == PropsOf(arr)
    ensures arr.JArr? && r.Some? ==> (|r.value| == |arr.items|
                && forall i :: 0 <= i < |arr.items| ==> PropEntry(arr.items[i]) == Some(r.value[i]))
  {
    var items := Iterate(arr);
    if items.None? {
      return None;
    }
    r := AppendAll(items.value, PropEntry);
  }

  lemma {:induction false} MapAllSnoc<A, B>(items: seq<A>, x: A, f: A -> Option<B>)
    requires MapAll(items, f).Some? && f(x).Some?
    ensures MapAll(items + [x], f) == Some(MapAll(items, f).value + [f(x).value])
  {
    var all := items + [x];
    var r := MapAll(all, f);
    assert forall i :: 0 <= i < |all| ==> f(all[i]).Some? by {
      forall i | 0 <= i < |all| ensures f(all[i]).Some? {
        if i < |items| {
          assert all[i] == items[i];
        }
      }
    }
    var want := MapAll(items, f).value + [f(x).value];
    assert |r.value| == |want|;
    forall i | 0 <= i < |all| ensures r.value[i] == want[i] {
      if i < |items| {
        assert all[i] == items[i];
      }
    }
    assert r.value == want;
  }

  lemma MapAllFails<A, B>(items: seq<A>, f: A -> Option<B>, i: int)
    requires 0 <= i < |items| && f(items[i]).None?
    ensures MapAll(items, f).None?
  {
  }

  // ---- sections and the event -----------------------------------------------

  /** `PlexAccount(data)`: each attribute read with `.get(name, None)`. */
  function ParseAccount(data: Json): (r: Option<Account>)
    ensures r.Some? <==> data.JObj?
    ensures r.Some? ==> ReadOr(data.fields, "id", r.value.id, JNull) && ReadOr(data.fields, "thumb", r.value.thumb, JNull)
                        && ReadOr(data.fields, "title", r.value.title, JNull)
  {
    if data.JObj? then Some(Account(Get(data.fields, "id"), Get(data.fields, "thumb"), Get(data.fields, "title")))
    else None
  }

  /** `PlexPlayer(data)`: each attribute read with `.get(name, None)`. */
  function ParsePlayer(data: Json): (r: Option<Player>)
    ensures r.Some? <==> data.JObj?
    ensures r.Some? ==> ReadOr(data.fields, "local", r.value.local, JNull) && ReadOr(data.fields, "publicAddress", r.value.publicAddress, JNull)
                        && ReadOr(data.fields, "title", r.value.title, JNull) && ReadOr(data.fields, "uuid", r.value.uuid, JNull)
  {
    if data.JObj? then
      var f := data.fields;
      Some(Player(Get(f, "local"), Get(f, "publicAddress"), Get(f, "title"), Get(f, "uuid")))
    else None
  }

  /** `PlexServer(data)`: each attribute read with `.get(name, None)`. */
  function ParseServer(data: Json): (r: Option<Server>)
    ensures r.Some? <==> data.JObj?
    ensures r.Some? ==> ReadOr(data.fields, "title", r.value.title, JNull) && ReadOr(data.fields, "uuid", r.value.uuid, JNull)
  {
    if data.JObj? then Some(Server(Get(data.fields, "title"), Get(data.fields, "uuid"))) else None
  }

  /** A key the payload lacks reads as `None`, and as an empty list of tags or guids. */
  lemma AbsentDefaults(fields: seq<(string, Json)>, key: string)
    requires Lookup(fields, key).None?
    ensures Get(fields, key) == JNull && GetList(fields, key) == JArr([])
    ensures PropsOf(GetList(fields, key)) == Some([]) && GuidsOf(GetList(fields, key)) == Some([])
  {
  }

  /** A tag list of a `PlexMetadata`: `createProp(data.get(name, []))`, empty when the payload has no such key. */
  predicate TagsRead(f: seq<(string, Json)>, key: string, tags: seq<Prop>) {
    PropsOf(GetList(f, key)) == Some(tags) && (Lookup(f, key).None? ==> tags == [])
  }

  /** Every attribute of a `PlexMetadata` as its constructor reads it from the section's fields `f`. */
  predicate MetadataReads(f: seq<(string, Json)>, m: Metadata) {
    ScalarsRead(f, m) && ListsRead(f, m)
  }

  /** The scalar attributes of a `PlexMetadata`, each `data.get(name, None)`. */
  predicate ScalarsRead(f: seq<(string, Json)>, m: Metadata) {
    ReadOr(f, "librarySectionType", m.librarySectionType, JNull) && ReadOr(f, "ratingKey", m.ratingKey, JNull) &&
    ReadOr(f, "key", m.key, JNull) && ReadOr(f, "guid", m.guid, JNull) && ReadOr(f, "studio", m.studio, JNull) &&
    ReadOr(f, "type", m.kind, JNull) && ReadOr(f, "title", m.title, JNull) &&
    ReadOr(f, "librarySectionTitle", m.librarySectionTitle, JNull) && ReadOr(f, "librarySectionID", m.librarySectionID, JNull) &&
    ReadOr(f, "librarySectionKey", m.librarySectionKey, JNull) && ReadOr(f, "contentRating", m.contentRating, JNull) &&
    ReadOr(f, "summary", m.summary, JNull) && ReadOr(f, "audienceRating", m.audienceRating, JNull) &&
    ReadOr(f, "year", m.year, JNull) && ReadOr(f, "tagline", m.tagline, JNull) && ReadOr(f, "thumb", m.thumb, JNull) &&
    ReadOr(f, "art", m.art, JNull) && ReadOr(f, "duration", m.duration, JNull) &&
    ReadOr(f, "originallyAvailableAt", m.originallyAvailableAt, JNull) && ReadOr(f, "addedAt", m.addedAt, JNull) &&
    ReadOr(f, "updatedAt", m.updatedAt, JNull) && ReadOr(f, "audienceRatingImage", m.audienceRatingImage, JNull) &&
    ReadOr(f, "primaryExtraKey", m.primaryExtraKey, JNull)
  }

  /** The tag and guid lists of a `PlexMetadata`. */
  predicate ListsRead(f: seq<(string, Json)>, m: Metadata) {
    TagsRead(f, "Genre", m.genre) && TagsRead(f, "Director", m.director) && TagsRead(f, "Writer", m.writer) &&
    TagsRead(f, "Producer", m.producer) && TagsRead(f, "Country", m.country) && TagsRead(f, "Rating", m.rating) &&
    TagsRead(f, "Role", m.role) &&
    GuidsOf(GetList(f, "Guid")) == Some(m.guids) && (Lookup(f, "Guid").None? ==> m.guids == [])
  }

  /** One tag list of a metadata section. */
  function TagList(f: seq<(string, Json)>, key: string): (r: Option<seq<Prop>>)
    ensures r == PropsOf(GetList(f, key))
    ensures r.Some? ==> TagsRead(f, key, r.value)
  {
    PropsOf(GetList(f, key))
  }

  /** The guid list of a metadata section. */
  function GuidList(f: seq<(string, Json)>): (r: Option<seq<Guid>>)
    ensures r == GuidsOf(GetList(f, "Guid"))
    ensures r.Some? ==> Lookup(f, "Guid").None? ==> r.value == []
  {
    GuidsOf(GetList(f, "Guid"))
  }

  /** A `PlexMetadata` whose scalars are read from `f`, with the given lists. */
  function MetadataOf(f: seq<(string, Json)>, genre: seq<Prop>, director: seq<Prop>, writer: seq<Prop>, producer: seq<Prop>,
                      country: seq<Prop>, rating: seq<Prop>, role: seq<Prop>, guids: seq<Guid>): (m: Metadata)
    ensures ScalarsRead(f, m)
    ensures m.genre == genre && m.director == director && m.writer == writer && m.producer == producer
    ensures m.country == country && m.rating == rating && m.role == role && m.guids == guids
  {
    Metadata(
      Get(f, "librarySectionType"), Get(f, "ratingKey"), Get(f, "key"), Get(f, "guid"), Get(f, "studio"),
      Get(f, "type"), Get(f, "title"), Get(f, "librarySectionTitle"), Get(f, "librarySectionID"),
      Get(f, "librarySectionKey"), Get(f, "contentRating"), Get(f, "summary"), Get(f, "audienceRating"),
      Get(f, "year"), Get(f, "tagline"), Get(f, "thumb"), Get(f, "art"), Get(f, "duration"),
      Get(f, "originallyAvailableAt"), Get(f, "addedAt"), Get(f, "updatedAt"),
      Get(f, "audienceRatingImage"), Get(f, "primaryExtraKey"),
      genre, director, writer, producer, country, rating, role, guids)
  }

  /** `PlexMetadata(data)`: every scalar attribute read with `.get(..., None)`, every tag list with `.get(..., [])`. */
  function ParseMetadata(data: Json): (r: Option<Metadata>)
    ensures r.Some? <==> (data.JObj?
      && PropsOf(GetList(data.fields, "Genre")).Some? && PropsOf(GetList(data.fields, "Director")).Some?
      && PropsOf(GetList(data.fields, "Writer")).Some? && PropsOf(GetList(data.fields, "Producer")).Some?
      && PropsOf(GetList(data.fields, "Country")).Some? && PropsOf(GetList(data.fields, "Rating")).Some?
      && PropsOf(GetList(data.fields, "Role")).Some? && GuidsOf(GetList(data.fields, "Guid")).Some?)
    ensures r.Some? ==> MetadataReads(data.fields, r.value)
  {
    if !data.JObj? then None
    else
      var f := data.fields;
      var genre := TagList(f, "Genre");
      var director := TagList(f, "Director");
      var writer := TagList(f, "Writer");
      var producer := TagList(f, "Producer");
      var country := TagList(f, "Country");
      var rating := TagList(f, "Rating");
      var role := TagList(f, "Role");
      var guids := GuidList(f);
      if genre.None? || director.None? || writer.None? || producer.None?
         || country.None? || rating.None? || role.None? || guids.None? then None
      else
        Some(MetadataOf(f, genre.value, director.value, writer.value, producer.value,
                        country.value, rating.value, role.value, guids.value))
  }

  /** Builds the optional section `key` with `parse` when the payload has it: `None` inside means absent, an outer `None` a failure. */
  function Section<T>(fields: seq<(string, Json)>, key: string, parse: Json -> Option<T>): (r: Option<Option<T>>)
    ensures Lookup(fields, key).None? ==> r == Some(None)
    ensures Lookup(fields, key).Some? ==> (r.Some? <==> parse(Lookup(fields, key).value).Some?)
    ensures r.Some? && r.value.Some? ==> Lookup(fields, key).Some? && parse(Lookup(fields, key).value) == r.value
  {
    match Lookup(fields, key)
    case None => Some(None)
    case Some(v) =>
      match parse(v)
      case None => None
      case Some(t) => Some(Some(t))
  }

  /** `PlexWebhookEvent(data)`. */
  function ParseEvent(data: Json): (r: Option<Event>)
    ensures r.Some? ==> data.JObj? && Lookup(data.fields, "event") == Some(r.value.event)
    ensures !data.JObj? || Lookup(data.fields, "event").None? ==> r.None?
    ensures r.Some? ==> (r.value.account.Some? <==> Lookup(data.fields, "Account").Some?)
    ensures r.Some? ==> (r.value.player.Some? <==> Lookup(data.fields, "Player").Some?)
    ensures r.Some? ==> (r.value.server.Some? <==> Lookup(data.fields, "Server").Some?)
    ensures r.Some? ==> (r.value.metadata.Some? <==> Lookup(data.fields, "Metadata").Some?)
  {
    if !data.JObj? then None
    else
      var f := data.fields;
      match Lookup(f, "event")
      case None => None
      case Some(ev) =>
        var account := Section(f, "Account", ParseAccount);
        var player := Section(f, "Player", ParsePlayer);
        var server := Section(f, "Server", ParseServer);
        var metadata := Section(f, "Metadata", ParseMetadata);
        if account.None? || player.None? || server.None? || metadata.None? then None
        else Some(Event(ev, account.value, player.value, server.value, metadata.value))
  }

  /** A payload with only an event name gives an event with no sections. */
  lemma BareEvent(name: string)
    ensures ParseEvent(JObj([("event", JStr(name))])) == Some(Event(JStr(name), None, None, None, None))
  {
    var f := [("event", JStr(name))];
    assert Lookup(f, "Account").None?;
    assert Lookup(f, "Player").None?;
    assert Lookup(f, "Server").None?;
    assert Lookup(f, "Metadata").None?;
  }

  /** Absent scalar attributes are `None` and absent tag lists are empty. */
  lemma EmptyMetadata()
    ensures ParseMetadata(JObj([])) == Some(Metadata(
      JNull, JNull, JNull, JNull, JNull, JNull, JNull, JNull, JNull, JNull, JNull, JNull,
      JNull, JNull, JNull, JNull, JNull, JNull, JNull, JNull, JNull, JNull, JNull,
      [], [], [], [], [], [], [], []))
  {
  }
}
