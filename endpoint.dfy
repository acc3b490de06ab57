/**
 * The address Plex is told to send webhooks to. A wildcard bind address is
 * replaced by the address of the machine's outgoing interface, found by a
 * socket lookup that is a parameter here; the URL is then put together from
 * the host and the optional port.
 */
module Endpoint {
  import opened Wrappers
  import opened PyStr

  /** The address family passed to the interface lookup: `socket.AF_INET` or `socket.AF_INET6`. */
  datatype Family = IPv4 | IPv6

  /** `getExternalHost`: "0.0.0.0" and "::" become the address of the outgoing IPv4 or IPv6 interface; any other host is used as it is. */
  function ExternalHost(host: string, interfaceIp: Family -> string): (r: string)
    ensures host == "0.0.0.0" ==> r == interfaceIp(IPv4)
    ensures host == "::" ==> r == interfaceIp(IPv6)
    ensures host != "0.0.0.0" && host != "::" ==> r == host
  {
    if host == "0.0.0.0" then interfaceIp(IPv4)
    else if host == "::" then interfaceIp(IPv6)
    else host
  }

  /** The text the f-string writes for the port: `:port` when there is one, and the literal `None` when there is not. */
  function PortText(port: Option<int>): (r: string)
    ensures port.None? ==> r == "None"
    ensures port.Some? ==> |r| > 1 && r[0] == ':' && ParseInt(r[1..]) == port
  {
    match port
    case None => "None"
    case Some(p) =>
      ParseIntString(p);
      assert (":" + IntString(p))[1..] == IntString(p);
      ":" + IntString(p)
  }

  /** `f"http://{host}{port}/webhook"`. */
  function WebhookUrl(host: string, port: Option<int>): (r: string)
    ensures |r| == 15 + |host| + |PortText(port)|
    ensures r[..7] == "http://" && r[|r| - 8..] == "/webhook"
    ensures r[7..|r| - 8] == host + PortText(port)
  {
    var scheme := "http://";
    var path := "/webhook";
    var middle := host + PortText(port);
    var r := scheme + middle + path;
    assert |scheme| == 7 && |path| == 8;
    assert r[..7] == scheme;
    assert r[|r| - 8..] == path;
    assert r[7..|r| - 8] == middle;
    r
  }

  /** With no port configured the URL reads `http://<host>None/webhook`. */
  lemma WebhookUrlWithoutPort(host: string)
    ensures WebhookUrl(host, None) == "http://" + host + "None/webhook"
  {
    var r := WebhookUrl(host, None);
    assert r == r[..7] + r[7..|r| - 8] + r[|r| - 8..];
  }

  /** For one host, the URL determines the port: distinct ports, or a port and no port, never give the same URL. */
  lemma WebhookUrlDeterminesPort(host: string, p1: Option<int>, p2: Option<int>)
    requires WebhookUrl(host, p1) == WebhookUrl(host, p2)
    ensures p1 == p2
  {
    assert host + PortText(p1) == host + PortText(p2);
    var t1 := PortText(p1);
    var t2 := PortText(p2);
    assert t1 == (host + t1)[|host|..];
    assert t2 == (host + t2)[|host|..];
    assert t1 == t2;
    assert p1.Some? <==> t1[0] == ':';
    assert p2.Some? <==> t2[0] == ':';
    if p1.Some? {
      assert ParseInt(t1[1..]) == ParseInt(t2[1..]);
    }
  }
}
