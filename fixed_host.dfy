/**
 * The fixed-host forwarder: a request is forwarded to the configured target host,
 * with its path (less a leading `/api/proxy`, when the path begins with it) and its
 * query string.
 */
module FixedHost {
  import opened Wrappers
  import opened JsString
  import opened Config
  import opened FetchHeaders
  import opened Forwarding

  /** The route prefix the handler strips from the inbound path. */
  const ProxyPrefix: string := "/api/proxy"

  /**
   * `pathname.replace(/^\/api\/proxy/, '')`: a path that begins with the prefix loses
   * exactly those ten characters, once; any other path is left as it is.
   */
  function StripProxyPrefix(pathname: string): (path: string)
    ensures StartsWith(pathname, ProxyPrefix) ==> ProxyPrefix + path == pathname
    ensures !StartsWith(pathname, ProxyPrefix) ==> path == pathname
  {
    if StartsWith(pathname, ProxyPrefix) then pathname[|ProxyPrefix|..] else pathname
  }

  /**
   * The prefix is removed once and later occurrences stay; the match needs no '/'
   * after "proxy", so "/api/proxyfoo" becomes "foo".
   */
  lemma StripExamples()
    ensures StripProxyPrefix("/api/proxy/v1/chat") == "/v1/chat"
    ensures StripProxyPrefix("/api/proxy/api/proxy/x") == "/api/proxy/x"
    ensures StripProxyPrefix("/api/proxyfoo") == "foo"
    ensures StripProxyPrefix("/v1/api/proxy") == "/v1/api/proxy"
    ensures StripProxyPrefix("") == ""
  {
    assert "/api/proxy/v1/chat"[..10] == ProxyPrefix;
    assert "/api/proxy/api/proxy/x"[..10] == ProxyPrefix;
    assert "/api/proxyfoo"[..10] == ProxyPrefix;
    assert "/v1/api/proxy"[..10] != ProxyPrefix by {
      assert "/v1/api/proxy"[1] != ProxyPrefix[1];
    }
  }

  /** The headers this handler sets after the deletions, in order. Unlike the query-target handler it sets no User-Agent. */
  function ForwardingSets(url: UrlParts): seq<Header>
  {
    [Header("X-Forwarded-Host", url.host),
     Header("X-Forwarded-Proto", SchemeOf(url.protocol))]
  }

  /** The two names are distinct and lower-case to x-forwarded-host and x-forwarded-proto. */
  lemma ForwardingKeys(url: UrlParts)
    ensures SetKeys(ForwardingSets(url)) == {"x-forwarded-host", "x-forwarded-proto"}
    ensures DistinctKeys(ForwardingSets(url))
  {
    ForwardedNames();
    var sets := ForwardingSets(url);
    assert forall h | h in sets :: h == sets[0] || h == sets[1];
  }

  /** The outbound headers: what the transformation guarantees, for this handler's two sets. */
  lemma OutboundHeaders(inbound: seq<Header>, removal: seq<string>, url: UrlParts)
    ensures Values(Transformed(inbound, removal, ForwardingSets(url)), "host") == []
    ensures forall n | n in removal && Key(n) !in SetKeys(ForwardingSets(url)) ::
              Values(Transformed(inbound, removal, ForwardingSets(url)), n) == []
    ensures Values(Transformed(inbound, removal, ForwardingSets(url)), "X-Forwarded-Host") == [url.host]
    ensures Values(Transformed(inbound, removal, ForwardingSets(url)), "X-Forwarded-Proto") == [SchemeOf(url.protocol)]
    ensures "user-agent" !in Keys(removal) ==>
              Values(Transformed(inbound, removal, ForwardingSets(url)), "User-Agent") == Values(inbound, "User-Agent")
  {
    var sets := ForwardingSets(url);
    var out := Transformed(inbound, removal, sets);
    ForwardingKeys(url);
    TransformedRemoved(inbound, removal, sets);
    assert Values(out, "X-Forwarded-Host") == [url.host] by {
      TransformedSetValue(inbound, removal, sets, 0);
    }
    assert Values(out, "X-Forwarded-Proto") == [SchemeOf(url.protocol)] by {
      TransformedSetValue(inbound, removal, sets, 1);
    }
    if "user-agent" !in Keys(removal) {
      UserAgentUntouched(removal, url);
      TransformedSpec(inbound, removal, sets);
    }
  }

  lemma UserAgentUntouched(removal: seq<string>, url: UrlParts)
    requires "user-agent" !in Keys(removal)
    ensures Key("User-Agent") !in Touched(removal, ForwardingSets(url))
  {
    ForwardedNames();
    ForwardingKeys(url);
    var ua := "user-agent";
    assert |ua| == 10;
    assert ua != "host" && ua != "x-forwarded-host" && ua != "x-forwarded-proto";
  }

  /** `if (!TARGET_HOST)`: the target host is set and not the empty string. */
  predicate Configured(targetHost: Option<string>) {
    targetHost.Some? && targetHost.value != ""
  }

  /**
   * The handler. `targetHost` is the TARGET_HOST setting and `headersToRemove` the
   * HEADERS_TO_REMOVE setting read with `|| ''`. The request goes to the target host
   * followed by the inbound path without its `/api/proxy` prefix and the inbound query,
   * with the same method, with the configured headers and `host` deleted and
   * X-Forwarded-Host and X-Forwarded-Proto set.
   */
  method Handle(req: Request, targetHost: Option<string>, headersToRemove: string) returns (o: Outcome)
    ensures o == ServerError <==> !Configured(targetHost)
    ensures !o.BadRequest? && !o.Forbidden?
    ensures o.HeaderNameError? <==> Configured(targetHost) && FirstInvalid(HeadersToRemove(headersToRemove)).Some?
    ensures o.HeaderNameError? ==> FirstInvalid(HeadersToRemove(headersToRemove)) == Some(o.name)
    ensures o.Forward? <==> Configured(targetHost) && FirstInvalid(HeadersToRemove(headersToRemove)).None?
    ensures o.Forward? ==> o.url == targetHost.value + StripProxyPrefix(req.url.pathname) + req.url.search
    ensures o.Forward? ==> o.verb == req.verb
    ensures o.Forward? ==>
              o.headers == Transformed(req.headers, HeadersToRemove(headersToRemove), ForwardingSets(req.url))
    ensures o.Forward? ==> Values(o.headers, "host") == []
    ensures o.Forward? ==>
              forall n | n in HeadersToRemove(headersToRemove) && Key(n) !in SetKeys(ForwardingSets(req.url)) ::
                Values(o.headers, n) == []
    ensures o.Forward? ==> Values(o.headers, "X-Forwarded-Host") == [req.url.host]
    ensures o.Forward? ==> Values(o.headers, "X-Forwarded-Proto") == [SchemeOf(req.url.protocol)]
    ensures o.Forward? && "user-agent" !in Keys(HeadersToRemove(headersToRemove)) ==>
              Values(o.headers, "User-Agent") == Values(req.headers, "User-Agent")
    ensures o.Forward? ==>
              forall n | Key(n) !in Touched(HeadersToRemove(headersToRemove), ForwardingSets(req.url)) ::
                Values(o.headers, n) == Values(req.headers, n)
    ensures o.Forward? ==>
              Without(o.headers, Touched(HeadersToRemove(headersToRemove), ForwardingSets(req.url)))
              == Without(req.headers, Touched(HeadersToRemove(headersToRemove), ForwardingSets(req.url)))
  {
    if targetHost.None? || targetHost.value == "" {
      return ServerError;
    }

    // 1. the outbound URL
    var targetPath := StripProxyPrefix(req.url.pathname);
    var targetUrl := targetHost.value + targetPath + req.url.search;

    // 2.-3. a copy of the inbound headers, less the configured names
    var h := new Headers(req.headers);
    var removal := HeadersToRemove(headersToRemove);
    var failed := None;
    if |removal| > 0 {
      failed := DeleteEach(h, removal);
    }
    if failed.Some? {
      return HeaderNameError(failed.value);
    }

    // always delete host; set the forwarding headers
    HostKey();
    ForwardedNames();
    ForwardingKeys(req.url);
    var ok := h.Delete("host");
    var sets := ForwardingSets(req.url);
    assert sets == [sets[0], sets[1]];
    ok := h.Set(sets[0].name, sets[0].value);
    ok := h.Set(sets[1].name, sets[1].value);
    SetAllTwo(Removed(RemoveAll(req.headers, removal), "host"), sets[0], sets[1]);
    assert h.list == Transformed(req.headers, removal, sets);

    TransformedSpec(req.headers, removal, sets);
    OutboundHeaders(req.headers, removal, req.url);
    o := Forward(targetUrl, req.verb, h.list);
  }
}
