/**
 * The query-target forwarder: a request to `/api/pp?target=<url>`, whatever its
 * method, is forwarded to the `target` URL, exactly as given, once the target has
 * parsed and its host name has passed the domain allow-list.
 */
module QueryTarget {
  import opened Wrappers
  import opened JsString
  import opened Config
  import opened FetchHeaders
  import opened Forwarding

  /** The two settings, as read from the environment with `|| ''` (unset reads as empty). */
  datatype Settings = Settings(allowedTargets: string, headersToRemove: string)

  /** A host name matches an allow-list entry when it is the entry or a subdomain of it. */
  predicate DomainMatches(hostname: string, entry: string) {
    hostname == entry || EndsWith(hostname, "." + entry)
  }

  /** `allowed.some(entry => DomainMatches(hostname, entry))`. */
  function AnyDomainMatches(allowed: seq<string>, hostname: string): (r: bool)
    ensures r <==> exists i | 0 <= i < |allowed| :: DomainMatches(hostname, allowed[i])
  {
    if allowed == [] then false
    else DomainMatches(hostname, allowed[0]) || AnyDomainMatches(allowed[1..], hostname)
  }

  /** An empty allow-list disables the domain check. */
  predicate PassesAllowList(allowed: seq<string>, hostname: string) {
    allowed == [] || AnyDomainMatches(allowed, hostname)
  }

  /** The subdomain rule needs a dot boundary: a mere textual suffix is not enough. */
  lemma AllowListExamples(hostname: string)
    ensures PassesAllowList([], hostname)
    ensures PassesAllowList(["example.com"], "example.com")
    ensures PassesAllowList(["example.com"], "api.example.com")
    ensures !PassesAllowList(["example.com"], "evilexample.com")
  {
    assert "api.example.com"[3..] == ".example.com";
    assert "evilexample.com"[3..] != ".example.com" by {
      assert "evilexample.com"[3..][0] == 'l';
    }
  }

  /** The headers this handler sets after the deletions, in order. */
  function ForwardingSets(url: UrlParts): seq<Header>
  {
    [Header("X-Forwarded-Host", url.host),
     Header("X-Forwarded-Proto", SchemeOf(url.protocol)),
     Header("User-Agent", "clash")]
  }

  /** The three names differ from one another, so each set survives the later ones. */
  lemma ForwardingKeys(url: UrlParts)
    ensures SetKeys(ForwardingSets(url)) == {"x-forwarded-host", "x-forwarded-proto", "user-agent"}
    ensures DistinctKeys(ForwardingSets(url))
  {
    ForwardedNames();
    var sets := ForwardingSets(url);
    assert forall h | h in sets :: h == sets[0] || h == sets[1] || h == sets[2];
  }

  /** The outbound headers: what the transformation guarantees, for this handler's three sets. */
  lemma OutboundHeaders(inbound: seq<Header>, removal: seq<string>, url: UrlParts)
    ensures Values(Transformed(inbound, removal, ForwardingSets(url)), "host") == []
    ensures forall n | n in removal && Key(n) !in SetKeys(ForwardingSets(url)) ::
              Values(Transformed(inbound, removal, ForwardingSets(url)), n) == []
    ensures Values(Transformed(inbound, removal, ForwardingSets(url)), "X-Forwarded-Host") == [url.host]
    ensures Values(Transformed(inbound, removal, ForwardingSets(url)), "X-Forwarded-Proto") == [SchemeOf(url.protocol)]
    ensures Values(Transformed(inbound, removal, ForwardingSets(url)), "User-Agent") == ["clash"]
  {
    var sets := ForwardingSets(url);
    var out := Transformed(inbound, removal, sets);
    ForwardingKeys(url);
    TransformedRemoved(inbound, removal, sets);
    assert Values(out, "X-Forwarded-Host") == [url.host] by {
      TransformedSetValue(inbound, removal, sets, 0);
    }
    assert Values(out, "X-Forwarded-Proto") == [SchemeOf(url.protocol)] by {
      TransformedSetValue(inbound, removal, sets, 1);
    }
    assert Values(out, "User-Agent") == ["clash"] by {
      TransformedSetValue(inbound, removal, sets, 2);
    }
  }

  /** `if (!targetParam)`: the parameter is present and not the empty string. */
  predicate Given(target: Option<string>) {
    target.Some? && target.value != ""
  }

  /** The target is given, parses, and its host name passes the allow-list. */
  predicate Admitted(target: Option<string>, parse: UrlParser, settings: Settings) {
    Given(target) && parse(target.value).Some?
    && PassesAllowList(AllowedTargets(settings.allowedTargets), parse(target.value).value.hostname)
  }

  /**
   * The handler. `target` is `searchParams.get('target')` of the inbound URL and
   * `parse` stands for `new URL(...)`. The request is forwarded to the target string
   * itself, with the same method, and with the configured headers and `host` deleted
   * and X-Forwarded-Host, X-Forwarded-Proto and User-Agent set.
   */
  method Handle(req: Request, target: Option<string>, parse: UrlParser, settings: Settings) returns (o: Outcome)
    ensures o == BadRequest(MissingTarget) <==> !Given(target)
    ensures o == BadRequest(InvalidTarget) <==> Given(target) && parse(target.value).None?
    ensures o.Forbidden? <==>
              Given(target) && parse(target.value).Some?
              && !PassesAllowList(AllowedTargets(settings.allowedTargets), parse(target.value).value.hostname)
    ensures o.Forbidden? ==> o.domain == parse(target.value).value.hostname
    ensures !o.ServerError?
    ensures o.HeaderNameError? <==>
              Admitted(target, parse, settings) && FirstInvalid(HeadersToRemove(settings.headersToRemove)).Some?
    ensures o.HeaderNameError? ==> FirstInvalid(HeadersToRemove(settings.headersToRemove)) == Some(o.name)
    ensures o.Forward? <==>
              Admitted(target, parse, settings) && FirstInvalid(HeadersToRemove(settings.headersToRemove)).None?
    ensures o.Forward? ==> o.url == target.value && o.verb == req.verb
    ensures o.Forward? ==>
              o.headers == Transformed(req.headers, HeadersToRemove(settings.headersToRemove), ForwardingSets(req.url))
    ensures o.Forward? ==> Values(o.headers, "host") == []
    ensures o.Forward? ==>
              forall n | n in HeadersToRemove(settings.headersToRemove) && Key(n) !in SetKeys(ForwardingSets(req.url)) ::
                Values(o.headers, n) == []
    ensures o.Forward? ==> Values(o.headers, "X-Forwarded-Host") == [req.url.host]
    ensures o.Forward? ==> Values(o.headers, "X-Forwarded-Proto") == [SchemeOf(req.url.protocol)]
    ensures o.Forward? ==> Values(o.headers, "User-Agent") == ["clash"]
    ensures o.Forward? ==>
              forall n | Key(n) !in Touched(HeadersToRemove(settings.headersToRemove), ForwardingSets(req.url)) ::
                Values(o.headers, n) == Values(req.headers, n)
    ensures o.Forward? ==>
              Without(o.headers, Touched(HeadersToRemove(settings.headersToRemove), ForwardingSets(req.url)))
              == Without(req.headers, Touched(HeadersToRemove(settings.headersToRemove), ForwardingSets(req.url)))
  {
    // 1. the target parameter must be given and must parse
    if target.None? || target.value == "" {
      return BadRequest(MissingTarget);
    }
    var targetParam := target.value;
    var parsed := parse(targetParam);
    if parsed.None? {
      return BadRequest(InvalidTarget);
    }

    // 2. the domain allow-list
    var allowed := AllowedTargets(settings.allowedTargets);
    if |allowed| > 0 {
      var domain := parsed.value.hostname;
      if !AnyDomainMatches(allowed, domain) {
        return Forbidden(domain);
      }
    }

    // 3. the target string itself is the outbound URL
    var finalUrl := targetParam;

    // 4. the outbound headers
    var h := new Headers(req.headers);
    var removal := HeadersToRemove(settings.headersToRemove);
    var failed := DeleteEach(h, removal);
    if failed.Some? {
      return HeaderNameError(failed.value);
    }
    HostKey();
    ForwardedNames();
    var ok := h.Delete("host");
    var sets := ForwardingSets(req.url);
    assert sets == [sets[0], sets[1], sets[2]];
    ok := h.Set(sets[0].name, sets[0].value);
    ok := h.Set(sets[1].name, sets[1].value);
    ok := h.Set(sets[2].name, sets[2].value);
    SetAllThree(Removed(RemoveAll(req.headers, removal), "host"), sets[0], sets[1], sets[2]);
    assert h.list == Transformed(req.headers, removal, sets);

    ForwardingKeys(req.url);
    TransformedSpec(req.headers, removal, sets);
    OutboundHeaders(req.headers, removal, req.url);
    o := Forward(finalUrl, req.verb, h.list);
  }
}
