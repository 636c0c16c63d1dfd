/**
 * What the two edge handlers share: the parts of a parsed URL they read, the
 * inbound request, the outcome of handling it, and the loop that deletes the
 * configured header names from a `Headers` copy.
 */
module Forwarding {
  import opened Wrappers
  import opened JsString
  import opened FetchHeaders

  /** The fields of a WHATWG `URL` object the handlers read. */
  datatype UrlParts = UrlParts(
    hostname: string,  // host without port
    host: string,      // host with ":port" when one is given
    protocol: string,  // scheme followed by ':'
    pathname: string,
    search: string)    // "" or "?" followed by the query

  /** `new URL(s)`: `None` where the constructor throws. */
  type UrlParser = string -> Option<UrlParts>

  /**
   * An inbound request: its method (the verb), its (always parsable) URL and its headers.
   * `headers` is `request.headers` as its iterator yields it: the Fetch Standard's
   * sort-and-combine view, with lower-case names in sorted order and the values of a
   * repeated name joined by ", " (each `set-cookie` stays separate).
   */
  datatype Request = Request(verb: string, url: UrlParts, headers: seq<Header>)

  datatype BadTarget = MissingTarget | InvalidTarget

  /** How a handler answers a request. */
  datatype Outcome =
    | BadRequest(reason: BadTarget)        // 400
    | Forbidden(domain: string)            // 403, naming the rejected host name
    | ServerError                          // 500, no target host configured
    | HeaderNameError(name: string)        // `Headers.delete` threw a TypeError for this name
    | Forward(url: string, verb: string, headers: seq<Header>)

  /** The names the handlers set are valid header names; their lower-case forms. */
  lemma ForwardedNames()
    ensures IsHeaderName("X-Forwarded-Host") && Key("X-Forwarded-Host") == "x-forwarded-host"
    ensures IsHeaderName("X-Forwarded-Proto") && Key("X-Forwarded-Proto") == "x-forwarded-proto"
    ensures IsHeaderName("User-Agent") && Key("User-Agent") == "user-agent"
  {
    ForwardedHostName();
    ForwardedProtoName();
    UserAgentName();
  }

  lemma ForwardedHostName()
    ensures IsHeaderName("X-Forwarded-Host") && Key("X-Forwarded-Host") == "x-forwarded-host"
  {
    var n := "X-Forwarded-Host";
    assert forall k | 0 <= k < |n| :: IsTokenChar(n[k]) && AsciiLower(n)[k] == "x-forwarded-host"[k];
  }

  lemma ForwardedProtoName()
    ensures IsHeaderName("X-Forwarded-Proto") && Key("X-Forwarded-Proto") == "x-forwarded-proto"
  {
    var n := "X-Forwarded-Proto";
    assert forall k | 0 <= k < |n| :: IsTokenChar(n[k]) && AsciiLower(n)[k] == "x-forwarded-proto"[k];
  }

  lemma UserAgentName()
    ensures IsHeaderName("User-Agent") && Key("User-Agent") == "user-agent"
  {
    var n := "User-Agent";
    assert forall k | 0 <= k < |n| :: IsTokenChar(n[k]) && AsciiLower(n)[k] == "user-agent"[k];
  }

  /** `protocol.slice(0, -1)`: everything but the last character (the empty string stays empty). */
  function SchemeOf(protocol: string): (scheme: string)
    ensures protocol == [] ==> scheme == []
    ensures protocol != [] ==> scheme + [protocol[|protocol| - 1]] == protocol
  {
    if protocol == [] then [] else protocol[..|protocol| - 1]
  }

  /** The first name in the removal list that `Headers.delete` rejects, if any. */
  function FirstInvalid(names: seq<string>): (r: Option<string>)
    ensures r.None? <==> forall n | n in names :: IsHeaderName(n)
    ensures r.Some? ==> r.value in names && !IsHeaderName(r.value)
  {
    if names == [] then None
    else if !IsHeaderName(names[0]) then Some(names[0])
    else
      assert forall n | n in names :: n == names[0] || n in names[1..];
      FirstInvalid(names[1..])
  }

  /** The name reported is the first invalid one. */
  lemma {:induction false} FirstInvalidAt(names: seq<string>, i: nat)
    requires i < |names| && !IsHeaderName(names[i])
    requires forall j | 0 <= j < i :: IsHeaderName(names[j])
    ensures FirstInvalid(names) == Some(names[i])
  {
    if i > 0 {
      FirstInvalidAt(names[1..], i - 1);
    }
  }

  /**
   * `for (const headerName of names) { headers.delete(headerName); }`: stops at the first
   * name `delete` rejects, which it returns; otherwise every name has been deleted in turn.
   */
  method DeleteEach(h: Headers, names: seq<string>) returns (failed: Option<string>)
    modifies h
    ensures failed == FirstInvalid(names)
    ensures failed.None? ==> h.list == RemoveAll(old(h.list), names)
    ensures failed.Some? ==>
              exists i | 0 <= i < |names| ::
                names[i] == failed.value && !IsHeaderName(names[i])
                && (forall j | 0 <= j < i :: IsHeaderName(names[j]))
                && h.list == RemoveAll(old(h.list), names[..i])
  {
    for i := 0 to |names|
      invariant forall j | 0 <= j < i :: IsHeaderName(names[j])
      invariant h.list == RemoveAll(old(h.list), names[..i])
    {
      var ok := h.Delete(names[i]);
      if !ok {
        FirstInvalidAt(names, i);
        return Some(names[i]);
      }
      assert names[..i + 1][..i] == names[..i];
    }
    assert names[..|names|] == names;
    return None;
  }
}
