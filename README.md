# Edge proxy request handlers, modelled in Dafny

This project models the decision logic of two edge-runtime HTTP forwarders:

- `api/pp.ts`, the **query-target forwarder**. It reads the `target` query parameter and
  answers 400 when the parameter is missing or is not a URL. It answers 403 when the target's
  host name fails the domain allow-list. Otherwise it forwards the request to the `target`
  string exactly as given.
- `api/proxy/py.ts`, the **fixed-host forwarder**. It answers 500 when no target host is
  configured. Otherwise it forwards the request to the target host followed by the inbound
  path without its leading `/api/proxy` and then the inbound query string.

Both handlers copy the inbound headers into a `Headers` object and change it in place. They
delete each name on the comma-separated removal list, delete `host`, and then set
`X-Forwarded-Host` and `X-Forwarded-Proto`; the query-target forwarder also sets
`User-Agent: clash`.

Each handler is a method from an inbound request and its settings to an `Outcome`:
`BadRequest`, `Forbidden(domain)`, `ServerError`, `HeaderNameError(name)` or
`Forward(url, verb, headers)`. The header list is a sequence of (name, value) pairs. The
`Headers` class updates it with the delete and set semantics of the Fetch Standard
(section 5.1, "Headers class"; section 2.2.2, "header list"). Names are compared by
their byte-lowercase form.

Modules, one file each:

| file | module | models |
|---|---|---|
| `wrappers.dfy` | `Wrappers` | `Option`, for values that may be `null`/`undefined` |
| `js_string.dfy` | `JsString` | `trim`, `split`, ASCII lower-casing, `startsWith`, `endsWith` |
| `config.dfy` | `Config` | parsing of the allow-list and header-removal settings (both handlers) |
| `headers.dfy` | `FetchHeaders` | the header list, `delete`/`set`, the class `Headers`, the transformation lemmas |
| `forwarding.dfy` | `Forwarding` | URL parts, request, outcome, the shared delete loop |
| `query_target.dfy` | `QueryTarget` | `api/pp.ts` |
| `fixed_host.dfy` | `FixedHost` | `api/proxy/py.ts` |

The URL parser (`new URL(...)`) is a function parameter of type `string -> Option<UrlParts>`.
It returns `None` where the constructor throws. The inbound URL is given already parsed, and
the value of `searchParams.get('target')` is a parameter of the handler. The settings read
from the environment are parameters too.

`api/pp.ts` uses the value of `searchParams.get('target')` as it is and does no slicing,
merging or percent-decoding of it.

`Request.headers` stands for `request.headers` as its iterator yields it. That is the Fetch
Standard's sort-and-combine view: names lower-cased and sorted, and the values of a
repeated name joined with ", " (except `set-cookie`, whose values stay separate).
`new Headers(request.headers)` appends those pairs one at a time, so the new object's list
is that sequence. Wherever a contract speaks of the inbound headers, their order or a
header's name, it means this iterated view and not the raw header lines of the request.

## Model

| member | source | states |
|---|---|---|
| `Config.TrimmedItems` | api/pp.ts:9 | the allow-list items are trimmed and non-empty; a string is an item iff it is the non-empty trim of some comma-separated part |
| `Config.AllowedTargets` | api/pp.ts:8-9 | the allow-list is exactly the non-empty trimmed parts of the setting, and each entry is trimmed and non-empty |
| `Config.LoweredItems` | api/pp.ts:48 | removal names are trimmed, lower-case and non-empty; a string is a name iff it is the non-empty lower-cased trim of some part |
| `Config.HeadersToRemove` | api/proxy/py.ts:26-28 | the removal list is exactly the non-empty trimmed, lower-cased parts of the setting (the same expression as api/pp.ts:48) |
| `Config.BlankAllowList` | api/pp.ts:9 | a setting of only commas and white space gives an empty allow-list, which disables the domain check |
| `Config.BlankRemovalList` | api/proxy/py.ts:26-34 | a setting of only commas and white space gives no names, so the deletion step leaves the headers unchanged |
| `JsString.AsciiLower` | api/pp.ts:48 | `toLowerCase()` on a header name, restricted to ASCII: the result has the same length, each letter `A`-`Z` becomes its lower-case form, every other character is unchanged, and no `A`-`Z` remains |
| `JsString.AsciiLowerTrimmed` | api/pp.ts:48 | lower-casing a trimmed string keeps it trimmed, and lower-casing twice is lower-casing once |
| `JsString.Split` | api/pp.ts:9 | `split(',')` never returns an empty array, no part holds a comma, and joining the parts with commas gives the input back |
| `JsString.SplitJoin` | api/pp.ts:9 | the other half of the round trip: splitting a join of comma-free parts gives the parts back |
| `JsString.Trim` | api/pp.ts:9 | `trim()` returns an infix of its input with no white space at either end, and only white space is removed; a trimmed string is unchanged |
| `QueryTarget.AnyDomainMatches` | api/pp.ts:32-34 | the `some` check holds iff the host name equals some entry or ends with "." followed by that entry |
| `QueryTarget.AllowListExamples` | api/pp.ts:30-37 | an empty list admits every host; `example.com` admits itself and `api.example.com` but not `evilexample.com` |
| `QueryTarget.ForwardingKeys` | api/pp.ts:51-53 | the three names set are distinct (case-insensitively), so each set survives the later ones |
| `QueryTarget.OutboundHeaders` | api/pp.ts:46-53 | outbound headers have no `host` and no removed name (unless it is one of the three set names); `X-Forwarded-Host` is the inbound host, `X-Forwarded-Proto` the protocol without its last character and `User-Agent` is `clash`, each exactly once |
| `QueryTarget.Handle` | api/pp.ts:13-59 | 400 iff `target` is missing or empty or does not parse; 403 naming the host name iff it fails a non-empty allow-list; otherwise the request goes to the raw `target` string, with the method unchanged and headers as above; every inbound header (as iterated) whose name is not touched passes through unchanged, keeping its order relative to the others |
| `Forwarding.SchemeOf` | api/pp.ts:52 | `protocol.slice(0, -1)` drops exactly the last character (the `:`), and gives "" for "" |
| `Forwarding.FirstInvalid` | api/pp.ts:49 | the name `delete` throws on is a removal name that is not a valid header name; there is none iff every removal name is valid |
| `Forwarding.FirstInvalidAt` | api/pp.ts:49 | the name reported is the first invalid one in list order |
| `Forwarding.DeleteEach` | api/proxy/py.ts:30-34 | the delete loop stops at the first name `delete` rejects and reports it, having deleted exactly the names before it; otherwise it has deleted every name in turn |
| `FetchHeaders.Headers.constructor` | api/pp.ts:46 | `new Headers(request.headers)` holds exactly the pairs the inbound headers' iterator yields (the sort-and-combine view), in that order |
| `FetchHeaders.Headers.Delete` | api/pp.ts:49-50 | `delete` throws (changing nothing) iff the name is not a valid header name, and otherwise removes every header of that name |
| `FetchHeaders.Headers.Set` | api/pp.ts:51-53 | `set` replaces the first header of that name and drops the rest, or appends when there is none |
| `FetchHeaders.ValuesWithout` | api/pp.ts:49-50 | after deletion a deleted name has no value and every other name keeps all its values |
| `FetchHeaders.RemoveAllWithout` | api/pp.ts:48-50 | deleting the names one by one keeps exactly the headers whose name is none of them, in order |
| `FetchHeaders.ValuesSetValue` | api/pp.ts:51 | after `set` the name has exactly the value set, and every other name keeps its values |
| `FetchHeaders.WithoutSetValue` | api/pp.ts:51 | `set` does not touch a header of any other name |
| `FetchHeaders.SetAllValue` | api/pp.ts:51-53 | after sets of distinct names, each set name has exactly its own value |
| `FetchHeaders.SetAllOther` | api/pp.ts:51-53 | after a sequence of sets, a name none of them writes keeps its values |
| `FetchHeaders.SetAllWithout` | api/pp.ts:51-53 | a sequence of sets leaves every header of an unwritten name in place |
| `FetchHeaders.TransformedSpec` | api/proxy/py.ts:23-41 | delete-then-set: each set name carries exactly its value; `host` and removed names are absent unless set later; every untouched header of the given list (for the handlers, the iterated inbound headers) passes through with its name, value and relative order |
| `FixedHost.StripProxyPrefix` | api/proxy/py.ts:19 | a path that starts with `/api/proxy` loses exactly those ten characters; any other path is unchanged |
| `FixedHost.StripExamples` | api/proxy/py.ts:19 | the prefix is removed once, later occurrences stay, a path not starting with it is untouched, and no `/` is needed after it (`/api/proxyfoo` becomes `foo`) |
| `FixedHost.ForwardingKeys` | api/proxy/py.ts:40-41 | the two names set are distinct (case-insensitively) |
| `FixedHost.OutboundHeaders` | api/proxy/py.ts:37-41 | no `host` and no removed name (except the two set names) outbound; `X-Forwarded-Host` and `X-Forwarded-Proto` are set once each; an inbound `User-Agent` passes through unless the removal list names it |
| `FixedHost.Handle` | api/proxy/py.ts:12-46 | 500 iff the target host is unset or empty; otherwise the request goes to target host + rewritten path + inbound search, with the method unchanged, headers as above, and every untouched inbound header (as iterated) passed through; never 400 or 403 |

## Left out

- The outbound `fetch` and the relay of its response are not modelled: the streamed body, `redirect: 'manual'`, and the `try`/`catch` that turns a transport error into a 500 (api/pp.ts:56-68, api/proxy/py.ts:43-62). A forwarded request ends at the `Forward` outcome.
- Reading `process.env` is not modelled. The settings are handler parameters, already defaulted with `|| ''`; `TARGET_HOST` is an `Option<string>`.
- URL parsing and the decoding done by `searchParams.get` are not modelled; they belong to the WHATWG URL Standard. The parser is a parameter, so `UrlParts` are not constrained (for example, the model does not know that `search` is empty or starts with `?`).
- `console.log`, `console.error` and the `config` export (runtime selection) are not modelled.
- `HeaderNameError`: `Headers.delete` throws a TypeError for a removal name that is not a valid header name. That is an uncaught exception in both handlers, and the platform's answer to it is not modelled.
- `JsString.AsciiLower`: lower-cases ASCII letters only. JavaScript's `toLowerCase` also folds other letters (U+212A KELVIN SIGN becomes `k`); such names are not valid header names anyway unless folding makes them ASCII.
- `Config.HeadersToRemove`: lower-cases ASCII letters only, through `JsString.AsciiLower`; see that line.
- `Config.LoweredItems`: lower-cases ASCII letters only. JavaScript's `toLowerCase` also folds other letters (U+212A KELVIN SIGN becomes `k`); such names are not valid header names anyway unless folding makes them ASCII.
- `FetchHeaders.Headers.Set`: does not validate or normalise the value. The Fetch Standard strips leading and trailing HTTP white space and throws on NUL, CR, LF or a code point above U+00FF. The handlers only set a URL host, a scheme and `clash`.
- `FetchHeaders.Headers`: the guard is always "none" (a fresh copy), so the request-guard and immutable-guard checks of `delete` and `set` are not modelled. The sort-and-combine view of the inbound headers is not computed; `Request.headers` is that view, given as input.
- JavaScript strings are sequences of UTF-16 code units; the model's strings are sequences of Unicode scalar values. A character outside the Basic Multilingual Plane counts as one character rather than two, and a lone surrogate cannot be represented. This affects only `protocol.slice(0, -1)` on such input, which URL parsing never produces.
- Request and response bodies are not modelled.
