# pygreynoise client core, modelled in Dafny

This project models the logic of the pygreynoise client library: the `GreyNoise`
API client (`src/greynoise/api.py`) and its configuration and validation helpers
(`src/greynoise/util.py`).

- **Requests.** Every request goes to `https://enterprise.api.greynoise.io/v2/<endpoint>`.
  It carries the headers `X-Request-Client: pyGreyNoise v1` and `key: <api key>`.
  A reply is accepted only when its status is in Python's `range(200, 299)`, so 299 is refused.
- **Bulk noise dump.** `get_noise` pages through `noise/bulk` or `noise/bulk/YYYY-MM-DD`.
  Each follow-up request carries the offset of the previous page, and the result is every page's
  `noise_ips`, in page order, up to the first page marked `complete`.
- **Quick checks.** Results get a `code_message` from the nine-entry code table, or the
  `Code message unknown: <code>` fallback. The bulk variant sends only the addresses `inet_aton` accepts,
  in their original order.
- **Configuration.** Defaults, then the file, then the `GREYNOISE_API_KEY`, `GREYNOISE_API_SERVER`
  and `GREYNOISE_TIMEOUT` environment variables. The timeout variable counts only when it parses as an
  integer. `save_config` writes the three options of a dict whose `api_key` and `api_server` are strings
  and which has a `timeout`. Otherwise it raises whichever error comes first: `KeyError` for a missing
  option, or `TypeError` for a non-string value. Read back as the section's option map, a loaded configuration that was saved
  loads again unchanged. ConfigParser's own reading and writing of the file is not modelled.
- **Validator.** `validate_ip` in strict mode raises `ValueError("Invalid IP address: <repr>")`;
  in permissive mode it returns a boolean.

The network is replaced by parameters: each client operation receives the server's replies and
returns the requests it sent, in order. An operation that fails before reaching the network
returns no request. `socket.inet_aton` is a parameter `inetAton: string -> bool`. The configuration
file is the option map of its `greynoise` section (`None` when there is no file), and the
environment is a map from variable names to values. Python exceptions are the `Err` side of a `Result`.

Points where the code is narrower than one might expect, which the model follows:
- Status 299 is refused. The docstring of `_request` (src/greynoise/api.py:80) says a failure is a
  status that is not 2xx, but the test at src/greynoise/api.py:93 is `range(200, 299)`.
- Each follow-up page request carries the `offset` the previous reply returned (or -1 when it had
  none); the client never computes an offset itself.
- `get_noise` checks only that the argument is a `datetime.date`; any such value is a real calendar date.
- `get_noise_status_bulk` enriches a list of results; a JSON object reply is iterated by its keys, so
  an empty object comes back as it is and any other object raises `TypeError`.

Files: `wrappers.dfy` (Option, Result), `errors.dfy` (the exceptions), `text.dfy` (`str()` of integers,
`int()` of strings, `str.join`, zero padding), `pyrepr.dfy` (`repr()` of strings), `dates.dfy`
(`%Y-%m-%d`), `util.dfy`, `http.dfy` (requests, replies, JSON scalars, the status check),
`paging.dfy` (the pages of the bulk dump), `codes.dfy` (the code table and enrichment), `api.dfy`
(the `GreyNoise` class).

## Model

| member | source | states |
|---|---|---|
| `Api.GreyNoise.constructor` | src/greynoise/api.py:65-66 | the client keeps the key and timeout it is given |
| `Api.GreyNoise.Create` | src/greynoise/api.py:62-67 | with no key, the key is the configured one and a failing configuration load propagates; the timeout is always the argument (7 by default), never the configured one |
| `Api.GreyNoise.FromConfig` | src/greynoise/api.py:62-66 | `GreyNoise()` with no arguments succeeds exactly when the configuration loads; the key is the configured one and the timeout is 7 |
| `Api.GreyNoise.Headers` | src/greynoise/api.py:85-88 | exactly two headers: `X-Request-Client` is `pyGreyNoise v1` and `key` is the client's API key |
| `Api.Url` | src/greynoise/api.py:89 | joining base URL, API version and endpoint with "/" gives `BASE_URL + "/" + API_VERSION + "/" + endpoint` |
| `Api.GreyNoise.Request` | src/greynoise/api.py:69-96 | the request sent has that URL, those headers, the client's timeout and `{}` for absent params; the reply is accepted iff 200 <= status <= 298, and otherwise `RequestFailure(status, content)` is raised |
| `Api.NoiseEndpoint` | src/greynoise/api.py:115-122 | no date targets `noise/bulk`; a date targets `noise/bulk/` followed by ten characters that read back as that date |
| `Api.GreyNoise.GetNoise` | src/greynoise/api.py:115-124 | a non-date argument raises `ValueError` and sends nothing; otherwise the requests sent are exactly the paging requests for the endpoint the date selects, and the result is the specified dump |
| `Api.GreyNoise.FetchPages` | src/greynoise/api.py:124-135 | requests run up to the first ending reply and no further; the result is the dump of the pages (addresses concatenated in page order, or the first failure / missing `complete`) |
| `Http.StatusOk` | src/greynoise/api.py:93 | the statuses `_request` accepts: 200 to 298; 299 is refused |
| `Paging.IpsOf` | src/greynoise/api.py:125-130 | `response.get("noise_ips", [])`: a page without `noise_ips` contributes nothing |
| `Paging.NextOffset` | src/greynoise/api.py:126-131 | `response.get("offset", -1)`: the offset the next request carries |
| `Paging.Collected` | src/greynoise/api.py:125-130 | the `noise_ips` lists of the first n replies concatenated in order; its properties are `CollectedMembership` and `CollectedGrows` |
| `Paging.Dump` | src/greynoise/api.py:124-135 | the outcome of the paging loop: the first failing status raises `RequestFailure`, a last page without `complete` raises `KeyError`, otherwise the lists collected up to and including the first complete page |
| `Api.GreyNoise.PageRequests` | src/greynoise/api.py:124-131 | exactly n requests to the endpoint; the first carries no params, each later one carries `offset` = the previous page's `offset`, or -1 when it had none |
| `Paging.FirstEnd` | src/greynoise/api.py:128-132 | the loop's last request is the first reply that is refused, lacks `complete` or has `complete` true; no earlier reply ends it |
| `Paging.CollectedMembership` | src/greynoise/api.py:125-130 | an address is in the accumulated list exactly when one of the pages read lists it (a missing `noise_ips` counts as empty) |
| `Paging.CollectedGrows` | src/greynoise/api.py:130 | extending the accumulator keeps what earlier pages gave as a prefix |
| `Paging.LaterRepliesIgnored` | src/greynoise/api.py:128-132 | replies after the first complete page are never requested and cannot change the result |
| `Paging.TwoPages` | src/greynoise/api.py:124-135 | an incomplete page followed by a complete one gives the first page's list followed by the second's |
| `Codes.TableCodes` | src/greynoise/api.py:38-60 | the code table holds exactly the nine codes `0x00` to `0x08` |
| `Codes.CodeMessage` | src/greynoise/api.py:151-153 | `CODE_MESSAGES.get(code, UNKNOWN_CODE_MESSAGE.format(code))`; its properties are `FallbackExactlyForUnknown` and `FallbackNamesCode` |
| `Codes.FallbackExactlyForUnknown` | src/greynoise/api.py:150-153 | a known code gets its table message; the message starts with `Code message unknown: ` iff the code is not in the table |
| `Codes.FallbackNamesCode` | src/greynoise/api.py:37 | the fallback message ends with the unknown code as `str()` renders it |
| `Http.PyStr` | src/greynoise/api.py:152 | `str()` of a decoded JSON scalar as `str.format` renders it: `None`, `True`/`False`, the decimal integer, the string itself |
| `Codes.Enrich` | src/greynoise/api.py:150-153 | a result without `code` raises `KeyError`; otherwise exactly `code_message` is added or replaced and every other field is unchanged |
| `Codes.EnrichIdempotent` | src/greynoise/api.py:175-179 | enriching an already enriched result changes nothing |
| `Api.GreyNoise.GetNoiseStatus` | src/greynoise/api.py:137-154 | an invalid address raises `ValueError("Invalid IP address: " + repr)` before any request; otherwise one quick-check request, the status check, then the enriched result |
| `Api.ValidOnly` | src/greynoise/api.py:169-173 | the filtered list holds exactly the addresses `inet_aton` accepts and is no longer than the input |
| `Api.ValidOnlyKeepsOrder` | src/greynoise/api.py:169-173 | the filtered list is a subsequence of the input: order is kept |
| `Api.ValidOnlyAppend` | src/greynoise/api.py:169-173 | filtering a concatenation filters each part |
| `Api.ValidOnlyAllValid` | src/greynoise/api.py:169-173 | a list of valid addresses is sent unchanged |
| `Api.OneValidOneInvalid` | src/greynoise/api.py:169-173 | of one valid and one invalid address, in either order, only the valid one is sent |
| `Api.GreyNoise.GetNoiseStatusBulk` | src/greynoise/api.py:156-180 | a non-list raises `ValueError` and sends nothing; a list sends one request with the filtered addresses; a list of results comes back as `EnrichAll` gives it; an object reply comes back unchanged iff it is empty, and otherwise raises `TypeError` |
| `Api.EnrichResults` | src/greynoise/api.py:175-179 | the loop over the results produces exactly `EnrichAll` of them |
| `Codes.EnrichAll` | src/greynoise/api.py:175-179 | succeeds iff every result has `code`, otherwise raises `KeyError('code')`; the enriched list is as long as the input, and its i-th result is the enrichment of the i-th input |
| `Codes.EnrichAllSuccess` | src/greynoise/api.py:175-179 | when every result has a code, the i-th enriched result is the enrichment of the i-th result |
| `Api.GreyNoise.GetContext` | src/greynoise/api.py:182-195 | an invalid address raises before any request; otherwise one context request, and the accepted reply is returned unchanged |
| `Api.GreyNoise.GetActors` | src/greynoise/api.py:197-206 | one request to `research/actors`; the accepted reply is returned unchanged |
| `Util.DefaultSection` | src/greynoise/util.py:50-52 | the parser's defaults hold exactly `api_key`, `api_server` and `timeout` |
| `Util.Resolved` | src/greynoise/util.py:64-104 | the field-by-field precedence: a set variable over the file, the file over the defaults, and the timeout variable only when it parses; a timeout that does not parse raises `InvalidLiteral` |
| `Util.InvalidLiteral` | src/greynoise/util.py:103 | `int()`'s `ValueError`, whose message ends with the value's `repr`, which reads back as the value |
| `Util.LoadConfig` | src/greynoise/util.py:42-104 | the step-by-step overlay of defaults, file and environment gives the field-by-field precedence `Resolved` |
| `Util.NothingSetGivesDefaults` | src/greynoise/util.py:14-18 | with no file and no variables: api_key "", api_server `https://enterprise.api.greynoise.io`, timeout 60 |
| `Util.EnvironmentOverridesFile` | src/greynoise/util.py:64-80 | a set `GREYNOISE_API_KEY` or `GREYNOISE_API_SERVER` wins over file and default; an unset one leaves the file's or the default value |
| `Util.EnvironmentTimeoutWins` | src/greynoise/util.py:82-98 | a `GREYNOISE_TIMEOUT` that parses becomes the timeout and the load succeeds whatever the file holds |
| `Util.BadEnvironmentTimeoutIgnored` | src/greynoise/util.py:84-92 | a `GREYNOISE_TIMEOUT` that does not parse has no effect and raises nothing |
| `Util.BadFileTimeoutFails` | src/greynoise/util.py:103 | a non-integer file timeout, not overridden, makes the load raise `ValueError` |
| `Util.Saved` | src/greynoise/util.py:114-118 | a dict is written iff it has string `api_key` and `api_server` and some `timeout`; then exactly those three options, the timeout through `str()`; otherwise `KeyError` naming a missing option, or `TypeError` for a non-string value |
| `Util.SaveConfig` | src/greynoise/util.py:114-118 | setting the options one after the other gives `Saved` of the dict, failing at the same point |
| `Util.SaveThenLoad` | src/greynoise/util.py:107-118 | a configuration `load_config` returned is saved without error, and its section, read back as the file's option map with no variables set, loads as the same configuration |
| `Util.KeyOnlyDictFails` | src/greynoise/util.py:116-117 | a dict holding only `api_key` raises `KeyError('api_server')` |
| `Text.IntToString` | src/greynoise/util.py:118 | `str()` of an integer: an optional `-` and decimal digits; `IntRoundTrip` is its partner |
| `Text.ParseInt` | src/greynoise/util.py:85-103 | `int()` of a string: surrounding whitespace, an optional sign, digits grouped by single underscores, `None` for anything else |
| `Text.IntRoundTrip` | src/greynoise/util.py:103 | `int(str(t)) == t`: the timeout written as text reads back as the same integer |
| `Text.Join` | src/greynoise/api.py:89 | `sep.join(parts)`; `JoinThree` states the three-part case the client uses |
| `Text.JoinThree` | src/greynoise/api.py:89 | `sep.join([a, b, c])` is `a + sep + b + sep + c` |
| `Util.ValidateIp` | src/greynoise/util.py:128-146 | returns True iff the address is valid; permissive mode never raises and returns the validity; strict mode raises `ValueError("Invalid IP address: " + repr)` on an invalid address |
| `Util.ModesAgree` | src/greynoise/util.py:138-146 | strict mode succeeds exactly where permissive mode returns True, and permissive mode always returns |
| `PyRepr.Repr` | src/greynoise/util.py:142 | `repr` quotes the address with the quote Python chooses and is at least two characters longer |
| `PyRepr.ReprRoundTrip` | src/greynoise/util.py:142 | the address in the error message reads back as exactly the address given |
| `Dates.FormatDate` | src/greynoise/api.py:120-122 | `%Y-%m-%d` is ten characters with dashes at positions 4 and 7 |
| `Dates.FormatRoundTrip` | src/greynoise/api.py:120-122 | the rendered date reads back as the same date |
| `Dates.FormatInjective` | src/greynoise/api.py:120-122 | different dates give different endpoints |

## Left out

- HTTP transport (`requests.Session`, `session.get`, connection reuse) and `response.json()` decoding: replies are given as parameters, already decoded.
- JSON values other than null, booleans, integers and strings (floats, arrays, objects inside a result); `response.content` is a string, not bytes.
- `Api.GreyNoise.GetNoise`, `Api.GreyNoise.FetchPages`: require that one of the given replies ends the dump, because the real loop only stops when the server says so; non-terminating servers are not modelled.
- `complete` is a boolean in the model; a non-boolean JSON value and its Python truthiness are not modelled, nor a `noise_ips` that is not a list, nor an `offset` that is present but null or not an integer (requests drops a `None` parameter and sends any other value as it is).
- File-system effects (`os.path.isfile`, `open`, `os.makedirs`, writing the file) and the file's path.
- ConfigParser's own rules: parsing the file, option-name case folding, a `[DEFAULT]` section in the file. The file is its parsed option map.
- `Util.SaveThenLoad`: the round trip goes through the section's option map, not through the file text; ConfigParser strips whitespace around a value when it reads it back, so an `api_key` of `" k "` would load as `"k"`, and multi-line values are not modelled.
- `Util.SaveConfig`, `Util.LoadConfig`: ConfigParser's `%` interpolation is not modelled; `set` raises `ValueError` for a value with a lone `%` (in `save_config`, and for the environment values at src/greynoise/util.py:70 and 80), and reading such a value raises as well.
- `Util.SaveConfig`: values of the dict are JSON scalars; other Python objects passed as `timeout` and their `str()` are not modelled.
- `Util.InvalidLiteral`: CPython formats the value with `%.200R`, so a file timeout whose `repr` is longer than 200 characters gets a truncated message; the model quotes it in full.
- Logging (`configure_logging`, structlog, `LOGGER.*`): side effects only.
- The IPv4 grammar of `socket.inet_aton`: a parameter of the model.
- `Util.ValidateIp`, `Util.ModesAgree`, `Api.ValidOnly`: `socket.inet_aton` raises `ValueError` for an address with an embedded NUL character and `TypeError` for a non-string; neither is `socket.error`, so `validate_ip` does not catch them, even in permissive mode. The model treats every string as accepted or refused and has no non-string addresses.
- The wording of the `TypeError` for a non-empty object reply is that of CPython 3.11 and later; earlier versions say `string indices must be integers`.
- `Text.ParseInt`, `Text.IntToString`: CPython's limit on integer string conversion is not modelled. Since 3.11, and in the 3.7.14, 3.8.14, 3.9.14 and 3.10.7 releases, `int()` and `str()` raise `ValueError` beyond 4300 digits. So a longer `GREYNOISE_TIMEOUT` is ignored (src/greynoise/util.py:84-92), a longer file timeout fails `getint` with that message rather than `Util.InvalidLiteral` (util.py:103), and `str()` of such an integer raises at util.py:118 and api.py:152. The model accepts and renders integers of any length.
- `Text.ParseInt`: models `int()` for ASCII whitespace, an optional sign, and digits grouped by single underscores; Unicode digits and Unicode whitespace are not modelled.
- `PyRepr.Repr`: escapes backslash, the quote, `\t`, `\n`, `\r` and other ASCII control characters as Python does; escapes of non-printable non-ASCII characters are not modelled.
- `Dates.FormatDate`: always pads the year to four digits; some platforms' `strftime` print years below 1000 with fewer digits.
- `get_actors` payload shape: returned as received, of any type.
- The `RequestFailure` class itself: src/greynoise/exceptions.py is not part of this model; the exception is its two arguments.
- The command-line interface and its tests. Its `setup` command passes `save_config` a dict with only `api_key`, which `Util.KeyOnlyDictFails` shows raises `KeyError('api_server')`.
