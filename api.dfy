/**
 * The GreyNoise API client.
 *
 * Each operation receives the server's replies as parameters and returns,
 * beside its result, the requests it sent, in order; an operation that fails
 * before reaching the network sends none. `inetAton` stands for whether
 * `socket.inet_aton` accepts an address.
 */
module Api {
  import opened Wrappers
  import opened Errors
  import opened Text
  import opened Http
  import opened Paging
  import opened Codes
  import opened Dates
  import Util
  import PyRepr

  const BaseUrl := "https://enterprise.api.greynoise.io"
  const ClientVersion := 1
  const ApiVersion := "v2"
  const EpNoiseBulk := "noise/bulk"
  const EpNoiseMulti := "noise/multi/quick"
  const EpResearchActors := "research/actors"

  /** The default of `GreyNoise(timeout=...)`, in seconds. */
  const DefaultTimeout := 7

  /** `EP_NOISE_BULK_DATE.format(date=...)`. */
  function EpNoiseBulkDate(date: string): string { "noise/bulk/" + date }

  /** `EP_NOISE_QUICK.format(ip_address=...)`. */
  function EpNoiseQuick(ip: string): string { "noise/quick/" + ip }

  /** `EP_NOISE_CONTEXT.format(ip_address=...)`. */
  function EpNoiseContext(ip: string): string { "noise/context/" + ip }

  /** The `date` argument of `get_noise`: absent, a `datetime.date`, or any other object. */
  datatype DateArg = NoDate | OnDate(date: CalendarDate) | NotADate

  /** The `ip_addresses` argument of `get_noise_status_bulk`: a list, or any other object. */
  datatype IpArg = IpList(items: seq<string>) | NotAList

  const DateTypeMessage := "date argument must be an instance of datetime.date"
  const IpListTypeMessage := "`ip_addresses` must be a list"

  /** The `TypeError` of indexing a `str` with a `str`, as in `"error"["code"]`. */
  const StrIndexMessage := "string indices must be integers, not 'str'"

  /**
   * The decoded reply of the multi quick check: a JSON array of results, or
   * a JSON object (the server's `{"error": ...}` answer), whose iteration
   * yields its keys.
   */
  datatype BulkReply = Results(items: seq<Record>) | Object(fields: Record)

  /** `"/".join([BASE_URL, API_VERSION, endpoint])`. */
  function Url(endpoint: string): (u: string)
    ensures u == BaseUrl + "/" + ApiVersion + "/" + endpoint
  {
    JoinThree("/", BaseUrl, ApiVersion, endpoint);
    Join("/", [BaseUrl, ApiVersion, endpoint])
  }

  /** The endpoint `get_noise` pages through for an accepted date argument. */
  function NoiseEndpoint(date: DateArg): (e: string)
    requires !date.NotADate?
    ensures date.NoDate? ==> e == EpNoiseBulk
    ensures date.OnDate? ==> |e| == |EpNoiseBulk| + 11 && e[..|EpNoiseBulk| + 1] == EpNoiseBulk + "/"
    ensures date.OnDate? ==> ParseDate(e[|EpNoiseBulk| + 1..]) == Some(date.date)
  {
    match date
    case NoDate => EpNoiseBulk
    case OnDate(d) =>
      FormatRoundTrip(d);
      var e := EpNoiseBulkDate(FormatDate(d));
      assert e[|EpNoiseBulk| + 1..] == FormatDate(d);
      e
  }

  /** `[ip for ip in ips if validate_ip(ip, strict=False)]`. */
  function ValidOnly(ips: seq<string>, inetAton: string -> bool): (r: seq<string>)
    ensures |r| <= |ips|
    ensures forall ip :: ip in r <==> ip in ips && inetAton(ip)
  {
    if ips == [] then []
    else
      (if Util.ValidateIp(ips[0], false, inetAton) == Ok(true) then [ips[0]] else [])
      + ValidOnly(ips[1..], inetAton)
  }

  /** `a` is `b` with some elements left out, the rest kept in order. */
  predicate IsSubsequence(a: seq<string>, b: seq<string>)
    decreases |b|
  {
    if b == [] then a == []
    else (a != [] && a[0] == b[0] && IsSubsequence(a[1..], b[1..])) || IsSubsequence(a, b[1..])
  }

  /** The filter keeps the valid addresses in their original order. */
  lemma {:induction false} ValidOnlyKeepsOrder(ips: seq<string>, inetAton: string -> bool)
    ensures IsSubsequence(ValidOnly(ips, inetAton), ips)
  {
    if ips != [] {
      ValidOnlyKeepsOrder(ips[1..], inetAton);
      var r, rest := ValidOnly(ips, inetAton), ValidOnly(ips[1..], inetAton);
      if inetAton(ips[0]) {
        assert r == [ips[0]] + rest && r[1..] == rest;
      } else {
        assert r == [] + rest == rest;
      }
    }
  }

  /** Filtering a concatenation filters each part. */
  lemma {:induction false} ValidOnlyAppend(a: seq<string>, b: seq<string>, inetAton: string -> bool)
    ensures ValidOnly(a + b, inetAton) == ValidOnly(a, inetAton) + ValidOnly(b, inetAton)
  {
    if a == [] {
      assert a + b == b;
    } else {
      assert (a + b)[1..] == a[1..] + b;
      ValidOnlyAppend(a[1..], b, inetAton);
      var head := if inetAton(a[0]) then [a[0]] else [];
      calc {
        ValidOnly(a + b, inetAton);
        head + ValidOnly(a[1..] + b, inetAton);
        head + (ValidOnly(a[1..], inetAton) + ValidOnly(b, inetAton));
        (head + ValidOnly(a[1..], inetAton)) + ValidOnly(b, inetAton);
      }
    }
  }

  /** A list of valid addresses goes through unchanged. */
  lemma {:induction false} ValidOnlyAllValid(ips: seq<string>, inetAton: string -> bool)
    requires forall i :: 0 <= i < |ips| ==> inetAton(ips[i])
    ensures ValidOnly(ips, inetAton) == ips
  {
    if ips != [] {
      ValidOnlyAllValid(ips[1..], inetAton);
    }
  }

  /** One valid and one invalid address, in either order: only the valid one is sent. */
  lemma OneValidOneInvalid(good: string, bad: string, inetAton: string -> bool)
    requires inetAton(good) && !inetAton(bad)
    ensures ValidOnly([good, bad], inetAton) == [good]
    ensures ValidOnly([bad, good], inetAton) == [good]
  {
    assert [good, bad][1..] == [bad];
    assert [bad, good][1..] == [good];
    assert ValidOnly([bad], inetAton) == [] + ValidOnly([], inetAton);
    assert ValidOnly([good], inetAton) == [good] + ValidOnly([], inetAton);
  }

  /**
   * The loop of `get_noise_status_bulk` over a list of results: adds
   * `code_message` to each result in turn, and stops at the first result
   * without `code`.
   */
  method EnrichResults(results: seq<Record>) returns (r: Result<seq<Record>, Error>)
    ensures r == EnrichAll(results)
  {
    var items := results;
    var i := 0;
    while i < |items|
      invariant 0 <= i <= |items| == |results|
      invariant forall j :: 0 <= j < i ==> Enrich(results[j]) == Ok(items[j])
      invariant forall j :: i <= j < |items| ==> items[j] == results[j]
    {
      var result := items[i];
      if "code" !in result {
        return Err(KeyError("code"));
      }
      var code := result["code"];
      items := items[i := result["code_message" := JStr(CodeMessage(code))]];
      i := i + 1;
    }
    EnrichAllSuccess(results, items);
    r := Ok(items);
  }

  /** `GreyNoise`: a client bound to one API key and one timeout. */
  class GreyNoise {
    const apiKey: string
    const timeout: int

    constructor (apiKey: string, timeout: int)
      ensures this.apiKey == apiKey && this.timeout == timeout
    {
      this.apiKey := apiKey;
      this.timeout := timeout;
    }

    /**
     * `GreyNoise(api_key=None, timeout=7)`: without a key, the key comes from
     * `load_config()` (whose failure propagates); the timeout is always the
     * argument, never the configured one.
     */
    static method Create(file: Option<Util.Section>, env: Util.Section,
                         apiKey: Option<string> := None, timeout: int := DefaultTimeout)
      returns (r: Result<GreyNoise, Error>)
      ensures apiKey.Some? ==> r.Ok? && r.value.apiKey == apiKey.value
      ensures apiKey.None? ==> (r.Ok? <==> Util.Resolved(file, env).Ok?)
      ensures apiKey.None? && r.Ok? ==> r.value.apiKey == Util.Resolved(file, env).value.apiKey
      ensures r.Err? ==> r == Err(Util.Resolved(file, env).error)
      ensures r.Ok? ==> r.value.timeout == timeout
    {
      var key: string;
      if apiKey.None? {
        var config := Util.LoadConfig(file, env);
        if config.Err? {
          return Err(config.error);
        }
        key := config.value.apiKey;
      } else {
        key := apiKey.value;
      }
      var client := new GreyNoise(key, timeout);
      r := Ok(client);
    }

    /** `GreyNoise()`: the configured key and a seven-second timeout, even when the configuration sets another. */
    static method FromConfig(file: Option<Util.Section>, env: Util.Section) returns (r: Result<GreyNoise, Error>)
      ensures r.Ok? <==> Util.Resolved(file, env).Ok?
      ensures r.Ok? ==> r.value.apiKey == Util.Resolved(file, env).value.apiKey && r.value.timeout == 7
    {
      r := Create(file, env);
    }

    /** The two headers every request carries. */
    function Headers(): (h: map<string, string>)
      ensures h.Keys == {"X-Request-Client", "key"}
      ensures h["X-Request-Client"] == "pyGreyNoise v1" && h["key"] == apiKey
    {
      assert IntToString(ClientVersion) == "1";
      map["X-Request-Client" := "pyGreyNoise v" + IntToString(ClientVersion), "key" := apiKey]
    }

    /** The request `_request` sends for an endpoint, query parameters and body. */
    function RequestFor(endpoint: string, params: map<string, int>, ips: Option<seq<string>>): HttpRequest {
      HttpRequest(Url(endpoint), Headers(), timeout, params, ips)
    }

    /**
     * `_request(endpoint, params, json)`: sends one request and accepts the
     * reply only when its status is in `range(200, 299)`, so 299 is refused.
     */
    method Request<T>(endpoint: string, params: Option<map<string, int>>, ips: Option<seq<string>>, reply: Reply<T>)
      returns (sent: HttpRequest, r: Result<T, Error>)
      ensures sent == RequestFor(endpoint, params.GetOr(map[]), ips)
      ensures r.Ok? <==> 200 <= reply.status <= 298
      ensures r.Ok? ==> r.value == reply.payload
      ensures r.Err? ==> r.error == RequestFailure(reply.status, reply.content)
    {
      var query := if params.None? then map[] else params.value;
      sent := HttpRequest(Url(endpoint), Headers(), timeout, query, ips);
      if !StatusOk(reply.status) {
        return sent, Err(RequestFailure(reply.status, reply.content));
      }
      r := Ok(reply.payload);
    }

    /**
     * The first `n` requests of a `get_noise` run: the first without query
     * parameters, each later one with the offset of the page before it
     * (-1 when that page had none).
     */
    function PageRequests(endpoint: string, pages: seq<Reply<NoisePage>>, n: nat): (s: seq<HttpRequest>)
      requires 1 <= n <= |pages|
      ensures |s| == n && s[0] == RequestFor(endpoint, map[], None)
      ensures forall j :: 1 <= j < n ==>
                s[j] == RequestFor(endpoint, map["offset" := NextOffset(pages[j - 1].payload)], None)
    {
      if n == 1 then [RequestFor(endpoint, map[], None)]
      else PageRequests(endpoint, pages, n - 1) + [RequestFor(endpoint, map["offset" := NextOffset(pages[n - 2].payload)], None)]
    }

    /**
     * `get_noise(date)`: refuses a date argument that is not a date before
     * sending anything; otherwise fetches the dump from the endpoint the
     * date selects.
     */
    method GetNoise(date: DateArg, pages: seq<Reply<NoisePage>>)
      returns (sent: seq<HttpRequest>, r: Result<seq<string>, Error>)
      requires date.NotADate? || HasEnd(pages)
      ensures date.NotADate? ==> sent == [] && r == Err(ValueError(DateTypeMessage))
      ensures !date.NotADate? ==> sent == PageRequests(NoiseEndpoint(date), pages, FirstEnd(pages) + 1)
      ensures !date.NotADate? ==> r == Dump(pages)
    {
      if date.NotADate? {
        return [], Err(ValueError(DateTypeMessage));
      }
      sent, r := FetchPages(NoiseEndpoint(date), pages);
    }

    /**
     * The paging loop of `get_noise`: requests pages until one says
     * `complete`, each follow-up carrying the previous page's offset (-1 when
     * it had none), and returns every page's addresses in page order.
     */
    method FetchPages(endpoint: string, pages: seq<Reply<NoisePage>>)
      returns (sent: seq<HttpRequest>, r: Result<seq<string>, Error>)
      requires HasEnd(pages)
      ensures sent == PageRequests(endpoint, pages, FirstEnd(pages) + 1)
      ensures r == Dump(pages)
    {
      ghost var k := FirstEnd(pages);
      var request, response := Request(endpoint, None, None, pages[0]);
      sent := [request];
      if response.Err? || response.value.complete.None? {
        EndsAtFirst(pages, 0);
        return sent, if response.Err? then Err(response.error) else Err(KeyError("complete"));
      }
      var page := response.value;
      var noiseIps := IpsOf(page);
      var offset := NextOffset(page);
      var complete := page.complete.value;
      var i := 1;
      while !complete
        invariant 1 <= i <= k + 1
        invariant complete ==> i == k + 1
        invariant !complete ==> i <= k
        invariant noiseIps == Collected(pages, i)
        invariant offset == NextOffset(pages[i - 1].payload)
        invariant StatusOk(pages[i - 1].status) && pages[i - 1].payload.complete == Some(complete)
        invariant sent == PageRequests(endpoint, pages, i)
        decreases k + 1 - i
      {
        request, response := Request(endpoint, Some(map["offset" := offset]), None, pages[i]);
        sent := sent + [request];
        if response.Err? || response.value.complete.None? {
          EndsAtFirst(pages, i);
          return sent, if response.Err? then Err(response.error) else Err(KeyError("complete"));
        }
        page := response.value;
        noiseIps := noiseIps + IpsOf(page);
        offset := NextOffset(page);
        complete := page.complete.value;
        if complete {
          EndsAtFirst(pages, i);
        }
        i := i + 1;
      }
      r := Ok(noiseIps);
    }

    /**
     * `get_noise_status(ip_address)`: validates strictly before sending
     * anything, then adds `code_message` to the result.
     */
    method GetNoiseStatus(ip: string, inetAton: string -> bool, reply: Reply<Record>)
      returns (sent: seq<HttpRequest>, r: Result<Record, Error>)
      ensures !inetAton(ip) ==> sent == [] && r == Err(ValueError("Invalid IP address: " + PyRepr.Repr(ip)))
      ensures inetAton(ip) ==> sent == [RequestFor(EpNoiseQuick(ip), map[], None)]
      ensures inetAton(ip) && !StatusOk(reply.status) ==> r == Err(RequestFailure(reply.status, reply.content))
      ensures inetAton(ip) && StatusOk(reply.status) ==> r == Enrich(reply.payload)
    {
      var valid := Util.ValidateIp(ip, true, inetAton);
      if valid.Err? {
        return [], Err(valid.error);
      }
      var request, response := Request(EpNoiseQuick(ip), None, None, reply);
      sent := [request];
      if response.Err? {
        return sent, Err(response.error);
      }
      var result := response.value;
      if "code" !in result {
        return sent, Err(KeyError("code"));
      }
      var code := result["code"];
      result := result["code_message" := JStr(CodeMessage(code))];
      r := Ok(result);
    }

    /**
     * `get_noise_status_bulk(ip_addresses)`: refuses a non-list before
     * sending anything and sends only the valid addresses, in order. A list
     * of results gets `code_message` added to every result; an object reply
     * is iterated by key, so it comes back as it is only when it is empty.
     */
    method GetNoiseStatusBulk(ips: IpArg, inetAton: string -> bool, reply: Reply<BulkReply>)
      returns (sent: seq<HttpRequest>, r: Result<BulkReply, Error>)
      ensures ips.NotAList? ==> sent == [] && r == Err(ValueError(IpListTypeMessage))
      ensures ips.IpList? ==> sent == [RequestFor(EpNoiseMulti, map[], Some(ValidOnly(ips.items, inetAton)))]
      ensures ips.IpList? && !StatusOk(reply.status) ==> r == Err(RequestFailure(reply.status, reply.content))
      ensures ips.IpList? && StatusOk(reply.status) && reply.payload.Results? ==>
                (r.Ok? <==> EnrichAll(reply.payload.items).Ok?)
      ensures ips.IpList? && StatusOk(reply.status) && reply.payload.Results? && r.Ok? ==>
                r.value == Results(EnrichAll(reply.payload.items).value)
      ensures ips.IpList? && StatusOk(reply.status) && reply.payload.Results? && r.Err? ==>
                r.error == EnrichAll(reply.payload.items).error
      ensures ips.IpList? && StatusOk(reply.status) && reply.payload.Object? ==>
                (r.Ok? <==> reply.payload.fields == map[])
      ensures ips.IpList? && StatusOk(reply.status) && reply.payload.Object? && r.Ok? ==> r.value == reply.payload
      ensures ips.IpList? && StatusOk(reply.status) && reply.payload.Object? && r.Err? ==>
                r.error == TypeError(StrIndexMessage)
    {
      if ips.NotAList? {
        return [], Err(ValueError(IpListTypeMessage));
      }
      var valid := ValidOnly(ips.items, inetAton);
      var request, response := Request(EpNoiseMulti, None, Some(valid), reply);
      sent := [request];
      if response.Err? {
        return sent, Err(response.error);
      }
      match response.value
      case Object(fields) =>
        if fields != map[] {
          return sent, Err(TypeError(StrIndexMessage));
        }
        r := Ok(response.value);
      case Results(items) =>
        var enriched := EnrichResults(items);
        r := if enriched.Err? then Err(enriched.error) else Ok(Results(enriched.value));
    }

    /** `get_context(ip_address)`: validates strictly before sending anything; the reply is returned as it is. */
    method GetContext(ip: string, inetAton: string -> bool, reply: Reply<Record>)
      returns (sent: seq<HttpRequest>, r: Result<Record, Error>)
      ensures !inetAton(ip) ==> sent == [] && r == Err(ValueError("Invalid IP address: " + PyRepr.Repr(ip)))
      ensures inetAton(ip) ==> sent == [RequestFor(EpNoiseContext(ip), map[], None)]
      ensures inetAton(ip) && !StatusOk(reply.status) ==> r == Err(RequestFailure(reply.status, reply.content))
      ensures inetAton(ip) && StatusOk(reply.status) ==> r == Ok(reply.payload)
    {
      var valid := Util.ValidateIp(ip, true, inetAton);
      if valid.Err? {
        return [], Err(valid.error);
      }
      var request, response := Request(EpNoiseContext(ip), None, None, reply);
      sent := [request];
      r := response;
    }

    /** `get_actors()`: one request to the actors endpoint; the reply is returned as it is. */
    method GetActors<T>(reply: Reply<T>) returns (sent: seq<HttpRequest>, r: Result<T, Error>)
      ensures sent == [RequestFor(EpResearchActors, map[], None)]
      ensures !StatusOk(reply.status) ==> r == Err(RequestFailure(reply.status, reply.content))
      ensures StatusOk(reply.status) ==> r == Ok(reply.payload)
    {
      var request, response := Request(EpResearchActors, None, None, reply);
      sent := [request];
      r := response;
    }
  }
}
