/** The quick-check status codes and the `code_message` the client adds to each result. */
module Codes {
  import opened Wrappers
  import opened Errors
  import opened Http

  /**
   * `GreyNoise.CODE_MESSAGES`. Each message is written as its first word and
   * the rest, which lets the verifier see how it starts.
   */
  const CodeMessages: map<string, string> := map[
    "0x00" := "IP " + "has never been observed scanning the Internet",
    "0x01" := "IP " + "has been observed by the GreyNoise sensor network",
    "0x02" := "IP " + "has been observed scanning the GreyNoise sensor network, "
              + "but has not completed a full connection, meaning this can be spoofed",
    "0x03" := "IP " + "is adjacent to another host that has been directly observed "
              + "by the GreyNoise sensor network",
    "0x04" := "RESERVED",
    "0x05" := "IP " + "is commonly spoofed in Internet-scan activity",
    "0x06" := "IP " + "has been observed as noise, but this host belongs to a cloud provider "
              + "where IPs can be cycled frequently",
    "0x07" := "IP " + "is invalid",
    "0x08" := "IP " + "was classified as noise, but has not been observed "
              + "engaging in Internet-wide scans or attacks in over 60 days"
  ]

  /** The text before `{}` in `GreyNoise.UNKNOWN_CODE_MESSAGE`. */
  const UnknownCodePrefix := "Code message unknown: "

  predicate IsKnown(code: Json) {
    code.JStr? && code.s in CodeMessages
  }

  /** `CODE_MESSAGES.get(code, UNKNOWN_CODE_MESSAGE.format(code))`. */
  function CodeMessage(code: Json): string {
    if IsKnown(code) then CodeMessages[code.s] else UnknownCodePrefix + PyStr(code)
  }

  /** The table holds exactly the nine codes `0x00` to `0x08`. */
  lemma TableCodes()
    ensures CodeMessages.Keys == {"0x00", "0x01", "0x02", "0x03", "0x04", "0x05", "0x06", "0x07", "0x08"}
  {
  }

  /** No table message starts like the fallback, so a message tells whether its code was known. */
  lemma FallbackExactlyForUnknown(code: Json)
    ensures UnknownCodePrefix <= CodeMessage(code) <==> !IsKnown(code)
    ensures IsKnown(code) ==> CodeMessage(code) == CodeMessages[code.s]
  {
    if IsKnown(code) {
      var c, m := code.s, CodeMessages[code.s];
      TableCodes();
      KeysDiffer();
      assert m[0] == 'I' || m[0] == 'R';
      assert UnknownCodePrefix[0] == 'C';
    }
  }

  /** The last characters of the nine codes differ, so the codes are nine distinct keys. */
  lemma KeysDiffer()
    ensures "0x00"[3] == '0' && "0x01"[3] == '1' && "0x02"[3] == '2' && "0x03"[3] == '3' && "0x04"[3] == '4'
    ensures "0x05"[3] == '5' && "0x06"[3] == '6' && "0x07"[3] == '7' && "0x08"[3] == '8'
  {
  }

  /** The fallback message carries the unknown code, rendered by `str()`, after its prefix. */
  lemma FallbackNamesCode(code: Json)
    requires !IsKnown(code)
    ensures CodeMessage(code)[|UnknownCodePrefix|..] == PyStr(code)
  {
  }

  /** `result["code_message"] = ...` after reading `result["code"]`: the enrichment of one result. */
  function Enrich(result: Record): (r: Result<Record, Error>)
    ensures r.Ok? <==> "code" in result
    ensures r.Err? ==> r.error == KeyError("code")
    ensures r.Ok? ==> r.value.Keys == result.Keys + {"code_message"}
    ensures r.Ok? ==> r.value["code_message"] == JStr(CodeMessage(result["code"]))
    ensures r.Ok? ==> forall f :: f in result && f != "code_message" ==> r.value[f] == result[f]
  {
    if "code" in result then Ok(result["code_message" := JStr(CodeMessage(result["code"]))])
    else Err(KeyError("code"))
  }

  /** Enriching an enriched result changes nothing. */
  lemma EnrichIdempotent(result: Record)
    requires Enrich(result).Ok?
    ensures Enrich(Enrich(result).value) == Enrich(result)
  {
    var e := Enrich(result).value;
    assert e["code"] == result["code"];
    assert e["code_message" := JStr(CodeMessage(e["code"]))] == e;
  }

  /** The results of the multi quick check with `code_message` added to each, or the `KeyError` of the first without `code`. */
  function EnrichAll(results: seq<Record>): (r: Result<seq<Record>, Error>)
    ensures r.Ok? <==> forall i :: 0 <= i < |results| ==> "code" in results[i]
    ensures r.Err? ==> r.error == KeyError("code")
    ensures r.Ok? ==> |r.value| == |results|
    ensures r.Ok? ==> forall i :: 0 <= i < |results| ==> Enrich(results[i]) == Ok(r.value[i])
  {
    if |results| == 0 then Ok([])
    else
      var first := Enrich(results[0]);
      if first.Err? then Err(first.error)
      else
        var rest := EnrichAll(results[1..]);
        if rest.Err? then Err(rest.error) else Ok([first.value] + rest.value)
  }

  /** When every result has a code, the enriched list is the results enriched one by one, in order. */
  lemma {:induction false} EnrichAllSuccess(results: seq<Record>, enriched: seq<Record>)
    requires |enriched| == |results|
    requires forall i :: 0 <= i < |results| ==> Enrich(results[i]) == Ok(enriched[i])
    ensures EnrichAll(results) == Ok(enriched)
    decreases |results|
  {
    if |results| > 0 {
      assert Enrich(results[0]) == Ok(enriched[0]);
      forall i | 0 <= i < |results| - 1
        ensures Enrich(results[1..][i]) == Ok(enriched[1..][i])
      {
        assert results[1..][i] == results[i + 1] && enriched[1..][i] == enriched[i + 1];
      }
      EnrichAllSuccess(results[1..], enriched[1..]);
      assert enriched == [enriched[0]] + enriched[1..];
    }
  }
}
