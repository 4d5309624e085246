/**
 * The pages of the bulk noise dump and what `get_noise` makes of them.
 *
 * The server is a finite sequence of replies: reply `i` answers the `i`-th
 * request of one `get_noise` call.
 */
module Paging {
  import opened Wrappers
  import opened Errors
  import opened Http

  /** The fields of a bulk-dump page the client reads; `None` for a field the page lacks. */
  datatype NoisePage = NoisePage(noiseIps: Option<seq<string>>, offset: Option<int>, complete: Option<bool>)

  /** `response.get("noise_ips", [])`. */
  function IpsOf(p: NoisePage): seq<string> {
    p.noiseIps.GetOr([])
  }

  /** `response.get("offset", -1)`: the offset the next request carries. */
  function NextOffset(p: NoisePage): int {
    p.offset.GetOr(-1)
  }

  /** A reply after which no further page is requested: a rejected status, or `complete` missing or true. */
  predicate Ends(r: Reply<NoisePage>) {
    !StatusOk(r.status) || r.payload.complete != Some(false)
  }

  predicate HasEnd(pages: seq<Reply<NoisePage>>) {
    exists i :: 0 <= i < |pages| && Ends(pages[i])
  }

  /** The first reply at or after `from` that ends the dump. */
  function FirstEndFrom(pages: seq<Reply<NoisePage>>, from: nat): (k: nat)
    requires exists i :: from <= i < |pages| && Ends(pages[i])
    ensures from <= k < |pages| && Ends(pages[k])
    ensures forall j :: from <= j < k ==> !Ends(pages[j])
    decreases |pages| - from
  {
    if Ends(pages[from]) then from else FirstEndFrom(pages, from + 1)
  }

  /** The index of the last reply `get_noise` requests. */
  function FirstEnd(pages: seq<Reply<NoisePage>>): (k: nat)
    requires HasEnd(pages)
    ensures k < |pages| && Ends(pages[k])
    ensures forall j :: 0 <= j < k ==> !Ends(pages[j])
  {
    FirstEndFrom(pages, 0)
  }

  /** A reply that ends the dump, and comes no later than the first one that does, is the first one. */
  lemma EndsAtFirst(pages: seq<Reply<NoisePage>>, i: nat)
    requires HasEnd(pages) && i <= FirstEnd(pages) && Ends(pages[i])
    ensures i == FirstEnd(pages)
  {
  }

  /** The `noise_ips` lists of the first `n` replies, concatenated in order. */
  function Collected(pages: seq<Reply<NoisePage>>, n: nat): seq<string>
    requires n <= |pages|
  {
    if n == 0 then [] else Collected(pages, n - 1) + IpsOf(pages[n - 1].payload)
  }

  /** What `get_noise` returns or raises once the date is accepted. */
  function Dump(pages: seq<Reply<NoisePage>>): Result<seq<string>, Error>
    requires HasEnd(pages)
  {
    var k := FirstEnd(pages);
    var last := pages[k];
    if !StatusOk(last.status) then Err(RequestFailure(last.status, last.content))
    else if last.payload.complete.None? then Err(KeyError("complete"))
    else Ok(Collected(pages, k + 1))
  }

  /** An address is in the dump exactly when one of the pages it was built from lists it. */
  lemma {:induction false} CollectedMembership(pages: seq<Reply<NoisePage>>, n: nat, ip: string)
    requires n <= |pages|
    ensures ip in Collected(pages, n) <==> exists j :: 0 <= j < n && ip in IpsOf(pages[j].payload)
  {
    if n > 0 {
      CollectedMembership(pages, n - 1, ip);
    }
  }

  /** The accumulator only grows: what fewer pages gave is a prefix of what more pages give. */
  lemma {:induction false} CollectedGrows(pages: seq<Reply<NoisePage>>, m: nat, n: nat)
    requires m <= n <= |pages|
    ensures Collected(pages, m) <= Collected(pages, n)
    decreases n - m
  {
    if m < n {
      CollectedGrows(pages, m, n - 1);
    }
  }

  /** The dump depends only on the first `n` replies when `n` covers them. */
  lemma {:induction false} CollectedPrefix(pages: seq<Reply<NoisePage>>, more: seq<Reply<NoisePage>>, n: nat)
    requires n <= |pages|
    ensures Collected(pages + more, n) == Collected(pages, n)
  {
    if n > 0 {
      CollectedPrefix(pages, more, n - 1);
      assert (pages + more)[n - 1] == pages[n - 1];
    }
  }

  /** Replies after the first ending one are never requested, so they cannot change the outcome. */
  lemma LaterRepliesIgnored(pages: seq<Reply<NoisePage>>, more: seq<Reply<NoisePage>>)
    requires HasEnd(pages)
    ensures HasEnd(pages + more) && FirstEnd(pages + more) == FirstEnd(pages)
    ensures Dump(pages + more) == Dump(pages)
  {
    var k := FirstEnd(pages);
    var all := pages + more;
    assert all[k] == pages[k];
    assert HasEnd(all);
    assert forall j :: 0 <= j < k ==> all[j] == pages[j];
    CollectedPrefix(pages, more, k + 1);
  }

  /** Two successful pages, the first incomplete and the second complete, give both lists in order. */
  lemma TwoPages(first: seq<string>, second: seq<string>, offset: Option<int>)
    ensures var pages := [Reply(200, "", NoisePage(Some(first), offset, Some(false))),
                          Reply(200, "", NoisePage(Some(second), None, Some(true)))];
            HasEnd(pages) && Dump(pages) == Ok(first + second)
  {
    var pages := [Reply(200, "", NoisePage(Some(first), offset, Some(false))),
                  Reply(200, "", NoisePage(Some(second), None, Some(true)))];
    assert Ends(pages[1]) && !Ends(pages[0]);
    assert FirstEnd(pages) == 1;
    assert IpsOf(pages[0].payload) == first && IpsOf(pages[1].payload) == second;
    assert Collected(pages, 1) == Collected(pages, 0) + first == first;
    assert Collected(pages, 2) == Collected(pages, 1) + second;
  }
}
