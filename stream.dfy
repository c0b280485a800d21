/** `downloadStream`: fetch parts `startPosition..end` one after the other
    and append each body to the output, in index order. */
module Stream {
  import opened Types
  import opened Io

  /** The last index the download visits: the last part of the playlist
      when the end position is -1 (the command-line default), otherwise the
      end position itself. */
  function EndIndex(count: nat, endPosition: int): int {
    if endPosition == -1 then count - 1 else endPosition
  }

  /** Parts `lo..hi-1` exist and the server answers each with a body. */
  predicate Fetched(playlist: seq<Url>, fetch: Url -> Fetch, lo: nat, hi: nat) {
    hi <= |playlist| && forall j :: lo <= j < hi ==> fetch(playlist[j]).Body?
  }

  /** The bodies of parts `lo..hi-1`, concatenated in index order. */
  function Bodies(playlist: seq<Url>, fetch: Url -> Fetch, lo: nat, hi: nat): seq<byte>
    requires lo <= hi && Fetched(playlist, fetch, lo, hi)
    decreases hi - lo
  {
    if lo == hi then []
    else fetch(playlist[lo]).bytes + Bodies(playlist, fetch, lo + 1, hi)
  }

  /** The concatenation of a range is the concatenation of its two halves. */
  lemma {:induction false} BodiesSplit(playlist: seq<Url>, fetch: Url -> Fetch, lo: nat, mid: nat, hi: nat)
    requires lo <= mid <= hi && Fetched(playlist, fetch, lo, hi)
    ensures Bodies(playlist, fetch, lo, hi)
         == Bodies(playlist, fetch, lo, mid) + Bodies(playlist, fetch, mid, hi)
    decreases mid - lo
  {
    if lo < mid {
      BodiesSplit(playlist, fetch, lo + 1, mid, hi);
    }
  }

  /** What a download loop does: the URLs it requests in order, the bytes
      it writes in order, and the failure that stopped it, if any. */
  datatype Transfer = Transfer(requested: seq<Url>, written: seq<byte>, failure: Option<Failure>)

  /** The download loop from index `i` to `end` inclusive. An index outside
      the playlist stops it (the source's slice index panics there); a
      transport error stops it after the request. */
  function StreamFrom(playlist: seq<Url>, fetch: Url -> Fetch, i: int, end: int): Transfer
    decreases end - i
  {
    if i > end then Transfer([], [], None)
    else if i < 0 || i >= |playlist| then Transfer([], [], Some(IndexOutOfRange(i)))
    else
      match fetch(playlist[i])
      case TransportError => Transfer([playlist[i]], [], Some(TransportFailed(i)))
      case Body(bs) =>
        var rest := StreamFrom(playlist, fetch, i + 1, end);
        Transfer([playlist[i]] + rest.requested, bs + rest.written, rest.failure)
  }

  /** When every part in range is served, the loop requests parts
      `start..end` each exactly once in increasing order, writes their bodies
      in that order, and finishes without failure. */
  lemma {:induction false} StreamAllFetched(playlist: seq<Url>, fetch: Url -> Fetch, start: nat, end: int)
    requires start <= end + 1 && end < |playlist|
    requires Fetched(playlist, fetch, start, end + 1)
    ensures StreamFrom(playlist, fetch, start, end)
         == Transfer(playlist[start..end + 1], Bodies(playlist, fetch, start, end + 1), None)
    decreases end - start
  {
    if start <= end {
      StreamAllFetched(playlist, fetch, start + 1, end);
      SliceCons(playlist, start, end + 1);
    }
  }

  /** A transport error on part `k` stops the loop there: the output has
      gained exactly the bodies of parts `start..k-1`, so every part is
      either written whole or not at all. */
  lemma {:induction false} StreamStopsAtFailure(playlist: seq<Url>, fetch: Url -> Fetch, start: nat, k: nat, end: int)
    requires start <= k <= end && end < |playlist|
    requires Fetched(playlist, fetch, start, k) && fetch(playlist[k]).TransportError?
    ensures StreamFrom(playlist, fetch, start, end)
         == Transfer(playlist[start..k + 1], Bodies(playlist, fetch, start, k), Some(TransportFailed(k)))
    decreases k - start
  {
    if start < k {
      StreamStopsAtFailure(playlist, fetch, start + 1, k, end);
      SliceCons(playlist, start, k + 1);
    }
  }

  /** An end position past the playlist makes the loop write every part
      from `start` on and then stop at the first missing index. */
  lemma {:induction false} StreamPastEnd(playlist: seq<Url>, fetch: Url -> Fetch, start: nat, end: int)
    requires start <= |playlist| <= end
    requires Fetched(playlist, fetch, start, |playlist|)
    ensures StreamFrom(playlist, fetch, start, end)
         == Transfer(playlist[start..], Bodies(playlist, fetch, start, |playlist|),
                     Some(IndexOutOfRange(|playlist|)))
    decreases |playlist| - start
  {
    if start < |playlist| {
      StreamPastEnd(playlist, fetch, start + 1, end);
      SliceCons(playlist, start, |playlist|);
      assert playlist[start..] == playlist[start..|playlist|];
    }
  }

  /** `downloadStream(playlist, w, startPosition, endPosition)`. The result
      is the failure that ended the loop, or None once `end` is written. */
  method DownloadStream(playlist: seq<Url>, w: OutputFile, startPosition: int, endPosition: int, net: Network)
    returns (failure: Option<Failure>)
    requires w.present
    modifies w, net
    ensures w.present
    ensures var t := StreamFrom(playlist, net.respond, startPosition, EndIndex(|playlist|, endPosition));
      && w.data == old(w.data) + t.written
      && net.requests == old(net.requests) + t.requested
      && failure == t.failure
  {
    var end := |playlist| - 1;
    if endPosition != -1 {
      end := endPosition;
    }
    var i := startPosition;
    while i <= end
      invariant w.present
      invariant var whole, rest := StreamFrom(playlist, net.respond, startPosition, end),
                                   StreamFrom(playlist, net.respond, i, end);
        && w.data + rest.written == old(w.data) + whole.written
        && net.requests + rest.requested == old(net.requests) + whole.requested
        && rest.failure == whole.failure
      decreases end - i
    {
      if i < 0 || i >= |playlist| {
        return Some(IndexOutOfRange(i));
      }
      ghost var data, sent := w.data, net.requests;
      ghost var rest := StreamFrom(playlist, net.respond, i + 1, end);
      var f := net.Get(playlist[i]);
      if f.TransportError? {
        return Some(TransportFailed(i));
      }
      w.Write(f.bytes);
      ConcatAssoc(data, f.bytes, rest.written);
      ConcatAssoc(sent, [playlist[i]], rest.requested);
      i := i + 1;
    }
    return None;
  }
}
