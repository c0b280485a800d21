/** `continueDownload`: map the length of an interrupted output file back
    onto the playlist. Part sizes, read from the part URLs, are added up
    until the running total would pass the file length; that part is fetched
    again, the bytes the file already holds are dropped from its front, the
    rest is appended, and downloading continues with the next part. */
module Resume {
  import opened Types
  import opened PartUrl
  import opened Io
  import opened Stream

  /** The size each part URL carries, in playlist order; None for a URL
      without offsets. */
  function PartSizes(playlist: seq<Url>): (sizes: seq<Option<int>>)
    ensures |sizes| == |playlist|
  {
    if playlist == [] then []
    else PartSizes(playlist[..|playlist| - 1]) + [PartSize(playlist[|playlist| - 1])]
  }

  lemma {:induction false} PartSizesAt(playlist: seq<Url>, j: nat)
    requires j < |playlist|
    ensures PartSizes(playlist)[j] == PartSize(playlist[j])
    decreases |playlist|
  {
    var n := |playlist|;
    if j < n - 1 {
      PartSizesAt(playlist[..n - 1], j);
    }
  }

  /** The first `k` sizes are known. */
  predicate ParsesUpTo(sizes: seq<Option<int>>, k: nat) {
    k <= |sizes| && forall j :: 0 <= j < k ==> sizes[j].Some?
  }

  /** The running total of the first `k` sizes. */
  function SizeSum(sizes: seq<Option<int>>, k: nat): int
    requires ParsesUpTo(sizes, k)
  {
    if k == 0 then 0 else SizeSum(sizes, k - 1) + sizes[k - 1].value
  }

  /** No running total of the first `k` sizes passes `n`. */
  predicate Fits(sizes: seq<Option<int>>, k: nat, n: int) {
    ParsesUpTo(sizes, k) && forall j :: 1 <= j <= k ==> SizeSum(sizes, j) <= n
  }

  /** Where the resume loop stops: inside part `index`, of which the file
      already holds `toSkip` bytes; past the whole playlist; or at a part
      URL without offsets. */
  datatype ResumePoint = Partial(index: nat, toSkip: int) | Complete | Unparseable(index: nat)

  function Shift(p: ResumePoint, k: nat): ResumePoint {
    match p
    case Partial(i, s) => Partial(i + k, s)
    case Complete => Complete
    case Unparseable(i) => Unparseable(i + k)
  }

  /** The resume point when `remaining` bytes of the file are still to be
      accounted for by the parts of sizes `sizes`, taken from the front. */
  function Locate(remaining: int, sizes: seq<Option<int>>): ResumePoint
    decreases |sizes|
  {
    if sizes == [] then Complete
    else
      match sizes[0]
      case None => Unparseable(0)
      case Some(sz) =>
        if sz > remaining then Partial(0, remaining)
        else Shift(Locate(remaining - sz, sizes[1..]), 1)
  }

  /** Dropping the first part shifts every running total by its size. */
  lemma {:induction false} SizeSumTail(sizes: seq<Option<int>>, k: nat)
    requires k < |sizes| && sizes[0].Some?
    ensures ParsesUpTo(sizes, k + 1) <==> ParsesUpTo(sizes[1..], k)
    ensures ParsesUpTo(sizes, k + 1) ==>
      SizeSum(sizes, k + 1) == sizes[0].value + SizeSum(sizes[1..], k)
  {
    assert forall j :: 0 <= j < k ==> sizes[1..][j] == sizes[j + 1];
    if k > 0 {
      SizeSumTail(sizes, k - 1);
    }
  }

  lemma FitsTail(sizes: seq<Option<int>>, k: nat, n: int)
    requires k < |sizes| && sizes[0].Some? && sizes[0].value <= n
    ensures Fits(sizes, k + 1, n) <==> Fits(sizes[1..], k, n - sizes[0].value)
  {
    var sz, tail := sizes[0].value, sizes[1..];
    SizeSumTail(sizes, k);
    if ParsesUpTo(sizes, k + 1) {
      forall j | 0 <= j <= k
        ensures ParsesUpTo(sizes, j + 1) && ParsesUpTo(tail, j)
        ensures SizeSum(sizes, j + 1) == sz + SizeSum(tail, j)
      {
        SizeSumTail(sizes, j);
      }
      if Fits(tail, k, n - sz) {
        forall j | 1 <= j <= k + 1 ensures SizeSum(sizes, j) <= n {
          assert SizeSum(sizes, (j - 1) + 1) == sz + SizeSum(tail, j - 1);
        }
      }
      if Fits(sizes, k + 1, n) {
        forall j | 1 <= j <= k ensures SizeSum(tail, j) <= n - sz {
          assert SizeSum(sizes, j + 1) == sz + SizeSum(tail, j);
        }
      }
    }
  }

  /** One step of the loop over the sizes from part `i` on, `acc` being the
      total of the parts before it. */
  lemma LocateAt(n: int, sizes: seq<Option<int>>, i: nat, acc: int)
    requires i < |sizes|
    requires Locate(n, sizes) == Shift(Locate(n - acc, sizes[i..]), i)
    ensures sizes[i].None? ==> Locate(n, sizes) == Unparseable(i)
    ensures sizes[i].Some? && acc + sizes[i].value > n ==> Locate(n, sizes) == Partial(i, n - acc)
    ensures sizes[i].Some? && acc + sizes[i].value <= n ==>
      Locate(n, sizes) == Shift(Locate(n - (acc + sizes[i].value), sizes[i + 1..]), i + 1)
  {
    assert sizes[i..][0] == sizes[i] && sizes[i..][1..] == sizes[i + 1..];
  }

  /** Partial(i, toSkip): sizes `0..i` are known, no running total up to
      part `i - 1` passes `n`, the total through part `i` does, and `toSkip`
      is what the file holds beyond part `i - 1`: at least zero and less
      than part `i`'s size. */
  lemma {:induction false} LocatePartial(n: nat, sizes: seq<Option<int>>, i: nat, toSkip: int)
    requires Locate(n, sizes) == Partial(i, toSkip)
    ensures i < |sizes| && ParsesUpTo(sizes, i + 1) && Fits(sizes, i, n)
    ensures n < SizeSum(sizes, i + 1)
    ensures toSkip == n - SizeSum(sizes, i)
    ensures 0 <= toSkip < sizes[i].value
    decreases |sizes|
  {
    var sz := sizes[0].value;
    if sz <= n {
      var tail := sizes[1..];
      LocatePartial(n - sz, tail, i - 1, toSkip);
      FitsTail(sizes, i - 1, n);
      SizeSumTail(sizes, i - 1);
      SizeSumTail(sizes, i);
      assert tail[i - 1] == sizes[i];
    }
  }

  /** Complete: every size is known and no running total passes `n`. */
  lemma {:induction false} LocateComplete(n: nat, sizes: seq<Option<int>>)
    requires Locate(n, sizes) == Complete
    ensures Fits(sizes, |sizes|, n)
    decreases |sizes|
  {
    if sizes != [] {
      var sz := sizes[0].value;
      LocateComplete(n - sz, sizes[1..]);
      FitsTail(sizes, |sizes| - 1, n);
    }
  }

  /** Unparseable(i): part `i` is the first without a size, and no running
      total before it passes `n`. */
  lemma {:induction false} LocateUnparseable(n: nat, sizes: seq<Option<int>>, i: nat)
    requires Locate(n, sizes) == Unparseable(i)
    ensures i < |sizes| && Fits(sizes, i, n) && sizes[i].None?
    decreases |sizes|
  {
    if sizes[0].Some? {
      var sz := sizes[0].value;
      var tail := sizes[1..];
      LocateUnparseable(n - sz, tail, i - 1);
      FitsTail(sizes, i - 1, n);
      assert tail[i - 1] == sizes[i];
    }
  }

  /** The three kinds of resume point, as the running totals describe them. */
  lemma LocateSpec(n: nat, sizes: seq<Option<int>>)
    ensures Locate(n, sizes).Partial? ==>
      var i, toSkip := Locate(n, sizes).index, Locate(n, sizes).toSkip;
      && i < |sizes| && ParsesUpTo(sizes, i + 1) && Fits(sizes, i, n)
      && n < SizeSum(sizes, i + 1)
      && toSkip == n - SizeSum(sizes, i)
      && 0 <= toSkip < sizes[i].value
    ensures Locate(n, sizes).Complete? ==> Fits(sizes, |sizes|, n)
    ensures Locate(n, sizes).Unparseable? ==>
      var i := Locate(n, sizes).index;
      i < |sizes| && Fits(sizes, i, n) && sizes[i].None?
  {
    match Locate(n, sizes)
    case Partial(i, toSkip) => LocatePartial(n, sizes, i, toSkip);
    case Complete => LocateComplete(n, sizes);
    case Unparseable(i) => LocateUnparseable(n, sizes, i);
  }

  /** Conversely, the first part whose running total passes `n` is where
      the loop stops, with the file's excess over the parts before it as
      the bytes to skip. */
  lemma LocateFirstOverflow(n: nat, sizes: seq<Option<int>>, i: nat)
    requires i < |sizes| && ParsesUpTo(sizes, i + 1) && Fits(sizes, i, n)
    requires n < SizeSum(sizes, i + 1)
    ensures Locate(n, sizes) == Partial(i, n - SizeSum(sizes, i))
  {
    LocateSpec(n, sizes);
  }

  /** Conversely, a part without a size before any running total passes
      `n` stops the loop. */
  lemma LocateFirstUnparseable(n: nat, sizes: seq<Option<int>>, i: nat)
    requires i < |sizes| && Fits(sizes, i, n) && sizes[i].None?
    ensures Locate(n, sizes) == Unparseable(i)
  {
    LocateSpec(n, sizes);
  }

  /** Conversely, when every size is known and no running total passes
      `n`, there is nothing to resume. */
  lemma LocateAllFit(n: nat, sizes: seq<Option<int>>)
    requires Fits(sizes, |sizes|, n)
    ensures Locate(n, sizes) == Complete
  {
    LocateSpec(n, sizes);
  }

  /** Three parts of 100 bytes each (offsets 0-99, 100-199, 200-299) and a
      file of 150 bytes: the loop stops in part 1 with 50 bytes to skip. */
  lemma LocateExample()
    ensures Locate(150, [Some(100), Some(100), Some(100)]) == Partial(1, 50)
    ensures Locate(300, [Some(100), Some(100), Some(100)]) == Complete
  {
  }

  /** The loop of `continueDownload`: `acc` is the running total of part
      sizes, and the loop stops where adding the next part would pass the
      file size. */
  method FindResumePart(dldSz: nat, playlist: seq<Url>) returns (p: ResumePoint)
    ensures p == Locate(dldSz, PartSizes(playlist))
  {
    ghost var sizes := PartSizes(playlist);
    var acc := 0;
    for i := 0 to |playlist|
      invariant acc <= dldSz
      invariant Locate(dldSz, sizes) == Shift(Locate(dldSz - acc, sizes[i..]), i)
    {
      LocateAt(dldSz, sizes, i, acc);
      PartSizesAt(playlist, i);
      var partSz := PartSize(playlist[i]);
      if partSz.None? {
        return Unparseable(i);
      }
      if acc + partSz.value > dldSz {
        return Partial(i, dldSz - acc);
      }
      acc := acc + partSz.value;
    }
    assert sizes[|playlist|..] == [];
    return Complete;
  }

  /** The result of `continueDownload` as `main` sees it: the part to
      continue from, nothing new to download (exit status 0), or a failure. */
  datatype Resume = ContinueFrom(position: nat) | NothingNew | ResumeFailed(failure: Failure)

  /** What resuming over an existing file of `dldSz` bytes does: its result,
      the URLs it requests and the bytes it appends. */
  datatype Resolution = Resolution(outcome: Resume, requested: seq<Url>, appended: seq<byte>)

  /** What `continueDownload` does once the loop has stopped at `pt`: fetch
      the part it stopped in again and keep the bytes past `toSkip`. Only a
      loop that ran past the whole playlist finds nothing new; only a loop
      that stopped inside a part makes a request, and then of that part
      alone; bytes are appended only when the download can continue. */
  function Refetch(pt: ResumePoint, playlist: seq<Url>, fetch: Url -> Fetch): (r: Resolution)
    requires pt.Partial? ==> pt.index < |playlist| && pt.toSkip >= 0
    ensures r.outcome == NothingNew <==> pt == Complete
    ensures pt.Partial? <==> r.requested != []
    ensures pt.Partial? ==> r.requested == [playlist[pt.index]]
    ensures r.appended != [] ==> pt.Partial? && r.outcome == ContinueFrom(pt.index + 1)
  {
    match pt
    case Complete => Resolution(NothingNew, [], [])
    case Unparseable(i) => Resolution(ResumeFailed(UnparseablePartUrl(i)), [], [])
    case Partial(i, toSkip) =>
      match fetch(playlist[i])
      case TransportError => Resolution(ResumeFailed(TransportFailed(i)), [playlist[i]], [])
      case Body(bs) =>
        if toSkip <= |bs| then Resolution(ContinueFrom(i + 1), [playlist[i]], bs[toSkip..])
        else Resolution(ResumeFailed(SkipPastBody(i)), [playlist[i]], [])
  }

  /** `continueDownload` on an existing file of `dldSz` bytes, `sizes`
      being the sizes the part URLs carry (`PartSizes`). */
  function Resolve(dldSz: nat, sizes: seq<Option<int>>, playlist: seq<Url>, fetch: Url -> Fetch): Resolution
    requires |sizes| == |playlist|
  {
    var pt := Locate(dldSz, sizes);
    LocateSpec(dldSz, sizes);
    Refetch(pt, playlist, fetch)
  }

  /** Continuing from position `p` means: part `p - 1` is the first whose
      running total passes the file size, it alone is fetched again, and
      the appended bytes are its body without the first `dldSz - acc` bytes,
      `acc` being the total of the parts before it. When that body is as
      long as its URL says, the file afterwards is exactly as long as parts
      `0..p-1` together. */
  lemma ResolveContinue(dldSz: nat, sizes: seq<Option<int>>, playlist: seq<Url>, fetch: Url -> Fetch, p: nat)
    requires |sizes| == |playlist|
    requires Resolve(dldSz, sizes, playlist, fetch).outcome == ContinueFrom(p)
    ensures && 1 <= p <= |playlist| && ParsesUpTo(sizes, p) && Fits(sizes, p - 1, dldSz)
            && SizeSum(sizes, p - 1) <= dldSz < SizeSum(sizes, p)
            && fetch(playlist[p - 1]).Body?
            && dldSz - SizeSum(sizes, p - 1) <= |fetch(playlist[p - 1]).bytes|
    ensures var s := Resolve(dldSz, sizes, playlist, fetch);
      && s.requested == [playlist[p - 1]]
      && s.appended == fetch(playlist[p - 1]).bytes[dldSz - SizeSum(sizes, p - 1)..]
      && (|fetch(playlist[p - 1]).bytes| == sizes[p - 1].value
          ==> dldSz + |s.appended| == SizeSum(sizes, p))
  {
    var pt := Locate(dldSz, sizes);
    LocateSpec(dldSz, sizes);
    assert Resolve(dldSz, sizes, playlist, fetch) == Refetch(pt, playlist, fetch);
    LocatePartial(dldSz, sizes, pt.index, pt.toSkip);
  }

  /** Nothing new to continue: every running total fits in the file, and
      nothing is requested or appended. */
  lemma ResolveNothingNew(dldSz: nat, sizes: seq<Option<int>>, playlist: seq<Url>, fetch: Url -> Fetch)
    requires |sizes| == |playlist|
    requires Resolve(dldSz, sizes, playlist, fetch).outcome == NothingNew
    ensures Resolve(dldSz, sizes, playlist, fetch) == Resolution(NothingNew, [], [])
    ensures Fits(sizes, |sizes|, dldSz)
  {
    var pt := Locate(dldSz, sizes);
    LocateSpec(dldSz, sizes);
    assert Resolve(dldSz, sizes, playlist, fetch) == Refetch(pt, playlist, fetch);
    LocateComplete(dldSz, sizes);
  }

  /** A part URL without offsets at or before the resume point makes
      resuming fail, before anything is requested or written. */
  lemma ResolveUnparseable(dldSz: nat, sizes: seq<Option<int>>, playlist: seq<Url>, fetch: Url -> Fetch, i: nat)
    requires |sizes| == |playlist|
    requires i < |sizes| && Fits(sizes, i, dldSz) && sizes[i].None?
    ensures Resolve(dldSz, sizes, playlist, fetch) == Resolution(ResumeFailed(UnparseablePartUrl(i)), [], [])
  {
    LocateFirstUnparseable(dldSz, sizes, i);
    assert Resolve(dldSz, sizes, playlist, fetch) == Refetch(Unparseable(i), playlist, fetch);
  }

  /** The playlist and the server agree: every part URL carries offsets
      (`sizes`), every part is served, and each body is exactly as long as
      its offsets say. This is what makes the file length a faithful record
      of progress. */
  predicate Consistent(sizes: seq<Option<int>>, playlist: seq<Url>, fetch: Url -> Fetch) {
    && |sizes| == |playlist|
    && forall j :: 0 <= j < |playlist| ==>
         fetch(playlist[j]).Body? && sizes[j] == Some(|fetch(playlist[j]).bytes|)
  }

  /** Under consistency, the running total of the first `k` sizes is the
      length of the first `k` bodies. */
  lemma {:induction false} SizeSumBodies(sizes: seq<Option<int>>, playlist: seq<Url>, fetch: Url -> Fetch, k: nat)
    requires Consistent(sizes, playlist, fetch) && k <= |playlist|
    ensures Fetched(playlist, fetch, 0, k)
    ensures ParsesUpTo(sizes, k)
    ensures SizeSum(sizes, k) == |Bodies(playlist, fetch, 0, k)|
  {
    if k > 0 {
      SizeSumBodies(sizes, playlist, fetch, k - 1);
      BodiesSplit(playlist, fetch, 0, k - 1, k);
    }
  }

  /** A prefix of `before + body + after` that ends `toSkip` bytes into
      `body`, completed with the rest of `body`, is `before + body`. */
  lemma CompletePart<T>(before: seq<T>, body: seq<T>, after: seq<T>, data: seq<T>, toSkip: nat)
    requires IsPrefix(data, before + body + after)
    requires |data| == |before| + toSkip && toSkip <= |body|
    ensures data + body[toSkip..] == before + body
  {
    var whole := before + body + after;
    assert data == whole[..|data|];
    assert whole[..|data|] == before + body[..toSkip];
    assert body[..toSkip] + body[toSkip..] == body;
    ConcatAssoc(before, body[..toSkip], body[toSkip..]);
  }

  /** A file holding the whole stream has nothing new to continue. */
  lemma ResumeWholeStream(sizes: seq<Option<int>>, playlist: seq<Url>, fetch: Url -> Fetch, data: seq<byte>)
    requires Consistent(sizes, playlist, fetch)
    requires data == Bodies(playlist, fetch, 0, |playlist|)
    ensures Resolve(|data|, sizes, playlist, fetch) == Resolution(NothingNew, [], [])
  {
    var n := |playlist|;
    forall j | 1 <= j <= n ensures ParsesUpTo(sizes, j) && SizeSum(sizes, j) <= |data| {
      SizeSumBodies(sizes, playlist, fetch, j);
      BodiesSplit(playlist, fetch, 0, j, n);
    }
    SizeSumBodies(sizes, playlist, fetch, n);
    LocateAllFit(|data|, sizes);
    assert Resolve(|data|, sizes, playlist, fetch) == Refetch(Complete, playlist, fetch);
  }

  /** A file holding a proper prefix of the stream stops the loop inside a
      part. */
  lemma ResumeStopsInside(sizes: seq<Option<int>>, playlist: seq<Url>, fetch: Url -> Fetch, data: seq<byte>)
    requires Consistent(sizes, playlist, fetch)
    requires |data| < |Bodies(playlist, fetch, 0, |playlist|)|
    ensures Locate(|data|, sizes).Partial?
  {
    SizeSumBodies(sizes, playlist, fetch, |playlist|);
    LocateSpec(|data|, sizes);
  }

  /** A file holding a proper prefix of the stream is completed up to the
      end of the part the loop stops in. */
  lemma ResumePrefix(sizes: seq<Option<int>>, playlist: seq<Url>, fetch: Url -> Fetch, data: seq<byte>)
    requires Consistent(sizes, playlist, fetch)
    requires IsPrefix(data, Bodies(playlist, fetch, 0, |playlist|))
    requires |data| < |Bodies(playlist, fetch, 0, |playlist|)|
    ensures var s := Resolve(|data|, sizes, playlist, fetch);
      && s.outcome.ContinueFrom?
      && 1 <= s.outcome.position <= |playlist|
      && s.requested == [playlist[s.outcome.position - 1]]
      && data + s.appended == Bodies(playlist, fetch, 0, s.outcome.position)
  {
    var n := |playlist|;
    ResumeStopsInside(sizes, playlist, fetch, data);
    var pt := Locate(|data|, sizes);
    var i, toSkip := pt.index, pt.toSkip;
    LocatePartial(|data|, sizes, i, toSkip);
    var body := fetch(playlist[i]).bytes;
    assert Resolve(|data|, sizes, playlist, fetch) == Resolution(ContinueFrom(i + 1), [playlist[i]], body[toSkip..]) by {
      assert Resolve(|data|, sizes, playlist, fetch) == Refetch(pt, playlist, fetch);
    }
    var before, after := Bodies(playlist, fetch, 0, i), Bodies(playlist, fetch, i + 1, n);
    assert Bodies(playlist, fetch, 0, n) == before + body + after
        && Bodies(playlist, fetch, 0, i + 1) == before + body by {
      BodiesSplit(playlist, fetch, 0, i, n);
      BodiesSplit(playlist, fetch, i, i + 1, n);
      BodiesSplit(playlist, fetch, 0, i, i + 1);
      assert Bodies(playlist, fetch, i, i + 1) == body;
    }
    SizeSumBodies(sizes, playlist, fetch, i);
    CompletePart(before, body, after, data, toSkip);
  }

  /** Resuming a file that holds a prefix of the stream never loses or
      repeats a byte: when the file already holds the whole stream there is
      nothing new to continue; otherwise the resume point `p` is such that
      the file, with the bytes appended, is exactly parts `0..p-1`, and only
      part `p - 1` is requested. */
  lemma ResumeRestoresStream(sizes: seq<Option<int>>, playlist: seq<Url>, fetch: Url -> Fetch, data: seq<byte>)
    requires Consistent(sizes, playlist, fetch)
    requires IsPrefix(data, Bodies(playlist, fetch, 0, |playlist|))
    ensures var s := Resolve(|data|, sizes, playlist, fetch);
      |data| == |Bodies(playlist, fetch, 0, |playlist|)| ==>
        s == Resolution(NothingNew, [], [])
    ensures var s := Resolve(|data|, sizes, playlist, fetch);
      |data| < |Bodies(playlist, fetch, 0, |playlist|)| ==>
        && s.outcome.ContinueFrom?
        && 1 <= s.outcome.position <= |playlist|
        && s.requested == [playlist[s.outcome.position - 1]]
        && data + s.appended == Bodies(playlist, fetch, 0, s.outcome.position)
  {
    if |data| == |Bodies(playlist, fetch, 0, |playlist|)| {
      ResumeWholeStream(sizes, playlist, fetch, data);
    } else {
      ResumePrefix(sizes, playlist, fetch, data);
    }
  }

  /** `continueDownload`. A missing file is created empty and the download
      starts at part 0; otherwise the file is resumed as `Resolve` says. */
  method ContinueDownload(file: OutputFile, net: Network, playlist: seq<Url>) returns (r: Resume)
    modifies file, net
    ensures file.present
    ensures !old(file.present) ==>
      r == ContinueFrom(0) && file.data == [] && net.requests == old(net.requests)
    ensures old(file.present) ==>
      var s := Resolve(|old(file.data)|, PartSizes(playlist), playlist, net.respond);
      && r == s.outcome
      && file.data == old(file.data) + s.appended
      && net.requests == old(net.requests) + s.requested
  {
    if !file.present {
      file.Create();
      return ContinueFrom(0);
    }
    var dldSz := |file.data|;
    var p := FindResumePart(dldSz, playlist);
    match p
    case Complete =>
      return NothingNew;
    case Unparseable(i) =>
      return ResumeFailed(UnparseablePartUrl(i));
    case Partial(i, toSkip) =>
      LocatePartial(dldSz, PartSizes(playlist), i, toSkip);
      var f := net.Get(playlist[i]);
      if f.TransportError? {
        return ResumeFailed(TransportFailed(i));
      }
      if toSkip > |f.bytes| {
        return ResumeFailed(SkipPastBody(i));
      }
      file.Write(f.bytes[toSkip..]);
      return ContinueFrom(i + 1);
  }
}
