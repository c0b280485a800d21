/** `main`: check the arguments, name the output file after the video, and
    either resume an interrupted download or start a new one, then download
    the remaining parts. Fetching the access token and the playlists is
    network I/O and is not part of this module: the playlist of part URLs
    comes in as a sequence. */
module Session {
  import opened Types
  import opened Decimal
  import opened PartUrl
  import opened VideoId
  import opened Io
  import opened Stream
  import opened Resume

  const Extension: string := ".ts"

  /** The output file: `<name>.ts` when a name was given with `-n`,
      otherwise the video id printed in decimal followed by `.ts`. */
  function OutputName(name: string, videoId: int): (f: string)
    ensures |f| > |Extension| && EndsWith(f, Extension)
  {
    if name != "" then name + Extension else FormatInt(videoId) + Extension
  }

  /** Without a name, the file name's stem reads back as the video id; with
      one, the stem is that name. */
  lemma OutputNameStem(name: string, videoId: int)
    ensures var f := OutputName(name, videoId);
      && (name != "" ==> f[..|f| - |Extension|] == name)
      && (name == "" ==> Atoi(f[..|f| - |Extension|]) == Some(videoId))
  {
    var f := OutputName(name, videoId);
    if name == "" {
      assert f[..|f| - |Extension|] == FormatInt(videoId);
      AtoiFormatInt(videoId);
    } else {
      assert f[..|f| - |Extension|] == name;
    }
  }

  /** Without a name, different videos are saved to different files, so a
      resumed download never appends to another video's file. */
  lemma OutputNameDistinct(a: int, b: int)
    requires a != b
    ensures OutputName("", a) != OutputName("", b)
  {
    OutputNameStem("", a);
    OutputNameStem("", b);
  }

  /** What `main` does before any download: exactly one argument is
      required (exit status 1 otherwise), and it must name a video. */
  datatype Launch =
    | Start(videoId: int, fileName: string)
    | WrongArgumentCount  // "Wrong number of arguments", exit status 1
    | UnrecognizedUrl     // "Unrecognized url", exit status 1

  function Prepare(args: seq<string>, name: string): Launch {
    if |args| != 1 then WrongArgumentCount
    else
      match ParseVideoId(args[0])
      case None => UnrecognizedUrl
      case Some(id) => Start(id, OutputName(name, id))
  }

  /** A run that starts saves to a `.ts` file whose stem is the `-n` name
      or, without one, text that `strconv.Atoi` reads back as the video id
      the run downloads. */
  lemma PrepareFileName(args: seq<string>, name: string)
    requires Prepare(args, name).Start?
    ensures var f := Prepare(args, name).fileName;
      && EndsWith(f, Extension)
      && (name != "" ==> f[..|f| - |Extension|] == name)
      && (name == "" ==> Atoi(f[..|f| - |Extension|]) == Some(Prepare(args, name).videoId))
  {
    OutputNameStem(name, Prepare(args, name).videoId);
  }

  /** A number printed with `%d`, given as the only argument without `-n`,
      starts a run for that very id, saved to `<number>.ts`. */
  lemma PrepareNumber(n: int)
    ensures Prepare([FormatInt(n)], "") == Start(n, FormatInt(n) + Extension)
  {
    ParseVideoIdNumber(n);
  }

  /** A video URL given without `-n` saves to `<digits>.ts`, the digits
      being those after `/v/`. */
  lemma PrepareVideoUrl(m: TwitchMatch, rest: string)
    requires WellFormed(m)
    requires rest == [] || !IsDigit(rest[0])
    ensures Prepare([Head(m) + rest], "") == Start(DigitsValue(m.id), FormatInt(DigitsValue(m.id)) + Extension)
  {
    ParseVideoIdUrl(m, rest);
  }

  /** How the process ends: every part written, "Nothing new to continue"
      (exit status 0), or one of the fatal errors. */
  datatype Exit = Finished | NothingToContinue | Failed(failure: Failure)

  /** A run's exit, the output file's final bytes, and the URLs it requests,
      in order. */
  datatype Outcome = Outcome(exit: Exit, data: seq<byte>, requested: seq<Url>)

  /** The end of a run once `downloadStream` has run over `data`. */
  function Finish(data: seq<byte>, requested: seq<Url>, t: Transfer): Outcome {
    Outcome(if t.failure.None? then Finished else Failed(t.failure.value),
            data + t.written, requested + t.requested)
  }

  /** The rest of a resumed run once `continueDownload` has resolved to `s`
      over a file holding `data`. */
  function Resumed(s: Resolution, data: seq<byte>, playlist: seq<Url>, fetch: Url -> Fetch, end: int): Outcome {
    match s.outcome
    case NothingNew => Outcome(NothingToContinue, data, s.requested)
    case ResumeFailed(f) => Outcome(Failed(f), data + s.appended, s.requested)
    case ContinueFrom(p) => Finish(data + s.appended, s.requested, StreamFrom(playlist, fetch, p, end))
  }

  /** The download part of `main` over a file that is `present` with bytes
      `data`: resume when `-c` is given and `-p` is 0 and the file exists,
      otherwise start over at `position` on a file created empty. */
  function Download(present: bool, data: seq<byte>, playlist: seq<Url>, fetch: Url -> Fetch,
                    continueDld: bool, position: int, endPosition: int): Outcome
  {
    var end := EndIndex(|playlist|, endPosition);
    if continueDld && position == 0 && present then
      Resumed(Resolve(|data|, PartSizes(playlist), playlist, fetch), data, playlist, fetch, end)
    else
      Finish([], [], StreamFrom(playlist, fetch, position, end))
  }

  /** `main` after the playlist is known. */
  method Run(file: OutputFile, net: Network, playlist: seq<Url>,
             continueDld: bool, position: int, endPosition: int) returns (e: Exit)
    modifies file, net
    ensures file.present
    ensures var o := Download(old(file.present), old(file.data), playlist, net.respond,
                              continueDld, position, endPosition);
      && e == o.exit
      && file.data == o.data
      && net.requests == old(net.requests) + o.requested
  {
    ghost var d := Download(file.present, file.data, playlist, net.respond, continueDld, position, endPosition);
    ghost var end, sent0 := EndIndex(|playlist|, endPosition), net.requests;
    var start := position;
    if continueDld && position == 0 {
      var r := ContinueDownload(file, net, playlist);
      match r
      case NothingNew =>
        return NothingToContinue;
      case ResumeFailed(f) =>
        return Failed(f);
      case ContinueFrom(p) =>
        start := p;
    } else {
      file.Create();
    }
    ghost var before, sent := file.data, net.requests;
    assert sent == sent0 + sent[|sent0|..];
    assert d == Finish(before, sent[|sent0|..], StreamFrom(playlist, net.respond, start, end));
    var failure := DownloadStream(playlist, file, start, endPosition, net);
    e := if failure.None? then Finished else Failed(failure.value);
    ConcatAssoc(sent0, sent[|sent0|..], StreamFrom(playlist, net.respond, start, end).requested);
  }

  /** A fresh download of parts `start..end` that are all served writes
      exactly their bodies, in order, requesting each part once. */
  lemma FreshDownload(present: bool, data: seq<byte>, playlist: seq<Url>, fetch: Url -> Fetch,
                      continueDld: bool, start: nat, endPosition: int)
    requires !(continueDld && start == 0 && present)
    requires start <= EndIndex(|playlist|, endPosition) + 1 && EndIndex(|playlist|, endPosition) < |playlist|
    requires Fetched(playlist, fetch, start, EndIndex(|playlist|, endPosition) + 1)
    ensures var end := EndIndex(|playlist|, endPosition);
      Download(present, data, playlist, fetch, continueDld, start, endPosition)
      == Outcome(Finished, Bodies(playlist, fetch, start, end + 1), playlist[start..end + 1])
  {
    StreamAllFetched(playlist, fetch, start, EndIndex(|playlist|, endPosition));
  }

  /** The part URLs are those the server builds for byte ranges
      `start..end` (inclusive), and each body is as long as its range. */
  ghost predicate ServedByRanges(playlist: seq<Url>, fetch: Url -> Fetch) {
    forall j :: 0 <= j < |playlist| ==>
      && fetch(playlist[j]).Body?
      && exists p: string, start: nat, end: nat ::
           playlist[j] == p + PartQuery(start, end) && |fetch(playlist[j]).bytes| == end - start + 1
  }

  /** Byte-range part URLs make the sizes the resume loop reads agree with
      the bodies served. */
  lemma RangesAreConsistent(playlist: seq<Url>, fetch: Url -> Fetch)
    requires ServedByRanges(playlist, fetch)
    ensures Consistent(PartSizes(playlist), playlist, fetch)
  {
    forall j | 0 <= j < |playlist|
      ensures fetch(playlist[j]).Body?
      ensures PartSizes(playlist)[j] == Some(|fetch(playlist[j]).bytes|)
    {
      var p: string, start: nat, end: nat :|
        playlist[j] == p + PartQuery(start, end) && |fetch(playlist[j]).bytes| == end - start + 1;
      PartSizeOfQuery(p, start, end);
      PartSizesAt(playlist, j);
    }
  }

  /** Resuming with `-c` a file that holds a prefix of the stream leaves
      the whole stream in the file: "Nothing new to continue" when it was
      already complete, otherwise a finished run that requests only the
      part it stopped in and the parts after it, each once. */
  lemma ResumeCompletesStream(playlist: seq<Url>, fetch: Url -> Fetch, data: seq<byte>)
    requires Consistent(PartSizes(playlist), playlist, fetch)
    requires IsPrefix(data, Bodies(playlist, fetch, 0, |playlist|))
    ensures var o := Download(true, data, playlist, fetch, true, 0, -1);
      && o.data == Bodies(playlist, fetch, 0, |playlist|)
      && (o.exit == NothingToContinue <==> |data| == |o.data|)
      && (o.exit != NothingToContinue ==> o.exit == Finished)
      && |o.requested| <= |playlist|
      && o.requested == playlist[|playlist| - |o.requested|..]
  {
    var n, sizes := |playlist|, PartSizes(playlist);
    var whole := Bodies(playlist, fetch, 0, n);
    ResumeRestoresStream(sizes, playlist, fetch, data);
    var s := Resolve(|data|, sizes, playlist, fetch);
    assert Download(true, data, playlist, fetch, true, 0, -1) == Resumed(s, data, playlist, fetch, n - 1);
    if |data| < |whole| {
      ResumedFinishes(s, data, playlist, fetch);
    } else {
      assert data == whole;
    }
  }

  /** Continuing from `p` with every remaining part served finishes the
      run, writing and requesting parts `p..` in order. */
  lemma ResumedContinues(s: Resolution, data: seq<byte>, playlist: seq<Url>, fetch: Url -> Fetch)
    requires s.outcome.ContinueFrom? && s.outcome.position <= |playlist|
    requires Fetched(playlist, fetch, s.outcome.position, |playlist|)
    ensures Resumed(s, data, playlist, fetch, |playlist| - 1)
         == Outcome(Finished, data + s.appended + Bodies(playlist, fetch, s.outcome.position, |playlist|),
                    s.requested + playlist[s.outcome.position..])
  {
    var p := s.outcome.position;
    StreamAllFetched(playlist, fetch, p, |playlist| - 1);
    assert playlist[p..|playlist|] == playlist[p..];
  }

  /** Once the file plus the appended bytes are exactly parts `0..p-1`, the
      rest of the run writes the remaining parts and requests them. */
  lemma ResumedFinishes(s: Resolution, data: seq<byte>, playlist: seq<Url>, fetch: Url -> Fetch)
    requires Fetched(playlist, fetch, 0, |playlist|)
    requires s.outcome.ContinueFrom? && 1 <= s.outcome.position <= |playlist|
    requires s.requested == [playlist[s.outcome.position - 1]]
    requires data + s.appended == Bodies(playlist, fetch, 0, s.outcome.position)
    ensures Resumed(s, data, playlist, fetch, |playlist| - 1)
         == Outcome(Finished, Bodies(playlist, fetch, 0, |playlist|), playlist[s.outcome.position - 1..])
  {
    var n, p := |playlist|, s.outcome.position;
    ResumedContinues(s, data, playlist, fetch);
    BodiesSplit(playlist, fetch, 0, p, n);
    SliceCons(playlist, p - 1, n);
    assert playlist[p - 1..] == playlist[p - 1..n] && playlist[p..] == playlist[p..n];
  }

  /** The two Bodies of a range agree when the servers agree on its parts. */
  lemma {:induction false} BodiesAgree(playlist: seq<Url>, f: Url -> Fetch, g: Url -> Fetch, lo: nat, hi: nat)
    requires lo <= hi && Fetched(playlist, f, lo, hi)
    requires forall j :: lo <= j < hi ==> f(playlist[j]) == g(playlist[j])
    ensures Fetched(playlist, g, lo, hi)
    ensures Bodies(playlist, f, lo, hi) == Bodies(playlist, g, lo, hi)
    decreases hi - lo
  {
    if lo < hi {
      BodiesAgree(playlist, f, g, lo + 1, hi);
    }
  }

  /** A fresh download whose part `k` fails with a transport error writes
      exactly parts `0..k-1` and then stops. */
  lemma CutOff(present: bool, data: seq<byte>, playlist: seq<Url>, flaky: Url -> Fetch, k: nat)
    requires k < |playlist| && Fetched(playlist, flaky, 0, k) && flaky(playlist[k]).TransportError?
    ensures Download(present, data, playlist, flaky, false, 0, -1)
         == Outcome(Failed(TransportFailed(k)), Bodies(playlist, flaky, 0, k), playlist[..k + 1])
  {
    StreamStopsAtFailure(playlist, flaky, 0, k, |playlist| - 1);
  }

  /** A download cut off by a transport error on part `k`, run again with
      `-c` once the server answers every part, ends with the whole stream
      in the file, as if nothing had gone wrong. */
  lemma InterruptedThenResumed(playlist: seq<Url>, flaky: Url -> Fetch, fetch: Url -> Fetch,
                               present: bool, data: seq<byte>, k: nat)
    requires ServedByRanges(playlist, fetch)
    requires k < |playlist| && flaky(playlist[k]).TransportError?
    requires forall j :: 0 <= j < k ==> flaky(playlist[j]) == fetch(playlist[j])
    ensures var first := Download(present, data, playlist, flaky, false, 0, -1);
      && first.exit == Failed(TransportFailed(k))
      && Download(true, first.data, playlist, fetch, true, 0, -1).data
         == Bodies(playlist, fetch, 0, |playlist|)
  {
    var n := |playlist|;
    RangesAreConsistent(playlist, fetch);
    SizeSumBodies(PartSizes(playlist), playlist, fetch, n);
    BodiesAgree(playlist, fetch, flaky, 0, k);
    CutOff(present, data, playlist, flaky, k);
    var written := Bodies(playlist, fetch, 0, k);
    assert IsPrefix(written, Bodies(playlist, fetch, 0, n)) by {
      BodiesSplit(playlist, fetch, 0, k, n);
    }
    ResumeCompletesStream(playlist, fetch, written);
  }
}
