/** The command-line argument that names the video: either the numeric
    video id itself or a channel video URL. The pattern
    `^https?://(?:www\.)?twitch\.tv/[^/]+/v/(\d+)` is written out as a parser. */
module VideoId {
  import opened Types
  import opened Decimal

  const Host: string := "twitch.tv/"
  const VideoPath: string := "/v/"

  /** How an argument matches the video URL pattern: its scheme, the
      optional `www.`, the channel name and the captured digits. */
  datatype TwitchMatch = TwitchMatch(scheme: string, www: string, channel: string, id: string)

  predicate NoSlash(s: string) {
    forall i :: 0 <= i < |s| ==> s[i] != '/'
  }

  predicate WellFormed(m: TwitchMatch) {
    && (m.scheme == "http://" || m.scheme == "https://")
    && (m.www == "" || m.www == "www.")
    && m.channel != [] && NoSlash(m.channel)
    && m.id != [] && AllDigits(m.id)
  }

  /** The text the pattern consumes. */
  function Head(m: TwitchMatch): string {
    m.scheme + m.www + Host + m.channel + VideoPath + m.id
  }

  /** The length of the longest slash-free prefix of `s`. */
  function LeadingNonSlash(s: string): (k: nat)
    ensures k <= |s|
    ensures forall i :: 0 <= i < k ==> s[i] != '/'
    ensures k < |s| ==> s[k] == '/'
  {
    if s == [] || s[0] == '/' then 0
    else LeadingNonSlash(s[1..]) + 1
  }

  lemma LeadingNonSlashOf(c: string, rest: string)
    requires NoSlash(c)
    requires rest != [] && rest[0] == '/'
    ensures LeadingNonSlash(c + rest) == |c|
  {
    var s := c + rest;
    assert forall i :: 0 <= i < |c| ==> s[i] != '/' by {
      forall i | 0 <= i < |c| ensures s[i] != '/' { assert s[i] == c[i]; }
    }
    assert s[|c|] == '/';
  }

  /** The first half of the pattern, `^https?://(?:www\.)?twitch\.tv/`:
      the scheme, the optional `www.` and what follows the host. */
  function MatchHost(arg: string): (r: Option<(string, string, string)>)
    ensures r.Some? ==>
      && (r.value.0 == "http://" || r.value.0 == "https://")
      && (r.value.1 == "" || r.value.1 == "www.")
      && arg == r.value.0 + r.value.1 + Host + r.value.2
  {
    var scheme := if IsPrefix("https://", arg) then "https://" else "http://";
    if !IsPrefix(scheme, arg) then None
    else
      var a := arg[|scheme|..];
      var www := if IsPrefix("www.", a) then "www." else "";
      var b := a[|www|..];
      if !IsPrefix(Host, b) then None
      else
        var c := b[|Host|..];
        PrefixRest(scheme, arg);
        PrefixRest(www, a);
        PrefixRest(Host, b);
        ConcatAssoc(scheme, www, b);
        ConcatAssoc(scheme + www, Host, c);
        Some((scheme, www, c))
  }

  /** The second half of the pattern, `[^/]+/v/(\d+)`, at the start of `c`:
      the channel, the captured digits and the text after them. */
  function MatchVideoPath(c: string): (r: Option<(string, string, string)>)
    ensures r.Some? ==>
      && r.value.0 != [] && NoSlash(r.value.0)
      && r.value.1 != [] && AllDigits(r.value.1)
      && (r.value.2 == [] || !IsDigit(r.value.2[0]))
      && c == r.value.0 + VideoPath + r.value.1 + r.value.2
  {
    var k := LeadingNonSlash(c);
    var d := c[k..];
    if k == 0 || !IsPrefix(VideoPath, d) then None
    else
      var e := d[|VideoPath|..];
      var n := LeadingDigits(e);
      if n == 0 then None
      else
        var channel, id, rest := c[..k], e[..n], e[n..];
        SplitAt(c, k);
        PrefixRest(VideoPath, d);
        SplitAt(e, n);
        ConcatAssoc(VideoPath, id, rest);
        ConcatAssoc(channel, VideoPath + id, rest);
        ConcatAssoc(channel, VideoPath, id);
        Some((channel, id, rest))
  }

  /** The pattern anchored at the start of `arg` and the text after the
      captured digits, or None. The channel and
      the digits are the longest runs the pattern allows, which is what the
      greedy `[^/]+` and `\d+` capture. */
  function MatchTwitchUrl(arg: string): (m: Option<(TwitchMatch, string)>)
    ensures m.Some? ==>
      && WellFormed(m.value.0)
      && arg == Head(m.value.0) + m.value.1
      && (m.value.1 == [] || !IsDigit(m.value.1[0]))
  {
    match MatchHost(arg)
    case None => None
    case Some((scheme, www, c)) =>
      match MatchVideoPath(c)
      case None => None
      case Some((channel, id, rest)) =>
        var m := TwitchMatch(scheme, www, channel, id);
        var x := scheme + www + Host;
        ConcatAssoc(x, channel + VideoPath + id, rest);
        ConcatAssoc(x, channel + VideoPath, id);
        ConcatAssoc(x, channel, VideoPath);
        Some((m, rest))
  }

  lemma MatchHostComplete(scheme: string, www: string, c: string)
    requires scheme == "http://" || scheme == "https://"
    requires www == "" || www == "www."
    ensures MatchHost(scheme + www + Host + c) == Some((scheme, www, c))
  {
    var b := Host + c;
    var a := www + b;
    var arg := scheme + a;
    ConcatAssoc(scheme, www, b);
    ConcatAssoc(scheme + www, Host, c);
    assert arg[..|scheme|] == scheme && arg[|scheme|..] == a;
    if scheme == "http://" {
      assert arg[4] == scheme[4];
      NotPrefixAt("https://", arg, 4);
    }
    assert a[..|www|] == www && a[|www|..] == b;
    if www == "" {
      assert a[0] == Host[0];
      NotPrefixAt("www.", a, 0);
    }
    assert b[..|Host|] == Host && b[|Host|..] == c;
  }

  lemma MatchVideoPathComplete(channel: string, id: string, rest: string)
    requires channel != [] && NoSlash(channel)
    requires id != [] && AllDigits(id)
    requires rest == [] || !IsDigit(rest[0])
    ensures MatchVideoPath(channel + VideoPath + id + rest) == Some((channel, id, rest))
  {
    var e := id + rest;
    var d := VideoPath + e;
    var c := channel + d;
    assert channel + VideoPath + id + rest == c;
    LeadingNonSlashOf(channel, d);
    assert c[..|channel|] == channel && c[|channel|..] == d;
    assert d[|VideoPath|..] == e;
    LeadingDigitsOf(id, rest);
    assert e[..|id|] == id && e[|id|..] == rest;
  }

  /** Every argument of the URL shape is matched, with its own channel and
      digits; the digits end where the first non-digit begins. */
  lemma MatchTwitchUrlComplete(m: TwitchMatch, rest: string)
    requires WellFormed(m)
    requires rest == [] || !IsDigit(rest[0])
    ensures MatchTwitchUrl(Head(m) + rest) == Some((m, rest))
  {
    var c := m.channel + VideoPath + m.id + rest;
    var x := m.scheme + m.www + Host;
    ConcatAssoc(x, m.channel + VideoPath + m.id, rest);
    ConcatAssoc(x, m.channel + VideoPath, m.id);
    ConcatAssoc(x, m.channel, VideoPath);
    MatchHostComplete(m.scheme, m.www, c);
    MatchVideoPathComplete(m.channel, m.id, rest);
  }

  /** `parseVideoId`: the argument as a number when `strconv.Atoi` accepts
      it, otherwise the digits the URL pattern captures; None stands for
      "Unrecognized url", which ends the process. */
  function ParseVideoId(arg: string): Option<int> {
    match Atoi(arg)
    case Some(n) => Some(n)
    case None =>
      match MatchTwitchUrl(arg)
      case None => None
      case Some((m, _)) => Atoi(m.id)
  }

  /** A number printed with `%d` is taken as the video id. */
  lemma ParseVideoIdNumber(n: int)
    ensures ParseVideoId(FormatInt(n)) == Some(n)
  {
    AtoiFormatInt(n);
  }

  /** A video URL yields the digits after `/v/`, whatever follows them. */
  lemma ParseVideoIdUrl(m: TwitchMatch, rest: string)
    requires WellFormed(m)
    requires rest == [] || !IsDigit(rest[0])
    ensures ParseVideoId(Head(m) + rest) == Some(DigitsValue(m.id))
  {
    MatchTwitchUrlComplete(m, rest);
    var arg := Head(m) + rest;
    assert arg[0] == 'h';
    AtoiRejectsLetterStart(arg);
    AtoiDigits(m.id);
  }

  /** The id found is never negative unless the argument itself is a
      negative number. */
  lemma ParseVideoIdSign(arg: string)
    requires ParseVideoId(arg).Some? && ParseVideoId(arg).value < 0
    ensures Atoi(arg) == ParseVideoId(arg) && arg[0] == '-'
  {
    if Atoi(arg).None? {
      var m := MatchTwitchUrl(arg).value.0;
      AtoiDigits(m.id);
    }
  }

  /** `arg` is the video URL `Head(m)` followed by `rest`, text that does
      not continue its digits. */
  predicate VideoUrlOf(arg: string, m: TwitchMatch, rest: string) {
    WellFormed(m) && (rest == [] || !IsDigit(rest[0])) && arg == Head(m) + rest
  }

  /** The argument has the shape of a video URL. */
  ghost predicate IsVideoUrl(arg: string) {
    exists m: TwitchMatch, rest: string :: VideoUrlOf(arg, m, rest)
  }

  /** An id found in an argument that is not a number comes from a video
      URL, and it is the value of that URL's `/v/` digits. */
  lemma ParseVideoIdFound(arg: string) returns (m: TwitchMatch, rest: string)
    requires Atoi(arg).None? && ParseVideoId(arg).Some?
    ensures VideoUrlOf(arg, m, rest)
    ensures ParseVideoId(arg) == Some(DigitsValue(m.id))
  {
    m, rest := MatchTwitchUrl(arg).value.0, MatchTwitchUrl(arg).value.1;
    AtoiDigits(m.id);
  }

  /** The three outcomes of `parseVideoId`: any text `strconv.Atoi` accepts
      is the id itself; otherwise an id is found exactly when the argument
      has the shape of a video URL, and it is then the value of that URL's
      `/v/` digits; every other argument is refused ("Unrecognized url"). */
  lemma ParseVideoIdCases(arg: string)
    ensures Atoi(arg).Some? ==> ParseVideoId(arg) == Atoi(arg)
    ensures Atoi(arg).None? ==> (ParseVideoId(arg).Some? <==> IsVideoUrl(arg))
    ensures Atoi(arg).None? && ParseVideoId(arg).Some? ==>
      exists m: TwitchMatch, rest: string ::
        VideoUrlOf(arg, m, rest) && ParseVideoId(arg) == Some(DigitsValue(m.id))
  {
    if Atoi(arg).None? {
      if ParseVideoId(arg).Some? {
        var m, rest := ParseVideoIdFound(arg);
        assert VideoUrlOf(arg, m, rest) && ParseVideoId(arg) == Some(DigitsValue(m.id));
      }
      if IsVideoUrl(arg) {
        var m: TwitchMatch, rest: string :| VideoUrlOf(arg, m, rest);
        ParseVideoIdUrl(m, rest);
      }
    }
  }
}
