/** Choosing the variant playlist of the requested quality from the master
    playlist (`getPlaylist`). The quality name of a variant is component 7 of
    its path split on '/'. Downloading the master and the chosen playlist is
    network I/O and is not part of this module: the variant paths come in as
    a sequence. */
module Quality {
  import opened Types

  /** `strings.Split(s, string(sep))`: the pieces between separators, in
      order; n separators give n + 1 pieces, the empty text one empty piece. */
  function Split(s: string, sep: char): (parts: seq<string>)
    ensures |parts| >= 1
    ensures forall k :: 0 <= k < |parts| ==> sep !in parts[k]
  {
    if s == [] then [[]]
    else
      var init := Split(s[..|s| - 1], sep);
      var c := s[|s| - 1];
      if c == sep then init + [[]]
      else init[..|init| - 1] + [init[|init| - 1] + [c]]
  }

  /** `strings.Join(parts, string(sep))`. */
  function Join(parts: seq<string>, sep: char): string
    requires |parts| >= 1
  {
    if |parts| == 1 then parts[0]
    else Join(parts[..|parts| - 1], sep) + [sep] + parts[|parts| - 1]
  }

  /** Extending the last piece extends the joined text. */
  lemma JoinExtendLast(parts: seq<string>, sep: char, c: char)
    requires |parts| >= 1
    ensures Join(parts[..|parts| - 1] + [parts[|parts| - 1] + [c]], sep) == Join(parts, sep) + [c]
  {
    var n := |parts|;
    var q := parts[..n - 1] + [parts[n - 1] + [c]];
    if n > 1 {
      assert q[..n - 1] == parts[..n - 1];
    }
  }

  /** Joining the pieces restores the text that was split. */
  lemma {:induction false} JoinSplit(s: string, sep: char)
    ensures Join(Split(s, sep), sep) == s
    decreases |s|
  {
    if s != [] {
      var init := Split(s[..|s| - 1], sep);
      JoinSplit(s[..|s| - 1], sep);
      var c := s[|s| - 1];
      if c == sep {
        assert (init + [[]])[..|init|] == init;
      } else {
        JoinExtendLast(init, sep, c);
      }
      assert s == s[..|s| - 1] + [c];
    }
  }

  /** Appending separator-free text extends the last piece. */
  lemma {:induction false} SplitAppend(s: string, t: string, sep: char)
    requires sep !in t
    ensures var p := Split(s, sep);
      Split(s + t, sep) == p[..|p| - 1] + [p[|p| - 1] + t]
    decreases |t|
  {
    var p := Split(s, sep);
    if t == [] {
      assert s + t == s && p[|p| - 1] + t == p[|p| - 1];
      assert p[..|p| - 1] + [p[|p| - 1]] == p;
    } else {
      var t' := t[..|t| - 1];
      var c := t[|t| - 1];
      SplitAppend(s, t', sep);
      assert (s + t)[..|s + t| - 1] == s + t';
      var q := p[..|p| - 1] + [p[|p| - 1] + t'];
      assert q[..|q| - 1] == p[..|p| - 1] && q[|q| - 1] == p[|p| - 1] + t';
      assert c in t;
      assert (s + t)[|s + t| - 1] == c;
      assert (p[|p| - 1] + t') + [c] == p[|p| - 1] + t;
    }
  }

  /** Splitting what was joined gives back the pieces, when no piece holds
      the separator. */
  lemma {:induction false} SplitJoin(parts: seq<string>, sep: char)
    requires |parts| >= 1
    requires forall k :: 0 <= k < |parts| ==> sep !in parts[k]
    ensures Split(Join(parts, sep), sep) == parts
    decreases |parts|
  {
    var n := |parts|;
    if n == 1 {
      SplitAppend([], parts[0], sep);
      assert [] + parts[0] == parts[0];
    } else {
      var init := parts[..n - 1];
      var j := Join(init, sep);
      SplitJoin(init, sep);
      SplitAppend(j + [sep], parts[n - 1], sep);
      AppendFront(j, sep);
      var p := Split(j + [sep], sep);
      assert p == init + [[]];
      AppendFront(init, []);
      assert [] + parts[n - 1] == parts[n - 1];
      FrontLast(parts);
    }
  }

  /** The quality name of a variant, component 7 of its path; None when the
      path has fewer than eight components (where the source indexes out of
      range). */
  function VariantQuality(path: Url): Option<string> {
    var v := Split(path, '/');
    if |v| > 7 then Some(v[7]) else None
  }

  datatype Selection =
    | Selected(url: Url, qualities: seq<string>)  // the chosen variant and every variant's quality
    | QualityNotFound(qualities: seq<string>)     // "Could not find requested quality", with the list
    | ShortVariantPath(index: nat)                // a variant path with fewer than eight components

  /** The selection loop of `getPlaylist`: record every variant's quality in
      order, keep the last variant whose quality is the requested one. */
  method SelectVariant(paths: seq<Url>, quality: string) returns (r: Selection)
    ensures r.ShortVariantPath? ==>
      && r.index < |paths| && VariantQuality(paths[r.index]).None?
      && forall j :: 0 <= j < r.index ==> VariantQuality(paths[j]).Some?
    ensures !r.ShortVariantPath? ==>
      && |r.qualities| == |paths|
      && forall j :: 0 <= j < |paths| ==> VariantQuality(paths[j]) == Some(r.qualities[j])
    ensures r.QualityNotFound? ==> quality !in r.qualities
    ensures r.Selected? ==>
      exists j :: 0 <= j < |paths| && paths[j] == r.url && r.qualities[j] == quality
                  && quality !in r.qualities[j + 1..]
  {
    var qualities: seq<string> := [];
    var playlistUrl: Url := "";
    ghost var chosen: int := -1;
    for i := 0 to |paths|
      invariant |qualities| == i
      invariant forall j :: 0 <= j < i ==> VariantQuality(paths[j]) == Some(qualities[j])
      invariant -1 <= chosen < i
      invariant chosen == -1 ==> playlistUrl == "" && quality !in qualities
      invariant chosen >= 0 ==>
        && playlistUrl == paths[chosen] && playlistUrl != ""
        && qualities[chosen] == quality && quality !in qualities[chosen + 1..]
    {
      var v := Split(paths[i], '/');
      if |v| <= 7 {
        return ShortVariantPath(i);
      }
      var q := v[7];
      var before := qualities;
      qualities := qualities + [q];
      if q == quality {
        assert paths[i] != "";
        playlistUrl := paths[i];
        chosen := i;
      } else if chosen >= 0 {
        assert qualities[chosen + 1..] == before[chosen + 1..] + [q];
      }
    }
    if playlistUrl == "" {
      return QualityNotFound(qualities);
    }
    return Selected(playlistUrl, qualities);
  }
}
