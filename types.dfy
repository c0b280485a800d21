/** Values shared by every part of the downloader model. */
module Types {

  /** One octet of a downloaded body or of the output file. */
  newtype byte = b: int | 0 <= b < 0x100

  /** A part or playlist location, as the text the playlist holds. */
  type Url = string

  datatype Option<T> = None | Some(value: T)

  /** What one HTTP GET yields: the response body, whatever its status
      code (the download loops never look at the status), or a transport
      error reported by the HTTP client. */
  datatype Fetch = Body(bytes: seq<byte>) | TransportError

  /** The fatal conditions of a download run; each one ends the process. */
  datatype Failure =
    | UnparseablePartUrl(index: int)  // "Failed to parse part url, can not continue download"
    | TransportFailed(index: int)     // "Error while downloading"
    | SkipPastBody(index: int)        // the refetched body is shorter than the bytes to skip
    | IndexOutOfRange(index: int)     // a part index outside the playlist

  predicate IsPrefix<T(==)>(p: seq<T>, s: seq<T>) {
    |p| <= |s| && s[..|p|] == p
  }

  predicate EndsWith<T(==)>(s: seq<T>, t: seq<T>) {
    |t| <= |s| && s[|s| - |t|..] == t
  }

  lemma ConcatAssoc<T>(a: seq<T>, b: seq<T>, c: seq<T>)
    ensures a + (b + c) == a + b + c
  {
  }

  /** A text with prefix `p` is `p` followed by the rest. */
  lemma PrefixRest<T>(p: seq<T>, s: seq<T>)
    requires IsPrefix(p, s)
    ensures s == p + s[|p|..]
  {
    assert s == s[..|p|] + s[|p|..];
  }

  /** A text ending in `t` is the rest followed by `t`. */
  lemma SuffixRest<T>(s: seq<T>, t: seq<T>)
    requires EndsWith(s, t)
    ensures s == s[..|s| - |t|] + t
  {
    assert s == s[..|s| - |t|] + s[|s| - |t|..];
  }

  lemma SplitAt<T>(s: seq<T>, k: nat)
    requires k <= |s|
    ensures s == s[..k] + s[k..]
  {
  }

  /** Whatever precedes `t`, the text ends in `t`. */
  lemma EndsWithConcat<T>(pre: seq<T>, t: seq<T>)
    ensures EndsWith(pre + t, t)
  {
    assert (pre + t)[|pre|..] == t;
  }

  /** One differing position rules a prefix out. */
  lemma NotPrefixAt<T>(p: seq<T>, s: seq<T>, i: nat)
    requires i < |p| && i < |s| && s[i] != p[i]
    ensures !IsPrefix(p, s)
  {
    if |p| <= |s| {
      assert s[..|p|][i] == s[i];
    }
  }

  /** A non-empty slice is its first element followed by the rest. */
  lemma SliceCons<T>(s: seq<T>, i: nat, j: nat)
    requires i < j <= |s|
    ensures s[i..j] == [s[i]] + s[i + 1..j]
  {
  }

  /** A non-empty sequence is its front followed by its last element. */
  lemma FrontLast<T>(s: seq<T>)
    requires s != []
    ensures s == s[..|s| - 1] + [s[|s| - 1]]
  {
  }

  /** Appending one element and dropping it again gives the sequence back. */
  lemma AppendFront<T>(s: seq<T>, x: T)
    ensures (s + [x])[..|s|] == s && (s + [x])[|s|] == x
  {
  }
}
