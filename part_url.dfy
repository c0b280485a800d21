/** The part URLs of a variant playlist, as the resume logic reads them:
    each ends in `?start_offset=N&end_offset=M`, the inclusive byte range the
    part covers in the whole video. The regular expression of the source is
    written out here as a parser over digit runs. */
module PartUrl {
  import opened Types
  import opened Decimal

  const StartKey: string := "?start_offset="
  const EndKey: string := "&end_offset="

  /** The two offsets a part URL carries. */
  datatype Offsets = Offsets(start: nat, end: nat)

  /** The suffix the server appends to a part URL covering bytes `start..end`. */
  function PartQuery(start: nat, end: nat): string {
    StartKey + NatDigits(start) + EndKey + NatDigits(end)
  }

  /** The two digit captures of `\?start_offset=(\d+)&end_offset=(\d+)$`,
      or None when the URL does not end in that pattern. */
  function MatchPartUrl(u: Url): (m: Option<(string, string)>)
    ensures m.Some? ==>
      var a, b := m.value.0, m.value.1;
      && a != [] && AllDigits(a) && b != [] && AllDigits(b)
      && EndsWith(u, StartKey + a + EndKey + b)
  {
    var n2 := TrailingDigits(u);
    var r2 := u[..|u| - n2];
    if n2 == 0 || !EndsWith(r2, EndKey) then None
    else
      var r1 := r2[..|r2| - |EndKey|];
      var n1 := TrailingDigits(r1);
      var r0 := r1[..|r1| - n1];
      if n1 == 0 || !EndsWith(r0, StartKey) then None
      else
        var a, b := r1[|r1| - n1..], u[|u| - n2..];
        assert AllDigits(a) by {
          forall i | 0 <= i < |a| ensures IsDigit(a[i]) { assert a[i] == r1[|r1| - n1 + i]; }
        }
        assert AllDigits(b) by {
          forall i | 0 <= i < |b| ensures IsDigit(b[i]) { assert b[i] == u[|u| - n2 + i]; }
        }
        var pre := r0[..|r0| - |StartKey|];
        SplitAt(u, |u| - n2);
        SuffixRest(r2, EndKey);
        SplitAt(r1, |r1| - n1);
        SuffixRest(r0, StartKey);
        ConcatAssoc(pre, StartKey + a + EndKey, b);
        ConcatAssoc(pre, StartKey + a, EndKey);
        ConcatAssoc(pre, StartKey, a);
        EndsWithConcat(pre, StartKey + a + EndKey + b);
        Some((a, b))
  }

  /** Every URL that ends in the pattern is matched, with exactly the two
      digit runs it ends in as captures. */
  lemma MatchPartUrlComplete(p: string, a: string, b: string)
    requires a != [] && AllDigits(a) && b != [] && AllDigits(b)
    ensures MatchPartUrl(p + StartKey + a + EndKey + b) == Some((a, b))
  {
    var r1 := p + StartKey + a;
    var r2 := r1 + EndKey;
    var u := r2 + b;
    TrailingDigitsOf(r2, b);
    assert u[..|u| - |b|] == r2 && u[|u| - |b|..] == b;
    assert r2[..|r2| - |EndKey|] == r1;
    TrailingDigitsOf(p + StartKey, a);
    assert r1[..|r1| - |a|] == p + StartKey && r1[|r1| - |a|..] == a;
  }

  /** The offsets a part URL carries, read with `strconv.Atoi`. */
  function PartOffsets(u: Url): Option<Offsets> {
    match MatchPartUrl(u)
    case None => None
    case Some((a, b)) => Some(Offsets(DigitsValue(a), DigitsValue(b)))
  }

  /** `partSz := (endOffset - startOffset) + 1`; None when the URL does not
      parse. The offsets are not checked, so the size may be zero or
      negative. A URL with anything but a digit at its end has no size. */
  function PartSize(u: Url): (r: Option<int>)
    ensures (u == [] || !IsDigit(u[|u| - 1])) ==> r.None?
  {
    match PartOffsets(u)
    case None => None
    case Some(o) => Some(o.end - o.start + 1)
  }

  /** A part URL built by the server for bytes `start..end` reads back as
      those offsets. */
  lemma PartOffsetsOfQuery(p: string, start: nat, end: nat)
    ensures PartOffsets(p + PartQuery(start, end)) == Some(Offsets(start, end))
  {
    var a, b := NatDigits(start), NatDigits(end);
    assert p + PartQuery(start, end) == p + StartKey + a + EndKey + b by {
      ConcatAssoc(p, StartKey + a + EndKey, b);
      ConcatAssoc(p, StartKey + a, EndKey);
      ConcatAssoc(p, StartKey, a);
    }
    MatchPartUrlComplete(p, a, b);
  }

  /** ... and has size `end - start + 1`. */
  lemma PartSizeOfQuery(p: string, start: nat, end: nat)
    ensures PartSize(p + PartQuery(start, end)) == Some(end - start + 1)
  {
    var u := p + PartQuery(start, end);
    assert PartOffsets(u) == Some(Offsets(start, end)) by {
      PartOffsetsOfQuery(p, start, end);
    }
    SizeOfOffsets(u, Offsets(start, end));
  }

  lemma SizeOfOffsets(u: Url, o: Offsets)
    requires PartOffsets(u) == Some(o)
    ensures PartSize(u) == Some(o.end - o.start + 1)
  {
  }
}
