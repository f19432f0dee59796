/**
 * The pattern `(?<=MARKER)\d*` as `generate_request_info` uses it with
 * `re.findall(...)[0]`: the first match begins at the first position the
 * lookbehind accepts, and takes the longest run of digits from there.
 */
module UrlScan {
  import opened Wrappers
  import opened Decimal

  /** The lookbehind `(?<=marker)` accepts position `p` of `s`. */
  predicate MarkerEndsAt(s: string, marker: string, p: int) {
    |marker| <= p <= |s| && s[p - |marker|..p] == marker
  }

  /** The first position at or after `from` that the lookbehind accepts. */
  function FirstMarkerEnd(s: string, marker: string, from: nat): (r: Option<nat>)
    ensures r.Some? ==> from <= r.value <= |s| && MarkerEndsAt(s, marker, r.value)
    ensures r.Some? ==> forall p :: from <= p < r.value ==> !MarkerEndsAt(s, marker, p)
    ensures r.None? ==> forall p :: from <= p <= |s| ==> !MarkerEndsAt(s, marker, p)
    decreases |s| - from
  {
    if from > |s| then None
    else if MarkerEndsAt(s, marker, from) then Some(from)
    else FirstMarkerEnd(s, marker, from + 1)
  }

  /** `\d*` matched greedily at the start of `s`. */
  function DigitRun(s: string): string {
    if |s| > 0 && IsDigit(s[0]) then [s[0]] + DigitRun(s[1..]) else []
  }

  /** The digit run is the longest prefix of `s` made of digits only. */
  lemma {:induction false} DigitRunSpec(s: string)
    ensures var r := DigitRun(s);
      && |r| <= |s| && r == s[..|r|] && AllDigits(r)
      && (|r| < |s| ==> !IsDigit(s[|r|]))
  {
    if |s| > 0 && IsDigit(s[0]) {
      DigitRunSpec(s[1..]);
      var r' := DigitRun(s[1..]);
      assert DigitRun(s) == [s[0]] + r';
      assert s[..|r'| + 1] == [s[0]] + s[1..][..|r'|];
    }
  }

  /** `re.findall("(?<=" + marker + r")\d*", s)[0]`, or None where that list is empty. */
  function FirstDigitsAfter(s: string, marker: string): (r: Option<string>)
    ensures r.None? <==> forall p :: 0 <= p <= |s| ==> !MarkerEndsAt(s, marker, p)
    ensures r.Some? ==> AllDigits(r.value)
  {
    match FirstMarkerEnd(s, marker, 0)
    case None => None
    case Some(p) => DigitRunSpec(s[p..]); Some(DigitRun(s[p..]))
  }

  /**
   * A marker `&X=` written right after `w` is the first one found, provided
   * every `&` inside `w` is followed, inside `w`, by something other than `X`;
   * the match then reads exactly the digits `d` written after the marker.
   */
  lemma FirstDigitsAfterMarker(w: string, marker: string, d: string, v: string)
    requires |marker| == 3 && marker[0] == '&'
    requires forall i :: 0 <= i < |w| && w[i] == '&' ==> i + 1 < |w| && w[i + 1] != marker[1]
    requires AllDigits(d)
    requires |v| == 0 || !IsDigit(v[0])
    ensures FirstDigitsAfter(w + marker + d + v, marker) == Some(d)
  {
    var s := w + marker + d + v;
    var q := |w| + 3;
    assert s[|w|..q] == marker;
    assert MarkerEndsAt(s, marker, q);
    forall p | 0 <= p < q
      ensures !MarkerEndsAt(s, marker, p)
    {
      if 3 <= p {
        assert s[p - 3..p][0] == s[p - 3] == w[p - 3];
        if p - 2 < |w| {
          assert s[p - 3..p][1] == s[p - 2] == w[p - 2];
        } else {
          assert s[p - 3..p][0] == s[p - 3] != marker[0] by {
            assert s[p - 3] == w[|w| - 1];
          }
        }
      }
    }
    assert s[q..] == d + v;
    DigitRunStops(d, v);
  }

  /** The digit run of `d + v` is `d` when `v` does not go on with a digit. */
  lemma DigitRunStops(d: string, v: string)
    requires AllDigits(d)
    requires |v| == 0 || !IsDigit(v[0])
    ensures DigitRun(d + v) == d
  {
    var s := d + v;
    var r := DigitRun(s);
    DigitRunSpec(s);
    assert forall k :: 0 <= k < |d| ==> s[k] == d[k];
    assert |d| < |s| ==> s[|d|] == v[0];
    assert r == s[..|r|];
  }
}
