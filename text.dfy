/**
 * The text side of `concatenate_ab_value`: `" ".join(...)` and the single
 * `re.sub(r"\s(?=\,|\?|\.|\:|\;|\!)", "", ...)` pass, which deletes every
 * whitespace character whose successor in the joined string is one of the
 * six marks `, ? . : ; !`.
 */
module Text {

  /**
   * `\s` on a `str` pattern: the characters for which Python's `str.isspace`
   * holds (bidirectional class WS, B or S, or general category Zs).
   */
  predicate IsSpace(c: char) {
    c == ' ' || '\t' <= c <= '\r' || '\U{1C}' <= c <= '\U{1F}' || c == '\U{85}' || c == '\U{A0}'
    || c == '\U{1680}' || '\U{2000}' <= c <= '\U{200A}' || c == '\U{2028}' || c == '\U{2029}'
    || c == '\U{202F}' || c == '\U{205F}' || c == '\U{3000}'
  }

  /** The alternatives of the lookahead `(?=\,|\?|\.|\:|\;|\!)`. */
  predicate IsMark(c: char) {
    c == ',' || c == '?' || c == '.' || c == ':' || c == ';' || c == '!'
  }

  predicate NoSpace(s: string) {
    forall k :: 0 <= k < |s| ==> !IsSpace(s[k])
  }

  /** No whitespace character of `s` is directly followed by another one. */
  predicate NoDoubleSpace(s: string) {
    forall i :: 0 <= i < |s| - 1 ==> !(IsSpace(s[i]) && IsSpace(s[i + 1]))
  }

  /** No whitespace character of `s` is directly followed by a mark. */
  predicate NoSpaceBeforeMark(s: string) {
    forall i :: 0 <= i < |s| - 1 ==> !(IsSpace(s[i]) && IsMark(s[i + 1]))
  }

  /** `" ".join(parts)`. */
  function Join(parts: seq<string>): (r: string)
    ensures |parts| == 0 ==> r == ""
    ensures |parts| > 0 && |parts[0]| > 0 ==> |r| > 0 && r[0] == parts[0][0]
  {
    if |parts| == 0 then ""
    else if |parts| == 1 then parts[0]
    else parts[0] + " " + Join(parts[1..])
  }

  /** The pattern matches at position `i` of the string it scans. */
  predicate Removable(s: string, i: int)
    requires 0 <= i < |s|
  {
    IsSpace(s[i]) && i + 1 < |s| && IsMark(s[i + 1])
  }

  /**
   * The substitution applied to the suffix of `s` from `i`: the lookahead
   * looks at the original string, so each position is decided on `s` itself.
   */
  function SubFrom(s: string, i: nat): (r: string)
    requires i <= |s|
    ensures |r| <= |s| - i
    decreases |s| - i
  {
    if i == |s| then []
    else (if Removable(s, i) then [] else [s[i]]) + SubFrom(s, i + 1)
  }

  /** `re.sub(r"\s(?=\,|\?|\.|\:|\;|\!)", "", s)`. */
  function DropSpaceBeforeMarks(s: string): string {
    SubFrom(s, 0)
  }

  /**
   * The positions from `i` on that the substitution keeps, in increasing
   * order: exactly those where the pattern does not match.
   */
  function KeptFrom(s: string, i: nat): seq<nat>
    requires i <= |s|
    decreases |s| - i
  {
    if i == |s| then []
    else if Removable(s, i) then KeptFrom(s, i + 1)
    else [i] + KeptFrom(s, i + 1)
  }

  /** The kept positions from `i` on lie in `s` after `i`, and the pattern matches at none of them. */
  lemma {:induction false} KeptFromBounds(s: string, i: nat)
    requires i <= |s|
    ensures forall k :: 0 <= k < |KeptFrom(s, i)| ==> i <= KeptFrom(s, i)[k] < |s| && !Removable(s, KeptFrom(s, i)[k])
    decreases |s| - i
  {
    if i < |s| {
      KeptFromBounds(s, i + 1);
      var r' := KeptFrom(s, i + 1);
      if !Removable(s, i) {
        var r := [i] + r';
        assert KeptFrom(s, i) == r;
        forall k | 0 <= k < |r|
          ensures i <= r[k] < |s| && !Removable(s, r[k])
        {
          if k > 0 {
            assert r[k] == r'[k - 1];
          }
        }
      }
    }
  }

  /** The kept positions are in increasing order. */
  lemma {:induction false} KeptFromIncreasing(s: string, i: nat)
    requires i <= |s|
    ensures forall k, m :: 0 <= k < m < |KeptFrom(s, i)| ==> KeptFrom(s, i)[k] < KeptFrom(s, i)[m]
    decreases |s| - i
  {
    if i < |s| {
      KeptFromIncreasing(s, i + 1);
      KeptFromBounds(s, i + 1);
      var r' := KeptFrom(s, i + 1);
      if !Removable(s, i) {
        var r := [i] + r';
        assert KeptFrom(s, i) == r;
        forall k, m | 0 <= k < m < |r|
          ensures r[k] < r[m]
        {
          assert r[m] == r'[m - 1];
          if k > 0 {
            assert r[k] == r'[k - 1];
          }
        }
      }
    }
  }

  /** A position from `i` on is kept exactly when the pattern does not match there. */
  lemma {:induction false} KeptFromExact(s: string, i: nat)
    requires i <= |s|
    ensures forall j :: i <= j < |s| ==> (j in KeptFrom(s, i) <==> !Removable(s, j))
    decreases |s| - i
  {
    if i < |s| {
      KeptFromExact(s, i + 1);
      KeptFromBounds(s, i + 1);
      var r' := KeptFrom(s, i + 1);
      if !Removable(s, i) {
        var r := [i] + r';
        assert KeptFrom(s, i) == r;
        forall j | i < j < |s|
          ensures j in r <==> !Removable(s, j)
        {
          InCons(i, r', j);
        }
        assert i in r;
      } else {
        assert i !in r';
      }
    }
  }

  lemma InCons<T>(x: T, r: seq<T>, y: T)
    requires y != x
    ensures y in [x] + r <==> y in r
  {
  }

  /** The substitution keeps the characters at the kept positions, in order, and nothing else. */
  lemma {:induction false} SubFromKept(s: string, i: nat)
    requires i <= |s|
    ensures |SubFrom(s, i)| == |KeptFrom(s, i)|
    ensures forall k :: 0 <= k < |KeptFrom(s, i)| ==>
      KeptFrom(s, i)[k] < |s| && SubFrom(s, i)[k] == s[KeptFrom(s, i)[k]]
    decreases |s| - i
  {
    if i < |s| {
      SubFromKept(s, i + 1);
      var r', K' := SubFrom(s, i + 1), KeptFrom(s, i + 1);
      if !Removable(s, i) {
        assert SubFrom(s, i) == [s[i]] + r';
        assert KeptFrom(s, i) == [i] + K';
        forall k | 0 <= k < |KeptFrom(s, i)|
          ensures KeptFrom(s, i)[k] < |s| && SubFrom(s, i)[k] == s[KeptFrom(s, i)[k]]
        {
          if k > 0 {
            assert SubFrom(s, i)[k] == r'[k - 1];
            assert KeptFrom(s, i)[k] == K'[k - 1];
          }
        }
      } else {
        assert SubFrom(s, i) == r';
        assert KeptFrom(s, i) == K';
      }
    }
  }

  /**
   * `DropSpaceBeforeMarks(s)` is `s` with exactly the whitespace characters
   * followed by a mark removed: the kept positions `K` are every position
   * where the pattern does not match, in order, and character `k` of the
   * result is character `K[k]` of `s`.
   */
  lemma DropSpaceBeforeMarksSpec(s: string)
    ensures var r, K := DropSpaceBeforeMarks(s), KeptFrom(s, 0);
      && |r| == |K|
      && (forall k :: 0 <= k < |K| ==> K[k] < |s| && r[k] == s[K[k]] && !Removable(s, K[k]))
      && (forall k, m :: 0 <= k < m < |K| ==> K[k] < K[m])
      && (forall j :: 0 <= j < |s| ==> (j in K <==> !Removable(s, j)))
  {
    SubFromKept(s, 0);
    KeptFromBounds(s, 0);
    KeptFromIncreasing(s, 0);
    KeptFromExact(s, 0);
  }

  /** Without two whitespace characters in a row, no whitespace is left before a mark. */
  lemma NoSpaceBeforeMarkAfterDrop(s: string)
    requires NoDoubleSpace(s)
    ensures NoSpaceBeforeMark(DropSpaceBeforeMarks(s))
  {
    var r, K := DropSpaceBeforeMarks(s), KeptFrom(s, 0);
    SubFromKept(s, 0);
    KeptFromBounds(s, 0);
    KeptFromIncreasing(s, 0);
    KeptFromExact(s, 0);
    forall k | 0 <= k < |r| - 1
      ensures !(IsSpace(r[k]) && IsMark(r[k + 1]))
    {
      assert r[k] == s[K[k]] && r[k + 1] == s[K[k + 1]];
      NextKept(s, K, k);
    }
  }

  /** A kept whitespace character is followed in the result by its successor in `s`, which is no mark. */
  lemma NextKept(s: string, K: seq<nat>, k: nat)
    requires NoDoubleSpace(s)
    requires forall x :: 0 <= x < |K| ==> K[x] < |s| && !Removable(s, K[x])
    requires forall x, y :: 0 <= x < y < |K| ==> K[x] < K[y]
    requires forall j :: 0 <= j < |s| && !Removable(s, j) ==> j in K
    requires k + 1 < |K|
    ensures !(IsSpace(s[K[k]]) && IsMark(s[K[k + 1]]))
  {
    var a, b := K[k], K[k + 1];
    assert a < b < |s|;
    if IsSpace(s[a]) {
      assert !IsSpace(s[a + 1]);
      assert !Removable(s, a + 1);
      assert a + 1 in K;
      var m :| 0 <= m < |K| && K[m] == a + 1;
      assert k < m;
      assert b <= K[m];
      assert !Removable(s, a);
    }
  }

  /** The result is unchanged when the pattern matches nowhere. */
  lemma DropNothing(s: string)
    requires NoSpaceBeforeMark(s)
    ensures DropSpaceBeforeMarks(s) == s
  {
    SubFromNothing(s, 0);
  }

  lemma {:induction false} SubFromNothing(s: string, i: nat)
    requires i <= |s|
    requires forall j :: i <= j < |s| - 1 ==> !(IsSpace(s[j]) && IsMark(s[j + 1]))
    ensures SubFrom(s, i) == s[i..]
    decreases |s| - i
  {
    if i < |s| {
      SubFromNothing(s, i + 1);
      assert s[i..] == [s[i]] + s[i + 1..];
    }
  }

  /** `" ".join` of non-empty words without whitespace puts exactly one space between words. */
  lemma {:induction false} JoinNoDoubleSpace(parts: seq<string>)
    requires forall p :: p in parts ==> |p| > 0 && NoSpace(p)
    ensures NoDoubleSpace(Join(parts))
  {
    if |parts| >= 2 {
      var head, tail := parts[0], Join(parts[1..]);
      JoinNoDoubleSpace(parts[1..]);
      assert parts[1] in parts;
      var s := head + " " + tail;
      assert Join(parts) == s;
      forall i | 0 <= i < |s| - 1
        ensures !(IsSpace(s[i]) && IsSpace(s[i + 1]))
      {
        if i < |head| {
          assert s[i] == head[i];
        } else if i > |head| {
          assert s[i] == tail[i - |head| - 1] && s[i + 1] == tail[i - |head|];
        } else {
          assert s[i + 1] == tail[0] == parts[1][0];
        }
      }
    } else if |parts| == 1 {
      assert parts[0] in parts;
    }
  }
}
