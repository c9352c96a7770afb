/**
 * The two string operations the recommender applies to its free-text fields:
 * Python's substring test `pat in s` and `s.replace(pat, '')`.
 */
module Strings {

  /** `pat` is a prefix of `s`. */
  predicate IsPrefix(pat: string, s: string) {
    |pat| <= |s| && s[..|pat|] == pat
  }

  /** Python's `pat in s`, computed by trying every start position from the left. */
  predicate Contains(s: string, pat: string)
    decreases |s|
  {
    IsPrefix(pat, s) || (|s| > 0 && Contains(s[1..], pat))
  }

  /** The reference meaning of `pat in s`: `pat` occurs at some position of `s`. */
  ghost predicate OccursAt(s: string, pat: string, i: int) {
    0 <= i && i + |pat| <= |s| && s[i..i + |pat|] == pat
  }

  lemma {:induction false} ContainsMeansOccurs(s: string, pat: string)
    ensures Contains(s, pat) <==> exists i :: OccursAt(s, pat, i)
    decreases |s|
  {
    if IsPrefix(pat, s) {
      assert OccursAt(s, pat, 0);
    } else if |s| > 0 {
      ContainsMeansOccurs(s[1..], pat);
      if Contains(s[1..], pat) {
        var i :| OccursAt(s[1..], pat, i);
        assert s[1..][i..i + |pat|] == s[i + 1..i + 1 + |pat|];
        assert OccursAt(s, pat, i + 1);
      } else {
        forall i | 1 <= i && OccursAt(s, pat, i) ensures OccursAt(s[1..], pat, i - 1) {
          assert s[1..][i - 1..i - 1 + |pat|] == s[i..i + |pat|];
        }
      }
    }
  }

  /** A text lacking one of the characters of `pat` does not contain `pat`. */
  lemma {:induction false} MissingCharNotContained(s: string, pat: string, k: nat)
    requires k < |pat|
    requires forall i :: 0 <= i < |s| ==> s[i] != pat[k]
    ensures !Contains(s, pat)
    decreases |s|
  {
    if |pat| <= |s| {
      assert s[..|pat|][k] == s[k];
    }
    if |s| > 0 {
      MissingCharNotContained(s[1..], pat, k);
    }
  }

  /**
   * Python's `s.replace(pat, '')` for a non-empty `pat`: scan from the left and
   * drop every non-overlapping occurrence.
   */
  function RemoveAll(s: string, pat: string): (r: string)
    requires |pat| > 0
    ensures |r| <= |s|
    decreases |s|
  {
    if |s| == 0 then ""
    else if IsPrefix(pat, s) then RemoveAll(s[|pat|..], pat)
    else [s[0]] + RemoveAll(s[1..], pat)
  }

  /** Text without an occurrence of `pat` is left as it is. */
  lemma {:induction false} RemoveAllAbsent(s: string, pat: string)
    requires |pat| > 0
    requires !Contains(s, pat)
    ensures RemoveAll(s, pat) == s
    decreases |s|
  {
    if |s| > 0 {
      RemoveAllAbsent(s[1..], pat);
      assert [s[0]] + s[1..] == s;
    }
  }

  /** Removing `pat` from `t + pat` gives back `t` when `t` holds no character `pat` starts with. */
  lemma {:induction false} RemoveAllSuffix(t: string, pat: string)
    requires |pat| > 0
    requires forall i :: 0 <= i < |t| ==> t[i] != pat[0]
    ensures RemoveAll(t + pat, pat) == t
    decreases |t|
  {
    if |t| == 0 {
      assert t + pat == pat;
      assert pat[|pat|..] == "";
    } else {
      var s := t + pat;
      assert s[0] == t[0] && !IsPrefix(pat, s);
      assert s[1..] == t[1..] + pat;
      RemoveAllSuffix(t[1..], pat);
      assert [t[0]] + t[1..] == t;
    }
  }
}
