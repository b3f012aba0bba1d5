/**
 Substring containment, the test `String.prototype.includes` performs: an
 executable scan over start offsets, `Contains`, and the definition it is
 proved against, `IsSubstring` (some offset at which the needle occurs).
 */
module Substrings {
  import opened CaseFold

  /** `needle` occurs in `hay` starting at offset `k`. */
  ghost predicate OccursAt(needle: string, hay: string, k: int) {
    0 <= k && k + |needle| <= |hay| && hay[k..k + |needle|] == needle
  }

  /** `needle` is a contiguous substring of `hay`. */
  ghost predicate IsSubstring(needle: string, hay: string) {
    exists k :: OccursAt(needle, hay, k)
  }

  /** Compare `needle[i..]` with `hay` from offset `k + i`, one character at a time. */
  function AgreesFrom(hay: string, needle: string, k: nat, i: nat): bool
    requires i <= |needle| && k + i <= |hay|
    decreases |needle| - i
  {
    if i == |needle| then true
    else if k + i == |hay| then false
    else hay[k + i] == needle[i] && AgreesFrom(hay, needle, k, i + 1)
  }

  /** The comparison from `i` on succeeds exactly when the rest of the needle
      fits into `hay` and agrees with it character by character. */
  lemma {:induction false} AgreesFromSpec(hay: string, needle: string, k: nat, i: nat)
    requires i <= |needle| && k + i <= |hay|
    ensures AgreesFrom(hay, needle, k, i)
        <==> k + |needle| <= |hay| && forall j :: i <= j < |needle| ==> hay[k + j] == needle[j]
    decreases |needle| - i
  {
    if i < |needle| && k + i < |hay| {
      AgreesFromSpec(hay, needle, k, i + 1);
    }
  }

  /** The whole needle agrees with `hay` from offset `k` exactly when it occurs there. */
  lemma AgreesAt(hay: string, needle: string, k: nat)
    requires k <= |hay|
    ensures AgreesFrom(hay, needle, k, 0) <==> OccursAt(needle, hay, k)
  {
    AgreesFromSpec(hay, needle, k, 0);
    if AgreesFrom(hay, needle, k, 0) {
      assert hay[k..k + |needle|] == needle;
    }
  }

  /** Try every start offset from `k` on, left to right. */
  function ContainsFrom(hay: string, needle: string, k: nat): bool
    requires k <= |hay|
    decreases |hay| - k
  {
    if AgreesFrom(hay, needle, k, 0) then true
    else if k == |hay| then false
    else ContainsFrom(hay, needle, k + 1)
  }

  /** The scan from `k` succeeds exactly when the needle occurs at `k` or later. */
  lemma {:induction false} ContainsFromSpec(hay: string, needle: string, k: nat)
    requires k <= |hay|
    ensures ContainsFrom(hay, needle, k) <==> exists m :: k <= m && OccursAt(needle, hay, m)
    decreases |hay| - k
  {
    AgreesAt(hay, needle, k);
    if !AgreesFrom(hay, needle, k, 0) {
      if k == |hay| {
        forall m | k <= m
          ensures !OccursAt(needle, hay, m)
        {
          if m == k {
            AgreesAt(hay, needle, m);
          }
        }
      } else {
        ContainsFromSpec(hay, needle, k + 1);
      }
    }
  }

  /** `hay.includes(needle)`. */
  function Contains(hay: string, needle: string): (r: bool)
    ensures needle == [] ==> r
    ensures r ==> |needle| <= |hay|
  {
    ContainsFromSpec(hay, needle, 0);
    ContainsFrom(hay, needle, 0)
  }

  /** The scan finds the needle exactly when it is a substring. */
  lemma ContainsIsSubstring(hay: string, needle: string)
    ensures Contains(hay, needle) <==> IsSubstring(needle, hay)
  {
    ContainsFromSpec(hay, needle, 0);
  }

  /** Every character of a needle that is found also appears in `hay`; so a
      needle holding a character that `hay` lacks is not found. */
  lemma FoundCharacter(hay: string, needle: string, c: char)
    requires c in needle
    ensures Contains(hay, needle) ==> c in hay
  {
    ContainsIsSubstring(hay, needle);
    if IsSubstring(needle, hay) {
      var k :| OccursAt(needle, hay, k);
      var j :| 0 <= j < |needle| && needle[j] == c;
      assert hay[k..k + |needle|][j] == hay[k + j];
    }
  }

  /** The empty string is found in every string. */
  lemma EmptyIsSubstring(hay: string)
    ensures IsSubstring([], hay)
  {
    assert OccursAt([], hay, 0);
  }

  /** A substring of a substring is a substring. */
  lemma SubstringTransitive(a: string, b: string, c: string)
    requires IsSubstring(a, b) && IsSubstring(b, c)
    ensures IsSubstring(a, c)
  {
    var i :| OccursAt(a, b, i);
    var j :| OccursAt(b, c, j);
    forall t | 0 <= t < |a|
      ensures c[j + i..j + i + |a|][t] == a[t]
    {
      assert a[t] == b[i + t] == c[j + i + t];
    }
    assert OccursAt(a, c, j + i);
  }

  /** Lower-casing both sides keeps an occurrence where it was. */
  lemma LowerKeepsSubstring(needle: string, hay: string)
    requires IsSubstring(needle, hay)
    ensures IsSubstring(Lower(needle), Lower(hay))
  {
    var k :| OccursAt(needle, hay, k);
    LowerSlice(hay, k, k + |needle|);
    assert OccursAt(Lower(needle), Lower(hay), k);
  }
}
