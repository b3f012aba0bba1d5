/**
 The breed search of the index page: the breed records and the
 case-insensitive name filter that decides which breed cards are shown for
 the current search term.
 */
module BreedSearch {
  import opened CaseFold
  import opened Substrings
  import opened Subsequences

  /** One entry of the breed catalog. */
  datatype Breed = Breed(name: string, description: string)

  /** The filter's predicate: the lower-cased name includes the lower-cased
      search term. The description is never consulted. */
  function Matches(breed: Breed, searchTerm: string): (r: bool)
    ensures searchTerm == [] ==> r
    ensures r ==> |searchTerm| <= |breed.name|
  {
    Contains(Lower(breed.name), Lower(searchTerm))
  }

  /** A breed matches exactly when its lower-cased name has the lower-cased
      search term as a contiguous substring. */
  lemma MatchesIsSubstring(breed: Breed, searchTerm: string)
    ensures Matches(breed, searchTerm) <==> IsSubstring(Lower(searchTerm), Lower(breed.name))
  {
    ContainsIsSubstring(Lower(breed.name), Lower(searchTerm));
  }

  /** `catalog.filter(...)`: the breeds whose name matches, in catalog order. */
  function Filter(catalog: seq<Breed>, searchTerm: string): (r: seq<Breed>)
    ensures |r| <= |catalog|
  {
    if catalog == [] then []
    else
      var rest := Filter(catalog[1..], searchTerm);
      if Matches(catalog[0], searchTerm) then [catalog[0]] + rest else rest
  }

  /** The names of a sequence of breeds, in order. */
  function Names(breeds: seq<Breed>): (r: seq<string>)
    ensures |r| == |breeds|
    ensures forall i :: 0 <= i < |breeds| ==> r[i] == breeds[i].name
  {
    if breeds == [] then [] else [breeds[0].name] + Names(breeds[1..])
  }

  /** Filtering a catalog made of two parts filters each part on its own. */
  lemma {:induction false} FilterAppend(c1: seq<Breed>, c2: seq<Breed>, searchTerm: string)
    ensures Filter(c1 + c2, searchTerm) == Filter(c1, searchTerm) + Filter(c2, searchTerm)
  {
    if c1 != [] {
      FilterAppend(c1[1..], c2, searchTerm);
      assert (c1 + c2)[1..] == c1[1..] + c2;
    } else {
      assert c1 + c2 == c2;
    }
  }

  /** The filter only drops breeds: what it shows keeps the catalog's order. */
  lemma {:induction false} FilterIsSubsequence(catalog: seq<Breed>, searchTerm: string)
    ensures IsSubsequence(Filter(catalog, searchTerm), catalog)
  {
    if catalog != [] {
      FilterIsSubsequence(catalog[1..], searchTerm);
      var r := Filter(catalog, searchTerm);
      if Matches(catalog[0], searchTerm) {
        assert r[0] == catalog[0] && r[1..] == Filter(catalog[1..], searchTerm);
      }
    }
  }

  /** A breed is shown exactly when it is in the catalog and its name matches. */
  lemma {:induction false} FilterMembership(catalog: seq<Breed>, searchTerm: string, b: Breed)
    ensures b in Filter(catalog, searchTerm) <==> b in catalog && Matches(b, searchTerm)
  {
    if catalog != [] {
      FilterMembership(catalog[1..], searchTerm, b);
      assert catalog == [catalog[0]] + catalog[1..];
    }
  }

  /** A matching breed is shown as many times as the catalog lists it, a
      non-matching one never. Together with FilterIsSubsequence (the order is
      kept) this pins the result down completely. */
  lemma {:induction false} FilterCount(catalog: seq<Breed>, searchTerm: string, b: Breed)
    ensures multiset(Filter(catalog, searchTerm))[b]
         == if Matches(b, searchTerm) then multiset(catalog)[b] else 0
  {
    if catalog != [] {
      FilterCount(catalog[1..], searchTerm, b);
      assert catalog == [catalog[0]] + catalog[1..];
    }
  }

  /** The whole catalog is shown exactly when every breed matches. */
  lemma {:induction false} FilterKeepsAll(catalog: seq<Breed>, searchTerm: string)
    ensures Filter(catalog, searchTerm) == catalog
        <==> forall i :: 0 <= i < |catalog| ==> Matches(catalog[i], searchTerm)
  {
    if catalog != [] {
      FilterKeepsAll(catalog[1..], searchTerm);
      var rest := Filter(catalog[1..], searchTerm);
      if Matches(catalog[0], searchTerm) && rest != catalog[1..] {
        assert [catalog[0]] + rest != catalog by {
          assert ([catalog[0]] + rest)[1..] == rest;
        }
      }
    }
  }

  /** Nothing is shown exactly when no breed matches; an empty result is an
      ordinary outcome, not an error. */
  lemma {:induction false} FilterKeepsNone(catalog: seq<Breed>, searchTerm: string)
    ensures Filter(catalog, searchTerm) == []
        <==> forall i :: 0 <= i < |catalog| ==> !Matches(catalog[i], searchTerm)
  {
    if catalog != [] {
      FilterKeepsNone(catalog[1..], searchTerm);
    }
  }

  /** The empty search term shows the catalog unchanged. */
  lemma {:induction false} FilterEmptySearchTerm(catalog: seq<Breed>)
    ensures Filter(catalog, "") == catalog
  {
    forall i | 0 <= i < |catalog|
      ensures Matches(catalog[i], "")
    {
      EmptyIsSubstring(Lower(catalog[i].name));
      MatchesIsSubstring(catalog[i], "");
    }
    FilterKeepsAll(catalog, "");
  }

  /** Two search terms that lower-case alike show the same breeds. */
  lemma {:induction false} FilterCaseInsensitive(catalog: seq<Breed>, q1: string, q2: string)
    requires Lower(q1) == Lower(q2)
    ensures Filter(catalog, q1) == Filter(catalog, q2)
  {
    if catalog != [] {
      FilterCaseInsensitive(catalog[1..], q1, q2);
    }
  }

  /** Lower-casing the search term first changes nothing. */
  lemma FilterLowerSearchTerm(catalog: seq<Breed>, searchTerm: string)
    ensures Filter(catalog, Lower(searchTerm)) == Filter(catalog, searchTerm)
  {
    LowerIdempotent(searchTerm);
    FilterCaseInsensitive(catalog, Lower(searchTerm), searchTerm);
  }

  /** A breed that matches a term also matches every lower-cased substring of it. */
  lemma MatchesNarrower(b: Breed, q1: string, q2: string)
    requires IsSubstring(Lower(q1), Lower(q2))
    requires Matches(b, q2)
    ensures Matches(b, q1)
  {
    MatchesIsSubstring(b, q1);
    MatchesIsSubstring(b, q2);
    SubstringTransitive(Lower(q1), Lower(q2), Lower(b.name));
  }

  /** Narrowing the search (the lower-cased old term occurs in the lower-cased
      new one) can only drop breeds, never add or reorder them, so it never
      shows more breeds than before. */
  lemma {:induction false} FilterNarrows(catalog: seq<Breed>, q1: string, q2: string)
    requires IsSubstring(Lower(q1), Lower(q2))
    ensures IsSubsequence(Filter(catalog, q2), Filter(catalog, q1))
    ensures |Filter(catalog, q2)| <= |Filter(catalog, q1)|
  {
    if catalog != [] {
      FilterNarrows(catalog[1..], q1, q2);
      var r1, r2 := Filter(catalog, q1), Filter(catalog, q2);
      var t1, t2 := Filter(catalog[1..], q1), Filter(catalog[1..], q2);
      if Matches(catalog[0], q2) {
        MatchesNarrower(catalog[0], q1, q2);
        assert r2[1..] == t2 && r1[1..] == t1;
      } else if Matches(catalog[0], q1) {
        assert r1[1..] == t1;
        SubsequenceOfTail(r2, r1);
      }
    }
    SubsequenceLength(Filter(catalog, q2), Filter(catalog, q1));
  }

  /** Typing more characters onto the search term can only drop breeds. */
  lemma FilterExtendedSearchTerm(catalog: seq<Breed>, q1: string, q2: string)
    requires IsSubstring(q1, q2)
    ensures IsSubsequence(Filter(catalog, q2), Filter(catalog, q1))
  {
    LowerKeepsSubstring(q1, q2);
    FilterNarrows(catalog, q1, q2);
  }

  /** Filtering the shown breeds again with the same term shows them all. */
  lemma {:induction false} FilterIdempotent(catalog: seq<Breed>, searchTerm: string)
    ensures Filter(Filter(catalog, searchTerm), searchTerm) == Filter(catalog, searchTerm)
  {
    var r := Filter(catalog, searchTerm);
    forall i | 0 <= i < |r|
      ensures Matches(r[i], searchTerm)
    {
      FilterMembership(catalog, searchTerm, r[i]);
    }
    FilterKeepsAll(r, searchTerm);
  }

  /** Which breeds are shown depends on the names alone: two catalogs that
      list the same names, whatever their descriptions, show the same names. */
  lemma {:induction false} FilterIgnoresDescription(c1: seq<Breed>, c2: seq<Breed>, searchTerm: string)
    requires Names(c1) == Names(c2)
    ensures Names(Filter(c1, searchTerm)) == Names(Filter(c2, searchTerm))
  {
    if c1 != [] {
      assert c1[0].name == c2[0].name;
      assert Names(c1[1..]) == Names(c1)[1..] == Names(c2)[1..] == Names(c2[1..]);
      FilterIgnoresDescription(c1[1..], c2[1..], searchTerm);
    }
  }
}
