/**
 The fixed catalog of the index page and the search results it yields for a
 few concrete search terms.
 */
module Catalog {
  import opened CaseFold
  import opened Substrings
  import opened BreedSearch

  const Siamese := Breed("Siamese", "Known for their distinctive color points and blue eyes.")
  const MaineCoon := Breed("Maine Coon", "One of the largest domesticated cat breeds with a distinctive physical appearance.")
  const Persian := Breed("Persian", "Characterized by their round face and short muzzle.")
  const Bengal := Breed("Bengal", "Known for their wild appearance and energetic personality.")
  const Sphynx := Breed("Sphynx", "Distinctive for their lack of coat and wrinkled skin.")

  /** The catalog, in display order. */
  const CatBreeds: seq<Breed> := [Siamese, MaineCoon, Persian, Bengal, Sphynx]

  /** The search box starts out empty. */
  const InitialSearchTerm: string := ""

  /** Breed names are unique within the catalog. */
  lemma CatalogNamesDistinct()
    ensures forall i, j :: 0 <= i < j < |CatBreeds| ==> CatBreeds[i].name != CatBreeds[j].name
  {
  }

  /** The breed as a one-element result when it matches, else nothing. */
  function Kept(b: Breed, searchTerm: string): seq<Breed> {
    if Matches(b, searchTerm) then [b] else []
  }

  /** A five-breed catalog is filtered breed by breed. */
  lemma FilterFive(a: Breed, b: Breed, c: Breed, d: Breed, e: Breed, q: string)
    ensures Filter([a, b, c, d, e], q) == Kept(a, q) + Kept(b, q) + Kept(c, q) + Kept(d, q) + Kept(e, q)
  {
    forall x: Breed
      ensures Filter([x], q) == Kept(x, q)
    {
      assert [x][1..] == [];
    }
    assert [a, b] == [a] + [b];
    assert [a, b, c] == [a, b] + [c];
    assert [a, b, c, d] == [a, b, c] + [d];
    assert [a, b, c, d, e] == [a, b, c, d] + [e];
    FilterAppend([a], [b], q);
    FilterAppend([a, b], [c], q);
    FilterAppend([a, b, c], [d], q);
    FilterAppend([a, b, c, d], [e], q);
  }

  /** The lower-cased names of the catalog. */
  lemma LoweredNames()
    ensures Lower(Siamese.name) == "siamese"
    ensures Lower(MaineCoon.name) == "maine coon"
    ensures Lower(Persian.name) == "persian"
    ensures Lower(Bengal.name) == "bengal"
    ensures Lower(Sphynx.name) == "sphynx"
  {
  }

  /** "e" (or "E") finds every breed but the Sphynx. */
  lemma SearchE(q: string)
    requires Lower(q) == "e"
    ensures Filter(CatBreeds, q) == [Siamese, MaineCoon, Persian, Bengal]
  {
    FilterFive(Siamese, MaineCoon, Persian, Bengal, Sphynx, q);
    MatchesE(q);
  }

  /** Which names include "e". */
  lemma MatchesE(q: string)
    requires Lower(q) == "e"
    ensures Matches(Siamese, q) && Matches(MaineCoon, q) && Matches(Persian, q) && Matches(Bengal, q)
    ensures !Matches(Sphynx, q)
  {
    LoweredNames();
    assert Contains("siamese", "e") && Contains("maine coon", "e");
    assert Contains("persian", "e") && Contains("bengal", "e");
    FoundCharacter("sphynx", "e", 'e');
  }

  /** "an", in any mix of cases, finds only the Persian: "maine coon" has
      "ain" and "bengal" has "en", but neither has "an". */
  lemma SearchAn(q: string)
    requires Lower(q) == "an"
    ensures Filter(CatBreeds, q) == [Persian]
  {
    FilterFive(Siamese, MaineCoon, Persian, Bengal, Sphynx, q);
    MatchesAn(q);
  }

  /** Which names include "an". */
  lemma MatchesAn(q: string)
    requires Lower(q) == "an"
    ensures !Matches(Siamese, q) && !Matches(MaineCoon, q) && Matches(Persian, q)
    ensures !Matches(Bengal, q) && !Matches(Sphynx, q)
  {
    LoweredNames();
    FoundCharacter("siamese", "an", 'n');
    MaineCoonLacksAn();
    assert Contains("persian", "an");
    BengalLacksAn();
    FoundCharacter("sphynx", "an", 'a');
  }

  /** "maine coon" is scanned offset by offset: no "a" in it is followed by "n". */
  lemma MaineCoonLacksAn()
    ensures !Contains("maine coon", "an")
  {
    var h := "maine coon";
    assert !ContainsFrom(h, "an", 10);
    assert !ContainsFrom(h, "an", 9);
    assert !ContainsFrom(h, "an", 8);
    assert !ContainsFrom(h, "an", 7);
    assert !ContainsFrom(h, "an", 6);
    assert !ContainsFrom(h, "an", 5);
    assert !ContainsFrom(h, "an", 4);
    assert !ContainsFrom(h, "an", 3);
    assert !ContainsFrom(h, "an", 2);
    assert !ContainsFrom(h, "an", 1);
  }

  /** Likewise for "bengal". */
  lemma BengalLacksAn()
    ensures !Contains("bengal", "an")
  {
    var g := "bengal";
    assert !ContainsFrom(g, "an", 6);
    assert !ContainsFrom(g, "an", 5);
    assert !ContainsFrom(g, "an", 4);
    assert !ContainsFrom(g, "an", 3);
    assert !ContainsFrom(g, "an", 2);
    assert !ContainsFrom(g, "an", 1);
  }

  /** "zzz", in any mix of cases, finds nothing, which is an ordinary empty
      result. */
  lemma SearchZzz(q: string)
    requires Lower(q) == "zzz"
    ensures Filter(CatBreeds, q) == []
  {
    FilterFive(Siamese, MaineCoon, Persian, Bengal, Sphynx, q);
    MatchesZzz(q);
  }

  /** No name includes "zzz". */
  lemma MatchesZzz(q: string)
    requires Lower(q) == "zzz"
    ensures !Matches(Siamese, q) && !Matches(MaineCoon, q) && !Matches(Persian, q)
    ensures !Matches(Bengal, q) && !Matches(Sphynx, q)
  {
    LoweredNames();
    FoundCharacter("siamese", "zzz", 'z');
    FoundCharacter("maine coon", "zzz", 'z');
    FoundCharacter("persian", "zzz", 'z');
    FoundCharacter("bengal", "zzz", 'z');
    FoundCharacter("sphynx", "zzz", 'z');
  }

  /** On first display every breed is shown, in catalog order. */
  lemma InitialResults()
    ensures Filter(CatBreeds, InitialSearchTerm) == CatBreeds
  {
    FilterEmptySearchTerm(CatBreeds);
  }

  /** "sia", in any mix of cases, finds the Siamese and also the Persian,
      whose lower-cased name "persian" has "sia" at offset 3. */
  lemma SearchSia(q: string)
    requires Lower(q) == "sia"
    ensures Filter(CatBreeds, q) == [Siamese, Persian]
  {
    FilterFive(Siamese, MaineCoon, Persian, Bengal, Sphynx, q);
    MatchesSia(q);
  }

  /** Which names include "sia". */
  lemma MatchesSia(q: string)
    requires Lower(q) == "sia"
    ensures Matches(Siamese, q) && !Matches(MaineCoon, q) && Matches(Persian, q)
    ensures !Matches(Bengal, q) && !Matches(Sphynx, q)
  {
    LoweredNames();
    assert Contains("siamese", "sia");
    FoundCharacter("maine coon", "sia", 's');
    assert Contains("persian", "sia");
    FoundCharacter("bengal", "sia", 's');
    FoundCharacter("sphynx", "sia", 'i');
  }
}
