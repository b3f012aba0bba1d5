# Breed search of the "Feline Fascination" index page

The index page lists a fixed catalog of five cat breeds, each a name and a
description. A search box narrows the list. The breeds shown are the catalog
entries whose name, lower-cased, includes the lower-cased search term. They
keep catalog order. The search term starts out empty, so the first display
shows the whole catalog. Everything else on the page is markup and animation.

This project models that filter as pure Dafny functions and proves its
properties as lemmas:

- `case_fold.dfy` (module `CaseFold`): `toLowerCase`, as ASCII case folding (`LowerChar`, `Lower`).
- `substrings.dfy` (module `Substrings`): `includes`, as a left-to-right scan over start offsets (`Contains`). It is proved equal to a plain definition: the term occurs at some offset (`IsSubstring`).
- `subsequences.dfy` (module `Subsequences`): order-preserving subsequences.
- `breed_search.dfy` (module `BreedSearch`): the `Breed` record, the filter's predicate (`Matches`) and `Array.prototype.filter` over the catalog (`Filter`), written by recursion over the catalog.
- `catalog.dfy` (module `Catalog`): the five-breed catalog constant, the initial empty search term, and the results for concrete search terms.

The filter reads the catalog and never changes it. In the model, catalogs are
values and every operation is a function, so this holds by construction.

For the term "e" the page shows Siamese, Maine Coon, Persian and Bengal:
"bengal" has an "e" and "sphynx" has none (`Catalog.SearchE`).

## Model

| member | source | states |
|---|---|---|
| `CaseFold.Lower` | src/pages/Index.jsx:37 | `toLowerCase` keeps the length, leaves no upper-case ASCII letter, turns each upper-case ASCII letter into its lower-case partner, and keeps every other character as it is |
| `CaseFold.LowerIdempotent` | src/pages/Index.jsx:37 | lower-casing an already lower-cased string changes nothing |
| `Substrings.AgreesFromSpec` | src/pages/Index.jsx:37 | the character-by-character comparison at one offset succeeds exactly when the rest of the term fits and every character agrees |
| `Substrings.ContainsFromSpec` | src/pages/Index.jsx:37 | the scan from offset k succeeds exactly when the term occurs at some offset at or after k |
| `Substrings.Contains` | src/pages/Index.jsx:37 | `includes` always finds the empty term, and a term it finds is no longer than the searched string; its exact meaning is `Substrings.ContainsIsSubstring` |
| `Substrings.ContainsIsSubstring` | src/pages/Index.jsx:37 | `hay.includes(needle)` is true exactly when the needle occurs as a contiguous substring of the hay |
| `Substrings.FoundCharacter` | src/pages/Index.jsx:37 | every character of a term that is found also occurs in the searched string, so a term with a missing character is never found |
| `Substrings.EmptyIsSubstring` | src/pages/Index.jsx:27-37 | the empty string, the initial search term, occurs in every string |
| `Substrings.SubstringTransitive` | src/pages/Index.jsx:37 | a substring of a substring is a substring |
| `Substrings.LowerKeepsSubstring` | src/pages/Index.jsx:37 | an occurrence survives lower-casing both sides |
| `BreedSearch.Matches` | src/pages/Index.jsx:36-37 | the filter's callback accepts every breed for the empty term, and never accepts a term longer than the breed's name; its exact meaning is `BreedSearch.MatchesIsSubstring` |
| `BreedSearch.MatchesIsSubstring` | src/pages/Index.jsx:37 | a breed matches exactly when its lower-cased name has the lower-cased term as a contiguous substring |
| `BreedSearch.Filter` | src/pages/Index.jsx:36-38 | the result is never longer than the catalog |
| `BreedSearch.FilterIsSubsequence` | src/pages/Index.jsx:36-38 | the result is a subsequence of the catalog: breeds are only dropped, never added or reordered |
| `BreedSearch.FilterMembership` | src/pages/Index.jsx:36-38 | a breed is in the result exactly when it is in the catalog and matches (both directions) |
| `BreedSearch.FilterCount` | src/pages/Index.jsx:36-38 | a matching breed occurs in the result as often as in the catalog, a non-matching one never |
| `BreedSearch.FilterAppend` | src/pages/Index.jsx:36-38 | filtering a catalog made of two parts is filtering each part and joining the results |
| `BreedSearch.FilterKeepsAll` | src/pages/Index.jsx:36-38 | the result is the whole catalog exactly when every breed matches |
| `BreedSearch.FilterKeepsNone` | src/pages/Index.jsx:36-38 | the result is empty exactly when no breed matches; an empty result is not an error |
| `BreedSearch.FilterEmptySearchTerm` | src/pages/Index.jsx:27-38 | the empty search term returns any catalog unchanged |
| `BreedSearch.FilterCaseInsensitive` | src/pages/Index.jsx:37 | two search terms with the same lower-case form give the same result |
| `BreedSearch.FilterLowerSearchTerm` | src/pages/Index.jsx:37 | lower-casing the search term first gives the same result |
| `BreedSearch.MatchesNarrower` | src/pages/Index.jsx:37 | a breed that matches a term also matches every term whose lower-case form occurs in that term's lower-case form |
| `BreedSearch.FilterNarrows` | src/pages/Index.jsx:36-38 | when the lower-cased first term occurs in the lower-cased second, the second result is a subsequence of the first and so no longer than it |
| `BreedSearch.FilterExtendedSearchTerm` | src/pages/Index.jsx:36-38 | extending the search term (the old term is a substring of the new one) can only drop breeds, keeping the order |
| `BreedSearch.FilterIdempotent` | src/pages/Index.jsx:36-38 | filtering the result again with the same term returns it unchanged |
| `BreedSearch.FilterIgnoresDescription` | src/pages/Index.jsx:28-38 | catalogs with the same names, whatever their descriptions, give results with the same names |
| `Catalog.CatalogNamesDistinct` | src/pages/Index.jsx:28-34 | the names in the catalog constant `Catalog.CatBreeds` (five breeds, in source order, with the source's descriptions) are pairwise distinct |
| `Catalog.LoweredNames` | src/pages/Index.jsx:29-37 | the lower-cased catalog names are "siamese", "maine coon", "persian", "bengal" and "sphynx" |
| `Catalog.InitialResults` | src/pages/Index.jsx:27-38 | on first display, with the initial search term `Catalog.InitialSearchTerm` (the empty string), all five breeds are shown in catalog order |
| `Catalog.MatchesE` | src/pages/Index.jsx:29-37 | every name but "Sphynx" includes "e" |
| `Catalog.SearchE` | src/pages/Index.jsx:29-38 | a term that lower-cases to "e" shows Siamese, Maine Coon, Persian and Bengal, in that order |
| `Catalog.MaineCoonLacksAn` | src/pages/Index.jsx:30-37 | "maine coon" does not include "an" |
| `Catalog.BengalLacksAn` | src/pages/Index.jsx:32-37 | "bengal" does not include "an" |
| `Catalog.MatchesAn` | src/pages/Index.jsx:29-37 | only "Persian" includes "an" |
| `Catalog.SearchAn` | src/pages/Index.jsx:29-38 | a term that lower-cases to "an" shows the Persian alone |
| `Catalog.MatchesZzz` | src/pages/Index.jsx:29-37 | no name includes "zzz" |
| `Catalog.SearchZzz` | src/pages/Index.jsx:29-38 | a term that lower-cases to "zzz" shows nothing, as an ordinary empty result |
| `Catalog.MatchesSia` | src/pages/Index.jsx:29-37 | only "Siamese" and "Persian" include "sia" |
| `Catalog.SearchSia` | src/pages/Index.jsx:29-38 | a term that lower-cases to "sia" shows the Siamese and the Persian, in that order, since "persian" has "sia" at offset 3 |

## Left out

- `CaseFold.Lower`: folds only the ASCII letters A to Z. JavaScript's `toLowerCase` applies full Unicode case mapping, which can also change a string's length. That mapping is a library table not modelled here.
- `BreedSearch.FilterExtendedSearchTerm`: holds for the page only when the search terms have no context-dependent case mapping, ASCII terms for example. The proof needs lower-casing to work character by character, so that an occurrence of the old term survives lower-casing. JavaScript's `toLowerCase` is context-dependent for some characters. For example, Greek final sigma makes "ΟΣ" become "ος" but "ΟΣΑ" become "οσα". `BreedSearch.FilterNarrows` states the same narrowing for lower-cased terms and holds under any case folding. The fixed ASCII catalog is not affected.
- `Substrings.LowerKeepsSubstring`: for the same reason, holds for JavaScript's `toLowerCase` only on strings without context-dependent case mappings.
- Strings are sequences of Dafny `char` (Unicode scalar values), not JavaScript's UTF-16 code units. This makes no difference for the ASCII catalog.
- The React state hook and the input's change handler (src/pages/Index.jsx:27, 97): the search term is a parameter of `Filter`. The constant `Catalog.InitialSearchTerm` is its initial value.
- The rendering: breed cards, animations, the image carousel and its image URLs, and the use of the list index as the React key (src/pages/Index.jsx:9-24, 40-112). These are markup with nothing to prove.
- The "Search" button (src/pages/Index.jsx:100-103) has no handler and does nothing.
- Determinism of the filter needs no lemma, because Dafny functions are deterministic.
