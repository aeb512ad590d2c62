/** The repository list of `useRepositories`: a name search, a visibility
    filter and a sort, applied in that order to the fetched list. */
module Repositories {
  import Text
  import Seqs

  /** The fields of a repository the list logic reads. `updatedAt` is
      `new Date(updated_at).getTime()`, taken as a number of milliseconds. */
  datatype Repository = Repository(id: int, name: string, stars: int, updatedAt: int, isPrivate: bool, archived: bool)

  /** `filterType`. */
  datatype FilterType = All | Public | Private | Archived

  /** `sort`. */
  datatype SortKey = Stars | Updated

  /** The initial choices: `useState('')`, `useState('updated')`, `useState('all')`. */
  const InitialSearch: string := ""
  const InitialSort: SortKey := Updated
  const InitialFilter: FilterType := All

  /** `repo.name.toLowerCase().includes(search.toLowerCase())`. */
  predicate NameMatches(r: Repository, search: string) {
    Text.Includes(Text.Lower(r.name), Text.Lower(search))
  }

  /** The name test as a filter callback. */
  function NameTest(search: string): Repository -> bool {
    r => NameMatches(r, search)
  }

  /** The three `if (filterType === ...)` tests; `all` keeps everything. */
  predicate TypeKeeps(r: Repository, t: FilterType) {
    match t
    case All => true
    case Private => r.isPrivate
    case Public => !r.isPrivate
    case Archived => r.archived
  }

  function TypeTest(t: FilterType): Repository -> bool {
    r => TypeKeeps(r, t)
  }

  /** A repository the list shows: it passes the name search (skipped when
      the search is empty) and the type filter. */
  predicate Selected(r: Repository, search: string, t: FilterType) {
    (search == "" || NameMatches(r, search)) && TypeKeeps(r, t)
  }

  function SelectedTest(search: string, t: FilterType): Repository -> bool {
    r => Selected(r, search, t)
  }

  /** The comparator's key: `stargazers_count` or the update time. */
  function KeyOf(k: SortKey): Repository -> int {
    (r: Repository) => match k case Stars => r.stars case Updated => r.updatedAt
  }

  /** Step 1: `if (search) result = result.filter(...)`. */
  function SearchStep(data: seq<Repository>, search: string): seq<Repository> {
    if search == "" then data else Seqs.Filter(data, NameTest(search))
  }

  /** Step 2: `if (filterType !== 'all') ...`. */
  function TypeStep(data: seq<Repository>, t: FilterType): seq<Repository> {
    if t == All then data else Seqs.Filter(data, TypeTest(t))
  }

  /** `filteredRepos`: the three steps in order, on a copy of the data. */
  function FilteredRepos(data: seq<Repository>, search: string, sort: SortKey, t: FilterType): (r: seq<Repository>)
    ensures forall x :: x in r ==> x in data && Selected(x, search, t)
    ensures forall x :: x in data && Selected(x, search, t) ==> x in r
    ensures multiset(r) <= multiset(data)
    ensures Seqs.SortedDesc(r, KeyOf(sort))
  {
    var kept := TypeStep(SearchStep(data, search), t);
    SelectionIsFilter(data, search, t);
    var r := Seqs.SortDesc(kept, KeyOf(sort));
    assert forall x :: x in r <==> x in kept by {
      forall x ensures x in r <==> x in kept {
        assert x in r <==> x in multiset(r);
      }
    }
    r
  }

  /** The two filter steps together are one filter by `Selected`. */
  lemma {:induction false} SelectionIsFilter(data: seq<Repository>, search: string, t: FilterType)
    ensures TypeStep(SearchStep(data, search), t) == Seqs.Filter(data, SelectedTest(search, t))
  {
    var sel := SelectedTest(search, t);
    if search == "" {
      if t == All {
        Seqs.FilterKeepsAll(data, sel);
      } else {
        assert forall x :: sel(x) == TypeTest(t)(x);
        Seqs.FilterFilter(data, x => true, TypeTest(t), sel);
        Seqs.FilterKeepsAll(data, x => true);
      }
    } else if t == All {
      Seqs.FilterFilter(data, NameTest(search), x => true, sel);
      Seqs.FilterKeepsAll(Seqs.Filter(data, NameTest(search)), x => true);
    } else {
      Seqs.FilterFilter(data, NameTest(search), TypeTest(t), sel);
    }
  }

  /** The list is a rearrangement of exactly the selected repositories, each
      as often as it occurs in the data. */
  lemma {:induction false} SelectedPermutation(data: seq<Repository>, search: string, sort: SortKey, t: FilterType)
    ensures multiset(FilteredRepos(data, search, sort, t)) == multiset(Seqs.Filter(data, SelectedTest(search, t)))
  {
    SelectionIsFilter(data, search, t);
  }

  /** With no search and the `all` filter the list is the data, reordered. */
  lemma {:induction false} NothingFilteredByDefault(data: seq<Repository>, sort: SortKey)
    ensures multiset(FilteredRepos(data, InitialSearch, sort, InitialFilter)) == multiset(data)
  {
    SelectedPermutation(data, InitialSearch, sort, InitialFilter);
    Seqs.FilterKeepsAll(data, SelectedTest(InitialSearch, InitialFilter));
  }

  /** The public and the private lists split the unfiltered one. */
  lemma {:induction false} PublicPrivateSplit(data: seq<Repository>, search: string, sort: SortKey)
    ensures |FilteredRepos(data, search, sort, Public)| + |FilteredRepos(data, search, sort, Private)| ==
      |FilteredRepos(data, search, sort, All)|
  {
    var named := SearchStep(data, search);
    KeepsFilteredCount(data, search, sort, Public);
    KeepsFilteredCount(data, search, sort, Private);
    KeepsFilteredCount(data, search, sort, All);
    var pub, priv := TypeTest(Public), TypeTest(Private);
    assert forall x :: priv(x) == !pub(x);
    Seqs.FilterSplit(named, pub, priv);
    assert TypeStep(named, Public) == Seqs.Filter(named, pub);
    assert TypeStep(named, Private) == Seqs.Filter(named, priv);
  }

  /** Sorting keeps the length of the filtered list. */
  lemma {:induction false} KeepsFilteredCount(data: seq<Repository>, search: string, sort: SortKey, t: FilterType)
    ensures |FilteredRepos(data, search, sort, t)| == |TypeStep(SearchStep(data, search), t)|
  {
  }

  /** The search ignores case: searching for the lower-cased text gives the
      same list. */
  lemma {:induction false} SearchIgnoresCase(data: seq<Repository>, search: string, sort: SortKey, t: FilterType)
    ensures FilteredRepos(data, search, sort, t) == FilteredRepos(data, Text.Lower(search), sort, t)
  {
    var lowered := Text.Lower(search);
    Text.LowerIdempotent(search);
    assert search == "" <==> lowered == "";
    SelectionIsFilter(data, search, t);
    SelectionIsFilter(data, lowered, t);
    Seqs.FilterCongruent(data, SelectedTest(search, t), SelectedTest(lowered, t));
  }
}
