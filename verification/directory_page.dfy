/**
  The pure logic inside the directory page component: the client-side search
  and specialty filter, the sort, the page cut with its reset to page 1, the
  specialty toggle, the list of all specialties, and the "Showing X to Y"
  numbers.  React state, effects, debouncing and fetching are not modelled:
  each function takes the state values it reads as parameters.
 */
module DirectoryPage {
  import opened Common
  import opened Text
  import opened Sorting
  import opened AdvocateTypes
  import opened Paging

  // ---- search and specialty filter ----

  /**
    The free-text search: an empty term matches everyone; otherwise the
    lower-cased term must occur in the lower-cased full name, first name, last
    name, city, degree or one of the specialties.
   */
  predicate MatchesSearch(a: Advocate, searchTerm: string) {
    var term := Lower(searchTerm);
    || searchTerm == ""
    || Contains(Lower(FullName(a)), term)
    || Contains(Lower(a.firstName), term)
    || Contains(Lower(a.lastName), term)
    || Contains(Lower(a.city), term)
    || Contains(Lower(a.degree), term)
    || (exists s | s in a.specialties :: Contains(Lower(s), term))
  }

  /** Every selected specialty is one of the advocate's; no selection keeps everyone. */
  predicate MatchesSpecialties(a: Advocate, selected: seq<string>) {
    |selected| == 0 || forall s :: s in selected ==> s in a.specialties
  }

  /** The filter callback: search and specialties must both match. */
  predicate Kept(a: Advocate, searchTerm: string, selected: seq<string>) {
    MatchesSearch(a, searchTerm) && MatchesSpecialties(a, selected)
  }

  function Keeps(searchTerm: string, selected: seq<string>): Advocate -> bool {
    (a: Advocate) => Kept(a, searchTerm, selected)
  }

  /** The `allAdvocates.filter(...)` step: an order-preserving selection. */
  function FilterAdvocates(all: seq<Advocate>, searchTerm: string, selected: seq<string>): (r: seq<Advocate>)
    ensures forall a :: a in r <==> a in all && Kept(a, searchTerm, selected)
    ensures forall a :: multiset(r)[a] == if Kept(a, searchTerm, selected) then multiset(all)[a] else 0
    ensures searchTerm == "" && selected == [] ==> r == all
  {
    var keep := Keeps(searchTerm, selected);
    FilterContents(all, keep);
    if searchTerm == "" && selected == [] then
      FilterKeepsAll(all, keep);
      Filter(all, keep)
    else
      Filter(all, keep)
  }

  /** The search does not depend on the case of the term. */
  lemma SearchIgnoresCase(a: Advocate, searchTerm: string)
    ensures MatchesSearch(a, searchTerm) <==> MatchesSearch(a, Lower(searchTerm))
  {
    LowerIdempotent(searchTerm);
  }

  /**
    Typing more narrows the results: whoever matches a term also matches
    every piece of it.
   */
  lemma SearchNarrows(a: Advocate, longer: string, shorter: string)
    requires Contains(longer, shorter)
    requires MatchesSearch(a, longer)
    ensures MatchesSearch(a, shorter)
  {
    if shorter != "" {
      var lt, st := Lower(longer), Lower(shorter);
      ContainsLower(longer, shorter);
      forall field: string | Contains(field, lt)
        ensures Contains(field, st)
      {
        ContainsTransitive(field, lt, st);
      }
      if exists s | s in a.specialties :: Contains(Lower(s), lt) {
        var s :| s in a.specialties && Contains(Lower(s), lt);
        assert Contains(Lower(s), st);
      }
    }
  }

  /** Selecting one more specialty can only remove advocates. */
  lemma MoreSpecialtiesNarrow(a: Advocate, selected: seq<string>, extra: string)
    requires MatchesSpecialties(a, selected + [extra])
    ensures MatchesSpecialties(a, selected)
  {
    if |selected| > 0 {
      forall s | s in selected
        ensures s in a.specialties
      {
        assert s in selected + [extra];
      }
    }
  }

  // ---- sorting ----

  datatype SortKey = ExperienceHigh | ExperienceLow | NameAsc | NameDesc | Unsorted

  function ParseSortOption(option: string): SortKey {
    if option == "experience-high" then ExperienceHigh
    else if option == "experience-low" then ExperienceLow
    else if option == "name-asc" then NameAsc
    else if option == "name-desc" then NameDesc
    else Unsorted
  }

  /** Comparator `b.yearsOfExperience - a.yearsOfExperience`, as "may precede". */
  function MoreExperienceFirst(): (Advocate, Advocate) -> bool {
    (a: Advocate, b: Advocate) => a.yearsOfExperience >= b.yearsOfExperience
  }

  /** Comparator `a.yearsOfExperience - b.yearsOfExperience`, as "may precede". */
  function LessExperienceFirst(): (Advocate, Advocate) -> bool {
    (a: Advocate, b: Advocate) => a.yearsOfExperience <= b.yearsOfExperience
  }

  /** Comparators on full names through the engine's `localeCompare`. */
  function ByName(localeCompare: (string, string) -> int, descending: bool): (Advocate, Advocate) -> bool {
    if descending then (a: Advocate, b: Advocate) => localeCompare(FullName(b), FullName(a)) <= 0
    else (a: Advocate, b: Advocate) => localeCompare(FullName(a), FullName(b)) <= 0
  }

  /**
    The `switch (sortOption)`: the two experience orders, the two name
    orders (via the supplied `localeCompare`), and the input order for
    "default" and any other option.  Every option returns a permutation.
   */
  function SortResults(xs: seq<Advocate>, option: string, localeCompare: (string, string) -> int): (r: seq<Advocate>)
    ensures multiset(r) == multiset(xs)
    ensures ParseSortOption(option) == ExperienceHigh ==>
      forall i, j :: 0 <= i < j < |r| ==> r[i].yearsOfExperience >= r[j].yearsOfExperience
    ensures ParseSortOption(option) == ExperienceLow ==>
      forall i, j :: 0 <= i < j < |r| ==> r[i].yearsOfExperience <= r[j].yearsOfExperience
    ensures ParseSortOption(option) == Unsorted ==> r == xs
  {
    match ParseSortOption(option)
    case ExperienceHigh =>
      InsertionSortSorted(xs, MoreExperienceFirst());
      InsertionSort(xs, MoreExperienceFirst())
    case ExperienceLow =>
      InsertionSortSorted(xs, LessExperienceFirst());
      InsertionSort(xs, LessExperienceFirst())
    case NameAsc => InsertionSort(xs, ByName(localeCompare, false))
    case NameDesc => InsertionSort(xs, ByName(localeCompare, true))
    case Unsorted => xs
  }

  // ---- the page shown ----

  /** What one run of the filter step leaves in the page's state. */
  datatype ListingView = ListingView(shown: seq<Advocate>, totalItems: nat, totalPages: nat, currentPage: int)

  /**
    Filter, sort, count, cut the current page, and reset the current page to
    1 when it lies past the last page.
   */
  function FilterView(all: seq<Advocate>, searchTerm: string, selected: seq<string>, sortOption: string,
                      localeCompare: (string, string) -> int, currentPage: int, itemsPerPage: int): (v: ListingView)
    requires currentPage >= 1 && itemsPerPage >= 1
    ensures var sorted := SortResults(FilterAdvocates(all, searchTerm, selected), sortOption, localeCompare);
      && v.totalItems == |sorted|
      && v.totalPages == PageCount(|sorted|, itemsPerPage)
      && v.shown == PageSlice(sorted, currentPage, itemsPerPage)
    ensures forall a :: a in v.shown ==> a in all && Kept(a, searchTerm, selected)
    ensures v.currentPage == (if currentPage > v.totalPages then 1 else currentPage)
  {
    var filtered := FilterAdvocates(all, searchTerm, selected);
    var sorted := SortResults(filtered, sortOption, localeCompare);
    var shown := PageSlice(sorted, currentPage, itemsPerPage);
    var totalPages := PageCount(|sorted|, itemsPerPage);
    assert forall a :: a in shown ==> a in filtered by {
      forall a | a in shown ensures a in filtered {
        var i :| 0 <= i < |shown| && shown[i] == a;
        assert a in sorted;
        assert a in multiset(sorted);
      }
    }
    ListingView(shown, |sorted|, totalPages, if currentPage > totalPages then 1 else currentPage)
  }

  /**
    The reset settles at once: running the filter step again with the page it
    chose keeps that page, and that page is non-empty whenever anything
    matches.
   */
  lemma ResetSettles(all: seq<Advocate>, searchTerm: string, selected: seq<string>, sortOption: string,
                     localeCompare: (string, string) -> int, currentPage: int, itemsPerPage: int)
    requires currentPage >= 1 && itemsPerPage >= 1
    ensures var v := FilterView(all, searchTerm, selected, sortOption, localeCompare, currentPage, itemsPerPage);
      var w := FilterView(all, searchTerm, selected, sortOption, localeCompare, v.currentPage, itemsPerPage);
      && w.currentPage == v.currentPage
      && (w.totalItems > 0 ==> |w.shown| > 0)
  {
    var v := FilterView(all, searchTerm, selected, sortOption, localeCompare, currentPage, itemsPerPage);
    var sorted := SortResults(FilterAdvocates(all, searchTerm, selected), sortOption, localeCompare);
    PastLastPage(|sorted|, v.currentPage, itemsPerPage);
  }

  /** `startItem`: the 1-based position of the first item shown, 0 when there are none. */
  function StartItem(totalItems: int, currentPage: int, itemsPerPage: int): int {
    if totalItems == 0 then 0 else (currentPage - 1) * itemsPerPage + 1
  }

  /** `endItem`: the position of the last item shown. */
  function EndItem(totalItems: int, currentPage: int, itemsPerPage: int): int {
    Min(currentPage * itemsPerPage, totalItems)
  }

  /** `showingAllAdvocates`: the results line says "Found N" rather than "Showing X to Y of N". */
  predicate ShowingAll(totalItems: int, currentPage: int, itemsPerPage: int) {
    || totalItems <= itemsPerPage
    || (StartItem(totalItems, currentPage, itemsPerPage) == 1 && EndItem(totalItems, currentPage, itemsPerPage) == totalItems)
  }

  /**
    The second half of `showingAllAdvocates` adds nothing: the results line
    says "Found N" exactly when the whole list fits on one page, whatever the
    current page is.
   */
  lemma ShowingAllIffOnePage(totalItems: nat, currentPage: int, itemsPerPage: int)
    requires itemsPerPage >= 1
    ensures ShowingAll(totalItems, currentPage, itemsPerPage) <==> totalItems <= itemsPerPage
    ensures ShowingAll(totalItems, currentPage, itemsPerPage) <==> PageCount(totalItems, itemsPerPage) <= 1
  {
    var count := PageCount(totalItems, itemsPerPage);
    assert Times(1, itemsPerPage) == itemsPerPage;
    if count >= 2 {
      TimesMonotone(1, count - 1, itemsPerPage);
    } else {
      TimesMonotone(count, 1, itemsPerPage);
    }
    if StartItem(totalItems, currentPage, itemsPerPage) == 1 {
      assert (currentPage - 1) * itemsPerPage == 0;
      assert currentPage == 1;
    }
  }

  /**
    On a page in range, "Showing X to Y of N" names exactly the items of the
    page cut: positions X..Y of the list, which is Y - X + 1 items.
   */
  lemma ShowingRangeMatchesPage<T>(xs: seq<T>, currentPage: int, itemsPerPage: int)
    requires itemsPerPage >= 1 && 1 <= currentPage <= PageCount(|xs|, itemsPerPage)
    ensures var x, y := StartItem(|xs|, currentPage, itemsPerPage), EndItem(|xs|, currentPage, itemsPerPage);
      && 1 <= x <= y <= |xs|
      && PageSlice(xs, currentPage, itemsPerPage) == xs[x - 1..y]
  {
    var off := Offset(currentPage, itemsPerPage);
    TimesIsProduct(currentPage - 1, itemsPerPage);
    TimesIsProduct(currentPage, itemsPerPage);
    PastLastPage(|xs|, currentPage, itemsPerPage);
    var y := EndItem(|xs|, currentPage, itemsPerPage);
    assert StartItem(|xs|, currentPage, itemsPerPage) == off + 1;
    assert y == Min(off + itemsPerPage, |xs|);
    assert PageSlice(xs, currentPage, itemsPerPage) == Block(xs, off, itemsPerPage) == xs[off..y];
  }

  // ---- specialty selection ----

  function IsNot(s: string): string -> bool {
    (x: string) => x != s
  }

  /**
    `handleSpecialtyChange`: a selected specialty is removed (every copy), an
    unselected one is appended.  Membership flips for `specialty` and for
    nothing else.
   */
  function ToggleSpecialty(selected: seq<string>, specialty: string): (r: seq<string>)
    ensures forall x :: x in r <==> (x in selected) != (x == specialty)
    ensures specialty !in selected ==> r == selected + [specialty]
    ensures specialty in selected ==> multiset(r) == multiset(selected)[specialty := 0]
    ensures specialty in selected ==> r == Filter(selected, IsNot(specialty))
  {
    if specialty in selected then
      FilterContents(selected, IsNot(specialty));
      Filter(selected, IsNot(specialty))
    else selected + [specialty]
  }

  /** Toggling an unselected specialty on and off again restores the selection exactly. */
  lemma ToggleTwiceRestores(selected: seq<string>, specialty: string)
    requires specialty !in selected
    ensures ToggleSpecialty(ToggleSpecialty(selected, specialty), specialty) == selected
  {
    FilterAppend(selected, [specialty], IsNot(specialty));
    FilterKeepsAll(selected, IsNot(specialty));
  }

  /**
    Unticking a specialty that was selected once, between `before` and
    `after`, leaves the other selections in their order: `before + after`.
   */
  lemma UntickKeepsOrder(before: seq<string>, specialty: string, after: seq<string>)
    requires specialty !in before && specialty !in after
    ensures ToggleSpecialty(before + [specialty] + after, specialty) == before + after
  {
    FilterDropsOne(before, specialty, after, IsNot(specialty));
    assert specialty in before + [specialty] + after;
  }

  // ---- the specialty list ----

  /** `flatMap(advocate => advocate.specialties)`. */
  function AllListed(advocates: seq<Advocate>): (r: seq<string>)
    ensures forall s :: s in r <==> exists a :: a in advocates && s in a.specialties
  {
    if |advocates| == 0 then []
    else
      var rest := AllListed(advocates[1..]);
      assert forall a :: a in advocates[1..] ==> a in advocates;
      assert forall a :: a in advocates ==> a == advocates[0] || a in advocates[1..];
      advocates[0].specialties + rest
  }

  /**
    `allSpecialties`: the distinct specialties of all advocates in ascending
    order, each exactly once.
   */
  function AllSpecialties(advocates: seq<Advocate>): (r: seq<string>)
    ensures StrictlySorted(r)
    ensures forall s :: s in r <==> exists a :: a in advocates && s in a.specialties
  {
    SortedDistinct(AllListed(advocates))
  }
}
