/**
 * The patients table: a three-field search, fixed-size pages of 7 rows, the
 * "Showing a-b of n" summary, a window of at most three page buttons, and the
 * Prev/Next/page-button handlers that move `currentPage`.
 */
module Patients {
  import opened Text
  import opened Seqs

  datatype PatientStatus = Active | Critical | Recovering

  datatype Patient = Patient(
    id: string,
    name: string,
    age: int,
    gender: string,
    phone: string,
    status: PatientStatus)

  const PatientsPerPage: int := 7

  function Min(a: int, b: int): int { if a <= b then a else b }

  function Max(a: int, b: int): int { if a <= b then b else a }

  /** The search: name or id contain the term ignoring case, or the phone
      contains it exactly as typed (the phone is not lower-cased). */
  predicate Matches(p: Patient, term: string)
  {
    || Contains(ToLower(p.name), ToLower(term))
    || Contains(ToLower(p.id), ToLower(term))
    || Contains(p.phone, term)
  }

  function MatchesTerm(term: string): Patient -> bool
  {
    p => Matches(p, term)
  }

  /** `filteredPatients`: the patients that match, in their original order;
      an empty search keeps every patient. */
  function FilterPatients(ps: seq<Patient>, term: string): (r: seq<Patient>)
    ensures forall p :: p in r <==> p in ps && Matches(p, term)
    ensures term == [] ==> r == ps
  {
    FilterMembers(ps, MatchesTerm(term));
    if term == [] then
      FilterAll(ps, MatchesTerm(term));
      Filter(ps, MatchesTerm(term))
    else
      Filter(ps, MatchesTerm(term))
  }

  /** The filtered list is the subsequence of ps at exactly the positions of
      the matching patients. */
  lemma FilterPatientsKeepsOrder(ps: seq<Patient>, term: string)
    ensures exists idx :: Embeds(FilterPatients(ps, term), ps, idx) &&
              forall i :: 0 <= i < |ps| ==> (i in idx <==> Matches(ps[i], term))
  {
    FilterEmbeds(ps, MatchesTerm(term));
    var idx := KeptPositions(ps, MatchesTerm(term));
    assert Embeds(FilterPatients(ps, term), ps, idx);
  }

  /** Where `slice` starts or stops for a position i of an array of length len:
      negative positions count back from the end, and everything is clamped. */
  function SlicePosition(i: int, len: nat): (r: nat)
    ensures r <= len
    ensures 0 <= i ==> r == Min(i, len)
  {
    if i < 0 then Max(len + i, 0) else Min(i, len)
  }

  /** JavaScript `xs.slice(start, end)`. */
  function JsSlice<T>(xs: seq<T>, start: int, end: int): (r: seq<T>)
    ensures 0 <= start <= end <= |xs| ==> r == xs[start..end]
    ensures 0 <= start && |xs| <= start ==> r == []
    ensures 0 <= start && start < |xs| && start <= end ==> r == xs[start..Min(end, |xs|)]
  {
    var s := SlicePosition(start, |xs|);
    var e := SlicePosition(end, |xs|);
    if s <= e then xs[s..e] else []
  }

  /** `currentPatients`: the rows of page `page` (counted from 1). */
  function PageSlice<T>(xs: seq<T>, page: int): seq<T>
  {
    var last := page * PatientsPerPage;
    JsSlice(xs, last - PatientsPerPage, last)
  }

  /** A page holds the rows (page-1)*7 up to page*7 (clamped), at most 7 of
      them, and none once (page-1)*7 reaches the end of the list. */
  lemma PageSliceContents<T>(xs: seq<T>, page: int)
    requires 1 <= page
    ensures |PageSlice(xs, page)| <= PatientsPerPage
    ensures (page - 1) * PatientsPerPage < |xs| ==>
              PageSlice(xs, page) == xs[(page - 1) * PatientsPerPage..Min(page * PatientsPerPage, |xs|)]
    ensures |xs| <= (page - 1) * PatientsPerPage ==> PageSlice(xs, page) == []
  {
  }

  /** `Math.ceil(n / 7)`: enough pages for n rows, not one more; 0 when n == 0. */
  function TotalPages(n: nat): (r: nat)
    ensures n <= r * PatientsPerPage < n + PatientsPerPage
    ensures r == 0 <==> n == 0
  {
    (n + PatientsPerPage - 1) / PatientsPerPage
  }

  /** Pages 1..k laid end to end. */
  function PagesUpTo<T>(xs: seq<T>, k: nat): seq<T>
  {
    if k == 0 then [] else PagesUpTo(xs, k - 1) + PageSlice(xs, k)
  }

  lemma {:induction false} PagesUpToPrefix<T>(xs: seq<T>, k: nat)
    ensures PagesUpTo(xs, k) == xs[..Min(k * PatientsPerPage, |xs|)]
  {
    if k > 0 {
      PagesUpToPrefix(xs, k - 1);
      PageSliceContents(xs, k);
      var a := Min((k - 1) * PatientsPerPage, |xs|);
      var b := Min(k * PatientsPerPage, |xs|);
      assert xs[..b] == xs[..a] + xs[a..b];
    }
  }

  /** Reading pages 1..TotalPages in turn shows every filtered row exactly
      once, in order. */
  lemma PagesCoverAll<T>(xs: seq<T>)
    ensures PagesUpTo(xs, TotalPages(|xs|)) == xs
  {
    PagesUpToPrefix(xs, TotalPages(|xs|));
    assert xs[..|xs|] == xs;
  }

  /** "Showing first-last of n": the 1-based numbers of the first and last
      row of the page. */
  function ShowingRange(page: int, n: nat): (int, int)
  {
    ((page - 1) * PatientsPerPage + 1, Min(page * PatientsPerPage, n))
  }

  /** On a page that has rows, the summary names exactly the rows shown. */
  lemma ShowingRangeMatchesPage<T>(xs: seq<T>, page: int)
    requires 1 <= page && (page - 1) * PatientsPerPage < |xs|
    ensures var (first, last) := ShowingRange(page, |xs|);
      1 <= first <= last && PageSlice(xs, page) == xs[first - 1..last]
  {
    PageSliceContents(xs, page);
  }

  /** The page number the button at position `index` (0, 1 or 2) would show. */
  function WindowNumber(page: int, total: int, index: int): int
  {
    if page == 1 then index + 1
    else if page == total then total - 2 + index
    else page - 1 + index
  }

  /** The numbers computed for the `Math.min(3, totalPages)` button slots. */
  function WindowCandidates(page: int, total: nat): seq<int>
  {
    seq(Min(3, total), index requires 0 <= index < Min(3, total) => WindowNumber(page, total, index))
  }

  function IsRenderable(total: nat): int -> bool
  {
    n => 0 < n <= total
  }

  /** The page buttons actually rendered: the candidates in [1, total]. */
  function PageButtons(page: int, total: nat): (r: seq<int>)
    ensures |r| <= Min(3, total)
    ensures forall n :: n in r ==> 1 <= n <= total
  {
    FilterMembers(WindowCandidates(page, total), IsRenderable(total));
    Filter(WindowCandidates(page, total), IsRenderable(total))
  }

  /** On page 1 the window pins to the start: buttons 1..min(3, total). */
  lemma PageButtonsOnFirstPage(total: nat)
    ensures PageButtons(1, total) == seq(Min(3, total), i requires 0 <= i < Min(3, total) => i + 1)
  {
    var c := WindowCandidates(1, total);
    assert c == seq(Min(3, total), i requires 0 <= i < Min(3, total) => i + 1);
    FilterAll(c, IsRenderable(total));
  }

  /** On the last of three or more pages the window pins to the end. */
  lemma PageButtonsOnLastPage(total: nat)
    requires 3 <= total
    ensures PageButtons(total, total) == [total - 2, total - 1, total]
  {
    var c := WindowCandidates(total, total);
    assert c == [total - 2, total - 1, total];
    FilterAll(c, IsRenderable(total));
  }

  /** Strictly between the first and the last page the window is centred. */
  lemma PageButtonsInMiddle(page: int, total: nat)
    requires 1 < page < total
    ensures PageButtons(page, total) == [page - 1, page, page + 1]
  {
    var c := WindowCandidates(page, total);
    assert c == [page - 1, page, page + 1];
    FilterAll(c, IsRenderable(total));
  }

  /** With exactly two pages, page 2 computes the numbers 0 and 1, so only
      button "1" is rendered and the current page has no button. */
  lemma SecondOfTwoPagesHasNoButton()
    ensures PageButtons(2, 2) == [1]
  {
    var c := WindowCandidates(2, 2);
    assert c == [0] + [1];
    FilterCons(0, [1], IsRenderable(2));
    FilterAll([1], IsRenderable(2));
  }

  /** A current page left beyond the last page (a search shrank the list)
      shows only the last page's button when it is one past the end, and no
      button at all further out. */
  lemma PageButtonsBeyondEnd(page: int, total: nat)
    requires total < page
    ensures PageButtons(page, total) == if page == total + 1 && page != 1 then [total] else []
  {
    var c := WindowCandidates(page, total);
    if page == total + 1 && page != 1 {
      assert c == [total] + c[1..];
      FilterCons(total, c[1..], IsRenderable(total));
      FilterNone(c[1..], IsRenderable(total));
    } else {
      FilterNone(c, IsRenderable(total));
    }
  }

  /** Prev is disabled on page 1. */
  predicate PrevDisabled(page: int) { page == 1 }

  /** Next is disabled on the last page; with no pages at all it stays enabled. */
  predicate NextDisabled(page: int, total: nat) { page == total }

  /** The page after a click on Prev (a disabled button does nothing). */
  function AfterPrev(page: int): (r: int)
    ensures PrevDisabled(page) ==> r == page
    ensures !PrevDisabled(page) ==> r == page - 1
    ensures 1 <= page ==> 1 <= r <= page
  {
    if PrevDisabled(page) then page else page - 1
  }

  /** The page after a click on Next (a disabled button does nothing). */
  function AfterNext(page: int, total: nat): (r: int)
    ensures NextDisabled(page, total) ==> r == page
    ensures !NextDisabled(page, total) ==> r == page + 1
    ensures 1 <= page <= total ==> 1 <= r <= total
    ensures total < page ==> r == page + 1
  {
    if NextDisabled(page, total) then page else page + 1
  }

  /** With no matching patients there are no pages, yet Next stays enabled on
      page 1 and moves the page out of range. */
  lemma NextEscapesWhenNoPages()
    ensures !NextDisabled(1, TotalPages(0)) && AfterNext(1, TotalPages(0)) == 2
  {
  }

  /** A click on any rendered page button keeps the page within [1, total]. */
  lemma PageButtonStaysInRange(page: int, total: nat, n: int)
    requires n in PageButtons(page, total)
    ensures 1 <= n <= total
  {
  }

  /** The state of the patients page. */
  class PatientsPage {
    var patients: seq<Patient>
    var searchTerm: string
    var currentPage: int

    /** `currentPage` starts at 1 and no handler ever takes it below 1. */
    ghost predicate Valid()
      reads this
    {
      currentPage >= 1
    }

    function Filtered(): seq<Patient>
      reads this
    {
      FilterPatients(patients, searchTerm)
    }

    function Total(): nat
      reads this
    {
      TotalPages(|Filtered()|)
    }

    /** The rows on screen: rows (currentPage-1)*7 up to currentPage*7 of the
        filtered list (clamped), at most 7, every one a loaded patient that
        matches the search, and none once the page starts past the end. */
    function CurrentPatients(): (r: seq<Patient>)
      reads this
      requires Valid()
      ensures |r| <= PatientsPerPage
      ensures forall p :: p in r ==> p in patients && Matches(p, searchTerm)
      ensures (currentPage - 1) * PatientsPerPage < |Filtered()| ==>
                r == Filtered()[(currentPage - 1) * PatientsPerPage..Min(currentPage * PatientsPerPage, |Filtered()|)]
      ensures |Filtered()| <= (currentPage - 1) * PatientsPerPage ==> r == []
    {
      var xs := Filtered();
      PageSliceContents(xs, currentPage);
      var r := PageSlice(xs, currentPage);
      r
    }

    constructor ()
      ensures Valid()
      ensures patients == [] && searchTerm == [] && currentPage == 1
    {
      patients := [];
      searchTerm := [];
      currentPage := 1;
    }

    /** The effect that loads the patient list. */
    method LoadPatients(ps: seq<Patient>)
      requires Valid()
      modifies this
      ensures Valid()
      ensures patients == ps && searchTerm == old(searchTerm) && currentPage == old(currentPage)
    {
      patients := ps;
    }

    /** Typing in the search box; the current page is NOT reset. */
    method SetSearchTerm(term: string)
      requires Valid()
      modifies this
      ensures Valid()
      ensures searchTerm == term && patients == old(patients) && currentPage == old(currentPage)
    {
      searchTerm := term;
    }

    method ClickPrev()
      requires Valid()
      modifies this
      ensures Valid()
      ensures currentPage == AfterPrev(old(currentPage))
      ensures patients == old(patients) && searchTerm == old(searchTerm)
    {
      if !PrevDisabled(currentPage) {
        currentPage := currentPage - 1;
      }
    }

    method ClickNext()
      requires Valid()
      modifies this
      ensures Valid()
      ensures currentPage == AfterNext(old(currentPage), old(Total()))
      ensures patients == old(patients) && searchTerm == old(searchTerm)
    {
      if !NextDisabled(currentPage, Total()) {
        currentPage := currentPage + 1;
      }
    }

    /** A click on a rendered page button. */
    method ClickPageButton(n: int)
      requires Valid()
      requires n in PageButtons(currentPage, Total())
      modifies this
      ensures Valid()
      ensures currentPage == n && 1 <= currentPage <= Total()
      ensures patients == old(patients) && searchTerm == old(searchTerm)
    {
      currentPage := n;
    }
  }

  /** The fifteen sample patients. */
  const JohnSmith := Patient("PAT-2023-001", "John Smith", 45, "Male", "555-123-4567", Active)
  const EmilyJohnson := Patient("PAT-2023-002", "Emily Johnson", 32, "Female", "555-234-5678", Recovering)
  const MichaelWilson := Patient("PAT-2023-003", "Michael Wilson", 58, "Male", "555-345-6789", Critical)
  const SarahBrown := Patient("PAT-2023-004", "Sarah Brown", 27, "Female", "555-456-7890", Active)
  const DavidGarcia := Patient("PAT-2023-005", "David Garcia", 62, "Male", "555-567-8901", Recovering)
  const JessicaMartinez := Patient("PAT-2023-006", "Jessica Martinez", 39, "Female", "555-678-9012", Active)
  const RobertAnderson := Patient("PAT-2023-007", "Robert Anderson", 51, "Male", "555-789-0123", Critical)
  const LisaThomas := Patient("PAT-2023-008", "Lisa Thomas", 29, "Female", "555-890-1234", Active)
  const DanielLee := Patient("PAT-2023-009", "Daniel Lee", 43, "Male", "555-901-2345", Recovering)
  const AmyWhite := Patient("PAT-2023-010", "Amy White", 36, "Female", "555-012-3456", Active)
  const JamesHarris := Patient("PAT-2023-011", "James Harris", 55, "Male", "555-123-4567", Critical)
  const JenniferClark := Patient("PAT-2023-012", "Jennifer Clark", 31, "Female", "555-234-5678", Active)
  const ChristopherLewis := Patient("PAT-2023-013", "Christopher Lewis", 47, "Male", "555-345-6789", Recovering)
  const MichelleWalker := Patient("PAT-2023-014", "Michelle Walker", 28, "Female", "555-456-7890", Active)
  const KevinHall := Patient("PAT-2023-015", "Kevin Hall", 60, "Male", "555-567-8901", Critical)

  const SamplePatients: seq<Patient> := [
    JohnSmith,
    EmilyJohnson,
    MichaelWilson,
    SarahBrown,
    DavidGarcia,
    JessicaMartinez,
    RobertAnderson,
    LisaThomas,
    DanielLee,
    AmyWhite,
    JamesHarris,
    JenniferClark,
    ChristopherLewis,
    MichelleWalker,
    KevinHall
  ]

  /** The 15 sample patients fill three pages, the third holding one row. */
  lemma SampleThirdPage()
    ensures TotalPages(|SamplePatients|) == 3
    ensures PageSlice(SamplePatients, 3) == [SamplePatients[14]]
  {
  }

  /** A digit or dash of the term missing from the name, and one missing from
      the id, rule both out, since lower-casing leaves such characters alone. */
  lemma MissByChars(p: Patient, term: string, c: char, d: char)
    requires ToLower(term) == term
    requires !IsUpper(c) && !IsLower(c) && c in term && c !in p.name
    requires !IsUpper(d) && !IsLower(d) && d in term && d !in p.id
    requires !Contains(p.phone, term)
    ensures !Matches(p, term)
  {
    NonLetterMembership(p.name, c);
    MissingCharNotContained(ToLower(p.name), term, c);
    NonLetterMembership(p.id, d);
    MissingCharNotContained(ToLower(p.id), term, d);
  }

  /** As MissByChars, with the id ruled out directly. */
  lemma MissByName(p: Patient, term: string, c: char)
    requires ToLower(term) == term
    requires !IsUpper(c) && !IsLower(c) && c in term && c !in p.name
    requires !Contains(ToLower(p.id), term) && !Contains(p.phone, term)
    ensures !Matches(p, term)
  {
    NonLetterMembership(p.name, c);
    MissingCharNotContained(ToLower(p.name), term, c);
  }

  /** The search term is already lower case. */
  lemma PhoneTermIsLower()
    ensures ToLower("555-123") == "555-123"
  {
  }

  lemma Phone012Misses()
    ensures !Contains("555-012-3456", "555-123")
  {
  }

  lemma Phone234Misses()
    ensures !Contains("555-234-5678", "555-123")
  {
  }

  lemma Phone345Misses()
    ensures !Contains("555-345-6789", "555-123")
  {
  }

  lemma Phone456Misses()
    ensures !Contains("555-456-7890", "555-123")
  {
  }

  lemma Phone567Misses()
    ensures !Contains("555-567-8901", "555-123")
  {
  }

  lemma Phone678Misses()
    ensures !Contains("555-678-9012", "555-123")
  {
  }

  lemma Phone789Misses()
    ensures !Contains("555-789-0123", "555-123")
  {
  }

  lemma Phone890Misses()
    ensures !Contains("555-890-1234", "555-123")
  {
  }

  lemma Phone901Misses()
    ensures !Contains("555-901-2345", "555-123")
  {
  }

  lemma JohnSmithMatchesPhone()
    ensures Matches(JohnSmith, "555-123")
  {
    assert Contains("555-123-4567", "555-123");
  }

  lemma EmilyJohnsonMissesPhone()
    ensures !Matches(EmilyJohnson, "555-123")
  {
    PhoneTermIsLower();
    assert '5' !in "PAT-2023-002";
    Phone234Misses();
    assert '5' !in "Emily Johnson";
    MissByChars(EmilyJohnson, "555-123", '5', '5');
  }

  lemma MichaelWilsonMissesPhone()
    ensures !Matches(MichaelWilson, "555-123")
  {
    PhoneTermIsLower();
    assert '5' !in "PAT-2023-003";
    Phone345Misses();
    assert '5' !in "Michael Wilson";
    MissByChars(MichaelWilson, "555-123", '5', '5');
  }

  lemma SarahBrownMissesPhone()
    ensures !Matches(SarahBrown, "555-123")
  {
    PhoneTermIsLower();
    assert '5' !in "PAT-2023-004";
    Phone456Misses();
    assert '5' !in "Sarah Brown";
    MissByChars(SarahBrown, "555-123", '5', '5');
  }

  lemma DavidGarciaMissesPhone()
    ensures !Matches(DavidGarcia, "555-123")
  {
    PhoneTermIsLower();
    assert '1' !in "PAT-2023-005";
    Phone567Misses();
    assert '5' !in "David Garcia";
    MissByChars(DavidGarcia, "555-123", '5', '1');
  }

  lemma JessicaMartinezMissesPhone()
    ensures !Matches(JessicaMartinez, "555-123")
  {
    PhoneTermIsLower();
    assert '5' !in "PAT-2023-006";
    Phone678Misses();
    assert '5' !in "Jessica Martinez";
    MissByChars(JessicaMartinez, "555-123", '5', '5');
  }

  lemma RobertAndersonMissesPhone()
    ensures !Matches(RobertAnderson, "555-123")
  {
    PhoneTermIsLower();
    assert '5' !in "PAT-2023-007";
    Phone789Misses();
    assert '5' !in "Robert Anderson";
    MissByChars(RobertAnderson, "555-123", '5', '5');
  }

  lemma LisaThomasMissesPhone()
    ensures !Matches(LisaThomas, "555-123")
  {
    PhoneTermIsLower();
    assert '5' !in "PAT-2023-008";
    Phone890Misses();
    assert '5' !in "Lisa Thomas";
    MissByChars(LisaThomas, "555-123", '5', '5');
  }

  lemma DanielLeeMissesPhone()
    ensures !Matches(DanielLee, "555-123")
  {
    PhoneTermIsLower();
    assert '5' !in "PAT-2023-009";
    Phone901Misses();
    assert '5' !in "Daniel Lee";
    MissByChars(DanielLee, "555-123", '5', '5');
  }

  lemma AmyWhiteMissesPhone()
    ensures !Matches(AmyWhite, "555-123")
  {
    PhoneTermIsLower();
    assert '5' !in "PAT-2023-010";
    Phone012Misses();
    assert '5' !in "Amy White";
    MissByChars(AmyWhite, "555-123", '5', '5');
  }

  lemma JamesHarrisMatchesPhone()
    ensures Matches(JamesHarris, "555-123")
  {
    assert Contains("555-123-4567", "555-123");
  }

  lemma JenniferClarkMissesPhone()
    ensures !Matches(JenniferClark, "555-123")
  {
    PhoneTermIsLower();
    assert '5' !in "PAT-2023-012";
    Phone234Misses();
    assert '5' !in "Jennifer Clark";
    MissByChars(JenniferClark, "555-123", '5', '5');
  }

  lemma ChristopherLewisMissesPhone()
    ensures !Matches(ChristopherLewis, "555-123")
  {
    PhoneTermIsLower();
    assert '5' !in "PAT-2023-013";
    Phone345Misses();
    assert '5' !in "Christopher Lewis";
    MissByChars(ChristopherLewis, "555-123", '5', '5');
  }

  lemma MichelleWalkerMissesPhone()
    ensures !Matches(MichelleWalker, "555-123")
  {
    PhoneTermIsLower();
    assert '5' !in "PAT-2023-014";
    Phone456Misses();
    assert '5' !in "Michelle Walker";
    MissByChars(MichelleWalker, "555-123", '5', '5');
  }

  lemma KevinHallMissesPhone()
    ensures !Matches(KevinHall, "555-123")
  {
    PhoneTermIsLower();
    assert !Contains(ToLower("PAT-2023-015"), "555-123");
    Phone567Misses();
    assert '5' !in "Kevin Hall";
    MissByName(KevinHall, "555-123", '5');
  }

  lemma SampleMatchesPhone1(i: int)
    requires 0 <= i < 2
    ensures Matches(SamplePatients[i], "555-123") <==> i == 0 || i == 10
  {
    if i == 0 {
      JohnSmithMatchesPhone();
    } else {
      EmilyJohnsonMissesPhone();
    }
  }

  lemma SampleMatchesPhone2(i: int)
    requires 2 <= i < 4
    ensures Matches(SamplePatients[i], "555-123") <==> i == 0 || i == 10
  {
    if i == 2 {
      MichaelWilsonMissesPhone();
    } else {
      SarahBrownMissesPhone();
    }
  }

  lemma SampleMatchesPhone3(i: int)
    requires 4 <= i < 6
    ensures Matches(SamplePatients[i], "555-123") <==> i == 0 || i == 10
  {
    if i == 4 {
      DavidGarciaMissesPhone();
    } else {
      JessicaMartinezMissesPhone();
    }
  }

  lemma SampleMatchesPhone4(i: int)
    requires 6 <= i < 8
    ensures Matches(SamplePatients[i], "555-123") <==> i == 0 || i == 10
  {
    if i == 6 {
      RobertAndersonMissesPhone();
    } else {
      LisaThomasMissesPhone();
    }
  }

  lemma SampleMatchesPhone5(i: int)
    requires 8 <= i < 10
    ensures Matches(SamplePatients[i], "555-123") <==> i == 0 || i == 10
  {
    if i == 8 {
      DanielLeeMissesPhone();
    } else {
      AmyWhiteMissesPhone();
    }
  }

  lemma SampleMatchesPhone6(i: int)
    requires 10 <= i < 12
    ensures Matches(SamplePatients[i], "555-123") <==> i == 0 || i == 10
  {
    if i == 10 {
      JamesHarrisMatchesPhone();
    } else {
      JenniferClarkMissesPhone();
    }
  }

  lemma SampleMatchesPhone7(i: int)
    requires 12 <= i < 14
    ensures Matches(SamplePatients[i], "555-123") <==> i == 0 || i == 10
  {
    if i == 12 {
      ChristopherLewisMissesPhone();
    } else {
      MichelleWalkerMissesPhone();
    }
  }

  lemma SampleMatchesPhone8(i: int)
    requires i == 14
    ensures Matches(SamplePatients[i], "555-123") <==> i == 0 || i == 10
  {
    KevinHallMissesPhone();
  }

  /** Which sample patients match "555-123": the first and the eleventh. */
  lemma SampleMatchesPhone(i: int)
    requires 0 <= i < |SamplePatients|
    ensures Matches(SamplePatients[i], "555-123") <==> i == 0 || i == 10
  {
    if i < 2 {
      SampleMatchesPhone1(i);
    } else if i < 4 {
      SampleMatchesPhone2(i);
    } else if i < 6 {
      SampleMatchesPhone3(i);
    } else if i < 8 {
      SampleMatchesPhone4(i);
    } else if i < 10 {
      SampleMatchesPhone5(i);
    } else if i < 12 {
      SampleMatchesPhone6(i);
    } else if i < 14 {
      SampleMatchesPhone7(i);
    } else {
      SampleMatchesPhone8(i);
    }
  }

  /** The sample patients matching "555-123" are those at positions 0 and 10. */
  lemma SamplePhonePositions()
    ensures ArePositions(SamplePatients, MatchesTerm("555-123"), [0, 10])
  {
    forall i | 0 <= i < |SamplePatients|
      ensures MatchesTerm("555-123")(SamplePatients[i]) <==> i in [0, 10]
    {
      SampleMatchesPhone(i);
    }
  }

  /** Searching the sample patients for "555-123" finds exactly the two
      patients who share the phone number 555-123-4567. */
  lemma SamplePhoneSearch()
    ensures FilterPatients(SamplePatients, "555-123") == [JohnSmith, JamesHarris]
  {
    SamplePhonePositions();
    FilterByPositions(SamplePatients, MatchesTerm("555-123"), [0, 10]);
  }
}
