/**
 * The doctors directory: a case-insensitive search over name and
 * specialization, combined by AND with an optional department tab; the tabs
 * themselves are the distinct departments in order of first appearance; each
 * card carries a badge whose label is the hyphenated status written as
 * capitalised words.
 */
module Doctors {
  import opened Text
  import opened Seqs

  datatype Status = Available | InClinic | OnLeave

  datatype Doctor = Doctor(
    id: string,
    name: string,
    department: string,
    specialization: string,
    status: Status)

  /** The status as the source spells it. */
  function StatusText(s: Status): string
  {
    match s
    case Available => "available"
    case InClinic => "in-clinic"
    case OnLeave => "on-leave"
  }

  /** The badge colour classes of the status switch. */
  function StatusColor(s: Status): string
  {
    match s
    case Available => "bg-accent/20 text-accent"
    case InClinic => "bg-primary/20 text-primary"
    case OnLeave => "bg-medical-yellow/20 text-medical-yellow"
  }

  /** Every status gets its own colour. */
  lemma StatusColorsDistinct(s: Status, t: Status)
    ensures StatusColor(s) == StatusColor(t) <==> s == t
  {
    if s != t {
      var a, b := StatusColor(s), StatusColor(t);
      assert a[3] != b[3];
    }
  }

  /** The search half of the filter: name or specialization contains the term,
      both sides lower-cased. */
  predicate TextMatches(d: Doctor, term: string)
  {
    Contains(ToLower(d.name), ToLower(term)) || Contains(ToLower(d.specialization), ToLower(term))
  }

  /** The department half: no tab selected (null, or the empty string, which is
      just as falsy), or exactly the selected department. */
  predicate DeptMatches(d: Doctor, selected: Option<string>)
  {
    selected.None? || selected.value == "" || d.department == selected.value
  }

  function MatchesText(term: string): Doctor -> bool
  {
    (d: Doctor) => TextMatches(d, term)
  }

  function MatchesDept(selected: Option<string>): Doctor -> bool
  {
    (d: Doctor) => DeptMatches(d, selected)
  }

  function Keeps(term: string, selected: Option<string>): Doctor -> bool
  {
    (d: Doctor) => TextMatches(d, term) && DeptMatches(d, selected)
  }

  /** `filteredDoctors`: a doctor stays exactly when both halves hold. */
  function FilterDoctors(ds: seq<Doctor>, term: string, selected: Option<string>): (r: seq<Doctor>)
    ensures forall d :: d in r <==> d in ds && TextMatches(d, term) && DeptMatches(d, selected)
  {
    FilterMembers(ds, Keeps(term, selected));
    Filter(ds, Keeps(term, selected))
  }

  /** The filter keeps doctors in their input order. */
  lemma FilterDoctorsKeepsOrder(ds: seq<Doctor>, term: string, selected: Option<string>)
    ensures Embeds(FilterDoctors(ds, term, selected), ds, KeptPositions(ds, Keeps(term, selected)))
  {
    FilterEmbeds(ds, Keeps(term, selected));
  }

  /** With no search and no tab selected every doctor is listed. */
  lemma EmptySearchKeepsAll(ds: seq<Doctor>)
    ensures FilterDoctors(ds, "", None) == ds
  {
    assert ToLower("") == "";
    FilterAll(ds, Keeps("", None));
  }

  /** Selecting a department only narrows the list: the result is the
      unselected result, filtered again by department. */
  lemma DepartmentNarrows(ds: seq<Doctor>, term: string, dept: string)
    ensures FilterDoctors(ds, term, Some(dept)) == Filter(FilterDoctors(ds, term, None), MatchesDept(Some(dept)))
    ensures forall d :: d in FilterDoctors(ds, term, Some(dept)) ==> d in FilterDoctors(ds, term, None)
  {
    FilterConj(ds, MatchesText(term), MatchesDept(Some(dept)), Keeps(term, Some(dept)));
    FilterConj(ds, MatchesText(term), MatchesDept(None), Keeps(term, None));
    FilterAll(Filter(ds, MatchesText(term)), MatchesDept(None));
  }

  function DepartmentOf(d: Doctor): string
  {
    d.department
  }

  /** `Array.from(new Set(doctors.map(d => d.department)))`. */
  function Departments(ds: seq<Doctor>): seq<string>
  {
    Distinct(Map(ds, DepartmentOf))
  }

  /** The tabs: each department once, every doctor's department present,
      nothing else, in the order of first appearance. */
  lemma DepartmentsSpec(ds: seq<Doctor>)
    ensures NoDuplicates(Departments(ds))
    ensures forall dept :: dept in Departments(ds) <==> exists d :: d in ds && d.department == dept
    ensures forall i, j :: 0 <= i < j < |Departments(ds)| ==>
              FirstIndex(Map(ds, DepartmentOf), Departments(ds)[i]) < FirstIndex(Map(ds, DepartmentOf), Departments(ds)[j])
  {
    DistinctFirstSeenOrder(Map(ds, DepartmentOf));
    forall dept
      ensures dept in Departments(ds) <==> exists d :: d in ds && d.department == dept
    {
      if dept in Departments(ds) {
        var i :| 0 <= i < |ds| && Map(ds, DepartmentOf)[i] == dept;
        assert ds[i] in ds;
      }
      if exists d :: d in ds && d.department == dept {
        var d :| d in ds && d.department == dept;
        var i :| 0 <= i < |ds| && ds[i] == d;
        assert Map(ds, DepartmentOf)[i] == dept;
      }
    }
  }

  datatype Tab = AllDoctors | DepartmentTab(name: string)

  /** The department selection a tab click sets. */
  function SelectTab(t: Tab): Option<string>
  {
    match t
    case AllDoctors => None
    case DepartmentTab(dept) => Some(dept)
  }

  /** "All Doctors" lifts the department condition; a department tab keeps
      exactly the matching doctors of that department, and with an empty
      search no department tab is ever empty. */
  lemma TabSelection(ds: seq<Doctor>, term: string, dept: string)
    requires dept in Departments(ds)
    ensures FilterDoctors(ds, term, SelectTab(AllDoctors)) == Filter(ds, MatchesText(term))
    ensures dept != "" ==> forall d :: d in FilterDoctors(ds, term, SelectTab(DepartmentTab(dept))) <==>
              d in ds && TextMatches(d, term) && d.department == dept
    ensures FilterDoctors(ds, "", SelectTab(DepartmentTab(dept))) != []
  {
    AllTabIgnoresDepartment(ds, term);
    DepartmentTabNonEmpty(ds, dept);
  }

  /** The "All" tab filters by the search text alone. */
  lemma AllTabIgnoresDepartment(ds: seq<Doctor>, term: string)
    ensures FilterDoctors(ds, term, None) == Filter(ds, MatchesText(term))
  {
    FilterConj(ds, MatchesText(term), MatchesDept(None), Keeps(term, None));
    FilterAll(Filter(ds, MatchesText(term)), MatchesDept(None));
  }

  /** With an empty search, the tab of a listed department shows its doctors. */
  lemma DepartmentTabNonEmpty(ds: seq<Doctor>, dept: string)
    requires dept in Departments(ds)
    ensures FilterDoctors(ds, "", Some(dept)) != []
  {
    DepartmentsSpec(ds);
    var d :| d in ds && d.department == dept;
    assert ToLower("") == "";
    assert d in FilterDoctors(ds, "", Some(dept));
  }


  /** The badge label: split on '-', capitalise each word, join with spaces. */
  function BadgeLabel(s: string): string
  {
    Join(Map(Split(s, '-'), Capitalize), " ")
  }

  /** The label character by character: a hyphen becomes a space, and a
      character at the start or right after a hyphen is upper-cased. */
  function LabelChars(s: string): (r: string)
    ensures |r| == |s|
  {
    seq(|s|, i requires 0 <= i < |s| =>
      if s[i] == '-' then ' '
      else if i == 0 || s[i - 1] == '-' then UpperChar(s[i])
      else s[i])
  }

  lemma MapCons<T, U>(x: T, xs: seq<T>, f: T -> U)
    ensures Map([x] + xs, f) == [f(x)] + Map(xs, f)
  {
  }

  /** Splitting off the first word of a hyphenated status. */
  lemma BadgeLabelStep(s: string)
    requires '-' in s
    ensures BadgeLabel(s) == Capitalize(s[..IndexOf(s, '-')]) + " " + BadgeLabel(s[IndexOf(s, '-') + 1..])
  {
    var i := IndexOf(s, '-');
    var rest := s[i + 1..];
    assert Split(s, '-') == [s[..i]] + Split(rest, '-');
    var tail := Map(Split(rest, '-'), Capitalize);
    MapCons(s[..i], Split(rest, '-'), Capitalize);
    var ws := [Capitalize(s[..i])] + tail;
    assert ws[1..] == tail;
  }

  lemma LabelCharsStep(s: string)
    requires '-' in s
    ensures LabelChars(s) == Capitalize(s[..IndexOf(s, '-')]) + " " + LabelChars(s[IndexOf(s, '-') + 1..])
  {
    var i := IndexOf(s, '-');
    var rest := s[i + 1..];
    var r := Capitalize(s[..i]) + " " + LabelChars(rest);
    forall j | 0 <= j < |s|
      ensures r[j] == LabelChars(s)[j]
    {
      if j > i + 1 {
        assert r[j] == LabelChars(rest)[j - i - 1];
        assert rest[j - i - 1] == s[j] && rest[j - i - 2] == s[j - 1];
      } else if j == i + 1 {
        assert r[j] == LabelChars(rest)[0];
      } else if j < i {
        assert s[..i][j] == s[j];
        assert r[j] == Capitalize(s[..i])[j];
        if j > 0 {
          assert s[j - 1] != '-';
        }
      }
    }
  }

  /** The split-map-join pipeline agrees with the character-wise reading. */
  lemma {:induction false} BadgeLabelChars(s: string)
    ensures BadgeLabel(s) == LabelChars(s)
    decreases |s|
  {
    if '-' !in s {
      assert Split(s, '-') == [s];
      assert Map([s], Capitalize) == [Capitalize(s)];
      forall j | 0 <= j < |s|
        ensures Capitalize(s)[j] == LabelChars(s)[j]
      {
        if j > 0 {
          assert s[j - 1] != '-';
        }
      }
    } else {
      BadgeLabelStep(s);
      LabelCharsStep(s);
      BadgeLabelChars(s[IndexOf(s, '-') + 1..]);
    }
  }

  lemma LabelIs(s: string, expected: string)
    requires LabelChars(s) == expected
    ensures BadgeLabel(s) == expected
  {
    BadgeLabelChars(s);
  }

  /** The three badges as the directory shows them: "Available", "In Clinic"
      and "On Leave". */
  lemma BadgeLabelAvailable()
    ensures BadgeLabel(StatusText(Available)) == "Available"
  {
    assert UpperChar('a') == 'A';
    var a := LabelChars("available");
    assert a[0] == 'A' && a[1] == 'v' && a[2] == 'a' && a[3] == 'i' && a[4] == 'l';
    assert a[5] == 'a' && a[6] == 'b' && a[7] == 'l' && a[8] == 'e';
    LabelIs("available", "Available");
  }

  lemma BadgeLabelInClinic()
    ensures BadgeLabel(StatusText(InClinic)) == "In Clinic"
  {
    assert UpperChar('i') == 'I' && UpperChar('c') == 'C';
    var c := LabelChars("in-clinic");
    assert c[0] == 'I' && c[1] == 'n' && c[2] == ' ' && c[3] == 'C' && c[4] == 'l';
    assert c[5] == 'i' && c[6] == 'n' && c[7] == 'i' && c[8] == 'c';
    LabelIs("in-clinic", "In Clinic");
  }

  lemma BadgeLabelOnLeave()
    ensures BadgeLabel(StatusText(OnLeave)) == "On Leave"
  {
    assert UpperChar('o') == 'O' && UpperChar('l') == 'L';
    var l := LabelChars("on-leave");
    assert l[0] == 'O' && l[1] == 'n' && l[2] == ' ' && l[3] == 'L';
    assert l[4] == 'e' && l[5] == 'a' && l[6] == 'v' && l[7] == 'e';
    LabelIs("on-leave", "On Leave");
  }

  /** The two sample cardiologists, first and last in the directory. */
  const MariaRodriguez := Doctor("DOC-2023-001", "Maria Rodriguez", "Cardiology", "Interventional Cardiologist", Available)
  const EmilyHarris := Doctor("DOC-2023-009", "Emily Harris", "Cardiology", "Cardiac Surgeon", Available)

  const SampleDoctors: seq<Doctor> := [
    MariaRodriguez,
    Doctor("DOC-2023-002", "James Wilson", "Orthopedics", "Joint Replacement Specialist", InClinic),
    Doctor("DOC-2023-003", "Sarah Chen", "Neurology", "Neurologist", Available),
    Doctor("DOC-2023-004", "David Kim", "Dermatology", "Dermatologist", OnLeave),
    Doctor("DOC-2023-005", "Lisa Martinez", "Ophthalmology", "Ophthalmic Surgeon", InClinic),
    Doctor("DOC-2023-006", "Michael Taylor", "General Medicine", "General Physician", Available),
    Doctor("DOC-2023-007", "Jennifer White", "Pediatrics", "Pediatrician", InClinic),
    Doctor("DOC-2023-008", "Robert Lee", "Psychiatry", "Psychiatrist", OnLeave),
    EmilyHarris
  ]

  /** The department column of the sample, in order. */
  lemma SampleDepartmentColumn()
    ensures Map(SampleDoctors, DepartmentOf) == ["Cardiology", "Orthopedics", "Neurology", "Dermatology",
      "Ophthalmology", "General Medicine", "Pediatrics", "Psychiatry", "Cardiology"]
  {
  }

  lemma EightDepartmentsDistinct()
    ensures Distinct(["Cardiology", "Orthopedics", "Neurology", "Dermatology",
      "Ophthalmology", "General Medicine", "Pediatrics", "Psychiatry"]) == ["Cardiology", "Orthopedics",
      "Neurology", "Dermatology", "Ophthalmology", "General Medicine", "Pediatrics", "Psychiatry"]
  {
    var d := ["Cardiology", "Orthopedics", "Neurology", "Dermatology",
      "Ophthalmology", "General Medicine", "Pediatrics", "Psychiatry"];
    assert NoDuplicates(d);
    DistinctOfNoDuplicates(d);
  }

  /** The nine sample doctors give eight tabs, Cardiology once. */
  lemma SampleDepartments()
    ensures Departments(SampleDoctors) == ["Cardiology", "Orthopedics", "Neurology", "Dermatology",
      "Ophthalmology", "General Medicine", "Pediatrics", "Psychiatry"]
    ensures |Departments(SampleDoctors)| == 8
  {
    var d := ["Cardiology", "Orthopedics", "Neurology", "Dermatology",
      "Ophthalmology", "General Medicine", "Pediatrics", "Psychiatry"];
    SampleDepartmentColumn();
    EightDepartmentsDistinct();
    assert d + [d[0]] == Map(SampleDoctors, DepartmentOf);
    DistinctSnoc(d, d[0]);
  }

  /** The Cardiology tab alone shows the first and the last sample doctor. */
  lemma SampleCardiologyTab()
    ensures Filter(SampleDoctors, MatchesDept(Some("Cardiology"))) == [MariaRodriguez, EmilyHarris]
  {
    forall i | 0 <= i < |SampleDoctors|
      ensures MatchesDept(Some("Cardiology"))(SampleDoctors[i]) <==> i in [0, 8]
    {
    }
    FilterByPositions(SampleDoctors, MatchesDept(Some("Cardiology")), [0, 8]);
  }

  /** A search term is ruled out for a doctor by one letter of it missing
      from the name and one missing from the specialization, in both cases. */
  lemma MissingLettersRuleOut(d: Doctor, term: string, c: char, e: char)
    requires ToLower(term) == term
    requires IsLower(c) && c in term && c !in d.name && UpperChar(c) !in d.name
    requires IsLower(e) && e in term && e !in d.specialization && UpperChar(e) !in d.specialization
    ensures !TextMatches(d, term)
  {
    LetterRulesOut(d.name, term, c);
    LetterRulesOut(d.specialization, term, e);
  }

  lemma FirstCardiologistLetters()
    ensures 's' !in "Maria Rodriguez" && 'S' !in "Maria Rodriguez"
    ensures 'u' !in "Interventional Cardiologist" && 'U' !in "Interventional Cardiologist"
  {
  }

  /** Neither Maria Rodriguez's name (no 's') nor her specialization (no 'u')
      contains "surgeon". */
  lemma FirstCardiologistNotSurgeon()
    ensures !TextMatches(MariaRodriguez, "surgeon")
  {
    FirstCardiologistLetters();
    assert ToLower("surgeon") == "surgeon";
    MissingLettersRuleOut(MariaRodriguez, "surgeon", 's', 'u');
  }

  /** Emily Harris, "Cardiac Surgeon", matches "surgeon" from position 8. */
  lemma CardiacSurgeonMatches()
    ensures TextMatches(EmilyHarris, "surgeon")
  {
    assert ToLower("surgeon") == "surgeon";
    var low := ToLower(EmilyHarris.specialization);
    assert low[8] == 's' && low[9] == 'u' && low[10] == 'r' && low[11] == 'g';
    assert low[12] == 'e' && low[13] == 'o' && low[14] == 'n';
    assert OccursAt(low, "surgeon", 8);
    ContainsMeaning(low, "surgeon");
  }

  /** The Cardiology tab searched for "surgeon" lists only DOC-2023-009. */
  lemma SampleCardiacSurgeonSearch()
    ensures FilterDoctors(SampleDoctors, "surgeon", Some("Cardiology")) == [EmilyHarris]
    ensures EmilyHarris.id == "DOC-2023-009"
  {
    var sel := Some("Cardiology");
    FilterConj(SampleDoctors, MatchesDept(sel), MatchesText("surgeon"), Keeps("surgeon", sel));
    SampleCardiologyTab();
    FirstCardiologistNotSurgeon();
    CardiacSurgeonMatches();
    FilterCons(MariaRodriguez, [EmilyHarris], MatchesText("surgeon"));
    FilterSnoc([], EmilyHarris, MatchesText("surgeon"));
    assert [MariaRodriguez] + [EmilyHarris] == [MariaRodriguez, EmilyHarris];
    assert [] + [EmilyHarris] == [EmilyHarris];
  }
}
