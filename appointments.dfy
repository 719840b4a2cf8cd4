/**
 * The appointments page: the list is cut down to the day picked on the
 * calendar, then folded into a dictionary from time slot (the text of `time`
 * before its first space) to the appointments in that slot, whose entries the
 * timeline renders in insertion order. The calendar-day formatting of a date
 * string is a parameter `dayOf`; the selected day arrives already formatted.
 */
module Appointments {
  import opened Text
  import opened Seqs

  datatype Status = Scheduled | InProgress | Completed | Cancelled

  datatype Appointment = Appointment(
    id: string,
    patientName: string,
    patientId: string,
    doctorName: string,
    department: string,
    date: string,
    time: string,
    status: Status)

  /** The status as the source spells it. */
  function StatusText(s: Status): string
  {
    match s
    case Scheduled => "scheduled"
    case InProgress => "in-progress"
    case Completed => "completed"
    case Cancelled => "cancelled"
  }

  /** The badge text: first character upper-cased, the rest as it is. */
  function StatusLabel(s: Status): (r: string)
    ensures |r| == |StatusText(s)| && r != []
    ensures IsUpper(r[0]) && r[0] == UpperChar(StatusText(s)[0])
    ensures r[1..] == StatusText(s)[1..]
  {
    Capitalize(StatusText(s))
  }

  lemma StatusLabels()
    ensures StatusLabel(Scheduled) == "Scheduled"
    ensures StatusLabel(InProgress) == "In-progress"
    ensures StatusLabel(Completed) == "Completed"
    ensures StatusLabel(Cancelled) == "Cancelled"
  {
  }

  /** The badge colour classes of the status switch. */
  function StatusColor(s: Status): string
  {
    match s
    case Scheduled => "bg-medical-yellow text-black"
    case InProgress => "bg-primary text-white"
    case Completed => "bg-accent text-white"
    case Cancelled => "bg-destructive text-white"
  }

  /** Every status gets its own colour. */
  lemma StatusColorsDistinct(s: Status, t: Status)
    ensures StatusColor(s) == StatusColor(t) <==> s == t
  {
    if s != t {
      var a, b := StatusColor(s), StatusColor(t);
      assert a[3] != b[3];
    }
  }

  function OnDay(day: string, dayOf: string -> string): Appointment -> bool
  {
    (a: Appointment) => dayOf(a.date) == day
  }

  /** `filteredAppointments`: nothing without a selected day, otherwise the
      appointments whose date falls on that day. */
  function FilterByDate(appts: seq<Appointment>, selected: Option<string>, dayOf: string -> string): (r: seq<Appointment>)
    ensures selected.None? ==> r == []
    ensures selected.Some? ==> forall a :: a in r <==> a in appts && dayOf(a.date) == selected.value
  {
    match selected
    case None => []
    case Some(day) =>
      FilterMembers(appts, OnDay(day, dayOf));
      Filter(appts, OnDay(day, dayOf))
  }

  /** The day filter keeps appointments in their input order, and the
      positions it keeps are exactly those whose date falls on the selected day. */
  lemma FilterByDateKeepsOrder(appts: seq<Appointment>, selected: Option<string>, dayOf: string -> string)
    ensures exists idx :: Embeds(FilterByDate(appts, selected, dayOf), appts, idx) &&
              forall i :: 0 <= i < |appts| ==>
                (i in idx <==> selected.Some? && dayOf(appts[i].date) == selected.value)
  {
    match selected
    case None =>
      var none: seq<int> := [];
      assert Embeds(FilterByDate(appts, selected, dayOf), appts, none);
    case Some(day) =>
      FilterEmbeds(appts, OnDay(day, dayOf));
      assert Embeds(FilterByDate(appts, selected, dayOf), appts, KeptPositions(appts, OnDay(day, dayOf)));
  }

  /** The text of time before its first space, or all of it. */
  function SlotKey(time: string): (r: string)
    ensures ' ' !in r
    ensures ' ' !in time ==> r == time
    ensures ' ' in time ==> r + [' '] <= time
  {
    if ' ' in time then
      var i := IndexOf(time, ' ');
      assert time[..i] + [' '] == time[..i + 1];
      time[..i]
    else time
  }

  /** The key is the source's `time.split(' ')[0]`. */
  lemma SlotKeyIsSplitHead(time: string)
    ensures SlotKey(time) == Split(time, ' ')[0]
  {
    SplitHead(time, ' ');
  }

  /** The key of a time whose first space is at position i is the text before i. */
  lemma SlotKeyBeforeSpace(time: string, i: int)
    requires 0 <= i < |time| && time[i] == ' ' && ' ' !in time[..i]
    ensures SlotKey(time) == time[..i]
  {
    var j := IndexOf(time, ' ');
    assert forall k :: 0 <= k < i ==> time[..i][k] == time[k] != ' ';
    assert forall k :: 0 <= k < j ==> time[..j][k] == time[k] != ' ';
    assert j == i;
  }

  /** The morning and the evening slot at the same clock time share a key. */
  lemma SlotKeyDropsMeridiem()
    ensures SlotKey("9:00 AM") == "9:00" && SlotKey("9:00 PM") == "9:00"
  {
    SlotKeyBeforeSpace("9:00 AM", 4);
    SlotKeyBeforeSpace("9:00 PM", 4);
  }

  function SlotOf(a: Appointment): string
  {
    SlotKey(a.time)
  }

  function InSlot(k: string): Appointment -> bool
  {
    (a: Appointment) => SlotOf(a) == k
  }

  /** The dictionary's keys in insertion order: each slot at its first appearance. */
  function SlotOrder(xs: seq<Appointment>): seq<string>
  {
    Distinct(Map(xs, SlotOf))
  }

  /** The array stored under key k: the appointments of slot k, in input order. */
  function SlotGroup(xs: seq<Appointment>, k: string): seq<Appointment>
  {
    Filter(xs, InSlot(k))
  }

  /** `appointmentsByTimeSlot`: the reduce that creates an empty array for a
      new slot and pushes each appointment onto the array of its slot. keys
      records the order in which keys entered the dictionary. */
  method GroupByTimeSlot(xs: seq<Appointment>) returns (keys: seq<string>, groups: map<string, seq<Appointment>>)
    ensures keys == SlotOrder(xs)
    ensures forall k :: k in groups <==> k in keys
    ensures forall k :: k in groups ==> groups[k] == SlotGroup(xs, k)
  {
    keys, groups := [], map[];
    for i := 0 to |xs|
      invariant keys == SlotOrder(xs[..i])
      invariant forall k :: k in groups <==> k in keys
      invariant forall k :: k in groups ==> groups[k] == SlotGroup(xs[..i], k)
    {
      var a := xs[i];
      var slot := SlotKey(a.time);
      ghost var keysBefore, groupsBefore := keys, groups;
      var group: seq<Appointment> := [];
      if slot in groups {
        group := groups[slot];
      } else {
        keys := keys + [slot];
      }
      groups := groups[slot := group + [a]];
      PrefixSnoc(xs, i);
      PushStep(xs[..i], a, xs[..i + 1], keysBefore, groupsBefore, group, keys, groups);
    }
    assert xs[..|xs|] == xs;
  }

  /** One step of the reduce: when seen has been grouped into keysBefore and
      groupsBefore, pushing a onto its slot's array (created empty for a new
      slot) gives the grouping of next == seen + [a]. */
  lemma PushStep(seen: seq<Appointment>, a: Appointment, next: seq<Appointment>,
                 keysBefore: seq<string>, groupsBefore: map<string, seq<Appointment>>,
                 group: seq<Appointment>, keys: seq<string>, groups: map<string, seq<Appointment>>)
    requires next == seen + [a]
    requires keysBefore == SlotOrder(seen)
    requires forall k :: k in groupsBefore <==> k in keysBefore
    requires forall k :: k in groupsBefore ==> groupsBefore[k] == SlotGroup(seen, k)
    requires keys == if SlotOf(a) in groupsBefore then keysBefore else keysBefore + [SlotOf(a)]
    requires group == if SlotOf(a) in groupsBefore then groupsBefore[SlotOf(a)] else []
    requires groups == groupsBefore[SlotOf(a) := group + [a]]
    ensures keys == SlotOrder(next)
    ensures forall k :: k in groups <==> k in keys
    ensures forall k :: k in groups ==> groups[k] == SlotGroup(next, k)
  {
    PushKeys(seen, a, next, keysBefore, groupsBefore, keys);
    PushGroups(seen, a, next, keysBefore, groupsBefore, group, groups);
  }

  /** One step of the reduce, for the keys: a new slot is appended to the
      keys of seen, giving the keys of next == seen + [a]. */
  lemma PushKeys(seen: seq<Appointment>, a: Appointment, next: seq<Appointment>,
                 keysBefore: seq<string>, groupsBefore: map<string, seq<Appointment>>, keys: seq<string>)
    requires next == seen + [a]
    requires keysBefore == SlotOrder(seen)
    requires forall k :: k in groupsBefore <==> k in keysBefore
    requires keys == if SlotOf(a) in groupsBefore then keysBefore else keysBefore + [SlotOf(a)]
    ensures keys == SlotOrder(next)
  {
    MapSnoc(seen, a, SlotOf);
    DistinctSnoc(Map(seen, SlotOf), SlotOf(a));
  }

  /** One step of the reduce, for the arrays: pushing a onto its slot's array
      (created empty for a new slot) gives the arrays of next == seen + [a]. */
  lemma PushGroups(seen: seq<Appointment>, a: Appointment, next: seq<Appointment>,
                   keysBefore: seq<string>, groupsBefore: map<string, seq<Appointment>>,
                   group: seq<Appointment>, groups: map<string, seq<Appointment>>)
    requires next == seen + [a]
    requires keysBefore == SlotOrder(seen)
    requires forall k :: k in groupsBefore <==> k in keysBefore
    requires forall k :: k in groupsBefore ==> groupsBefore[k] == SlotGroup(seen, k)
    requires group == if SlotOf(a) in groupsBefore then groupsBefore[SlotOf(a)] else []
    requires groups == groupsBefore[SlotOf(a) := group + [a]]
    ensures forall k :: k in groups ==> groups[k] == SlotGroup(next, k)
  {
    SlotGroupsNonEmpty(seen, SlotOf(a));
    SlotGroupSnoc(seen, a);
  }

  lemma SlotGroupSnoc(xs: seq<Appointment>, a: Appointment)
    ensures forall k :: SlotGroup(xs + [a], k) == SlotGroup(xs, k) + if SlotOf(a) == k then [a] else []
  {
    forall k
      ensures SlotGroup(xs + [a], k) == SlotGroup(xs, k) + if SlotOf(a) == k then [a] else []
    {
      FilterSnoc(xs, a, InSlot(k));
    }
  }

  /** No slot is listed without an appointment in it, and every member of a
      slot's array has that slot's key. */
  lemma SlotGroupsNonEmpty(xs: seq<Appointment>, k: string)
    ensures k in SlotOrder(xs) <==> SlotGroup(xs, k) != []
    ensures forall a :: a in SlotGroup(xs, k) <==> a in xs && SlotOf(a) == k
  {
    FilterMembers(xs, InSlot(k));
    if k in SlotOrder(xs) {
      var i :| 0 <= i < |xs| && Map(xs, SlotOf)[i] == k;
      assert xs[i] in SlotGroup(xs, k);
    }
    if SlotGroup(xs, k) != [] {
      var a := SlotGroup(xs, k)[0];
      assert a in SlotGroup(xs, k) && a in xs;
      var i :| 0 <= i < |xs| && xs[i] == a;
      assert Map(xs, SlotOf)[i] == k;
    }
  }

  /** The slot keys are pairwise distinct and appear in the order in which
      their first appointment appears. */
  lemma SlotOrderFirstSeen(xs: seq<Appointment>)
    ensures NoDuplicates(SlotOrder(xs))
    ensures forall i, j :: 0 <= i < j < |SlotOrder(xs)| ==>
              FirstIndex(Map(xs, SlotOf), SlotOrder(xs)[i]) < FirstIndex(Map(xs, SlotOf), SlotOrder(xs)[j])
  {
    DistinctFirstSeenOrder(Map(xs, SlotOf));
  }

  /** The timeline's "No appointments" state, zero keys, happens exactly
      when the list view's is shown, an empty list. */
  lemma NoSlotsIffNoAppointments(xs: seq<Appointment>)
    ensures SlotOrder(xs) == [] <==> xs == []
  {
    if xs != [] {
      assert Map(xs, SlotOf)[0] in SlotOrder(xs);
    }
  }

  /** Without a selected day there is nothing to group. */
  lemma NoDayNoSlots(appts: seq<Appointment>, dayOf: string -> string)
    ensures SlotOrder(FilterByDate(appts, None, dayOf)) == []
  {
  }

  /** The arrays of the slots in ks, one after the other. */
  function Concat(xs: seq<Appointment>, ks: seq<string>): seq<Appointment>
  {
    if ks == [] then [] else Concat(xs, Init(ks)) + SlotGroup(xs, Last(ks))
  }

  lemma {:induction false} ConcatCounts(xs: seq<Appointment>, ks: seq<string>)
    requires NoDuplicates(ks)
    ensures forall a :: multiset(Concat(xs, ks))[a] == if SlotOf(a) in ks then multiset(xs)[a] else 0
  {
    if ks != [] {
      var init, k := Init(ks), Last(ks);
      ConcatCounts(xs, init);
      FilterMultiset(xs, InSlot(k));
      assert ks == init + [k];
      assert k !in init;
    }
  }

  /** Grouping neither loses nor duplicates an appointment: the arrays of all
      slots, in key order, hold exactly the input's appointments. */
  lemma GroupingIsPermutation(xs: seq<Appointment>)
    ensures multiset(Concat(xs, SlotOrder(xs))) == multiset(xs)
  {
    ConcatCounts(xs, SlotOrder(xs));
    forall a
      ensures multiset(Concat(xs, SlotOrder(xs)))[a] == multiset(xs)[a]
    {
      if a in xs {
        var i :| 0 <= i < |xs| && xs[i] == a;
        assert Map(xs, SlotOf)[i] == SlotOf(a);
      }
    }
  }

  /** The flattened arrays of the slots in ks, filtered to slot k, give k's
      array when k is listed and nothing otherwise. */
  lemma {:induction false} ConcatSlotGroup(xs: seq<Appointment>, ks: seq<string>, k: string)
    requires NoDuplicates(ks)
    ensures SlotGroup(Concat(xs, ks), k) == if k in ks then SlotGroup(xs, k) else []
  {
    if ks != [] {
      var init, last := Init(ks), Last(ks);
      assert ks == init + [last];
      InitNoDuplicates(ks);
      ConcatSlotGroup(xs, init, k);
      FilterAppend(Concat(xs, init), SlotGroup(xs, last), InSlot(k));
      SlotGroupsNonEmpty(xs, last);
      if last == k {
        FilterAll(SlotGroup(xs, last), InSlot(k));
      } else {
        FilterNone(SlotGroup(xs, last), InSlot(k));
      }
    }
  }

  /** Every appointment in the flattened arrays of ks has a slot listed in ks. */
  lemma {:induction false} ConcatSlotsListed(xs: seq<Appointment>, ks: seq<string>)
    ensures forall a :: a in Concat(xs, ks) ==> SlotOf(a) in ks
  {
    if ks != [] {
      ConcatSlotsListed(xs, Init(ks));
      SlotGroupsNonEmpty(xs, Last(ks));
      assert ks == Init(ks) + [Last(ks)];
    }
  }

  /** Appending a non-empty run of appointments of one new slot adds that
      slot once, as the last key. */
  lemma SlotOrderAppendRun(front: seq<Appointment>, run: seq<Appointment>, k: string)
    requires run != []
    requires forall a :: a in front ==> SlotOf(a) != k
    requires forall a :: a in run ==> SlotOf(a) == k
    ensures SlotOrder(front + run) == SlotOrder(front) + [k]
  {
    MapAppend(front, run, SlotOf);
    var frontSlots, runSlots := Map(front, SlotOf), Map(run, SlotOf);
    assert k !in frontSlots by {
      forall i | 0 <= i < |front| ensures frontSlots[i] != k {
        assert front[i] in front;
      }
    }
    assert forall i :: 0 <= i < |run| ==> runSlots[i] == k by {
      forall i | 0 <= i < |run| ensures SlotOf(run[i]) == k {
        assert run[i] in run;
      }
    }
    DistinctAppendRun(frontSlots, runSlots, k);
  }

  /** Flattening the arrays of distinct slots that all occur in xs lists
      those slots again, in the same order. */
  lemma {:induction false} ConcatSlotOrder(xs: seq<Appointment>, ks: seq<string>)
    requires NoDuplicates(ks)
    requires forall k :: k in ks ==> k in SlotOrder(xs)
    ensures SlotOrder(Concat(xs, ks)) == ks
  {
    if ks != [] {
      var init, last := Init(ks), Last(ks);
      assert ks == init + [last];
      InitNoDuplicates(ks);
      ConcatSlotOrder(xs, init);
      ConcatSlotsListed(xs, init);
      SlotGroupsNonEmpty(xs, last);
      SlotOrderAppendRun(Concat(xs, init), SlotGroup(xs, last), last);
    }
  }

  /** Grouping is stable under regrouping: grouping the flattened arrays again
      gives the same keys in the same order and the same array under every key. */
  lemma RegroupingIsStable(xs: seq<Appointment>)
    ensures SlotOrder(Concat(xs, SlotOrder(xs))) == SlotOrder(xs)
    ensures forall k :: SlotGroup(Concat(xs, SlotOrder(xs)), k) == SlotGroup(xs, k)
  {
    var ks := SlotOrder(xs);
    ConcatSlotOrder(xs, ks);
    forall k
      ensures SlotGroup(Concat(xs, ks), k) == SlotGroup(xs, k)
    {
      ConcatSlotGroup(xs, ks, k);
      SlotGroupsNonEmpty(xs, k);
    }
  }
}
