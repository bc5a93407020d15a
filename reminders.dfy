/** The reminder evaluator: the list of upcoming doses shown on the page and
    the selection made by the once-a-minute reminder pass. `today` is the
    day string of the clock (`toDateString()`), `now` the current `HH:MM`
    string. */
module Reminders {
  import opened JsStrings
  import opened Medications

  /** One entry of the upcoming list: `{ med, time, isPast }`. */
  datatype Slot = Slot(med: Medication, time: string, isPast: bool)

  /** The entries the inner loop pushes for `med` while walking the times `ts`. */
  function PendingOf(med: Medication, ts: seq<string>, today: string, now: string): seq<Slot>
  {
    if ts == [] then []
    else
      var time := ts[|ts| - 1];
      PendingOf(med, ts[..|ts| - 1], today, now)
      + (if Taken(med.taken, TakenKey(today, time)) then [] else [Slot(med, time, LexLess(time, now))])
  }

  /** The entries the outer loop has pushed after walking `meds`, before sorting. */
  function Pending(meds: seq<Medication>, today: string, now: string): seq<Slot>
  {
    if meds == [] then []
    else
      var med := meds[|meds| - 1];
      Pending(meds[..|meds| - 1], today, now)
      + (if med.active then PendingOf(med, med.times, today, now) else [])
  }

  /** `s` is an upcoming dose: an active medication, one of its times, not
      taken today, flagged overdue exactly when its time is before `now`. */
  ghost predicate IsUpcoming(s: Slot, meds: seq<Medication>, today: string, now: string) {
    && s.med in meds && s.med.active && s.time in s.med.times
    && !Taken(s.med.taken, TakenKey(today, s.time))
    && s.isPast == LexLess(s.time, now)
  }

  lemma {:induction false} PendingOfMembers(med: Medication, ts: seq<string>, today: string, now: string)
    ensures forall s :: s in PendingOf(med, ts, today, now) <==>
      s.med == med && s.time in ts && !Taken(med.taken, TakenKey(today, s.time)) && s.isPast == LexLess(s.time, now)
  {
    if ts != [] {
      PendingOfMembers(med, ts[..|ts| - 1], today, now);
      assert ts == ts[..|ts| - 1] + [ts[|ts| - 1]];
    }
  }

  /** The collected entries are exactly the upcoming doses. */
  lemma {:induction false} PendingMembers(meds: seq<Medication>, today: string, now: string)
    ensures forall s :: s in Pending(meds, today, now) <==> IsUpcoming(s, meds, today, now)
  {
    if meds != [] {
      var med := meds[|meds| - 1];
      PendingMembers(meds[..|meds| - 1], today, now);
      PendingOfMembers(med, med.times, today, now);
      assert meds == meds[..|meds| - 1] + [med];
    }
  }

  /** No entry is placed after one with a later time. */
  predicate SortedByTime(s: seq<Slot>) {
    forall i, j :: 0 <= i < j < |s| ==> !LexLess(s[j].time, s[i].time)
  }

  /** Insert `x` before the first entry whose time is not before `x`'s. */
  function Insert(x: Slot, r: seq<Slot>): (q: seq<Slot>)
    ensures multiset(q) == multiset(r) + multiset{x}
  {
    if r == [] || !LexLess(r[0].time, x.time) then [x] + r
    else
      assert r == [r[0]] + r[1..];
      [r[0]] + Insert(x, r[1..])
  }

  /** `upcoming.sort((a, b) => a.time.localeCompare(b.time))`, a stable sort
      by time, as insertion of each entry ahead of the sorted rest. */
  function SortByTime(s: seq<Slot>): (r: seq<Slot>)
    ensures multiset(r) == multiset(s)
  {
    if s == [] then []
    else
      assert s == [s[0]] + s[1..];
      Insert(s[0], SortByTime(s[1..]))
  }

  lemma {:induction false} InsertSorted(x: Slot, r: seq<Slot>)
    requires SortedByTime(r)
    ensures SortedByTime(Insert(x, r))
  {
    if r != [] && LexLess(r[0].time, x.time) {
      InsertSorted(x, r[1..]);
      var q := Insert(x, r[1..]);
      forall j | 0 <= j < |q| ensures !LexLess(q[j].time, r[0].time) {
        assert q[j] in multiset(q);
        if q[j] == x {
          LexLessAsymmetric(r[0].time, x.time);
        } else {
          assert q[j] in r[1..];
        }
      }
    } else if r != [] {
      forall j | 0 < j < |r| ensures !LexLess(r[j].time, x.time) {
        LexLeqTransitive(x.time, r[0].time, r[j].time);
      }
    }
  }

  /** The sorted list is ordered by time. */
  lemma {:induction false} SortByTimeSorted(s: seq<Slot>)
    ensures SortedByTime(SortByTime(s))
  {
    if s != [] {
      SortByTimeSorted(s[1..]);
      InsertSorted(s[0], SortByTime(s[1..]));
    }
  }

  /** The entries of `s` at time `t`, in order. */
  function WithTime(s: seq<Slot>, t: string): seq<Slot> {
    if s == [] then [] else (if s[0].time == t then [s[0]] else []) + WithTime(s[1..], t)
  }

  lemma WithTimeCons(a: Slot, s: seq<Slot>, t: string)
    ensures WithTime([a] + s, t) == (if a.time == t then [a] else []) + WithTime(s, t)
  {
    assert ([a] + s)[1..] == s;
  }

  /** Two parts of which at least one is empty can be put in either order. */
  lemma SwapWithEmpty(a: seq<Slot>, b: seq<Slot>, w: seq<Slot>)
    requires a == [] || b == []
    ensures a + (b + w) == b + (a + w)
  {
    if a == [] {
      assert a + (b + w) == b + w && a + w == w;
    } else {
      assert b + (a + w) == a + w && b + w == w;
    }
  }

  lemma {:induction false} InsertWithTime(x: Slot, r: seq<Slot>, t: string)
    ensures WithTime(Insert(x, r), t) == (if x.time == t then [x] else []) + WithTime(r, t)
  {
    var xs := if x.time == t then [x] else [];
    if r != [] && LexLess(r[0].time, x.time) {
      var rest := Insert(x, r[1..]);
      var h := if r[0].time == t then [r[0]] else [];
      InsertWithTime(x, r[1..], t);
      WithTimeCons(r[0], rest, t);
      assert WithTime(r, t) == h + WithTime(r[1..], t);
      LexLessIrreflexive(x.time);
      SwapWithEmpty(h, xs, WithTime(r[1..], t));
    } else {
      WithTimeCons(x, r, t);
    }
  }

  /** The sort is stable: the entries sharing a time keep their relative order. */
  lemma {:induction false} SortByTimeStable(s: seq<Slot>, t: string)
    ensures WithTime(SortByTime(s), t) == WithTime(s, t)
  {
    if s != [] {
      SortByTimeStable(s[1..], t);
      InsertWithTime(s[0], SortByTime(s[1..]), t);
    }
  }

  /** `getUpcomingMedications()`: every untaken dose of every active
      medication, flagged overdue by `time < now`, sorted by time with ties
      in the order the loops met them. */
  method UpcomingMedications(meds: seq<Medication>, today: string, now: string) returns (upcoming: seq<Slot>)
    ensures upcoming == SortByTime(Pending(meds, today, now))
    ensures SortedByTime(upcoming)
    ensures multiset(upcoming) == multiset(Pending(meds, today, now))
    ensures forall s :: s in upcoming <==> IsUpcoming(s, meds, today, now)
    ensures forall t :: WithTime(upcoming, t) == WithTime(Pending(meds, today, now), t)
  {
    var collected: seq<Slot> := [];
    var i := 0;
    while i < |meds|
      invariant 0 <= i <= |meds|
      invariant collected == Pending(meds[..i], today, now)
    {
      var med := meds[i];
      assert meds[..i + 1][..i] == meds[..i];
      if med.active {
        var j := 0;
        while j < |med.times|
          invariant 0 <= j <= |med.times|
          invariant collected == Pending(meds[..i], today, now) + PendingOf(med, med.times[..j], today, now)
        {
          var time := med.times[j];
          var isTaken := Taken(med.taken, TakenKey(today, time));
          var isPast := LexLess(time, now);
          assert med.times[..j + 1][..j] == med.times[..j];
          if !isTaken {
            collected := collected + [Slot(med, time, isPast)];
          }
          j := j + 1;
        }
        assert med.times[..j] == med.times;
      }
      i := i + 1;
    }
    assert meds[..i] == meds;
    upcoming := SortByTime(collected);
    SortByTimeSorted(collected);
    PendingMembers(meds, today, now);
    forall s ensures s in upcoming <==> s in collected {
      assert s in upcoming <==> s in multiset(upcoming);
    }
    forall t ensures WithTime(upcoming, t) == WithTime(collected, t) {
      SortByTimeStable(collected, t);
    }
  }

  /** `upcomingMeds.slice(0, 3)`: the first three entries, or all when fewer. */
  function Shown(upcoming: seq<Slot>): (r: seq<Slot>)
    ensures |r| == if |upcoming| < 3 then |upcoming| else 3
    ensures r == upcoming[..|r|]
  {
    if |upcoming| < 3 then upcoming else upcoming[..3]
  }

  /** On a sorted list the shown entries are the earliest ones: none of the
      hidden entries comes before a shown one. */
  lemma ShownAreEarliest(upcoming: seq<Slot>)
    requires SortedByTime(upcoming)
    ensures forall i, j :: 0 <= i < |Shown(upcoming)| <= j < |upcoming| ==>
      !LexLess(upcoming[j].time, Shown(upcoming)[i].time)
  {
  }

  /** One notification of the reminder pass: medication and time. */
  datatype Dose = Dose(med: Medication, time: string)

  /** The taken-map key the reminder guard reads. As written (`perSlot` false)
      it is `today` itself; the key `toggleTaken` writes is the per-dose key
      (`perSlot` true). */
  function GuardKey(today: string, time: string, perSlot: bool): string {
    if perSlot then TakenKey(today, time) else today
  }

  /** The doses the inner loop of the reminder pass fires for `med` over `ts`. */
  function DueOf(med: Medication, ts: seq<string>, today: string, now: string, perSlot: bool): seq<Dose>
  {
    if ts == [] then []
    else
      var time := ts[|ts| - 1];
      DueOf(med, ts[..|ts| - 1], today, now, perSlot)
      + (if time == now && !Taken(med.taken, GuardKey(today, time, perSlot)) then [Dose(med, time)] else [])
  }

  /** The doses the reminder pass fires over `meds`, in loop order. */
  function DueWith(meds: seq<Medication>, today: string, now: string, perSlot: bool): seq<Dose>
  {
    if meds == [] then []
    else
      var med := meds[|meds| - 1];
      DueWith(meds[..|meds| - 1], today, now, perSlot)
      + (if med.active then DueOf(med, med.times, today, now, perSlot) else [])
  }

  lemma {:induction false} DueOfMembers(med: Medication, ts: seq<string>, today: string, now: string, perSlot: bool)
    ensures forall d :: d in DueOf(med, ts, today, now, perSlot) <==>
      d.med == med && d.time in ts && d.time == now && !Taken(med.taken, GuardKey(today, d.time, perSlot))
  {
    if ts != [] {
      DueOfMembers(med, ts[..|ts| - 1], today, now, perSlot);
      assert ts == ts[..|ts| - 1] + [ts[|ts| - 1]];
    }
  }

  /** A dose fires exactly when its medication is active, the time is one of
      its times and equals `now`, and the guard entry is not truthy. */
  lemma {:induction false} DueWithMembers(meds: seq<Medication>, today: string, now: string, perSlot: bool)
    ensures forall d :: d in DueWith(meds, today, now, perSlot) <==>
      && d.med in meds && d.med.active && d.time in d.med.times && d.time == now
      && !Taken(d.med.taken, GuardKey(today, d.time, perSlot))
  {
    if meds != [] {
      var med := meds[|meds| - 1];
      DueWithMembers(meds[..|meds| - 1], today, now, perSlot);
      DueOfMembers(med, med.times, today, now, perSlot);
      assert meds == meds[..|meds| - 1] + [med];
    }
  }

  /** The selection made by `checkReminders`: one notification per active
      medication and time equal to `now` whose guard entry `taken[today]`
      is not truthy. */
  method CheckReminders(meds: seq<Medication>, today: string, now: string) returns (due: seq<Dose>)
    ensures due == DueWith(meds, today, now, false)
    ensures forall d :: d in due <==>
      d.med in meds && d.med.active && d.time in d.med.times && d.time == now && !Taken(d.med.taken, today)
  {
    due := [];
    var i := 0;
    while i < |meds|
      invariant 0 <= i <= |meds|
      invariant due == DueWith(meds[..i], today, now, false)
    {
      var med := meds[i];
      assert meds[..i + 1][..i] == meds[..i];
      if med.active {
        var j := 0;
        while j < |med.times|
          invariant 0 <= j <= |med.times|
          invariant due == DueWith(meds[..i], today, now, false) + DueOf(med, med.times[..j], today, now, false)
        {
          var time := med.times[j];
          assert med.times[..j + 1][..j] == med.times[..j];
          if time == now && !Taken(med.taken, today) {
            due := due + [Dose(med, time)];
          }
          j := j + 1;
        }
        assert med.times[..j] == med.times;
      }
      i := i + 1;
    }
    assert meds[..i] == meds;
    DueWithMembers(meds, today, now, false);
  }

  /** Which medication (by id) and time each notification is for; the
      notification's tag `med.id + time` is built from this pair. */
  function DoseIds(ds: seq<Dose>): seq<(string, string)> {
    seq(|ds|, k requires 0 <= k < |ds| => (ds[k].med.id, ds[k].time))
  }

  lemma DoseIdsAppend(a: seq<Dose>, b: seq<Dose>)
    ensures DoseIds(a + b) == DoseIds(a) + DoseIds(b)
  {
  }

  /** Two medications that agree on id, times and the reminder guard fire
      notifications for the same ids and times. */
  lemma {:induction false} DueOfIdsAgree(m1: Medication, m2: Medication, ts: seq<string>, today: string, now: string)
    requires m1.id == m2.id && Taken(m1.taken, today) == Taken(m2.taken, today)
    ensures DoseIds(DueOf(m1, ts, today, now, false)) == DoseIds(DueOf(m2, ts, today, now, false))
  {
    if ts != [] {
      var time := ts[|ts| - 1];
      DueOfIdsAgree(m1, m2, ts[..|ts| - 1], today, now);
      var e1 := if time == now && !Taken(m1.taken, today) then [Dose(m1, time)] else [];
      var e2 := if time == now && !Taken(m2.taken, today) then [Dose(m2, time)] else [];
      DoseIdsAppend(DueOf(m1, ts[..|ts| - 1], today, now, false), e1);
      DoseIdsAppend(DueOf(m2, ts[..|ts| - 1], today, now, false), e2);
    }
  }

  lemma {:induction false} DueWithIdsAgree(ms1: seq<Medication>, ms2: seq<Medication>, today: string, now: string)
    requires |ms1| == |ms2|
    requires forall i :: 0 <= i < |ms1| ==>
      && ms1[i].id == ms2[i].id && ms1[i].active == ms2[i].active && ms1[i].times == ms2[i].times
      && Taken(ms1[i].taken, today) == Taken(ms2[i].taken, today)
    ensures DoseIds(DueWith(ms1, today, now, false)) == DoseIds(DueWith(ms2, today, now, false))
  {
    if ms1 != [] {
      var n := |ms1| - 1;
      var m1, m2 := ms1[n], ms2[n];
      DueWithIdsAgree(ms1[..n], ms2[..n], today, now);
      DueOfIdsAgree(m1, m2, m1.times, today, now);
      var e1 := if m1.active then DueOf(m1, m1.times, today, now, false) else [];
      var e2 := if m2.active then DueOf(m2, m2.times, today, now, false) else [];
      DoseIdsAppend(DueWith(ms1[..n], today, now, false), e1);
      DoseIdsAppend(DueWith(ms2[..n], today, now, false), e2);
    }
  }

  /** As written, marking a dose taken never silences its reminder: the guard
      reads `taken[today]`, which `toggleTaken` never writes, so after any
      toggle the reminder pass fires for the same medications and times. */
  lemma ToggleTakenNeverSilencesReminder(meds: seq<Medication>, medId: string, today: string, time: string, now: string)
    ensures DoseIds(DueWith(Toggled(meds, medId, today, time), today, now, false))
         == DoseIds(DueWith(meds, today, now, false))
  {
    var toggled := Toggled(meds, medId, today, time);
    TakenKeyIsNotDay(today, time);
    forall i | 0 <= i < |meds| ensures Taken(toggled[i].taken, today) == Taken(meds[i].taken, today) {
      if meds[i].id == medId {
        assert today in toggled[i].taken - {TakenKey(today, time)} <==> today in meds[i].taken - {TakenKey(today, time)};
      }
    }
    DueWithIdsAgree(toggled, meds, today, now);
  }

  /** A concrete instance: a dose at 08:00 marked taken leaves the upcoming
      list, yet at 08:00 the reminder pass still fires for it. */
  lemma ReminderAfterTakenExample()
    ensures
      var today := "Thu Oct 15 2026";
      var med := Medication("1", "Paracetamol", "500mg", ["08:00"], Colors[0], map[], true);
      var after := Toggled([med], "1", today, "08:00");
      && Taken(after[0].taken, TakenKey(today, "08:00"))
      && Pending(after, today, "08:00") == []
      && DueWith(after, today, "08:00", false) == [Dose(after[0], "08:00")]
  {
    var today := "Thu Oct 15 2026";
    var med := Medication("1", "Paracetamol", "500mg", ["08:00"], Colors[0], map[], true);
    var after := Toggled([med], "1", today, "08:00");
    assert after[0].times == ["08:00"] && after[0].active;
    TakenKeyIsNotDay(today, "08:00");
    assert !Taken(after[0].taken, today) by {
      assert today !in med.taken;
      assert today in after[0].taken - {TakenKey(today, "08:00")} <==> today in med.taken - {TakenKey(today, "08:00")};
    }
    assert after[..0] == [] && ["08:00"][..0] == [];
    assert PendingOf(after[0], ["08:00"], today, "08:00") == [];
    assert DueOf(after[0], ["08:00"], today, "08:00", false) == [Dose(after[0], "08:00")];
  }

  /** With the guard reading the per-dose key that `toggleTaken` writes, a
      dose that was due and is then marked taken no longer fires. */
  lemma ToggleTakenSilencesPerSlotReminder(meds: seq<Medication>, medId: string, today: string, now: string)
    requires forall m :: m in meds && m.id == medId ==> !Taken(m.taken, TakenKey(today, now))
    ensures forall d :: d in DueWith(Toggled(meds, medId, today, now), today, now, true) ==> d.med.id != medId
  {
    var toggled := Toggled(meds, medId, today, now);
    DueWithMembers(toggled, today, now, true);
    forall d | d in DueWith(toggled, today, now, true) ensures d.med.id != medId {
      var i :| 0 <= i < |toggled| && toggled[i] == d.med;
    }
  }
}
