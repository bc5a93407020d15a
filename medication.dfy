/** The medication record and the pure list and map transformations the
    tracker's handlers build their new state from. */
module Medications {
  import opened JsStrings

  /** One registered medication. `taken` maps a `<day>-<HH:MM>` key to
      whether that dose was marked taken; it only ever grows. */
  datatype Medication = Medication(
    id: string,
    name: string,
    dosage: string,
    times: seq<string>,
    color: string,
    taken: map<string, bool>,
    active: bool)

  /** The colour tags a new medication is given one of. */
  const Colors: seq<string> := [
    "from-blue-500 to-cyan-500",
    "from-purple-500 to-pink-500",
    "from-emerald-500 to-teal-500",
    "from-orange-500 to-red-500",
    "from-indigo-500 to-blue-500",
    "from-pink-500 to-rose-500"
  ]

  /** The taken-map key of the dose at `time` on `today`: `${today}-${time}`. */
  function TakenKey(today: string, time: string): string {
    today + "-" + time
  }

  /** For one day, different times give different keys. */
  lemma TakenKeyInjective(today: string, t1: string, t2: string)
    requires TakenKey(today, t1) == TakenKey(today, t2)
    ensures t1 == t2
  {
    assert t1 == TakenKey(today, t1)[|today| + 1..];
  }

  /** A dose key is never the bare day string. */
  lemma TakenKeyIsNotDay(today: string, time: string)
    ensures TakenKey(today, time) != today
  {
    assert |TakenKey(today, time)| == |today| + 1 + |time|;
  }

  /** JavaScript truthiness of `taken[key]`: an absent key reads as `undefined`. */
  predicate Taken(taken: map<string, bool>, key: string) {
    key in taken && taken[key]
  }

  /** `{ ...med, taken: { ...med.taken, [key]: !med.taken[key] } }`: only the
      entry at `key` changes, and afterwards it is present. */
  function ToggleDose(med: Medication, key: string): (r: Medication)
    ensures r == med.(taken := r.taken)
    ensures key in r.taken && Taken(r.taken, key) == !Taken(med.taken, key)
    ensures r.taken - {key} == med.taken - {key}
  {
    med.(taken := med.taken[key := !Taken(med.taken, key)])
  }

  /** The list `toggleTaken(medId, time)` installs: every medication whose id
      is `medId` has its dose at `time` today toggled; the list keeps its
      length and order and every other medication is the same value. */
  function Toggled(meds: seq<Medication>, medId: string, today: string, time: string): (r: seq<Medication>)
    ensures |r| == |meds|
    ensures forall i :: 0 <= i < |meds| && meds[i].id != medId ==> r[i] == meds[i]
    ensures forall i :: 0 <= i < |meds| && meds[i].id == medId ==>
      var key := TakenKey(today, time);
      && r[i] == meds[i].(taken := r[i].taken)
      && key in r[i].taken && Taken(r[i].taken, key) == !Taken(meds[i].taken, key)
      && r[i].taken - {key} == meds[i].taken - {key}
  {
    seq(|meds|, i requires 0 <= i < |meds| =>
      if meds[i].id == medId then ToggleDose(meds[i], TakenKey(today, time)) else meds[i])
  }

  /** Toggling the same dose twice restores whether it is taken; the entry
      is then present even if it was absent before (absent comes back as
      `false`). */
  lemma ToggleTwiceRestores(meds: seq<Medication>, medId: string, today: string, time: string)
    ensures
      var key := TakenKey(today, time);
      var r := Toggled(Toggled(meds, medId, today, time), medId, today, time);
      && |r| == |meds|
      && forall i :: 0 <= i < |meds| ==>
        if meds[i].id == medId then r[i] == meds[i].(taken := meds[i].taken[key := Taken(meds[i].taken, key)])
        else r[i] == meds[i]
  {
    var key := TakenKey(today, time);
    var once := Toggled(meds, medId, today, time);
    var r := Toggled(once, medId, today, time);
    forall i | 0 <= i < |meds| && meds[i].id == medId
      ensures r[i] == meds[i].(taken := meds[i].taken[key := Taken(meds[i].taken, key)])
    {
      var want := meds[i].taken[key := Taken(meds[i].taken, key)];
      assert r[i].taken - {key} == want - {key};
      assert r[i].taken.Keys == want.Keys;
      assert r[i].taken == want;
    }
  }

  /** `medications.filter(med => med.id !== medId)`. */
  function WithoutId(meds: seq<Medication>, medId: string): (r: seq<Medication>)
    ensures |r| <= |meds|
    ensures forall m :: m in r <==> m in meds && m.id != medId
  {
    if meds == [] then []
    else (if meds[0].id == medId then [] else [meds[0]]) + WithoutId(meds[1..], medId)
  }

  /** Deleting keeps the relative order: it acts on each part of a list
      separately. */
  lemma {:induction false} WithoutIdAppend(a: seq<Medication>, b: seq<Medication>, medId: string)
    ensures WithoutId(a + b, medId) == WithoutId(a, medId) + WithoutId(b, medId)
  {
    if a != [] {
      assert (a + b)[1..] == a[1..] + b;
      WithoutIdAppend(a[1..], b, medId);
    } else {
      assert a + b == b;
    }
  }

  /** A list without the id is left as it is: deleting twice is deleting once,
      and deleting an unknown id changes nothing. */
  lemma {:induction false} WithoutIdUnchanged(meds: seq<Medication>, medId: string)
    requires forall m :: m in meds ==> m.id != medId
    ensures WithoutId(meds, medId) == meds
  {
    if meds != [] {
      WithoutIdUnchanged(meds[1..], medId);
      assert meds == [meds[0]] + meds[1..];
    }
  }

  lemma WithoutIdIdempotent(meds: seq<Medication>, medId: string)
    ensures WithoutId(WithoutId(meds, medId), medId) == WithoutId(meds, medId)
  {
    WithoutIdUnchanged(WithoutId(meds, medId), medId);
  }

  /** The add form's validation: `name.trim()` and `dosage.trim()` are
      non-empty and no time slot is the empty string. */
  predicate FormComplete(name: string, dosage: string, times: seq<string>) {
    Trim(name) != "" && Trim(dosage) != "" && "" !in times
  }

  /** The form is accepted exactly when name and dosage each hold a
      non-whitespace character and every slot is filled. */
  lemma FormCompleteIff(name: string, dosage: string, times: seq<string>)
    ensures FormComplete(name, dosage, times) <==>
      !Blank(name) && !Blank(dosage) && forall i :: 0 <= i < |times| ==> times[i] != ""
  {
    TrimEmptyIffBlank(name);
    TrimEmptyIffBlank(dosage);
  }

  /** `times.filter(t => t)`: the filled slots, in order. */
  function FilledTimes(times: seq<string>): (r: seq<string>)
    ensures |r| <= |times|
    ensures forall t :: t in r <==> t in times && t != ""
  {
    if times == [] then []
    else (if times[0] == "" then [] else [times[0]]) + FilledTimes(times[1..])
  }

  /** Once every slot is filled the filter keeps them all. */
  lemma {:induction false} FilledTimesKeepsFilled(times: seq<string>)
    requires "" !in times
    ensures FilledTimes(times) == times
  {
    if times != [] {
      FilledTimesKeepsFilled(times[1..]);
      assert times == [times[0]] + times[1..];
    }
  }

  /** The record `addMedication` appends. */
  function NewMedication(id: string, name: string, dosage: string, times: seq<string>, color: string): Medication {
    Medication(id, name, dosage, FilledTimes(times), color, map[], true)
  }

  /** A medication created from an accepted form has exactly the form's
      times, nothing taken and is active. */
  lemma NewMedicationFromForm(id: string, name: string, dosage: string, times: seq<string>, color: string)
    requires FormComplete(name, dosage, times)
    ensures
      var m := NewMedication(id, name, dosage, times, color);
      m.id == id && m.name == name && m.dosage == dosage && m.times == times
      && m.color == color && m.taken == map[] && m.active
  {
    FilledTimesKeepsFilled(times);
  }

  /** `[...newMedTimes, ""]`. */
  function AppendSlot(times: seq<string>): (r: seq<string>)
    ensures |r| == |times| + 1 && r[|times|] == "" && r[..|times|] == times
  {
    times + [""]
  }

  /** `updated[index] = value` on a copy of the slots. */
  function SetSlot(times: seq<string>, index: nat, value: string): (r: seq<string>)
    requires index < |times|
    ensures |r| == |times| && r[index] == value
    ensures forall j :: 0 <= j < |times| && j != index ==> r[j] == times[j]
  {
    times[index := value]
  }

  /** `newMedTimes.filter((_, i) => i !== index)`. */
  function DropSlot(times: seq<string>, index: int): seq<string>
    decreases |times|
  {
    if times == [] then []
    else (if index == 0 then [] else [times[0]]) + DropSlot(times[1..], index - 1)
  }

  /** An index outside the list removes nothing. */
  lemma {:induction false} DropSlotMisses(times: seq<string>, index: int)
    requires !(0 <= index < |times|)
    ensures DropSlot(times, index) == times
  {
    if times != [] {
      DropSlotMisses(times[1..], index - 1);
      assert DropSlot(times, index) == [times[0]] + DropSlot(times[1..], index - 1);
      assert times == [times[0]] + times[1..];
    }
  }

  /** An index inside the list removes exactly that slot, keeping the others
      in order. */
  lemma {:induction false} DropSlotAt(times: seq<string>, index: int)
    requires 0 <= index < |times|
    ensures DropSlot(times, index) == times[..index] + times[index + 1..]
  {
    var rest := DropSlot(times[1..], index - 1);
    if index == 0 {
      DropSlotMisses(times[1..], -1);
      assert DropSlot(times, 0) == [] + rest;
    } else {
      DropSlotAt(times[1..], index - 1);
      assert DropSlot(times, index) == [times[0]] + rest;
      assert times[..index] == [times[0]] + times[1..][..index - 1];
      assert times[index + 1..] == times[1..][index..];
    }
  }

  /** Removing a slot removes exactly the slot at `index`; an index outside
      the list removes nothing. */
  lemma DropSlotRemovesOne(times: seq<string>, index: int)
    ensures DropSlot(times, index) == if 0 <= index < |times| then times[..index] + times[index + 1..] else times
  {
    if 0 <= index < |times| {
      DropSlotAt(times, index);
    } else {
      DropSlotMisses(times, index);
    }
  }
}
