/** The tracker component's state and its handlers. Each handler replaces
    some of the component's state fields with a new value, as the
    component's state setters do. */
module Tracker {
  import opened Medications

  class MedicationTracker {
    /** The registered medications, in the order they were added. */
    var medications: seq<Medication>
    var showAddForm: bool
    /** The add form's buffers. */
    var newMedName: string
    var newMedDosage: string
    var newMedTimes: seq<string>

    /** The component's initial state: no medications, a closed form with one
        empty time slot. */
    constructor ()
      ensures medications == [] && !showAddForm
      ensures newMedName == "" && newMedDosage == "" && newMedTimes == [""]
    {
      medications := [];
      showAddForm := false;
      newMedName := "";
      newMedDosage := "";
      newMedTimes := [""];
    }

    /** `addMedication`. `freshId` stands for `Date.now().toString()` and
        `colorPick` for the random index into `Colors`. Returns whether the
        record was added (success toast) or the form was rejected (error
        toast, nothing changes). */
    method AddMedication(freshId: string, colorPick: nat) returns (added: bool)
      requires colorPick < |Colors|
      modifies this
      ensures added <==> FormComplete(old(newMedName), old(newMedDosage), old(newMedTimes))
      ensures !added ==> unchanged(this)
      ensures added ==>
        && medications == old(medications) + [NewMedication(freshId, old(newMedName), old(newMedDosage), old(newMedTimes), Colors[colorPick])]
        && medications[|medications| - 1].times == old(newMedTimes)
        && medications[|medications| - 1].taken == map[]
        && medications[|medications| - 1].active
        && newMedName == "" && newMedDosage == "" && newMedTimes == [""]
        && !showAddForm
    {
      var name, dosage, times := newMedName, newMedDosage, newMedTimes;
      if !FormComplete(name, dosage, times) {
        return false;
      }
      NewMedicationFromForm(freshId, name, dosage, times, Colors[colorPick]);
      var newMed := NewMedication(freshId, name, dosage, times, Colors[colorPick]);
      medications := medications + [newMed];
      ResetForm();
      added := true;
    }

    /** The form reset after a successful add: empty buffers, one empty
        slot, the form closed. */
    method ResetForm()
      modifies this`newMedName, this`newMedDosage, this`newMedTimes, this`showAddForm
      ensures newMedName == "" && newMedDosage == "" && newMedTimes == [""] && !showAddForm
    {
      newMedName := "";
      newMedDosage := "";
      newMedTimes := [""];
      showAddForm := false;
    }

    /** `toggleTaken(medId, time)`, `today` being the day string of the
        displayed clock. */
    method ToggleTaken(medId: string, today: string, time: string)
      modifies this`medications
      ensures medications == Toggled(old(medications), medId, today, time)
    {
      medications := Toggled(medications, medId, today, time);
    }

    /** `deleteMedication(medId)`. */
    method DeleteMedication(medId: string)
      modifies this`medications
      ensures medications == WithoutId(old(medications), medId)
      ensures forall m :: m in medications <==> m in old(medications) && m.id != medId
    {
      medications := WithoutId(medications, medId);
    }

    /** `addTimeSlot`. */
    method AddTimeSlot()
      modifies this`newMedTimes
      ensures newMedTimes == old(newMedTimes) + [""]
    {
      newMedTimes := AppendSlot(newMedTimes);
    }

    /** `updateTimeSlot(index, value)`, called from the input rendered for
        slot `index`. */
    method UpdateTimeSlot(index: nat, value: string)
      requires index < |newMedTimes|
      modifies this`newMedTimes
      ensures newMedTimes == old(newMedTimes)[index := value]
    {
      newMedTimes := SetSlot(newMedTimes, index, value);
    }

    /** `removeTimeSlot(index)`. */
    method RemoveTimeSlot(index: int)
      modifies this`newMedTimes
      ensures newMedTimes == if 0 <= index < |old(newMedTimes)|
        then old(newMedTimes)[..index] + old(newMedTimes)[index + 1..]
        else old(newMedTimes)
    {
      DropSlotRemovesOne(newMedTimes, index);
      newMedTimes := DropSlot(newMedTimes, index);
    }
  }
}
