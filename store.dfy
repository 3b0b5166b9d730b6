/** The state-holding wrapper `useHistory`: one history triple, replaced
    by the reducer on every command, with the flags the editor reads. */
module HistoryHook {
  import opened History
  import opened HistoryCursor

  class HistoryStore {
    var state: State

    /** Every state the store can reach keeps equal values apart. */
    ghost predicate Valid()
      reads this
    {
      WellFormed(state)
    }

    /** A fresh store holds only its initial value, with nothing to undo or redo. */
    constructor (initial: string)
      ensures Valid()
      ensures state == Initial(initial)
      ensures !CanUndo() && !CanRedo()
    {
      state := Initial(initial);
      InitialWellFormed(initial);
    }

    /** The value the editor shows: the entry under the cursor. */
    function Value(): (v: string)
      reads this
      ensures v == Abs(state).entries[Abs(state).at]
    {
      state.present
    }

    /** There is an older entry to go back to. */
    function CanUndo(): (b: bool)
      reads this
      ensures b <==> Abs(state).at > 0
      ensures b <==> HistoryReducer(state, History.Undo) != state
    {
      |state.past| > 0
    }

    /** There is a newer entry to go forward to. */
    function CanRedo(): (b: bool)
      reads this
      ensures b <==> Abs(state).at + 1 < |Abs(state).entries|
      ensures b <==> HistoryReducer(state, History.Redo) != state
    {
      |state.future| > 0
    }

    method Set(newPresent: string)
      requires Valid()
      modifies this
      ensures Valid()
      ensures state == HistoryReducer(old(state), History.Set(newPresent))
      ensures Value() == newPresent
      ensures newPresent != old(Value()) ==> CanUndo() && !CanRedo()
    {
      ReducerKeepsWellFormed(state, History.Set(newPresent));
      state := HistoryReducer(state, History.Set(newPresent));
    }

    method Undo()
      requires Valid()
      modifies this
      ensures Valid()
      ensures state == HistoryReducer(old(state), History.Undo)
      ensures old(CanUndo()) ==> CanRedo()
    {
      ReducerKeepsWellFormed(state, History.Undo);
      state := HistoryReducer(state, History.Undo);
    }

    method Redo()
      requires Valid()
      modifies this
      ensures Valid()
      ensures state == HistoryReducer(old(state), History.Redo)
      ensures old(CanRedo()) ==> CanUndo()
    {
      ReducerKeepsWellFormed(state, History.Redo);
      state := HistoryReducer(state, History.Redo);
    }

    method Reset(initial: string)
      requires Valid()
      modifies this
      ensures Valid()
      ensures state == HistoryReducer(old(state), History.Reset(initial))
      ensures Value() == initial && !CanUndo() && !CanRedo()
    {
      ReducerKeepsWellFormed(state, History.Reset(initial));
      state := HistoryReducer(state, History.Reset(initial));
    }
  }
}
