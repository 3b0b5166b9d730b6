/** The undo/redo history of the text editor: a linear, single-branch history
    over one string value, driven by a pure reducer over four commands. */
module History {

  /** The history triple. `past` is oldest first, `future` is nearest first. */
  datatype State = State(past: seq<string>, present: string, future: seq<string>)

  /** The four commands the reducer understands. */
  datatype Action =
    | Undo
    | Redo
    | Set(newPresent: string)
    | Reset(initial: string)

  /** The state the hook starts in, and the one `Reset` produces. */
  function Initial(value: string): (s: State)
    ensures s.present == value
    ensures |s.past| == 0 && |s.future| == 0
  {
    State([], value, [])
  }

  /** Every value the history currently holds, oldest first: what undo and redo walk along. */
  function Timeline(s: State): (t: seq<string>)
    ensures |t| == |s.past| + 1 + |s.future|
    ensures t[|s.past|] == s.present
  {
    s.past + [s.present] + s.future
  }

  /** The reducer `historyReducer` of hooks/useHistory.ts: one pure step per command. */
  function HistoryReducer(s: State, a: Action): (r: State)
    // Undo and redo only move along the timeline; they never add or drop a value.
    ensures a.Undo? || a.Redo? ==> Timeline(r) == Timeline(s)
    ensures a.Undo? || a.Redo? ==> |r.past| + |r.future| == |s.past| + |s.future|
    // Undo moves one step back when it can, and otherwise does nothing.
    ensures a.Undo? ==> (if |s.past| == 0 then r == s else |r.past| + 1 == |s.past|)
    // Redo moves one step forward when it can, and otherwise does nothing.
    ensures a.Redo? ==> (if |s.future| == 0 then r == s else |r.past| == |s.past| + 1)
    // A set always ends with an empty redo branch and the new value current;
    // setting the current value changes nothing at all.
    ensures a.Set? ==> r.future == [] || r == s
    ensures a.Set? ==> r.present == a.newPresent
    ensures a.Set? && a.newPresent == s.present ==> r == s
    ensures a.Set? && a.newPresent != s.present ==> Timeline(r) == s.past + [s.present, a.newPresent]
    // A reset discards all history.
    ensures a.Reset? ==> r == Initial(a.initial)
  {
    match a
    case Undo =>
      if |s.past| == 0 then s
      else
        var previous := s.past[|s.past| - 1];
        State(s.past[..|s.past| - 1], previous, [s.present] + s.future)
    case Redo =>
      if |s.future| == 0 then s
      else
        var next := s.future[0];
        State(s.past + [s.present], next, s.future[1..])
    case Set(v) =>
      if v == s.present then s
      else State(s.past + [s.present], v, [])
    case Reset(v) =>
      State([], v, [])
  }

  /** Undo on a non-empty past: the last past value becomes current and the old
      current value is the nearest redo entry. */
  lemma UndoStep(s: State)
    requires |s.past| > 0
    ensures HistoryReducer(s, Undo).present == s.past[|s.past| - 1]
    ensures HistoryReducer(s, Undo).past == s.past[..|s.past| - 1]
    ensures HistoryReducer(s, Undo).future == [s.present] + s.future
  {
  }

  /** Redo on a non-empty future: the nearest redo entry becomes current and the
      old current value is the newest past value. */
  lemma RedoStep(s: State)
    requires |s.future| > 0
    ensures HistoryReducer(s, Redo).present == s.future[0]
    ensures HistoryReducer(s, Redo).future == s.future[1..]
    ensures HistoryReducer(s, Redo).past == s.past + [s.present]
  {
  }

  /** Set with a new value pushes the old current value and clears the redo branch,
      even when that branch was non-empty. */
  lemma SetStep(s: State, v: string)
    requires v != s.present
    ensures HistoryReducer(s, Set(v)) == State(s.past + [s.present], v, [])
  {
  }

  /** Undo on a non-empty past followed by redo restores the triple exactly. */
  lemma {:induction false} UndoThenRedo(s: State)
    requires |s.past| > 0
    ensures HistoryReducer(HistoryReducer(s, Undo), Redo) == s
  {
    var u := HistoryReducer(s, Undo);
    UndoStep(s);
    RedoStep(u);
    assert u.past + [u.present] == s.past;
  }

  /** Redo directly followed by undo restores the state. */
  lemma {:induction false} RedoThenUndo(s: State)
    requires |s.future| > 0
    ensures HistoryReducer(HistoryReducer(s, Redo), Undo) == s
  {
    var r := HistoryReducer(s, Redo);
    RedoStep(s);
    UndoStep(r);
    assert [r.present] + r.future == s.future;
  }

  /** Setting a new value and undoing it brings back the previous value and past,
      and leaves the new value as the only redo entry. */
  lemma {:induction false} SetThenUndo(s: State, v: string)
    requires v != s.present
    ensures HistoryReducer(HistoryReducer(s, Set(v)), Undo) == State(s.past, s.present, [v])
  {
    SetStep(s, v);
    var t := HistoryReducer(s, Set(v));
    UndoStep(t);
    assert t.past[..|t.past| - 1] == s.past;
  }

  /** Undo then redo is not a round trip when the past is empty: the undo does
      nothing, and the redo then moves forward. A fresh store, SET "x", UNDO
      reaches this state. */
  lemma UndoThenRedoNeedsPast()
    ensures var s := State([], "", ["x"]);
            HistoryReducer(HistoryReducer(s, Undo), Redo) == State([""], "x", []) &&
            HistoryReducer(HistoryReducer(s, Undo), Redo) != s
  {
  }

  /** Set of the current value followed by undo is not the round trip of
      SetThenUndo: the set does nothing, so the undo steps back past the
      current value instead. */
  lemma SetSameThenUndo(s: State)
    requires |s.past| > 0
    ensures HistoryReducer(HistoryReducer(s, Set(s.present)), Undo) == HistoryReducer(s, Undo)
    ensures HistoryReducer(HistoryReducer(s, Set(s.present)), Undo).present == s.past[|s.past| - 1]
    ensures HistoryReducer(HistoryReducer(s, Set(s.present)), Undo).future == [s.present] + s.future
  {
  }

  /** An editing session: "" -> set "hello" -> set "hello world" -> undo -> undo -> redo. */
  lemma Walkthrough()
    ensures var s1 := HistoryReducer(Initial(""), Set("hello"));
            var s2 := HistoryReducer(s1, Set("hello world"));
            var s3 := HistoryReducer(s2, Undo);
            var s4 := HistoryReducer(s3, Undo);
            var s5 := HistoryReducer(s4, Redo);
            s3 == State([""], "hello", ["hello world"]) &&
            s4 == State([], "", ["hello", "hello world"]) &&
            s5 == State([""], "hello", ["hello world"])
  {
    var s1 := HistoryReducer(Initial(""), Set("hello"));
    assert s1 == State([""], "hello", []);
    var s2 := HistoryReducer(s1, Set("hello world"));
    assert s2 == State(["", "hello"], "hello world", []);
  }
}
