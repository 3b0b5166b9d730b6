/** An independent view of the history: a list of entries with a cursor on the
    current one. Undo and redo move the cursor; a set cuts the entries after the
    cursor and appends; a reset starts a new list. The reducer is proved to be
    this view in disguise. */
module HistoryCursor {
  import opened History

  datatype Cursor = Cursor(entries: seq<string>, at: nat)

  predicate ValidCursor(c: Cursor) {
    c.at < |c.entries|
  }

  /** The cursor view of a history triple. */
  function Abs(s: State): (c: Cursor)
    ensures ValidCursor(c)
    ensures c.entries[c.at] == s.present
    ensures c.at == |s.past|
  {
    Cursor(Timeline(s), |s.past|)
  }

  /** The history triple a cursor stands for. */
  function Concretize(c: Cursor): (s: State)
    requires ValidCursor(c)
    ensures s.present == c.entries[c.at]
    ensures |s.past| == c.at
    ensures Timeline(s) == c.entries
  {
    assert c.entries[..c.at] + [c.entries[c.at]] + c.entries[c.at + 1..] == c.entries;
    State(c.entries[..c.at], c.entries[c.at], c.entries[c.at + 1..])
  }

  /** Abs and Concretize are inverse to each other. */
  lemma {:induction false} AbsConcretize(s: State, c: Cursor)
    requires ValidCursor(c)
    ensures Concretize(Abs(s)) == s
    ensures Abs(Concretize(c)) == c
  {
    var t := Timeline(s);
    assert t[..|s.past|] == s.past;
    assert t[|s.past| + 1..] == s.future;
  }

  /** Two triples with the same cursor view are equal. */
  lemma {:induction false} AbsInjective(s: State, s': State)
    requires Abs(s) == Abs(s')
    ensures s == s'
  {
    AbsConcretize(s, Abs(s));
    AbsConcretize(s', Abs(s));
  }

  /** The reference semantics of the four commands on the cursor view. */
  function Step(c: Cursor, a: Action): (r: Cursor)
    requires ValidCursor(c)
    ensures ValidCursor(r)
  {
    match a
    case Undo => if c.at == 0 then c else Cursor(c.entries, c.at - 1)
    case Redo => if c.at + 1 == |c.entries| then c else Cursor(c.entries, c.at + 1)
    case Set(v) => if v == c.entries[c.at] then c else Cursor(c.entries[..c.at + 1] + [v], c.at + 1)
    case Reset(v) => Cursor([v], 0)
  }

  /** The reducer commutes with the cursor view: reducing a triple is stepping its cursor. */
  lemma {:induction false} ReducerRefinesStep(s: State, a: Action)
    ensures Abs(HistoryReducer(s, a)) == Step(Abs(s), a)
    ensures HistoryReducer(s, a) == Concretize(Step(Abs(s), a))
  {
    var t := Timeline(s);
    match a {
      case Set(v) =>
        if v != s.present {
          assert t[..|s.past| + 1] == s.past + [s.present];
        }
      case _ =>
    }
    AbsConcretize(HistoryReducer(s, a), Step(Abs(s), a));
  }

  /** The same command applied n times. */
  function Repeat(s: State, a: Action, n: nat): (r: State)
    decreases n
  {
    if n == 0 then s else Repeat(HistoryReducer(s, a), a, n - 1)
  }

  /** n undos move the cursor n steps back, stopping at the oldest entry. */
  lemma {:induction false} UndoRepeated(s: State, n: nat)
    ensures Abs(Repeat(s, Undo, n)) == Cursor(Timeline(s), if n <= |s.past| then |s.past| - n else 0)
    decreases n
  {
    if n > 0 {
      UndoRepeated(HistoryReducer(s, Undo), n - 1);
    }
  }

  /** n redos move the cursor n steps forward, stopping at the newest entry. */
  lemma {:induction false} RedoRepeated(s: State, n: nat)
    ensures Abs(Repeat(s, Redo, n)) ==
            Cursor(Timeline(s), if n <= |s.future| then |s.past| + n else |s.past| + |s.future|)
    decreases n
  {
    if n > 0 {
      RedoRepeated(HistoryReducer(s, Redo), n - 1);
    }
  }

  /** Undoing n steps that are available and then redoing n steps restores the triple exactly. */
  lemma {:induction false} UndoManyThenRedoMany(s: State, n: nat)
    requires n <= |s.past|
    ensures Repeat(Repeat(s, Undo, n), Redo, n) == s
  {
    var u := Repeat(s, Undo, n);
    UndoRepeated(s, n);
    assert |u.future| == |s.future| + n;
    RedoRepeated(u, n);
    AbsInjective(Repeat(u, Redo, n), s);
  }

  /** No value in the sequence sits next to an equal one. */
  predicate NoAdjacentRepeats(t: seq<string>) {
    forall i :: 0 < i < |t| ==> t[i - 1] != t[i]
  }

  /** The history never holds a value directly next to an equal one, because a
      set of the current value is a no-op. */
  predicate WellFormed(s: State) {
    NoAdjacentRepeats(Timeline(s))
  }

  lemma {:induction false} ReducerKeepsWellFormed(s: State, a: Action)
    requires WellFormed(s)
    ensures WellFormed(HistoryReducer(s, a))
  {
    match a
    case Set(v) =>
      if v != s.present {
        var t := Timeline(s);
        var t' := Timeline(HistoryReducer(s, a));
        assert t'[..|s.past| + 1] == t[..|s.past| + 1];
        forall i | 0 < i < |t'| ensures t'[i - 1] != t'[i] {
          if i < |s.past| + 1 {
            assert t'[i - 1] == t[i - 1] && t'[i] == t[i];
          }
        }
      }
    case _ =>
  }

  /** The commands applied one after another, oldest first. */
  function Run(s: State, actions: seq<Action>): (r: State)
    decreases |actions|
  {
    if actions == [] then s else Run(HistoryReducer(s, actions[0]), actions[1..])
  }

  /** Well-formedness survives any sequence of commands, so (with InitialWellFormed)
      every state reachable from a fresh store is well formed. */
  lemma {:induction false} ReachableWellFormed(s: State, actions: seq<Action>)
    requires WellFormed(s)
    ensures WellFormed(Run(s, actions))
    decreases |actions|
  {
    if actions != [] {
      ReducerKeepsWellFormed(s, actions[0]);
      ReachableWellFormed(HistoryReducer(s, actions[0]), actions[1..]);
    }
  }

  lemma InitialWellFormed(v: string)
    ensures WellFormed(Initial(v))
  {
  }
}
