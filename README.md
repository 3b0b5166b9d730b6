# Undo/redo history of the tone-picker text editor

This project models the undo/redo history behind the editor of the tone
picker (`hooks/useHistory.ts`). The history is a triple: `past` (oldest
first), `present` (the value shown) and `future` (nearest first). One pure
reducer, `historyReducer`, handles four commands: `UNDO`, `REDO`, `SET` and
`RESET`. The hook `useHistory` holds one such triple, starts it as
`([], initial, [])`, turns `set/undo/redo/reset` into reducer calls and
exposes `value`, `canUndo` and `canRedo`.

Files:

- `history.dfy`, module `History`: the `State` and `Action` datatypes, the
  reducer `HistoryReducer`, the timeline `past ++ [present] ++ future`, and
  lemmas about single steps, two-step round trips, and counterexamples showing
  why those round trips need their conditions.
- `cursor.dfy`, module `HistoryCursor`: an independent reference view of the
  history as a list of entries with a cursor on the current one. The module
  proves the reducer equal to a cursor step. It also proves that n undos,
  with n no larger than the size of past, followed by n redos restore the triple, and that no reachable history holds
  two equal values side by side.
- `store.dfy`, module `HistoryHook`: the hook as a class `HistoryStore` with a
  `state` field. Its methods assign `HistoryReducer(state, …)`, and its
  functions give `value`, `canUndo` and `canRedo`.

The `default: return state` branch of the reducer (`hooks/useHistory.ts:60-61`)
cannot be reached here, because `Action` is a closed datatype with exactly
the four commands. JavaScript's `===` on strings is modelled as equality of
`seq<char>`.

## Model

| member | source | states |
|---|---|---|
| History.Initial | hooks/useHistory.ts:78-82 | the initial triple holds the given value as present, with empty past and future |
| History.Timeline | hooks/useHistory.ts:5-9 | the timeline has one entry per stored value, with present at the index equal to the size of past |
| History.HistoryReducer | hooks/useHistory.ts:19-63 | UNDO/REDO keep the timeline and the combined size of past and future, and are no-ops on an empty past or future, otherwise moving one step; SET makes the new value present and clears future, is a no-op for the current value, and otherwise yields the timeline past ++ [present, v]; RESET yields ([], v, []) from any state |
| History.UndoStep | hooks/useHistory.ts:23-30 | undo on a non-empty past: new present is the last of past, new past drops it, new future is [old present] ++ future |
| History.RedoStep | hooks/useHistory.ts:34-41 | redo on a non-empty future: new present is future[0], new future is future[1..], new past is past ++ [old present] |
| History.SetStep | hooks/useHistory.ts:45-50 | SET of a different value yields exactly (past ++ [present], v, []), even when future was non-empty |
| History.UndoThenRedo | hooks/useHistory.ts:21-41 | undo on a non-empty past followed by redo restores the original triple |
| History.RedoThenUndo | hooks/useHistory.ts:21-41 | redo on a non-empty future followed by undo restores the original triple |
| History.SetThenUndo | hooks/useHistory.ts:24-50 | SET of a different value followed by UNDO restores past and present and leaves future == [v] |
| History.UndoThenRedoNeedsPast | hooks/useHistory.ts:23-41 | from ([], "", ["x"]) undo does nothing and redo then yields ([""], "x", []), so the undo-redo round trip needs a non-empty past |
| History.SetSameThenUndo | hooks/useHistory.ts:23-45 | with a non-empty past, SET of the current value is a no-op, so a following UNDO steps back one entry, bringing back the last past value and putting the current value on the front of future |
| History.Walkthrough | hooks/useHistory.ts:19-63 | "" then set "hello", set "hello world", undo, undo, redo passes through ([""], "hello", ["hello world"]), ([], "", ["hello", "hello world"]), ([""], "hello", ["hello world"]) |
| HistoryCursor.Abs | hooks/useHistory.ts:5-9 | every triple is a valid cursor whose current entry is present and whose position is the size of past |
| HistoryCursor.Concretize | hooks/useHistory.ts:5-9 | every valid cursor is a triple with that timeline, that present and the size of past equal to the position |
| HistoryCursor.AbsConcretize | hooks/useHistory.ts:5-9 | the triple view and the cursor view are inverse to each other |
| HistoryCursor.AbsInjective | hooks/useHistory.ts:5-9 | two triples with the same cursor view are the same triple |
| HistoryCursor.Step | hooks/useHistory.ts:19-63 | the reference semantics (move the cursor, cut and append, start over) always yields a valid cursor |
| HistoryCursor.ReducerRefinesStep | hooks/useHistory.ts:19-63 | for every state and command, the reducer's result is exactly the cursor step applied to the state's cursor view |
| HistoryCursor.UndoRepeated | hooks/useHistory.ts:21-31 | n undos keep the timeline and move the cursor back n steps, stopping at the oldest entry |
| HistoryCursor.RedoRepeated | hooks/useHistory.ts:32-42 | n redos keep the timeline and move the cursor forward n steps, stopping at the newest entry |
| HistoryCursor.UndoManyThenRedoMany | hooks/useHistory.ts:21-42 | n undos with n no larger than the size of past followed by n redos restore the triple exactly |
| HistoryCursor.ReducerKeepsWellFormed | hooks/useHistory.ts:45-50 | no command puts two equal values next to each other in the timeline, because SET of the current value is a no-op |
| HistoryCursor.ReachableWellFormed | hooks/useHistory.ts:19-63 | any sequence of commands keeps the timeline free of adjacent repeats |
| HistoryCursor.InitialWellFormed | hooks/useHistory.ts:78-82 | the initial triple is free of adjacent repeats |
| HistoryHook.HistoryStore.constructor | hooks/useHistory.ts:76-82 | a new store holds ([], initial, []) with canUndo and canRedo both false |
| HistoryHook.HistoryStore.Value | hooks/useHistory.ts:123 | value is the entry under the cursor |
| HistoryHook.HistoryStore.CanUndo | hooks/useHistory.ts:128 | canUndo holds iff the cursor is past the first entry, iff UNDO would change the state |
| HistoryHook.HistoryStore.CanRedo | hooks/useHistory.ts:129 | canRedo holds iff the cursor is before the last entry, iff REDO would change the state |
| HistoryHook.HistoryStore.Set | hooks/useHistory.ts:115-117 | the state becomes the reducer's result for SET; value is the new value; a real change enables undo and disables redo |
| HistoryHook.HistoryStore.Undo | hooks/useHistory.ts:118 | the state becomes the reducer's result for UNDO; if undo was possible, redo becomes possible |
| HistoryHook.HistoryStore.Redo | hooks/useHistory.ts:119 | the state becomes the reducer's result for REDO; if redo was possible, undo becomes possible |
| HistoryHook.HistoryStore.Reset | hooks/useHistory.ts:120 | the state becomes ([], initial, []); value is initial and neither undo nor redo is possible |

## Left out

- The module-load clear of the storage key (`hooks/useHistory.ts:67-73`) is browser I/O, so it is not modelled.
- The load effect (`hooks/useHistory.ts:85-100`) is left out. It is browser storage plus `JSON.parse` and a shape check, and it finds nothing on the first mount after a page load, because the key is cleared at module load. When a valid payload is found, the effect dispatches `RESET(parsed.present)`, which discards the saved past and future; `HistoryHook.HistoryStore.Reset` covers that dispatch.
- The save-on-change effect (`hooks/useHistory.ts:102-112`) is left out. It writes the triple to browser storage and does not change the state.
- React machinery is not modelled: `useReducer`, `useEffect`, `useCallback` and re-render scheduling. The store applies each command at once, in call order.
- The reducer's `default` branch (`hooks/useHistory.ts:60-61`) is not modelled, because `Action` has only the four commands.
- Strings are modelled as `seq<char>`, whose elements are Unicode scalar values, so a JavaScript string holding a lone UTF-16 surrogate has no counterpart in the model.
- The rest of the repository is out of scope: the tone-change HTTP route, the page component, the tone grid and the loading skeleton.
