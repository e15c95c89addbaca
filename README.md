# Smart dashboard: the game engines and the widget store

A model of the logic inside the `SmartDashboard` class of `script.js`. The
dashboard is a browser page of widgets. It keeps them in a JavaScript `Map`
and saves that map to local storage. Four widgets run small games or tools,
each keeping a plain record that button handlers and interval or timeout
callbacks change in place:

- **Pomodoro timer** (`pomodoro.dfy`, module `Pomodoro`): a work/break cycle
  with start, pause, toggle, reset and switch, a one-second tick that rolls
  over into the other mode, duration settings, and the `MM:SS` display.
- **Memory match** (`memory_match.dfy`, module `MemoryMatch`): twelve cards
  holding six fish symbols twice each. Flips go two at a time. An equal pair
  is matched at once; an unequal pair is turned back by a delayed callback.
- **Whack-a-fish** (`whack_a_fish.dfy`, module `WhackAFish`): six holes and a
  thirty-second countdown that shows a fish every second. A catch scores ten
  points. Two delayed callbacks hide an uncaught fish and clear a caught one.
- **Treasure hunt** (`treasure_grid.dfy` and `treasure_hunt.dfy`, modules
  `TreasureGrid` and `TreasureHunt`): a 5×5 minesweeper-style grid with five
  treasures and five bombs. It covers neighbour counting, digging, flagging,
  the first-move bomb relocation and the recursive flood fill.
- **Widget store and notes** (`widget_store.dfy`, module `WidgetStore`): adding,
  removing and reconfiguring widgets, the drag-and-drop reorder, snapshot
  export and import, and the notes list of a notes widget.

Shared string operations are in `text.dfy` (module `Text`): decimal
rendering, `padStart(2, '0')`, and `trim` with the ECMAScript white-space set.
`wrappers.dfy` holds an `Option` type.

How the source's mechanisms appear in the model:

- Game records become classes. Their fields are the record's fields, and a
  grid, deck or row of holes becomes an `array`.
- Each `setInterval`/`setTimeout` callback becomes a method that is called
  when the callback fires.
- Every `Math.random()` draw is a parameter whose precondition is the exit
  condition of the source's rejection loop.
- Each `getXData` lazy default becomes a constructor. `restartX` discards the
  record and builds a fresh one, which is that same constructor again.
- For memory match and the widget store, each operation is also a function
  on an immutable state value (`FlipStep`, `AddWidgetStep`, …). The class
  method promises to end exactly in that state, and the lemmas state what
  the function means.

Points where the code and its description differ; the model follows the code:

- `digTreasure` is defined twice in the class body (script.js:933 and
  script.js:1102). The later definition is the one that runs. It has no flag
  check, no first-move protection and no flood fill. A first dig can
  therefore hit a bomb and lose (`TreasureHunt.TreasureHuntGame.Dig`). The
  promise that the first dig never loses holds only for the earlier
  definition, modelled as `DigShadowed`. Its helpers `moveBomb` and
  `revealEmptyCells` are only called from there.
- The flood fill of the earlier dig opens treasure cells without counting
  them. Those treasures can then never be found, so only
  `foundTreasures <= |dug treasures|` holds there. Under the live dig the
  count is exact (`Counted`).
- Saving timer settings changes both durations but not the time on the
  clock. The time left can therefore exceed the current mode's duration.
- `saveLayout` drops every widget whose id is missing from the grid's list.
- A widget is filed under the `id` field of its record. `addWidget` overwrites
  an existing widget when the counter names a taken key. That can happen
  after importing a snapshot whose counter lags behind its ids, or a
  snapshot without a counter.

## Model

| member | source | states |
|---|---|---|
| Text.NatToString | script.js:1602 | the decimal rendering of a count has at least one character, only digits, and exactly one digit below 10 |
| Text.ParseNatToString | script.js:1602 | reading the rendered digits back gives the number |
| Text.IntToStringInjective | script.js:55 | two different counter values render as different strings |
| Text.PadStart2 | script.js:1602 | `padStart(2, '0')` yields length max(2, n), ends with the input and is zeros before it |
| Text.IntToString | script.js:55 | the rendering of a counter is non-empty and starts with `-` exactly when the counter is negative; `IntToStringInjective` adds that it is one-to-one |
| Text.TrimIsSlice | script.js:540 | `trim` keeps one contiguous slice of the input, and only white space lies before and after it |
| Text.Trim | script.js:540 | `trim` never lengthens the text and the result does not end in white space; `TrimIsSlice`, `TrimEnds` and `TrimEmptyIff` state the rest |
| Text.TrimEnds | script.js:540 | non-empty trimmed text neither starts nor ends with white space |
| Text.TrimEmptyIff | script.js:540-541 | the trimmed text is empty exactly when the input is all white space |
| Pomodoro.Flip | script.js:515 | switching always gives the other mode |
| Pomodoro.Timer.constructor | script.js:443-456 | a fresh timer is in work mode, not running, with 1500 s on the clock, work 1500 s and break 300 s |
| Pomodoro.Timer.Start | script.js:479-481 | the timer runs; mode, clock and durations are unchanged |
| Pomodoro.Timer.Pause | script.js:494-502 | the timer stops; mode, clock and durations are unchanged |
| Pomodoro.Timer.Toggle | script.js:467-477 | the running state flips and nothing else changes |
| Pomodoro.Timer.Reset | script.js:504-509 | the timer stops, the mode stays, and the clock shows the mode's full duration |
| Pomodoro.Timer.SwitchMode | script.js:511-519 | the timer stops, the mode flips, and the clock shows the new mode's full duration |
| Pomodoro.Timer.Complete | script.js:521-536 | at the end of a period the mode flips, the clock is loaded with the new mode's duration and the timer runs again |
| Pomodoro.Timer.Tick | script.js:483-491 | a tick above one second takes one second off; the tick that reaches zero flips the mode and reloads the clock; the clock stays positive and the timer keeps running |
| Pomodoro.Timer.ApplySettings | script.js:1377-1378 | the durations become minutes × 60; mode, running state and clock are kept |
| Pomodoro.FormatTimeRoundTrip | script.js:1599-1603 | reading the `MM:SS` display back gives the seconds passed in |
| Pomodoro.FormatTime | script.js:1599-1603 | the display is at least five characters long; `FormatTimeRoundTrip` and `FormatTimeLength` state what it means |
| Pomodoro.FormatTimeLength | script.js:1599-1603 | the display is exactly five characters long when, and only when, the time is below 100 minutes |
| Pomodoro.ParsePadded | script.js:1602 | zero padding keeps the value of a digit string |
| MemoryMatch.ShuffleHoldsPairs | script.js:778-779 | any order of the deck has twelve cards and each symbol exactly twice |
| MemoryMatch.Deal | script.js:777-788 | the dealt board satisfies the board invariant: all cards face down and unmatched in the shuffled order, no card waiting, zero moves and pairs, not won |
| MemoryMatch.FlipStep | script.js:793-844 | a click keeps the record well formed, never lowers the moves or pairs, and schedules the turn-back only with two cards waiting and a move counted; `FlipIgnored`, `FlipCounters`, `FlipSecondCard` and `FlipKeepsBoard` state the rest |
| MemoryMatch.ResolveStep | script.js:832-838 | the turn-back empties the waiting list and keeps moves, pairs and the won flag; `ResolveOnlyUnflipsPair` and `ResolveKeepsBoard` state the rest |
| MemoryMatch.FlipIgnored | script.js:795-802 | a flip changes nothing and schedules nothing exactly when the game is won, the card is up or matched, or two cards wait |
| MemoryMatch.FlipFirstKeepsBoard | script.js:805-806 | turning up the first card of a pair keeps the board invariant |
| MemoryMatch.FlipMatchKeepsBoard | script.js:815-828 | an equal pair is matched, one pair is counted, the list clears, and the invariant holds with at most six pairs |
| MemoryMatch.FlipMismatchKeepsBoard | script.js:809-840 | an unequal pair stays up and waiting, a move is counted, and the invariant holds |
| MemoryMatch.FlipKeepsBoard | script.js:793-844 | every flip keeps the board invariant: symbols fixed, at most two distinct waiting cards, up exactly when matched or waiting, two matched cards per pair, won exactly at six pairs |
| MemoryMatch.FlipCounters | script.js:805-811 | a move is counted exactly when the list reaches two; the list never exceeds two; pairs never decrease; matched cards stay matched and up; symbols never change |
| MemoryMatch.FlipSecondCard | script.js:809-840 | on the second card, equal symbols match both cards, add a pair and clear the list, and the game is won exactly at six pairs; different symbols leave both up, waiting, with the turn-back scheduled |
| MemoryMatch.ResolveKeepsBoard | script.js:832-838 | the delayed turn-back keeps the board invariant |
| MemoryMatch.ResolveOnlyUnflipsPair | script.js:832-838 | the turn-back turns down exactly the two waiting cards, empties the list and changes nothing else |
| MemoryMatch.WonIffAllMatched | script.js:824-827 | the game is won exactly when all twelve cards are matched; there are never more than six pairs |
| MemoryMatch.MemoryGame.constructor | script.js:775-790 | a new game is the dealt board of the given shuffle |
| MemoryMatch.MemoryGame.Flip | script.js:793-844 | a click leaves the record in the state `FlipStep` gives and reports whether the turn-back was scheduled; the invariant is kept |
| MemoryMatch.MemoryGame.TurnFirst | script.js:805-806 | the first card of a pair goes up and waits |
| MemoryMatch.MemoryGame.TurnMatching | script.js:809-828 | the second card of an equal pair matches both |
| MemoryMatch.MemoryGame.TurnMismatching | script.js:809-840 | the second card of an unequal pair stays up and the turn-back is due |
| MemoryMatch.MemoryGame.ResolveMismatch | script.js:832-838 | the turn-back callback leaves the record in the state `ResolveStep` gives, keeping the invariant |
| WhackAFish.WhackGame.constructor | script.js:690-709 | a new game has score 0, 30 seconds, not over, and six hidden, uncaught holes of the drawn kinds |
| WhackAFish.WhackGame.Tick | script.js:715-740 | a tick takes one second off, ends the game exactly at zero, shows the drawn hole's fish uncaught and changes no other hole and not the score |
| WhackAFish.WhackGame.HideIfUncaught | script.js:730-736 | the hide callback hides the hole only when its fish shows and is uncaught; other holes are unchanged |
| WhackAFish.WhackGame.Whack | script.js:743-763 | a click scores exactly when the game runs and the fish shows uncaught; the score rises by 10 and the fish is caught; otherwise nothing changes; the score stays a multiple of 10 |
| WhackAFish.WhackGame.ClearCatch | script.js:753-758 | the clear callback hides the hole and resets its catch; other holes are unchanged |
| WhackAFish.WhackTwice | script.js:743-751 | a caught fish cannot score again until it is cleared |
| TreasureGrid.ScanStep | script.js:914-922 | the scan offset (r, c) names, at step (r+1)·3+(c+1), the one in-bounds neighbour at that offset |
| TreasureGrid.CountAdjacentBombs | script.js:908-931 | the count is the number of in-bounds neighbours, the cell itself excluded, that hold a bomb, and is at most 8 |
| TreasureGrid.AdjacentCountSameBombs | script.js:908-931 | the neighbour count depends only on where the bombs are |
| TreasureGrid.RefreshCounts | script.js:887-892 | every bomb-free cell gets its fresh count; nothing else changes |
| TreasureGrid.MoveBomb | script.js:979-996 | the bomb leaves its cell for the drawn free cell; treasures, digs and flags are unchanged; all counts are fresh |
| TreasureGrid.RevealEmptyCells | script.js:999-1022 | the flood fill terminates and only digs undug, bomb-free, unflagged cells; the block around the start and around every newly opened zero cell is opened; every newly dug cell lies in the block of the start or of a newly dug zero cell reached from the start through a chain of such cells (`Confined`), so the fill stops at cells with a non-zero count |
| TreasureGrid.ConfinedWithoutZeros | script.js:1015-1017 | when no newly dug cell has a zero count, the fill opened nothing outside the block around its start |
| TreasureGrid.RevealBombs | script.js:966-968 | every bomb cell is dug and no other cell changes |
| TreasureGrid.FlagCell | script.js:1028-1035 | an undug cell's flag toggles while the game runs; otherwise the grid is unchanged; other cells never change |
| TreasureGrid.FlagTwice | script.js:1025-1036 | flagging a cell twice restores the grid |
| TreasureHunt.PlacedLayout | script.js:869-885 | ten distinct drawn positions give exactly five treasure cells and five bomb cells, never both on one cell, none dug |
| TreasureHunt.SameItemsKeepLayout | script.js:1031-1032 | changing only dug and flag flags keeps the layout and the counts fresh |
| TreasureHunt.DigKeepsHunt | script.js:1109-1129 | digging one undug cell keeps the game invariant; a treasure adds one, the fifth wins, a bomb ends the game |
| TreasureHunt.MoveKeepsHunt | script.js:979-996 | moving a bomb to a free cell keeps five bombs apart from the treasures and the game invariant |
| TreasureHunt.RevealBombsKeepsHunt | script.js:962-968 | opening every bomb after a loss keeps the game invariant |
| TreasureHunt.FloodKeepsHunt | script.js:969-972 | the flood fill keeps the game invariant |
| TreasureHunt.TreasureHuntGame.constructor | script.js:853-905 | a new game has exactly the drawn treasures and bombs, fresh counts, nothing dug or flagged, no treasure found, not over, first move pending |
| TreasureHunt.TreasureHuntGame.Dig | script.js:1102-1133 | ignored once over or on a dug cell; otherwise only that cell is dug, a treasure adds one, the game is won exactly at five, over exactly when won or a bomb is hit; every dug treasure stays counted |
| TreasureHunt.TreasureHuntGame.Flag | script.js:1025-1036 | the grid becomes `FlagCell` of the old grid, and the invariant holds |
| TreasureHunt.TreasureHuntGame.DigShadowed | script.js:933-976 | ignored once over or on a dug or flagged cell; the first dig never loses; a treasure adds one; a loss opens every bomb; an empty cell with no neighbouring bombs opens its block |
| TreasureHunt.TreasureHuntGame.Open | script.js:951-972 | the cell is dug and its content decides: a treasure is counted and no other cell changes; a bomb ends the game, opens every bomb and changes nothing else; an empty cell is dug and afterwards only bomb-free, unflagged cells are newly dug, the whole block when its count is zero, and nothing outside the region reached from it through zero cells |
| TreasureHunt.TreasureHuntGame.OpenTreasure | script.js:953-961 | only the cell's dug flag changes; a treasure adds one, and the game ends only as a win |
| TreasureHunt.TreasureHuntGame.OpenBomb | script.js:962-968 | a bomb ends the game unwon; exactly the bomb cells become dug and every other field of every cell stays |
| TreasureHunt.TreasureHuntGame.OpenSafe | script.js:969-972 | an empty cell is dug, the game goes on, besides it only bomb-free, unflagged undug cells are dug and nothing else changes, and a zero cell opens its block; every cell dug besides it is reached from it through zero cells |
| TreasureHunt.TreasureHuntGame.ShowBombs | script.js:966-968 | after a loss exactly the bomb cells become dug; flags, counts and contents of every cell stay |
| TreasureHunt.TreasureHuntGame.Flood | script.js:971 | the flood fill digs only safe cells, keeps the invariant, opens the block, and digs nothing outside the region reached from the cell through zero cells |
| WidgetStore.Put | script.js:63 | `Map.set` stores the record under the key |
| WidgetStore.PutKeepsValid | script.js:63 | `Map.set` puts a new key last, leaves an existing key in place, and keeps each key listed once |
| WidgetStore.Without | script.js:72 | removing a key from the key order leaves exactly the other keys |
| WidgetStore.WithoutKeepsOrder | script.js:72 | removing a key filters the key order: the other keys stay in the order they had |
| WidgetStore.Delete | script.js:72 | `Map.delete` removes exactly that key |
| WidgetStore.DeleteKeepsValid | script.js:72 | deleting keeps each key listed once and the order in step with the records |
| WidgetStore.WidgetKey | script.js:55 | new ids are `widget-` followed by the counter |
| WidgetStore.AddWidgetStep | script.js:54-66 | `addWidget` on the store value raises the counter by one and adds exactly the counter's key; `AddWidgetEffect` and `AddWidgetFresh` state the rest |
| WidgetStore.WidgetKeyInjective | script.js:55 | different counter values give different ids |
| WidgetStore.AddWidgetEffect | script.js:54-63 | `addWidget` files a record with the old counter's id, the given type and config and null data; a new id goes last; the counter rises by exactly one |
| WidgetStore.AddWidgetFresh | script.js:54-63 | while the counter is ahead of every id, an added widget is new, goes last, grows the store by one, and the counter stays ahead |
| WidgetStore.RemoveWidgetEffect | script.js:71-76 | `removeWidget` deletes exactly that widget, keeps the other widgets in their order and keeps the counter; an unknown id changes nothing |
| WidgetStore.RemoveWidgetStep | script.js:71-76 | `removeWidget` on the store value keeps the counter and removes exactly that key; `RemoveWidgetEffect` and `RemoveUndoesAdd` state the rest |
| WidgetStore.RemoveUndoesAdd | script.js:54-76 | removing the widget just added restores the store's widgets and order |
| WidgetStore.Merge | script.js:81 | `{...config, ...newConfig}` has the keys of both, and the new value wins on a shared key |
| WidgetStore.MergeIdempotent | script.js:81 | merging the same settings again changes nothing |
| WidgetStore.MergeCompose | script.js:81 | two merges in a row equal one merge with the merged settings |
| WidgetStore.MergeEmpty | script.js:81 | merging no settings changes nothing |
| WidgetStore.UpdateConfigEffect | script.js:78-85 | only the named widget's config changes, to the right-biased merge; an unknown id changes nothing |
| WidgetStore.UpdateConfigStep | script.js:78-85 | `updateWidgetConfig` on the store value keeps the counter, the order and the set of ids; `UpdateConfigEffect` and `UpdateConfigIdempotent` state the rest |
| WidgetStore.UpdateConfigIdempotent | script.js:78-85 | saving the same settings twice equals saving them once |
| WidgetStore.Known | script.js:1451-1455 | the listed ids that exist, in list order |
| WidgetStore.Arrange | script.js:1450-1457 | the rebuilt map only holds ids the old one had, each with its old record; `ArrangeSpec`, `ArrangeOrder` and `ArrangePermutation` state the rest |
| WidgetStore.ArrangeSpec | script.js:1445-1459 | the rebuilt map holds exactly the listed ids that exist, each with its record unchanged |
| WidgetStore.ArrangeOrder | script.js:1445-1459 | with no repeated ids, the rebuilt order is the existing listed ids in list order |
| WidgetStore.ArrangePermutation | script.js:1445-1459 | when the grid lists every widget once, a layout save only reorders |
| WidgetStore.SaveLayoutEffect | script.js:1445-1459 | a layout save keeps the store well formed and the counter, and keeps exactly the listed existing widgets |
| WidgetStore.SaveLayoutStep | script.js:1445-1459 | `saveLayout` on the store value keeps the counter and never adds an id; `SaveLayoutEffect` states the rest |
| WidgetStore.Values | script.js:1525 | the exported list has one record per key, in key order |
| WidgetStore.Export | script.js:1463-1467 | the exported snapshot lists the records in the map's order, one per key, and carries the counter |
| WidgetStore.Load | script.js:1509-1511 | the record set last for an id is the one kept under it; `LoadValid` and `LoadValues` state the rest |
| WidgetStore.ImportedCounter | script.js:1507 | the imported counter is the snapshot's when that is present and non-zero, and exactly 1 otherwise |
| WidgetStore.ImportStep | script.js:1505-1511 | an import never leaves the counter at zero; `LoadValid` and `ExportImportRoundTrip` state the rest |
| WidgetStore.LoadValid | script.js:1509-1511 | whatever the snapshot lists, the imported store is well formed and holds exactly the snapshot's ids |
| WidgetStore.LoadValues | script.js:1509-1511 | importing the records of a well-formed store rebuilds its keys, order and records |
| WidgetStore.ExportImportRoundTrip | script.js:1505-1511 | importing an exported or saved snapshot restores the store, unless its counter was zero |
| WidgetStore.WithNotesEffect | script.js:549 | setting one widget's notes changes only that property |
| WidgetStore.NotesDataSpec | script.js:458-464 | for a known widget the notes returned are truthy and are what the widget holds afterwards, with the same list items |
| WidgetStore.NotesDataStep | script.js:458-464 | `getNotesData` keeps the counter, the order and the set of ids; `NotesDataSpec` states the rest |
| WidgetStore.AddNoteStep | script.js:539-553 | `addNote` keeps the counter, the order and the set of ids, and leaves the input either as it was or empty; `AddNoteIgnoresBlank` and `AddNotePrepends` state the rest |
| WidgetStore.AddNoteIgnoresBlank | script.js:540-541 | white-space-only text stores nothing and leaves the input as it was |
| WidgetStore.AddNotePrepends | script.js:539-553 | a note with text goes to the front of the list, trimmed, and the input is emptied; nothing else changes |
| WidgetStore.SpliceOne | script.js:1261 | `splice(index, 1)` removes one entry when the list is non-empty and the index is below its length |
| WidgetStore.SpliceOneInRange | script.js:1261 | an in-range index removes exactly that entry and keeps the rest in order |
| WidgetStore.RemoveNoteEffect | script.js:1258-1265 | `removeNote` splices the widget's notes list and removes exactly the given in-range index |
| WidgetStore.RemoveNoteStep | script.js:1258-1265 | `removeNote` keeps the counter, the order and the set of ids; `RemoveNoteEffect` and `RemoveNoteUndoesAdd` state the rest |
| WidgetStore.RemoveNoteUndoesAdd | script.js:1258-1265 | deleting note 0 right after adding a note to a list restores the store |
| WidgetStore.Dashboard.constructor | script.js:2-4 | a new dashboard has no widgets and the counter at 1 |
| WidgetStore.Dashboard.AddWidget | script.js:54-69 | the store ends in the `AddWidgetStep` state and stays well formed |
| WidgetStore.Dashboard.RemoveWidget | script.js:71-76 | the store ends in the `RemoveWidgetStep` state and stays well formed |
| WidgetStore.Dashboard.UpdateWidgetConfig | script.js:78-85 | the store ends in the `UpdateConfigStep` state and stays well formed |
| WidgetStore.Dashboard.SaveLayout | script.js:1445-1459 | the loop rebuilds the map as `Arrange` of the listed ids |
| WidgetStore.Dashboard.ApplyImportedConfig | script.js:1505-1511 | the loop replaces the store with the snapshot's records, each under its id, and the imported counter |
| WidgetStore.Dashboard.NotesData | script.js:458-464 | ends in the `NotesDataStep` state and returns its notes |
| WidgetStore.Dashboard.AddNote | script.js:539-553 | ends in the `AddNoteStep` state and returns the input's new value |
| WidgetStore.Dashboard.RemoveNote | script.js:1258-1265 | ends in the `RemoveNoteStep` state |

## Left out

- Rendering (`render*`, `createWidgetElement`, `getWidgetContent`, `renderWidget`), modals and notifications are left out. They are DOM output with no state of the model in them.
- Drag-and-drop geometry (`setupDragAndDrop`, `getDragAfterElement`) is left out. It depends on DOM events and floating-point boxes. Only the resulting id list given to `saveLayout` is modelled.
- The network fetchers (`fetchWeatherData`, `fetchCurrencyData`, `fetchQuoteData`), and the `await` on them in `loadWidgetData` for weather, currency and quote widgets, are left out because they are foreign I/O.
- WidgetStore.ImportStep: a snapshot whose `widgets` field is missing or null makes `applyImportedConfig` clear the store and set the counter (script.js:1506-1507) and then throw at script.js:1509, leaving the store empty. The model's snapshot always carries a list, so that outcome is not modelled.
- `loadWidgetData` (script.js:1186-1222) runs after every add, update and import, and it is not chained onto `AddWidget`, `UpdateWidgetConfig` or `ApplyImportedConfig`. For timer, notes, whack-a-fish, memory-match and treasure-hunt widgets it has no `await`, so its whole body runs at once:
  - it sets `data` to null;
  - it calls the widget's `getXData`, which creates `config.timerData`, `config.notes`, `config.whackData`, `config.memoryData` or `config.treasureHuntData` when it is missing; `getWhackAFishData` also starts the game interval at once (script.js:690-709);
  - it stores the returned record in `data` (script.js:1222), so `exportConfig` writes that record out;
  - an exception instead leaves an error object in `data`.

  In the model, a widget's `data` field keeps the value it was given (null after `AddWidget`, the snapshot's value after `ApplyImportedConfig`) and never receives the record. The notes default is `WidgetStore.Dashboard.NotesData`. The lazily created game records are stood in for by the separate game objects (`Pomodoro.Timer`, `WhackAFish.WhackGame`, `MemoryMatch.MemoryGame`, `TreasureHunt.TreasureHuntGame`) and their constructors.
- Local storage, JSON text, `Blob` and `FileReader` are left out. A saved or exported configuration is the abstract `Snapshot` of records and counter. `exportDate` is left out. A snapshot that fails to parse, lists non-record widgets or has a non-numeric counter is not modelled. `loadFromStorage` runs the same loop as the import on an empty store, so it is not modelled separately.
- Interval and timeout handles are left out. So are the interval that keeps running after `removeWidget`, and callbacks that fire after a restart on a replaced record. Each callback is a method called when it fires, so the 1000 ms, 1500 ms and 500 ms delays are not modelled.
- Randomness quality is left out: the non-uniform `sort(() => Math.random() - 0.5)` shuffle, and whether the rejection loops terminate. The chosen order, positions, hole and fish kinds are parameters.
- Game records live inside widget configurations (`timerData`, `memoryData`, `whackData`, `treasureHuntData`). The model keeps them as separate objects. `startTime` and `lastUpdate` come from the clock and are left out.
- The browser `Notification` in `timerComplete` is left out because it is a foreign call.
- TreasureHunt.TreasureHuntGame.Dig: `attemptsLeft` is never initialised, so the decrement gives NaN and the out-of-moves branch never fires in a session; the model has no such field. After a save and reload NaN is stored as `null`, and the branch could end the game on the next safe dig. Persistence is not modelled, so that case is left out.
- TreasureHunt.TreasureHuntGame.DigShadowed: the cell's state after the flood fill is stated as an expanded block and a game invariant in which found treasures are at most the dug ones, not as one exact final grid.
- Pomodoro.Timer.ApplySettings: the minutes are assumed to lie in the ranges the settings form accepts (1–60 for work, 1–30 for break, script.js:1341-1347). A `NaN` from `parseInt` is not modelled.
- WidgetStore.Dashboard.NotesData: an unknown widget makes the source throw, while the model returns `None` with nothing changed. `addNote` and `removeNote` on an unknown widget, and a truthy notes property that is not a list, also throw in the source before changing anything. The model leaves the store as it was.
- JavaScript numbers are doubles. Counters, scores and seconds are modelled as unbounded integers, since none of them comes near 2^53.
