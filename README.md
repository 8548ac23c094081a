# Scrolling-map game engine: verified model of the movement core

This project models the game-state logic of `js/game.js`, a tile-grid exploration game. The player walks over a map of cell characters. Arrow keys set a direction. A timer tick moves the player one cell when that cell is walkable. Action cells on the map either hand out gold once or send the player to another level.

Modules:

- `LevelIndex` (`level.dfy`): the parsed level and the three lookups that `initMap` derives from it once per load. These are `walkableIndex` (the walkable cell characters), `pathGraph` (a 0/1 copy of the map) and `actionIndex` (the coordinates of the action cells, a set of integer pairs here instead of `"x-y"` strings). The module also holds `isWalkable`. Each lookup is built by a loop method proved equal to a recursive specification function.
- `Input` (`input.dfy`): the keydown and keyup handlers. They work on the held-key list `keysCurrentlyDown` and on the two deltas. `Array.indexOf` and `splice(start, 1)` are written out with their JavaScript semantics.
- `Animation` (`animation.dfy`): the image choice of `updateWalkAnimation`.
- `Rules` (`rules.dfy`): the whole game state as one value (`World`). There is one function per event: `Load`, `KeyDown`, `KeyUp`, `Tick` (with `Attempt` and `Arrive`) and `ProcessActionCell`. `Load` places the player with the corrected `StartPosition` described under Findings, not with `StartPositionAsWritten`. The lemmas state what the game promises about them. The invariant `Valid` covers the controls and the indexes.
- `Engine` (`engine.dfy`): the game object as a class whose fields the handlers update in place. `LoadLevel`, `KeyDown`, `KeyUp`, `Tick`, `Attempt`, `Arrive` and `ProcessActionCell` are each proved to change the fields exactly as the matching `Rules` function says (`Rules.Load` for `LoadLevel`, the function of the same name for the others). `ProcessEntry`, one pass of the `processActionCell` loop, is proved equal to `Rules.ProcessSlot`. The constructor establishes `Valid`, and those seven methods keep it. `UpdateWalkAnimation` has no `Rules` counterpart: its contract sets the image to `Animation.ChooseFacing` of the deltas.

The level file's `map` is called `grid` here, because `map` is a Dafny keyword.

Behaviour kept as `js/game.js` has it:

- A start coordinate of 0 counts as "not given". The player is moved only when both coordinates are truthy.
- A keyup of a key that is not held drops the last held key. `indexOf` gives -1, and `splice(-1, 1)` removes the last element. This also happens for keys that are not arrows.
- A tick with both deltas zero does no action lookup.
- A moving tick looks up actions at the requested cell, whether or not the step was committed.
- A collected item's entry is overwritten with an empty entry, but its coordinates stay in `actionIndex`; a later arrival at that cell runs the loop and finds nothing to collect.
- Every action entry at the cell fires, in list order.
- A requested cell on a row outside the map makes `isWalkable` throw (`map[y]` is undefined). That tick then ends after the image update: the player does not move and no action is looked up.
- A cell past the end of its row, or at a negative column, reads the empty string and is not walkable.

Other behaviour of `js/game.js`:

- `pathGraph` is built and never read.
- The last arrow key pressed sets its axis delta. Releasing it falls back to the opposite key if that key is still held.
- The game has two states, `init` and `play`. A new-level action sets `state` to `'init'` directly, and the load it schedules sets it back to `'play'`.

## Model

| member | source | states |
|---|---|---|
| LevelIndex.WalkableChars | js/game.js:108-113 | a character is in walkableIndex exactly when some cell type with that character is walkable; the index is no longer than cellTypes |
| LevelIndex.WalkableCharsAppend | js/game.js:108-113 | the index keeps cellTypes order: the index of two lists one after the other is the first list's index followed by the second's |
| LevelIndex.BuildWalkableIndex | js/game.js:108-113 | the push loop builds exactly WalkableChars(cellTypes) |
| LevelIndex.PathRow | js/game.js:118-125 | a path-graph row is as long as its map row and holds 1 exactly where the map character is in walkableIndex, 0 elsewhere |
| LevelIndex.PathGraphOf | js/game.js:116-127 | the path graph has one row per map row, each being PathRow of that map row |
| LevelIndex.BuildPathGraph | js/game.js:116-127 | the nested push loops build exactly PathGraphOf(map, walkableIndex) |
| LevelIndex.ActionKeys | js/game.js:132-135 | a coordinate pair is in actionIndex exactly when some non-empty action entry has those coordinates |
| LevelIndex.BuildActionIndex | js/game.js:132-135 | the push loop builds exactly ActionKeys(actionCells) |
| LevelIndex.IsWalkable | js/game.js:252-254 | throws (None) exactly when the row is off the map; walkable exactly when the row and column are inside the map and the character there is in walkableIndex |
| LevelIndex.IsWalkableMatchesPathGraph | js/game.js:252-254 | on a map row, isWalkable(x, y) holds exactly when x is inside the row and pathGraph[y][x] == 1; past the end of the row it is false |
| LevelIndex.IsWalkableByCellType | js/game.js:252-254 | with the index built from the level, a cell is walkable exactly when it is inside its row and some walkable cell type has its character |
| Input.IndexOf | js/game.js:225 | indexOf gives -1 exactly when the key is absent, and otherwise the position of its first occurrence |
| Input.SpliceOne | js/game.js:225 | splice(start, 1) removes one element when start is inside the list, counting a negative start back from the end (start -1 drops the last element), and removes nothing from an empty list or at a start past the end |
| Input.Press | js/game.js:203-218 | keydown of an arrow key makes it held, sets its own axis to its unit value and keeps the other axis; the held keys afterwards are those before plus that key; any other key changes nothing |
| Input.PressEffect | js/game.js:203-218 | keydown of an arrow key makes it held exactly once, adds no other key, keeps the list duplicate-free, sets that key's axis to its unit value and leaves the other axis; any other key changes nothing |
| Input.ReleaseHeldKey | js/game.js:225 | releasing a held key removes that key and only that key, and shortens the list by one |
| Input.ReleaseAbsentKeyDropsLast | js/game.js:225 | releasing a key that is not held removes the last held key |
| Input.Release | js/game.js:222-247 | a held key leaves the held list exactly once (multiset difference); a key not held drops the last held key; after a keyup of an arrow key, its axis delta is the opposite key's unit value if that key is still held and 0 otherwise, and the other axis is unchanged; other keys change no delta |
| Input.ReleaseHeldFallsBackToOpposite | js/game.js:226-246 | when the released key was held, the fallback depends only on whether the opposite key was held before |
| Input.HandlersKeepWellFormed | js/game.js:203-247 | both handlers keep the held list duplicate-free and arrow-only, and both deltas within -1..1 |
| Animation.ChooseFacing | js/game.js:264-276 | horizontal precedence: left exactly when xDelta < 0, right exactly when xDelta > 0, up or down only when xDelta == 0, stand exactly when both deltas are 0 |
| Rules.Initial | js/game.js:5-34 | the starting state is in init, with no gold and no held keys, and satisfies the invariant |
| Rules.Valid | js/game.js:108-135 | the invariant (well-formed controls, indexes derived from the level, every uncollected action entry's coordinates in actionIndex) implies that the tick's lookup finds every uncollected action entry |
| Rules.StartPositionAsWritten | js/game.js:47-87 | as written: with both coordinates omitted the default -1 makes the player go to (-1, -1); two truthy given coordinates are taken; any other result is either the current position or a pair of truthy coordinates |
| Rules.OmittedStartLeavesMap | js/game.js:47-87 | as written, a new-level action without start coordinates puts the player at (-1, -1), which lies on no map row |
| Rules.StartPosition | js/game.js:84-87 | the player moves only to the given coordinates, only when both are given and truthy, and a missing or zero coordinate keeps the current position |
| Rules.StartPositionAgreesWhenGiven | js/game.js:84-87 | when both coordinates are given, the corrected start position is the one the code computes |
| Rules.Load | js/game.js:47-157 | a load ends in play with the new level's map and action cells, establishes the invariant from well-formed controls, keeps gold, image and controls, and moves the player only to given start coordinates (corrected placement, see Left out) |
| Rules.LoadEffect | js/game.js:47-157 | a load ends in play with indexes describing the new level, moves the player only as StartPosition says, and keeps gold, image, deltas and held keys |
| Rules.KeyDown | js/game.js:203-218 | keydown does nothing outside play, changes only held keys and deltas, and in play makes a pressed arrow key held |
| Rules.KeyUp | js/game.js:222-247 | keyup does nothing outside play, changes only held keys and deltas, and in play leaves the released key not held when the list had no duplicates |
| Rules.KeyEventsEffect | js/game.js:203-247 | key events do nothing unless the game is in play, change only the held keys and the deltas, and keep the invariant |
| Rules.ProcessSlot | js/game.js:286-311 | an entry at another cell changes nothing; a matching entry changes only itself, never moves the player, only appends to the scheduled loads, and changes the state only to init, together with appending exactly one load |
| Rules.ProcessActionCell | js/game.js:284-314 | the loop keeps the number of action entries and leaves play only when it schedules a load |
| Rules.ProcessPrefix | js/game.js:285-313 | the loop over action entries keeps the list length, never touches an entry before its turn, and leaves play only when it has scheduled a load |
| Rules.ProcessPrefixEffect | js/game.js:284-314 | after n entries, gold is raised by the gold items among them, those items are emptied, and the state is reset exactly when a new-level entry was among them |
| Rules.ActionEffect | js/game.js:284-314 | processActionCell adds the gold of the items at the cell, empties those entries, schedules the loads of the new-level entries in order, and resets state, deltas and keys exactly when there is one |
| Rules.NoGoldAfterCollect | js/game.js:301 | after collection, no gold item is left at the cell |
| Rules.GoldCollectedOnce | js/game.js:297-307 | the first arrival adds the items' gold, a second arrival adds nothing, and actionIndex still holds the coordinates |
| Rules.ItemPickup | js/game.js:297-301 | arriving at the only entry at a cell, an item with addGold g, raises gold by exactly g, replaces that entry with an empty one, and changes and schedules nothing else |
| Rules.NewLevelTransition | js/game.js:287-296 | a new-level entry at the cell sets the state to init, zeroes both deltas, empties the held keys and schedules a load of its target |
| Rules.NewLevelThenLoad | js/game.js:287-294 | a new-level entry followed by the load it schedules ends in play with zero deltas, no held keys and unchanged gold, and the player at the start coordinates only when both are truthy |
| Rules.ActionKeepsPlace | js/game.js:284-314 | processing an action cell never moves the player or changes the map and its indexes; it keeps state and controls or resets them for a level change |
| Rules.ActionKeepsValid | js/game.js:284-314 | processing an action cell keeps the invariant |
| Rules.Tick | js/game.js:317-352 | a tick outside play changes nothing and schedules nothing |
| Rules.TickLeavesPlayOnlyByLoad | js/game.js:317-352 | a tick changes the game state only to init, and only when it schedules a level load |
| Rules.Attempt | js/game.js:322-350 | with both deltas zero, or with the requested row off the map (isWalkable throws), the rest of the tick changes nothing and schedules nothing |
| Rules.Arrive | js/game.js:348-350 | a requested cell whose coordinates are not in actionIndex triggers nothing |
| Rules.TickMovement | js/game.js:322-345 | in play the player moves exactly when a delta is non-zero and the requested cell is walkable, and then by exactly the deltas; the image follows the deltas |
| Rules.TickDispatch | js/game.js:325-350 | a moving tick processes the action entries at the requested cell whether or not it moved; a tick with zero deltas, or with its requested row off the map, processes none |
| Rules.ArriveKeepsValid | js/game.js:348-350 | the action lookup at the requested cell keeps the invariant |
| Rules.AttemptKeepsValid | js/game.js:325-350 | the step and action lookup of a tick keep the invariant |
| Rules.TickKeepsValid | js/game.js:317-352 | every tick keeps the invariant |
| Rules.BlockedStepRepeated | js/game.js:331-345 | with no key events in between, a blocked step leaves the position unchanged however many ticks run |
| Engine.Game.constructor | js/game.js:5-34 | the new game object is the initial state |
| Engine.Game.LoadLevel | js/game.js:47-157 | the fields after the load are Rules.Load of the fields before, and the invariant holds |
| Engine.Game.KeyDown | js/game.js:203-218 | the fields after the event are Rules.KeyDown of the fields before, and the invariant holds |
| Engine.Game.KeyUp | js/game.js:222-247 | the fields after the event are Rules.KeyUp of the fields before, and the invariant holds |
| Engine.Game.UpdateWalkAnimation | js/game.js:264-281 | the image becomes ChooseFacing of the deltas, and a repaint is reported exactly when it differs from the previous image |
| Engine.Game.ProcessEntry | js/game.js:286-311 | one pass of the loop changes the fields as Rules.ProcessSlot says |
| Engine.Game.ProcessActionCell | js/game.js:284-314 | the fields and the scheduled loads after the loop are Rules.ProcessActionCell of the fields before |
| Engine.Game.Tick | js/game.js:317-352 | the fields and the scheduled loads after a tick are Rules.Tick of the fields before, and the invariant holds |
| Engine.Game.Attempt | js/game.js:325-350 | the step and action lookup change the fields as Rules.Attempt says |
| Engine.Game.Arrive | js/game.js:348-350 | the action lookup changes the fields as Rules.Arrive says |

## Findings

| source | as written | input that shows it | evidently intended | confidence | as-written member | corrected member |
|---|---|---|---|---|---|---|
| js/game.js:47 | `initMap` defaults a missing `levelStartX`/`levelStartY` to -1. Then `if (levelStartX && levelStartY)` treats -1 as given. | a new-level action whose JSON has no `startX` and no `startY` | the player keeps the current position, as for a start coordinate of 0 | medium, not executed | Rules.StartPositionAsWritten, Rules.OmittedStartLeavesMap | Rules.StartPosition, Rules.StartPositionAgreesWhenGiven |

## Left out

- Rendering and layout are left out: cell spans, level CSS, item images, fades and animations, the score panel, map centring, walk distances and zoom. They are DOM and floating-point screen work with no game logic.
- Rules.Load / Engine.Game.LoadLevel: they place the player with the corrected `Rules.StartPosition`, not as `js/game.js:47,84-87` does. A new-level action that omits `startX`/`startY` keeps the player where they are in the model; as written, `js/game.js` puts the player at (-1, -1). `Rules.StartPositionAsWritten` and `Rules.OmittedStartLeavesMap` model and state that behaviour (see Findings). `Rules.LoadEffect` and `Rules.NewLevelThenLoad` describe the corrected placement too.
- The startup call `game.loadMap(game.config.initialLevel, game.config.initialPlayerX, game.config.initialPlayerY)` (js/game.js:354-355) is left to the caller, as a `LoadLevel` call on a new `Game` with the configured level and coordinates.
- `$.getJSON` loading and its failure message are left out. `LoadLevel` takes an already-parsed level. A failed fetch is simply never followed by `LoadLevel`, so the game stays in init.
- The timers are left out. `setInterval` becomes an explicit `Tick` call. The fade-out before a new level becomes the list of level loads that `Tick` returns, which the caller performs with `LoadLevel`.
- `loadMap`'s own `state = 'init'` before fetching is not modelled separately. Every caller already leaves the state in init (the constructor, or a new-level action).
- The window resize handler and `console.log(pathGraph)` are left out.
- The inventory branch of an item is an empty stub. An item without `addGold` matches its cell and has no effect.
- `parseInt(addGold, 10)` is not modelled. `addGold` is taken as an already-parsed integer, so a non-numeric value (NaN) is out of scope.
- Cell-type characters are single characters. A cell type whose `char` is the empty string or longer than one character is not modelled.
- Map rows are sequences of characters. `for…of` walks code points while `charAt` reads UTF-16 code units; the difference for characters outside the Basic Multilingual Plane is not modelled.
- Start coordinates and action-cell coordinates are integers. Non-numeric JSON values and JSON `null` are not modelled.
- `xDeltaPx` (set to an undefined value on keydown, never read) and `stepDistance` are left out.
