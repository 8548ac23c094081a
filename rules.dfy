/** The game state of js/game.js as one value, and what each event does to it:
    a level load (initMap), a keydown, a keyup, a timer tick and the processing
    of an action cell. The Game class in the Engine module is proved to change
    its fields exactly as these functions say; the lemmas here state what the
    game promises about them. */
module Rules {
  import opened Wrappers
  import opened LevelIndex
  import opened Animation
  import Input

  /** The states js/game.js uses; 'wait' and 'modal' are named in a comment only. */
  datatype GameState = Init | Play

  /** Everything the core reads or writes: game.state, the fields of game.player,
      game.config.keysCurrentlyDown (held) and the current level with its
      derived indexes (grid is the level's map). */
  datatype World = World(
    state: GameState,
    xCurr: int, yCurr: int, xDelta: int, yDelta: int, gold: int, image: Facing,
    held: seq<int>,
    grid: seq<string>, cellTypes: seq<CellType>, actionCells: seq<ActionSlot>,
    walkableIndex: seq<char>, pathGraph: seq<seq<int>>, actionIndex: set<(int, int)>)

  /** A new state and the level loads the step scheduled (each new-level action
      starts a fade-out whose callback loads the target level). */
  datatype Outcome = Outcome(world: World, loads: seq<LevelRequest>)

  function ControlsOf(w: World): Input.Controls {
    Input.Controls(w.held, w.xDelta, w.yDelta)
  }

  function WithControls(w: World, c: Input.Controls): World {
    w.(held := c.held, xDelta := c.xDelta, yDelta := c.yDelta)
  }

  /** The invariant every event keeps: well-formed controls, indexes derived
      from the current level, and an action index that still covers every
      action cell not yet collected, so that a tick's lookup finds every such
      cell. */
  predicate Valid(w: World)
    ensures Valid(w) ==> forall i :: 0 <= i < |w.actionCells| && w.actionCells[i].Cell? ==>
      (w.actionCells[i].x, w.actionCells[i].y) in w.actionIndex
  {
    && Input.WellFormed(ControlsOf(w))
    && w.walkableIndex == WalkableChars(w.cellTypes)
    && w.pathGraph == PathGraphOf(w.grid, w.walkableIndex)
    && ActionKeys(w.actionCells) <= w.actionIndex
  }

  /** The state before the first level is loaded. */
  function Initial(): (w: World)
    ensures Valid(w) && w.state == Init && w.gold == 0 && w.held == []
  {
    World(Init, 0, 0, 0, 0, 0, Stand, [], [], [], [], [], [], {})
  }

  // ---------------------------------------------------------------------------
  // Level load (initMap)

  /** JavaScript truthiness of an integer: only 0 is falsy. */
  predicate Truthy(v: int) {
    v != 0
  }

  /** The start position initMap applies, as written: a coordinate the
      new-level action leaves out reaches initMap as undefined, its default
      parameter turns it into -1, and -1 is truthy. */
  function StartPositionAsWritten(x: int, y: int, startX: Option<int>, startY: Option<int>): (p: (int, int))
    ensures startX.None? && startY.None? ==> p == (-1, -1)
    ensures startX.Some? && startY.Some? && Truthy(startX.value) && Truthy(startY.value) ==>
      p == (startX.value, startY.value)
    ensures p == (x, y) || (Truthy(p.0) && Truthy(p.1))
  {
    var sx := if startX.Some? then startX.value else -1;
    var sy := if startY.Some? then startY.value else -1;
    if Truthy(sx) && Truthy(sy) then (sx, sy) else (x, y)
  }

  /** A new-level action without start coordinates puts the player at (-1, -1),
      a cell on no row of any map. */
  lemma OmittedStartLeavesMap(x: int, y: int, m: seq<string>, walkable: seq<char>)
    ensures StartPositionAsWritten(x, y, None, None) == (-1, -1)
    ensures IsWalkable(m, walkable, -1, -1) == None
  {
  }

  /** The start position as evidently intended: the player moves only when both
      coordinates are given and truthy, and otherwise stays put. A coordinate
      of 0 still counts as not given, as in js/game.js. */
  function StartPosition(x: int, y: int, startX: Option<int>, startY: Option<int>): (p: (int, int))
    ensures p != (x, y) ==> startX == Some(p.0) && startY == Some(p.1)
    ensures startX.Some? && startY.Some? && Truthy(startX.value) && Truthy(startY.value) ==>
      p == (startX.value, startY.value)
    ensures startX.None? || startY.None? || startX == Some(0) || startY == Some(0) ==> p == (x, y)
  {
    match (startX, startY)
    case (Some(sx), Some(sy)) => if Truthy(sx) && Truthy(sy) then (sx, sy) else (x, y)
    case _ => (x, y)
  }

  /** The correction changes nothing when the action gives both coordinates. */
  lemma StartPositionAgreesWhenGiven(x: int, y: int, startX: Option<int>, startY: Option<int>)
    requires startX.Some? && startY.Some?
    ensures StartPosition(x, y, startX, startY) == StartPositionAsWritten(x, y, startX, startY)
  {
  }

  /** Loading a parsed level: take its data, place the player, derive the three
      indexes and enter play. Gold, the deltas and the held keys carry over. */
  function Load(w: World, lvl: Level, startX: Option<int>, startY: Option<int>): (r: World)
    ensures r.state == Play && r.grid == lvl.grid && r.actionCells == lvl.actionCells
    ensures Input.WellFormed(ControlsOf(w)) ==> Valid(r)
    ensures r.gold == w.gold && r.image == w.image && ControlsOf(r) == ControlsOf(w)
    ensures (r.xCurr, r.yCurr) == (w.xCurr, w.yCurr) || (startX == Some(r.xCurr) && startY == Some(r.yCurr))
  {
    var p := StartPosition(w.xCurr, w.yCurr, startX, startY);
    var walkable := WalkableChars(lvl.cellTypes);
    w.(state := Play, xCurr := p.0, yCurr := p.1,
       grid := lvl.grid, cellTypes := lvl.cellTypes, actionCells := lvl.actionCells,
       walkableIndex := walkable, pathGraph := PathGraphOf(lvl.grid, walkable),
       actionIndex := ActionKeys(lvl.actionCells))
  }

  /** A load ends in play, with indexes that describe the new level, with the
      position overwritten only when both start coordinates are truthy, and
      with gold, image, deltas and held keys unchanged. */
  lemma LoadEffect(w: World, lvl: Level, startX: Option<int>, startY: Option<int>)
    requires Valid(w)
    ensures var r := Load(w, lvl, startX, startY);
      && Valid(r)
      && r.state == Play
      && r.grid == lvl.grid && r.actionCells == lvl.actionCells
      && r.actionIndex == ActionKeys(lvl.actionCells)
      && (forall x, y :: IsWalkable(r.grid, r.walkableIndex, x, y) == Some(true) <==>
            0 <= y < |lvl.grid| && 0 <= x < |lvl.grid[y]| &&
            exists i :: 0 <= i < |lvl.cellTypes| && lvl.cellTypes[i].ch == lvl.grid[y][x] && lvl.cellTypes[i].isWalkable)
      && (r.xCurr, r.yCurr) == StartPosition(w.xCurr, w.yCurr, startX, startY)
      && r.gold == w.gold && r.image == w.image
      && ControlsOf(r) == ControlsOf(w)
  {
  }

  // ---------------------------------------------------------------------------
  // Key events

  /** The keydown handler: ignored unless the game is in play. */
  function KeyDown(w: World, key: int): (r: World)
    ensures w.state != Play ==> r == w
    ensures r.(held := w.held, xDelta := w.xDelta, yDelta := w.yDelta) == w
    ensures w.state == Play && Input.IsArrow(key) ==> key in r.held
  {
    if w.state != Play then w else WithControls(w, Input.Press(ControlsOf(w), key))
  }

  /** The keyup handler: ignored unless the game is in play. */
  function KeyUp(w: World, key: int): (r: World)
    ensures w.state != Play ==> r == w
    ensures r.(held := w.held, xDelta := w.xDelta, yDelta := w.yDelta) == w
    ensures w.state == Play && Input.NoDup(w.held) ==> key !in r.held
  {
    if w.state != Play then w else WithControls(w, Input.Release(ControlsOf(w), key))
  }

  /** Key events change nothing outside play, change only the held keys and the
      deltas in play, and keep the invariant. */
  lemma KeyEventsEffect(w: World, key: int)
    requires Valid(w)
    ensures Valid(KeyDown(w, key)) && Valid(KeyUp(w, key))
    ensures w.state != Play ==> KeyDown(w, key) == w && KeyUp(w, key) == w
    ensures KeyDown(w, key).(held := w.held, xDelta := w.xDelta, yDelta := w.yDelta) == w
    ensures KeyUp(w, key).(held := w.held, xDelta := w.xDelta, yDelta := w.yDelta) == w
  {
    Input.HandlersKeepWellFormed(ControlsOf(w), key);
  }

  // ---------------------------------------------------------------------------
  // Action cells (processActionCell)

  predicate Matches(s: ActionSlot, x: int, y: int) {
    s.Cell? && s.x == x && s.y == y
  }

  predicate IsGoldItemAt(s: ActionSlot, x: int, y: int) {
    Matches(s, x, y) && s.action.Item? && s.action.addGold.Some?
  }

  predicate IsNewLevelAt(s: ActionSlot, x: int, y: int) {
    Matches(s, x, y) && s.action.NewLevel?
  }

  /** What a new-level action does at once: back to init, no movement, no keys. */
  function ResetForTransition(w: World): World {
    w.(state := Init, xDelta := 0, yDelta := 0, held := [])
  }

  /** The body of processActionCell's loop for entry i. */
  function ProcessSlot(o: Outcome, x: int, y: int, i: nat): (r: Outcome)
    requires i < |o.world.actionCells|
    ensures !Matches(o.world.actionCells[i], x, y) ==> r == o
    ensures o.loads <= r.loads
    ensures r.world.state == o.world.state || (r.world.state == Init && |r.loads| == |o.loads| + 1)
    ensures |r.world.actionCells| == |o.world.actionCells|
    ensures forall j :: 0 <= j < |o.world.actionCells| && j != i ==>
      r.world.actionCells[j] == o.world.actionCells[j]
    ensures r.world.xCurr == o.world.xCurr && r.world.yCurr == o.world.yCurr
  {
    var s := o.world.actionCells[i];
    if !Matches(s, x, y) then o
    else match s.action
      case NewLevel(target) => Outcome(ResetForTransition(o.world), o.loads + [target])
      case Item(addGold) =>
        if addGold.Some? then
          Outcome(o.world.(gold := o.world.gold + addGold.value,
                           actionCells := o.world.actionCells[i := Consumed]), o.loads)
        else o
      case Unrecognised => o
  }

  /** processActionCell's loop after its first n entries. Entry j is only ever
      written by step j, so the entries still to come are those of the start. */
  function ProcessPrefix(w: World, x: int, y: int, n: nat): (o: Outcome)
    requires n <= |w.actionCells|
    ensures |o.world.actionCells| == |w.actionCells|
    ensures forall j :: n <= j < |w.actionCells| ==> o.world.actionCells[j] == w.actionCells[j]
    ensures o.world.state == w.state || (o.world.state == Init && o.loads != [])
    decreases n
  {
    if n == 0 then Outcome(w, [])
    else ProcessSlot(ProcessPrefix(w, x, y, n - 1), x, y, n - 1)
  }

  /** processActionCell(x, y): every entry at (x, y) fires, in list order. */
  function ProcessActionCell(w: World, x: int, y: int): (o: Outcome)
    ensures |o.world.actionCells| == |w.actionCells|
    ensures o.world.state == w.state || (o.world.state == Init && o.loads != [])
  {
    ProcessPrefix(w, x, y, |w.actionCells|)
  }

  /** The gold of the uncollected gold items at (x, y). */
  function GoldAt(cells: seq<ActionSlot>, x: int, y: int): int {
    if cells == [] then 0
    else
      var s := cells[|cells| - 1];
      GoldAt(cells[..|cells| - 1], x, y) + (if IsGoldItemAt(s, x, y) then s.action.addGold.value else 0)
  }

  /** The level loads requested by the new-level actions at (x, y), in order. */
  function LoadsAt(cells: seq<ActionSlot>, x: int, y: int): seq<LevelRequest> {
    if cells == [] then []
    else
      var s := cells[|cells| - 1];
      LoadsAt(cells[..|cells| - 1], x, y) + (if IsNewLevelAt(s, x, y) then [s.action.target] else [])
  }

  /** The action cells after the gold items at (x, y) are collected. */
  function CollectAll(cells: seq<ActionSlot>, x: int, y: int): seq<ActionSlot> {
    seq(|cells|, j requires 0 <= j < |cells| => if IsGoldItemAt(cells[j], x, y) then Consumed else cells[j])
  }

  /** The state after the first n entries: gold raised by the gold items among
      them, those items collected, and a reset if a new-level action was among
      them; nothing else changes. */
  function AfterPrefix(w: World, x: int, y: int, n: nat): Outcome
    requires n <= |w.actionCells|
  {
    var c := w.actionCells;
    var v := w.(gold := w.gold + GoldAt(c[..n], x, y), actionCells := CollectAll(c[..n], x, y) + c[n..]);
    Outcome(if LoadsAt(c[..n], x, y) == [] then v else ResetForTransition(v), LoadsAt(c[..n], x, y))
  }

  /** How the three summaries grow by one entry. */
  lemma PrefixStep(c: seq<ActionSlot>, x: int, y: int, n: nat)
    requires 0 < n <= |c|
    ensures var s := c[n - 1];
      && GoldAt(c[..n], x, y) == GoldAt(c[..n - 1], x, y) + (if IsGoldItemAt(s, x, y) then s.action.addGold.value else 0)
      && LoadsAt(c[..n], x, y) == LoadsAt(c[..n - 1], x, y) + (if IsNewLevelAt(s, x, y) then [s.action.target] else [])
      && CollectAll(c[..n], x, y) + c[n..] ==
           CollectAll(c[..n - 1], x, y) + [if IsGoldItemAt(s, x, y) then Consumed else s] + c[n..]
      && CollectAll(c[..n - 1], x, y) + c[n - 1..] == CollectAll(c[..n - 1], x, y) + [s] + c[n..]
  {
    assert c[..n][..n - 1] == c[..n - 1];
    assert CollectAll(c[..n], x, y) == CollectAll(c[..n - 1], x, y) + [if IsGoldItemAt(c[n - 1], x, y) then Consumed else c[n - 1]];
    assert c[n - 1..] == [c[n - 1]] + c[n..];
  }

  /** One more entry of processActionCell's loop turns the summary of the first
      n - 1 entries into the summary of the first n. */
  lemma StepEffect(w: World, x: int, y: int, n: nat)
    requires 0 < n <= |w.actionCells|
    ensures ProcessSlot(AfterPrefix(w, x, y, n - 1), x, y, n - 1) == AfterPrefix(w, x, y, n)
  {
    var c := w.actionCells;
    var s := c[n - 1];
    PrefixStep(c, x, y, n);
    var o := AfterPrefix(w, x, y, n - 1);
    var before := CollectAll(c[..n - 1], x, y);
    assert o.world.actionCells == before + [s] + c[n..];
    assert o.world.actionCells[n - 1] == s;
    if IsGoldItemAt(s, x, y) {
      assert o.world.actionCells[n - 1 := Consumed] == before + [Consumed] + c[n..];
    }
  }

  lemma {:induction false} ProcessPrefixEffect(w: World, x: int, y: int, n: nat)
    requires n <= |w.actionCells|
    ensures ProcessPrefix(w, x, y, n) == AfterPrefix(w, x, y, n)
    decreases n
  {
    var c := w.actionCells;
    if n == 0 {
      assert c[..0] == [] && c[0..] == c;
    } else {
      ProcessPrefixEffect(w, x, y, n - 1);
      StepEffect(w, x, y, n);
    }
  }

  /** What processActionCell does, in one piece. */
  lemma ActionEffect(w: World, x: int, y: int)
    ensures ProcessActionCell(w, x, y) ==
      var c := w.actionCells;
      var v := w.(gold := w.gold + GoldAt(c, x, y), actionCells := CollectAll(c, x, y));
      Outcome(if LoadsAt(c, x, y) == [] then v else ResetForTransition(v), LoadsAt(c, x, y))
  {
    var c := w.actionCells;
    ProcessPrefixEffect(w, x, y, |c|);
    assert c[..|c|] == c;
    assert c[|c|..] == [];
    assert CollectAll(c, x, y) + [] == CollectAll(c, x, y);
  }

  /** Once collected, no gold item is left at (x, y). */
  lemma {:induction false} NoGoldAfterCollect(cells: seq<ActionSlot>, x: int, y: int)
    ensures GoldAt(CollectAll(cells, x, y), x, y) == 0
    decreases |cells|
  {
    if cells != [] {
      var init := cells[..|cells| - 1];
      assert CollectAll(cells, x, y)[..|cells| - 1] == CollectAll(init, x, y);
      NoGoldAfterCollect(init, x, y);
    }
  }

  /** Collecting gold items adds and removes no action-cell coordinates except
      those of the items themselves. */
  lemma CollectKeys(cells: seq<ActionSlot>, x: int, y: int)
    ensures ActionKeys(CollectAll(cells, x, y)) <= ActionKeys(cells)
  {
  }

  /** Gold items at (x, y) fire once: the first arrival adds their gold and
      empties their entries, a second arrival adds nothing, and the action
      index still holds the coordinates. */
  lemma GoldCollectedOnce(w: World, x: int, y: int)
    ensures var w1 := ProcessActionCell(w, x, y).world;
      && w1.gold == w.gold + GoldAt(w.actionCells, x, y)
      && ProcessActionCell(w1, x, y).world.gold == w1.gold
      && w1.actionIndex == w.actionIndex
  {
    var w1 := ProcessActionCell(w, x, y).world;
    ActionEffect(w, x, y);
    ActionEffect(w1, x, y);
    NoGoldAfterCollect(w.actionCells, x, y);
  }

  /** A sequence whose only entry at (x, y) is entry i. */
  predicate OnlyEntryAt(cells: seq<ActionSlot>, x: int, y: int, i: int) {
    0 <= i < |cells| && Matches(cells[i], x, y) &&
    forall j :: 0 <= j < |cells| && j != i ==> !Matches(cells[j], x, y)
  }

  lemma {:induction false} SingleEntryTotals(cells: seq<ActionSlot>, x: int, y: int, i: int)
    requires OnlyEntryAt(cells, x, y, i)
    ensures GoldAt(cells, x, y) == if IsGoldItemAt(cells[i], x, y) then cells[i].action.addGold.value else 0
    ensures LoadsAt(cells, x, y) == if IsNewLevelAt(cells[i], x, y) then [cells[i].action.target] else []
    decreases |cells|
  {
    var init := cells[..|cells| - 1];
    if i == |cells| - 1 {
      NothingAt(init, x, y);
    } else {
      assert OnlyEntryAt(init, x, y, i);
      SingleEntryTotals(init, x, y, i);
    }
  }

  lemma {:induction false} NothingAt(cells: seq<ActionSlot>, x: int, y: int)
    requires forall j :: 0 <= j < |cells| ==> !Matches(cells[j], x, y)
    ensures GoldAt(cells, x, y) == 0 && LoadsAt(cells, x, y) == []
    decreases |cells|
  {
    if cells != [] {
      NothingAt(cells[..|cells| - 1], x, y);
    }
  }

  /** Arriving at the one item with addGold at (x, y) raises gold by exactly
      that amount and overwrites the entry with an empty one; nothing else
      changes and no level load is scheduled. */
  lemma ItemPickup(w: World, x: int, y: int, i: int, amount: int)
    requires OnlyEntryAt(w.actionCells, x, y, i)
    requires w.actionCells[i].action == Item(Some(amount))
    ensures ProcessActionCell(w, x, y) ==
      Outcome(w.(gold := w.gold + amount, actionCells := w.actionCells[i := Consumed]), [])
  {
    ActionEffect(w, x, y);
    SingleEntryTotals(w.actionCells, x, y, i);
    assert CollectAll(w.actionCells, x, y) == w.actionCells[i := Consumed];
  }

  /** Any new-level entry at (x, y) sends the game back to init with no
      movement and no held keys, and schedules a load of its target. */
  lemma NewLevelTransition(w: World, x: int, y: int, i: int)
    requires 0 <= i < |w.actionCells| && IsNewLevelAt(w.actionCells[i], x, y)
    ensures var o := ProcessActionCell(w, x, y);
      && o.world.state == Init && o.world.xDelta == 0 && o.world.yDelta == 0 && o.world.held == []
      && w.actionCells[i].action.target in o.loads
  {
    ActionEffect(w, x, y);
    LoadsAtContains(w.actionCells, x, y, i);
  }

  /** A new-level entry followed by the load it asks for: the game is back in
      play with no movement and no held keys, gold is kept, and the player
      stands at the target's start coordinates when both are truthy and where
      they were otherwise. */
  lemma NewLevelThenLoad(w: World, x: int, y: int, i: int, lvl: Level)
    requires Valid(w)
    requires 0 <= i < |w.actionCells| && IsNewLevelAt(w.actionCells[i], x, y)
    ensures var mid := ProcessActionCell(w, x, y).world;
      var t := w.actionCells[i].action.target;
      var r := Load(mid, lvl, t.startX, t.startY);
      && Valid(r) && r.state == Play
      && r.xDelta == 0 && r.yDelta == 0 && r.held == []
      && r.gold == mid.gold
      && (r.xCurr, r.yCurr) == StartPosition(w.xCurr, w.yCurr, t.startX, t.startY)
  {
    var mid := ProcessActionCell(w, x, y).world;
    var t := w.actionCells[i].action.target;
    NewLevelTransition(w, x, y, i);
    ActionKeepsPlace(w, x, y);
    ActionKeepsValid(w, x, y);
    LoadEffect(mid, lvl, t.startX, t.startY);
  }

  lemma {:induction false} LoadsAtContains(cells: seq<ActionSlot>, x: int, y: int, i: int)
    requires 0 <= i < |cells| && IsNewLevelAt(cells[i], x, y)
    ensures cells[i].action.target in LoadsAt(cells, x, y)
    decreases |cells|
  {
    var init := cells[..|cells| - 1];
    if i < |cells| - 1 {
      assert init[i] == cells[i];
      LoadsAtContains(init, x, y, i);
    }
  }

  /** Processing an action cell never moves the player, never touches the map
      or its indexes, and either keeps the state and the controls or resets
      them for a level transition. */
  lemma ActionKeepsPlace(w: World, x: int, y: int)
    ensures var v := ProcessActionCell(w, x, y).world;
      && v.xCurr == w.xCurr && v.yCurr == w.yCurr && v.image == w.image
      && v.grid == w.grid && v.cellTypes == w.cellTypes && v.walkableIndex == w.walkableIndex
      && v.pathGraph == w.pathGraph && v.actionIndex == w.actionIndex
      && |v.actionCells| == |w.actionCells|
      && ((v.state == w.state && ControlsOf(v) == ControlsOf(w)) || v == ResetForTransition(v))
  {
    ActionEffect(w, x, y);
  }

  // ---------------------------------------------------------------------------
  // The timer tick

  /** One tick of the game timer. Outside play it does nothing. Otherwise it
      updates the image, and when a delta is non-zero it asks whether the
      requested cell is walkable (a row outside the map throws, ending the
      tick), commits the step if so, and then processes the action cells at
      the requested cell whether or not the step was committed. */
  function Tick(w: World): (o: Outcome)
    ensures w.state != Play ==> o == Outcome(w, [])
  {
    if w.state != Play then Outcome(w, [])
    else Attempt(w.(image := ChooseFacing(w.xDelta, w.yDelta)))
  }

  /** The part of a tick after the image update. */
  function Attempt(w: World): (o: Outcome)
    ensures w.xDelta == 0 && w.yDelta == 0 ==> o == Outcome(w, [])
    ensures IsWalkable(w.grid, w.walkableIndex, w.xCurr + w.xDelta, w.yCurr + w.yDelta).None? ==> o == Outcome(w, [])
  {
    if w.xDelta == 0 && w.yDelta == 0 then Outcome(w, [])
    else
      var rx, ry := w.xCurr + w.xDelta, w.yCurr + w.yDelta;
      match IsWalkable(w.grid, w.walkableIndex, rx, ry)
      case None => Outcome(w, [])
      case Some(ok) => Arrive(if ok then w.(xCurr := rx, yCurr := ry) else w, rx, ry)
  }

  /** The action lookup at the requested cell (x, y). */
  function Arrive(w: World, x: int, y: int): (o: Outcome)
    ensures (x, y) !in w.actionIndex ==> o == Outcome(w, [])
  {
    if (x, y) in w.actionIndex then ProcessActionCell(w, x, y) else Outcome(w, [])
  }

  /** In play, the player moves exactly when a delta is non-zero and the
      requested cell is walkable, and then by exactly the deltas; the image
      follows the deltas and the map and its indexes are untouched. */
  lemma TickMovement(w: World)
    requires w.state == Play
    ensures var v := Tick(w).world;
      var moving := w.xDelta != 0 || w.yDelta != 0;
      var rx, ry := w.xCurr + w.xDelta, w.yCurr + w.yDelta;
      && (if moving && IsWalkable(w.grid, w.walkableIndex, rx, ry) == Some(true)
          then v.xCurr == rx && v.yCurr == ry
          else v.xCurr == w.xCurr && v.yCurr == w.yCurr)
      && v.image == ChooseFacing(w.xDelta, w.yDelta)
      && v.grid == w.grid && v.walkableIndex == w.walkableIndex && v.pathGraph == w.pathGraph
      && v.actionIndex == w.actionIndex
  {
    var w1 := w.(image := ChooseFacing(w.xDelta, w.yDelta));
    assert Tick(w) == Attempt(w1);
    if w.xDelta != 0 || w.yDelta != 0 {
      var rx, ry := w.xCurr + w.xDelta, w.yCurr + w.yDelta;
      var walk := IsWalkable(w.grid, w.walkableIndex, rx, ry);
      if walk.Some? {
        var w2 := if walk.value then w1.(xCurr := rx, yCurr := ry) else w1;
        assert Attempt(w1) == Arrive(w2, rx, ry);
        if (rx, ry) in w.actionIndex {
          ActionKeepsPlace(w2, rx, ry);
        }
      }
    }
  }

  /** Which action cells a tick in play processes: on a moving tick whose
      requested cell lies on a map row, those at the requested cell, whether or
      not the step was committed; on a tick with both deltas zero, or one whose
      requested row is off the map, none. */
  lemma TickDispatch(w: World)
    requires w.state == Play
    ensures var o := Tick(w);
      var rx, ry := w.xCurr + w.xDelta, w.yCurr + w.yDelta;
      var looked := (w.xDelta != 0 || w.yDelta != 0) &&
                    IsWalkable(w.grid, w.walkableIndex, rx, ry).Some? && (rx, ry) in w.actionIndex;
      && o.loads == (if looked then LoadsAt(w.actionCells, rx, ry) else [])
      && o.world.gold == w.gold + (if looked then GoldAt(w.actionCells, rx, ry) else 0)
      && o.world.actionCells == (if looked then CollectAll(w.actionCells, rx, ry) else w.actionCells)
  {
    var w1 := w.(image := ChooseFacing(w.xDelta, w.yDelta));
    assert Tick(w) == Attempt(w1);
    if w.xDelta != 0 || w.yDelta != 0 {
      var rx, ry := w.xCurr + w.xDelta, w.yCurr + w.yDelta;
      var walk := IsWalkable(w.grid, w.walkableIndex, rx, ry);
      if walk.Some? {
        var w2 := if walk.value then w1.(xCurr := rx, yCurr := ry) else w1;
        assert Attempt(w1) == Arrive(w2, rx, ry);
        if (rx, ry) in w.actionIndex {
          ActionEffect(w2, rx, ry);
        }
      }
    }
  }

  /** Processing an action cell keeps the invariant: collected items only
      drop coordinates from the action cells, and a reset leaves no keys. */
  lemma ActionKeepsValid(w: World, x: int, y: int)
    requires Valid(w)
    ensures Valid(ProcessActionCell(w, x, y).world)
  {
    ActionEffect(w, x, y);
    CollectKeys(w.actionCells, x, y);
  }

  /** Moving the player keeps the invariant, which says nothing of position. */
  lemma MoveKeepsValid(w: World, x: int, y: int)
    requires Valid(w)
    ensures Valid(w.(xCurr := x, yCurr := y))
  {
  }

  /** The action lookup keeps the invariant. */
  lemma ArriveKeepsValid(w: World, x: int, y: int)
    requires Valid(w)
    ensures Valid(Arrive(w, x, y).world)
  {
    if (x, y) in w.actionIndex {
      ActionKeepsValid(w, x, y);
    }
  }

  /** The part of a tick after the image update keeps the invariant. */
  lemma AttemptKeepsValid(w: World)
    requires Valid(w)
    ensures Valid(Attempt(w).world)
  {
    if w.xDelta != 0 || w.yDelta != 0 {
      var rx, ry := w.xCurr + w.xDelta, w.yCurr + w.yDelta;
      var walk := IsWalkable(w.grid, w.walkableIndex, rx, ry);
      if walk.Some? {
        var w2 := if walk.value then w.(xCurr := rx, yCurr := ry) else w;
        assert Attempt(w) == Arrive(w2, rx, ry);
        assert Valid(w2) by { MoveKeepsValid(w, rx, ry); }
        ArriveKeepsValid(w2, rx, ry);
      }
    }
  }

  /** A tick leaves play only by scheduling a level load, so the game never
      stops in init without a load to bring it back. */
  lemma TickLeavesPlayOnlyByLoad(w: World)
    ensures var o := Tick(w);
      o.world.state == w.state || (o.world.state == Init && o.loads != [])
  {
    if w.state == Play && (w.xDelta != 0 || w.yDelta != 0) {
      var w1 := w.(image := ChooseFacing(w.xDelta, w.yDelta));
      var rx, ry := w.xCurr + w.xDelta, w.yCurr + w.yDelta;
      var walk := IsWalkable(w.grid, w.walkableIndex, rx, ry);
      if walk.Some? {
        var w2 := if walk.value then w1.(xCurr := rx, yCurr := ry) else w1;
        assert Tick(w) == Arrive(w2, rx, ry);
      }
    }
  }

  /** Every tick keeps the invariant. */
  lemma TickKeepsValid(w: World)
    requires Valid(w)
    ensures Valid(Tick(w).world)
  {
    if w.state == Play {
      var w1 := w.(image := ChooseFacing(w.xDelta, w.yDelta));
      assert Valid(w1);
      AttemptKeepsValid(w1);
    }
  }

  /** n ticks with no events in between. */
  function Ticks(w: World, n: nat): World
    decreases n
  {
    if n == 0 then w else Ticks(Tick(w).world, n - 1)
  }

  lemma {:induction false} IdleTicks(w: World, n: nat)
    requires w.state != Play
    ensures Ticks(w, n) == w
    decreases n
  {
    if n > 0 {
      IdleTicks(w, n - 1);
    }
  }

  /** A blocked step stays blocked: however many ticks run, the player does
      not move. Any action at the blocked cell fires on the first tick, and a
      new-level action there ends play, after which ticks do nothing. */
  lemma {:induction false} BlockedStepRepeated(w: World, n: nat)
    requires IsWalkable(w.grid, w.walkableIndex, w.xCurr + w.xDelta, w.yCurr + w.yDelta) != Some(true)
    ensures Ticks(w, n).xCurr == w.xCurr && Ticks(w, n).yCurr == w.yCurr
    decreases n
  {
    if n > 0 {
      var v := Tick(w).world;
      if w.state != Play {
        IdleTicks(w, n);
      } else {
        TickMovement(w);
        var rx, ry := w.xCurr + w.xDelta, w.yCurr + w.yDelta;
        if (w.xDelta != 0 || w.yDelta != 0) && IsWalkable(w.grid, w.walkableIndex, rx, ry).Some? {
          var w1 := w.(image := ChooseFacing(w.xDelta, w.yDelta));
          ActionKeepsPlace(w1, rx, ry);
        }
        if v.state != Play {
          IdleTicks(v, n - 1);
        } else {
          assert v.xDelta == w.xDelta && v.yDelta == w.yDelta;
          BlockedStepRepeated(v, n - 1);
        }
      }
    }
  }
}
