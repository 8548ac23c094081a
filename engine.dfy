/** The game object of js/game.js as a class whose fields the event handlers
    update in place. Each event method is proved to change the fields exactly as
    the matching function of the Rules module says, and to keep Rules.Valid;
    ProcessEntry is one pass of the processActionCell loop, and
    UpdateWalkAnimation sets the image by Animation.ChooseFacing. */
module Engine {
  import opened Wrappers
  import opened LevelIndex
  import opened Animation
  import Input
  import Rules

  class Game {
    var state: Rules.GameState
    // game.player
    var xCurr: int
    var yCurr: int
    var xDelta: int
    var yDelta: int
    var gold: int
    var image: Facing
    // game.config.keysCurrentlyDown
    var held: seq<int>
    // game.level and the indexes initMap derives from it
    var grid: seq<string>
    var cellTypes: seq<CellType>
    var actionCells: seq<ActionSlot>
    var walkableIndex: seq<char>
    var pathGraph: seq<seq<int>>
    var actionIndex: set<(int, int)>

    /** The fields as one value. */
    function View(): Rules.World
      reads this
    {
      Rules.World(state, xCurr, yCurr, xDelta, yDelta, gold, image, held,
                  grid, cellTypes, actionCells, walkableIndex, pathGraph, actionIndex)
    }

    ghost predicate Valid()
      reads this
    {
      Rules.Valid(View())
    }

    /** The game object before the first level has loaded. */
    constructor ()
      ensures Valid() && View() == Rules.Initial()
    {
      state := Rules.Init;
      xCurr, yCurr, xDelta, yDelta := 0, 0, 0, 0;
      gold := 0;
      image := Stand;
      held := [];
      grid, cellTypes, actionCells := [], [], [];
      walkableIndex, pathGraph, actionIndex := [], [], {};
    }

    /** initMap once the level file has been fetched and parsed. */
    method LoadLevel(lvl: Level, startX: Option<int>, startY: Option<int>)
      requires Valid()
      modifies this
      ensures Valid()
      ensures View() == Rules.Load(old(View()), lvl, startX, startY)
    {
      Rules.LoadEffect(View(), lvl, startX, startY);
      state := Rules.Init;
      grid, cellTypes, actionCells := lvl.grid, lvl.cellTypes, lvl.actionCells;
      var p := Rules.StartPosition(xCurr, yCurr, startX, startY);
      xCurr, yCurr := p.0, p.1;
      walkableIndex := BuildWalkableIndex(cellTypes);
      pathGraph := BuildPathGraph(grid, walkableIndex);
      actionIndex := BuildActionIndex(actionCells);
      state := Rules.Play;
    }

    /** The keydown handler. */
    method KeyDown(key: int)
      requires Valid()
      modifies this
      ensures Valid()
      ensures View() == Rules.KeyDown(old(View()), key)
    {
      Rules.KeyEventsEffect(View(), key);
      if state != Rules.Play {
        return;
      }
      if key == Input.ArrowLeft || key == Input.ArrowRight {
        xDelta := Input.Unit(key);
        if key !in held {
          held := held + [key];
        }
      } else if key == Input.ArrowUp || key == Input.ArrowDown {
        yDelta := Input.Unit(key);
        if key !in held {
          held := held + [key];
        }
      }
    }

    /** The keyup handler. */
    method KeyUp(key: int)
      requires Valid()
      modifies this
      ensures Valid()
      ensures View() == Rules.KeyUp(old(View()), key)
    {
      Rules.KeyEventsEffect(View(), key);
      if state != Rules.Play {
        return;
      }
      held := Input.SpliceOne(held, Input.IndexOf(held, key));
      if key == Input.ArrowLeft {
        xDelta := 0;
        if Input.ArrowRight in held {
          xDelta := Input.Unit(Input.ArrowRight);
        }
      } else if key == Input.ArrowRight {
        xDelta := 0;
        if Input.ArrowLeft in held {
          xDelta := Input.Unit(Input.ArrowLeft);
        }
      } else if key == Input.ArrowUp {
        yDelta := 0;
        if Input.ArrowDown in held {
          yDelta := Input.Unit(Input.ArrowDown);
        }
      } else if key == Input.ArrowDown {
        yDelta := 0;
        if Input.ArrowUp in held {
          yDelta := Input.Unit(Input.ArrowUp);
        }
      }
    }

    /** updateWalkAnimation: picks the image for the deltas; repaint says whether
        it differs from the current one, the only case in which the sprite is
        redrawn. */
    method UpdateWalkAnimation(dx: int, dy: int) returns (repaint: bool)
      modifies this`image
      ensures image == ChooseFacing(dx, dy)
      ensures repaint <==> old(image) != ChooseFacing(dx, dy)
    {
      var img := ChooseFacing(dx, dy);
      repaint := image != img;
      if repaint {
        image := img;
      }
    }

    /** One pass of processActionCell's loop: the entry at index i fires if it
        lies at (x, y). */
    method ProcessEntry(x: int, y: int, i: nat, loads: seq<LevelRequest>) returns (loads': seq<LevelRequest>)
      requires i < |actionCells|
      modifies this
      ensures Rules.Outcome(View(), loads') == Rules.ProcessSlot(Rules.Outcome(old(View()), loads), x, y, i)
    {
      loads' := loads;
      var slot := actionCells[i];
      if slot.Cell? && slot.x == x && slot.y == y {
        match slot.action
        case NewLevel(target) =>
          state := Rules.Init;
          xDelta, yDelta := 0, 0;
          held := [];
          loads' := loads + [target];
        case Item(addGold) =>
          if addGold.Some? {
            gold := gold + addGold.value;
            actionCells := actionCells[i := Consumed];
          }
        case Unrecognised =>
      }
    }

    /** processActionCell: runs every action entry at (x, y) in list order and
        returns the level loads the new-level entries schedule. */
    method ProcessActionCell(x: int, y: int) returns (loads: seq<LevelRequest>)
      requires Valid()
      modifies this
      ensures Valid()
      ensures Rules.Outcome(View(), loads) == Rules.ProcessActionCell(old(View()), x, y)
    {
      ghost var start := View();
      Rules.ActionKeepsValid(start, x, y);
      loads := [];
      var i := 0;
      while i < |actionCells|
        invariant 0 <= i <= |actionCells| == |start.actionCells|
        invariant Rules.Outcome(View(), loads) == Rules.ProcessPrefix(start, x, y, i)
      {
        loads := ProcessEntry(x, y, i, loads);
        i := i + 1;
      }
    }

    /** One tick of the game timer; returns the level loads it scheduled. */
    method Tick() returns (loads: seq<LevelRequest>)
      requires Valid()
      modifies this
      ensures Valid()
      ensures Rules.Outcome(View(), loads) == Rules.Tick(old(View()))
    {
      loads := [];
      if state != Rules.Play {
        return;
      }
      var _ := UpdateWalkAnimation(xDelta, yDelta);
      loads := Attempt();
    }

    /** The rest of a tick: try the step the deltas ask for and look up the
        action cells at the requested cell. */
    method Attempt() returns (loads: seq<LevelRequest>)
      requires Valid()
      modifies this
      ensures Valid()
      ensures Rules.Outcome(View(), loads) == Rules.Attempt(old(View()))
    {
      ghost var w := View();
      loads := [];
      if xDelta != 0 || yDelta != 0 {
        var reqX, reqY := xCurr + xDelta, yCurr + yDelta;
        var walkable := IsWalkable(grid, walkableIndex, reqX, reqY);
        if walkable.None? {
          return;
        }
        if walkable.value {
          Rules.MoveKeepsValid(w, reqX, reqY);
          xCurr := xCurr + xDelta;
          yCurr := yCurr + yDelta;
        }
        assert Rules.Attempt(w) == Rules.Arrive(View(), reqX, reqY);
        loads := Arrive(reqX, reqY);
      }
    }

    /** The action lookup: the requested cell's coordinates in actionIndex. */
    method Arrive(x: int, y: int) returns (loads: seq<LevelRequest>)
      requires Valid()
      modifies this
      ensures Valid()
      ensures Rules.Outcome(View(), loads) == Rules.Arrive(old(View()), x, y)
    {
      loads := [];
      if (x, y) in actionIndex {
        loads := ProcessActionCell(x, y);
      }
    }
  }
}
