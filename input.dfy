/** The arrow-key handlers of js/game.js: the list of held arrow keys
    (keysCurrentlyDown) and the direction deltas they set on the player. */
module Input {

  /** Key codes of the four arrow keys (config.keys in js/game.js). */
  const ArrowLeft := 37
  const ArrowUp := 38
  const ArrowRight := 39
  const ArrowDown := 40

  predicate IsArrow(key: int) {
    ArrowLeft <= key <= ArrowDown
  }

  predicate IsHorizontal(key: int) {
    key == ArrowLeft || key == ArrowRight
  }

  /** The unit value a key stands for on its own axis (xPos or yPos in config.keys). */
  function Unit(key: int): int {
    if key == ArrowLeft || key == ArrowUp then -1 else 1
  }

  /** The other arrow key on the same axis. */
  function Opposite(key: int): int {
    if key == ArrowLeft then ArrowRight
    else if key == ArrowRight then ArrowLeft
    else if key == ArrowUp then ArrowDown
    else ArrowUp
  }

  /** The held-key list together with the player's two direction deltas. */
  datatype Controls = Controls(held: seq<int>, xDelta: int, yDelta: int)

  /** The delta on the axis of an arrow key. */
  function AxisDelta(c: Controls, key: int): int {
    if IsHorizontal(key) then c.xDelta else c.yDelta
  }

  /** The delta on the other axis. */
  function CrossDelta(c: Controls, key: int): int {
    if IsHorizontal(key) then c.yDelta else c.xDelta
  }

  predicate NoDup(s: seq<int>) {
    forall i, j :: 0 <= i < j < |s| ==> s[i] != s[j]
  }

  /** What the handlers keep: the held list has no duplicates and only arrow
      keys, and each delta is -1, 0 or 1. */
  predicate WellFormed(c: Controls) {
    && NoDup(c.held)
    && (forall k :: k in c.held ==> IsArrow(k))
    && -1 <= c.xDelta <= 1
    && -1 <= c.yDelta <= 1
  }

  /** Array.prototype.indexOf: the first position of key, or -1. */
  function IndexOf(s: seq<int>, key: int): (i: int)
    ensures -1 <= i < |s|
    ensures i == -1 <==> key !in s
    ensures 0 <= i ==> s[i] == key && key !in s[..i]
  {
    if s == [] then -1
    else if s[0] == key then 0
    else
      var j := IndexOf(s[1..], key);
      assert j >= 0 ==> s[..j + 1] == [s[0]] + s[1..][..j];
      if j == -1 then -1 else j + 1
  }

  /** Array.prototype.splice(start, 1): a negative start counts back from the
      end, a start past the end removes nothing. */
  function SpliceOne(s: seq<int>, start: int): (r: seq<int>)
    ensures |r| == if s != [] && start < |s| then |s| - 1 else |s|
    ensures 0 <= start < |s| ==> r == s[..start] + s[start + 1..]
    ensures s != [] && start == -1 ==> r == s[..|s| - 1]
    ensures 0 <= start < |s| ==> multiset(r) == multiset(s) - multiset{s[start]}
  {
    var a := if start < 0 then (if |s| + start < 0 then 0 else |s| + start)
             else (if start > |s| then |s| else start);
    if a < |s| then
      assert s == s[..a] + [s[a]] + s[a + 1..];
      s[..a] + s[a + 1..]
    else s
  }

  /** The keydown handler once the game is in play. */
  function Press(c: Controls, key: int): (r: Controls)
    ensures !IsArrow(key) ==> r == c
    ensures IsArrow(key) ==> key in r.held && AxisDelta(r, key) == Unit(key) && CrossDelta(r, key) == CrossDelta(c, key)
    ensures forall k :: k in r.held <==> k in c.held || (IsArrow(key) && k == key)
  {
    if IsHorizontal(key) then
      Controls(if key in c.held then c.held else c.held + [key], Unit(key), c.yDelta)
    else if key == ArrowUp || key == ArrowDown then
      Controls(if key in c.held then c.held else c.held + [key], c.xDelta, Unit(key))
    else c
  }

  /** The keyup handler once the game is in play. It removes the key from the
      held list, then sets the axis delta to the opposite key's value if that key
      is still held and to 0 otherwise. */
  function Release(c: Controls, key: int): (r: Controls)
    ensures key in c.held ==> multiset(r.held) == multiset(c.held) - multiset{key}
    ensures key !in c.held ==> r.held == if c.held == [] then [] else c.held[..|c.held| - 1]
    ensures IsArrow(key) ==> CrossDelta(r, key) == CrossDelta(c, key)
    ensures IsArrow(key) ==> AxisDelta(r, key) == if Opposite(key) in r.held then Unit(Opposite(key)) else 0
    ensures !IsArrow(key) ==> r.xDelta == c.xDelta && r.yDelta == c.yDelta
  {
    var held := SpliceOne(c.held, IndexOf(c.held, key));
    if key == ArrowLeft then Controls(held, if ArrowRight in held then 1 else 0, c.yDelta)
    else if key == ArrowRight then Controls(held, if ArrowLeft in held then -1 else 0, c.yDelta)
    else if key == ArrowUp then Controls(held, c.xDelta, if ArrowDown in held then 1 else 0)
    else if key == ArrowDown then Controls(held, c.xDelta, if ArrowUp in held then -1 else 0)
    else Controls(held, c.xDelta, c.yDelta)
  }

  // ---------------------------------------------------------------------------
  // Properties of the handlers

  /** Pressing an arrow key makes it held exactly once and adds no other key,
      sets its own axis to its unit value and leaves the other axis; any other
      key changes nothing. */
  lemma PressEffect(c: Controls, key: int)
    requires NoDup(c.held)
    ensures var r := Press(c, key);
      && NoDup(r.held)
      && (IsArrow(key) ==> key in r.held)
      && (forall k :: k in r.held <==> k in c.held || (IsArrow(key) && k == key))
      && (IsArrow(key) ==> AxisDelta(r, key) == Unit(key) && CrossDelta(r, key) == CrossDelta(c, key))
      && (!IsArrow(key) ==> r == c)
  {
  }

  /** Removing one element from a list without duplicates leaves a list
      without duplicates. */
  lemma RemoveKeepsNoDup(s: seq<int>, a: int)
    requires NoDup(s) && 0 <= a < |s|
    ensures NoDup(s[..a] + s[a + 1..])
  {
  }

  /** Removing one element from a list without duplicates removes exactly that
      value: every other value is held afterwards exactly when it was before. */
  lemma RemoveAtMembers(s: seq<int>, a: int)
    requires NoDup(s) && 0 <= a < |s|
    ensures forall k :: k in s[..a] + s[a + 1..] <==> k in s && k != s[a]
  {
  }

  /** Releasing a held key removes that one key from the list and keeps every
      other held key. */
  lemma ReleaseHeldKey(c: Controls, key: int)
    requires NoDup(c.held) && key in c.held
    ensures var r := Release(c, key);
      && key !in r.held
      && NoDup(r.held)
      && |r.held| == |c.held| - 1
      && forall k :: k != key ==> (k in r.held <==> k in c.held)
  {
    var a := IndexOf(c.held, key);
    var rest := c.held[..a] + c.held[a + 1..];
    assert Release(c, key).held == SpliceOne(c.held, a) == rest;
    RemoveKeepsNoDup(c.held, a);
    RemoveAtMembers(c.held, a);
  }

  /** Releasing a key that is not held (any key, arrow or not) drops the LAST
      held key, because indexOf gives -1 and splice(-1, 1) removes the last
      element. The deltas are still updated as for a real release. */
  lemma ReleaseAbsentKeyDropsLast(c: Controls, key: int)
    requires key !in c.held && c.held != []
    ensures Release(c, key).held == c.held[..|c.held| - 1]
  {
  }

  /** When the released key was held, "still held" means "held before": the
      fallback to the opposite direction depends only on the keys held before. */
  lemma ReleaseHeldFallsBackToOpposite(c: Controls, key: int)
    requires NoDup(c.held) && IsArrow(key) && key in c.held
    ensures AxisDelta(Release(c, key), key) ==
      if Opposite(key) in c.held then Unit(Opposite(key)) else 0
  {
    ReleaseHeldKey(c, key);
  }

  /** Both handlers keep the held list free of duplicates and of non-arrow keys,
      and both deltas within -1..1. */
  lemma HandlersKeepWellFormed(c: Controls, key: int)
    requires WellFormed(c)
    ensures WellFormed(Press(c, key))
    ensures WellFormed(Release(c, key))
  {
    PressEffect(c, key);
    var r := Release(c, key);
    if key in c.held {
      ReleaseHeldKey(c, key);
    } else if c.held != [] {
      var a := |c.held| - 1;
      assert r.held == c.held[..a] + c.held[a + 1..];
      RemoveKeepsNoDup(c.held, a);
      RemoveAtMembers(c.held, a);
    }
  }
}
