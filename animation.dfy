/** The player sprite chosen by updateWalkAnimation in js/game.js. */
module Animation {

  /** The five player images: player-stand.gif, player-left.gif, player-right.gif,
      player-up.gif and player-down.gif. */
  datatype Facing = Stand | Left | Right | Up | Down

  /** The image for a pair of deltas. Horizontal movement takes precedence over
      vertical movement, and the player stands exactly when not moving. */
  function ChooseFacing(xDelta: int, yDelta: int): (f: Facing)
    ensures f == Stand <==> xDelta == 0 && yDelta == 0
    ensures f == Left <==> xDelta < 0
    ensures f == Right <==> xDelta > 0
    ensures f == Up <==> xDelta == 0 && yDelta < 0
    ensures f == Down <==> xDelta == 0 && yDelta > 0
  {
    if xDelta < 0 then Left
    else if xDelta > 0 then Right
    else if yDelta < 0 then Up
    else if yDelta > 0 then Down
    else Stand
  }
}
