/** Concrete situations from the game, worked through the model. */
module Scenarios {
  import opened RockWorld
  import opened GameRuns

  /** A playing world with the ship at its start position and speed 5. */
  function Playing(rocks: seq<Obstacle>): World {
    World(StartX, StartY, rocks, DefaultSpeed, false)
  }

  /** A rock at x = 390 falling from y = 465 to 470 only touches the top edge
      of the ship (y = 520): no collision. One more tick, to y = 475, overlaps. */
  lemma TouchingIsNotHitting()
    ensures TickSpec(Playing([Obstacle(390, 465)]), false, 0) == Playing([Obstacle(390, 470)])
    ensures TickSpec(Playing([Obstacle(390, 470)]), false, 0).gameOver
  {
  }

  /** A rock reaching y = 605 is removed; one reaching exactly y = 600 stays. */
  lemma BottomEdge()
    ensures TickSpec(Playing([Obstacle(0, 600)]), false, 0) == Playing([])
    ensures TickSpec(Playing([Obstacle(0, 595)]), false, 0) == Playing([Obstacle(0, 600)])
  {
  }

  /** The tick that ends the game moves the hitting rock, leaves the later
      rock where it was, and still appends the newly spawned rock. */
  lemma HitTickStillSpawns()
    ensures TickSpec(Playing([Obstacle(390, 470), Obstacle(0, 100)]), true, 7) ==
            Playing([Obstacle(390, 475), Obstacle(0, 100), Obstacle(7, 0)]).(gameOver := true)
  {
  }

  /** From speed 5, four presses of "-" reach 1 and a fifth stays at 1. */
  lemma SlowDownToFloor()
    ensures Run(Initial(), [KeyDown(Minus, false), KeyDown(Minus, false), KeyDown(Minus, false),
                            KeyDown(Minus, false)]).speed == 1
    ensures Run(Initial(), [KeyDown(Minus, false), KeyDown(Minus, false), KeyDown(Minus, false),
                            KeyDown(Minus, false), KeyDown(Minus, false)]).speed == 1
  {
  }

  /** "=" alone does nothing; with Shift held it raises the speed by one. */
  lemma EqualsNeedsShift()
    ensures KeyPressSpec(Initial(), Equals, false) == Initial()
    ensures KeyPressSpec(Initial(), Equals, true).speed == DefaultSpeed + 1
  {
  }

  /** From the start position, Left moves the ship to 360 and Right to 380. */
  lemma ArrowsMoveTheShip()
    ensures KeyPressSpec(Initial(), Left, false).playerX == 360
    ensures KeyPressSpec(Initial(), Right, true).playerX == 380
  {
  }

  /** At the left edge Left does nothing; at the right edge (740) Right does nothing. */
  lemma ArrowsStopAtEdges()
    ensures KeyPressSpec(Initial().(playerX := 0), Left, false).playerX == 0
    ensures KeyPressSpec(Initial().(playerX := 740), Right, false).playerX == 740
  {
  }
}
