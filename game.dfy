/** The game panel's logic as an object whose fields the timer and key
    handlers update in place, each handler proved to follow the matching
    function of RockWorld. */
module RockAvoidance {
  import opened Geometry
  import opened RockWorld

  /** One turn of the obstacle loop, in terms of Sweep: rock j falls to o, the
      rocks handled so far grow from done to next (by o unless it is off
      screen), and the loop either ends on a hit or hands over to rock j + 1. */
  lemma SweepStep(orig: seq<Obstacle>, j: nat, speed: int, player: Rect,
                  done: seq<Obstacle>, o: Obstacle, next: seq<Obstacle>)
    requires j < |orig| && o == Fall(orig[j], speed)
    requires next == if OffScreen(o) then done else done + [o]
    requires Sweep(orig, speed, player) == Scan(done + Sweep(orig[j..], speed, player).rocks,
                                                Sweep(orig[j..], speed, player).hit)
    ensures Intersects(Box(o), player) ==>
              Sweep(orig, speed, player) == Scan(next + orig[j + 1..], true)
    ensures !Intersects(Box(o), player) ==>
              Sweep(orig, speed, player) == Scan(next + Sweep(orig[j + 1..], speed, player).rocks,
                                                 Sweep(orig[j + 1..], speed, player).hit)
  {
    var rest := orig[j..];
    assert rest[0] == orig[j] && rest[1..] == orig[j + 1..];
    var kept := if OffScreen(o) then [] else [o];
    assert next == done + kept;
    var s := Sweep(rest, speed, player);
    if Intersects(Box(o), player) {
      assert s == Scan(kept + orig[j + 1..], true);
      assert done + (kept + orig[j + 1..]) == next + orig[j + 1..];
    } else {
      var t := Sweep(orig[j + 1..], speed, player);
      assert s == Scan(kept + t.rocks, t.hit);
      assert done + (kept + t.rocks) == next + t.rocks;
    }
  }

  lemma ReplaceAt(done: seq<Obstacle>, rest: seq<Obstacle>, o: Obstacle)
    requires rest != []
    ensures (done + rest)[|done| := o] == done + [o] + rest[1..]
  {
  }

  lemma RemoveAt(done: seq<Obstacle>, rest: seq<Obstacle>, o: Obstacle)
    ensures (done + [o] + rest)[..|done|] + (done + [o] + rest)[|done| + 1..] == done + rest
  {
  }

  class Game {
    var playerX: int
    var playerY: int
    /** The rocks in spawn order. */
    var obstacles: seq<Obstacle>
    var speed: int
    var gameOver: bool
    /** Whether the restart button is shown; it is shown exactly in game over. */
    ghost var restartShown: bool

    /** The fields as a value. */
    function State(): World
      reads this
    {
      World(playerX, playerY, obstacles, speed, gameOver)
    }

    ghost predicate Valid()
      reads this
    {
      Inv(State()) && restartShown == gameOver
    }

    /** A new game: the ship centred, no rocks, speed 5, playing. */
    constructor ()
      ensures Valid() && State() == Initial()
    {
      playerX := StartX;
      playerY := StartY;
      obstacles := [];
      speed := DefaultSpeed;
      gameOver := false;
      restartShown := false;
    }

    /** One timer tick. While playing, every rock falls by the speed, rocks
        below the window are removed from the list in place, and the first rock
        that overlaps the ship ends the game; then a rock may spawn at the top
        (the random choices are the parameters). In game over nothing changes. */
    method Tick(spawn: bool, spawnX: int)
      requires Valid() && 0 <= spawnX < SpawnRange
      modifies this
      ensures Valid()
      ensures State() == TickSpec(old(State()), spawn, spawnX)
    {
      if !gameOver {
        ghost var orig := obstacles;
        ghost var player := PlayerBox(playerX, playerY);
        ghost var done: seq<Obstacle> := [];
        ghost var j := 0;
        var i := 0;
        while i < |obstacles|
          invariant 0 <= j <= |orig| && i == |done|
          invariant obstacles == done + orig[j..]
          invariant Sweep(orig, speed, player) == Scan(done + Sweep(orig[j..], speed, player).rocks,
                                                       Sweep(orig[j..], speed, player).hit)
          invariant !gameOver && !restartShown
          invariant playerX == old(playerX) && playerY == old(playerY) && speed == old(speed)
          decreases |orig| - j
        {
          ghost var before := done;
          var obstacle := obstacles[i];
          obstacle := obstacle.(y := obstacle.y + speed);
          obstacles := obstacles[i := obstacle];
          ReplaceAt(done, orig[j..], obstacle);
          if obstacle.y > WindowHeight {
            obstacles := obstacles[..i] + obstacles[i + 1..];
            i := i - 1;
            RemoveAt(done, orig[j + 1..], obstacle);
          } else {
            done := done + [obstacle];
          }
          SweepStep(orig, j, speed, player, before, obstacle, done);
          j := j + 1;
          if Intersects(Box(obstacle), PlayerBox(playerX, playerY)) {
            gameOver := true;
            restartShown := true;
            break;
          }
          i := i + 1;
        }
        assert obstacles == Sweep(orig, speed, player).rocks && gameOver == Sweep(orig, speed, player).hit;
        if spawn {
          obstacles := obstacles + [Obstacle(spawnX, 0)];
        }
        assert State() == TickSpec(old(State()), spawn, spawnX);
        TickPreservesInv(old(State()), spawn, spawnX);
      }
    }

    /** One key press (key code and whether Shift is held). */
    method KeyPress(key: Key, shift: bool)
      requires Valid()
      modifies this
      ensures Valid()
      ensures State() == KeyPressSpec(old(State()), key, shift)
      ensures restartShown == old(restartShown)
    {
      if key == Left {
        if playerX > 0 {
          playerX := playerX - MoveStep;
        }
      }
      if key == Right {
        if playerX < WindowWidth - PlayerWidth {
          playerX := playerX + MoveStep;
        }
      }
      if key == Equals {
        if shift {
          speed := speed + 1;
        }
      }
      if key == Minus {
        speed := Max(1, speed - 1);
      }
      KeyPressPreservesInv(old(State()), key, shift);
    }

    /** The restart button: back to a new game from any state. */
    method Restart()
      modifies this
      ensures Valid() && State() == Initial()
    {
      playerX := StartX;
      playerY := StartY;
      obstacles := [];
      speed := DefaultSpeed;
      gameOver := false;
      restartShown := false;
    }
  }
}
