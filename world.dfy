/** The game state of the rock-avoidance game as a value, and the three
    operations on it (a timer tick, a key press, a restart) as functions.
    The class in game.dfy is proved to follow these functions step by step;
    the lemmas here say what the functions mean. */
module RockWorld {
  import opened Geometry

  // Game settings.
  const WindowWidth: int := 800
  const WindowHeight: int := 600
  const ObstacleWidth: int := 50
  const ObstacleHeight: int := 50
  const PlayerWidth: int := 60
  const PlayerHeight: int := 60

  /** Where a new or restarted game puts the ship: 370 and 520. */
  const StartX: int := WindowWidth / 2 - PlayerWidth / 2
  const StartY: int := WindowHeight - PlayerHeight - 20

  const DefaultSpeed: int := 5
  /** How far one arrow key moves the ship. */
  const MoveStep: int := 10
  /** A new rock's x is drawn from 0 <= x < SpawnRange. */
  const SpawnRange: int := WindowWidth - ObstacleWidth

  /** A falling rock; its width and height are always the obstacle size. */
  datatype Obstacle = Obstacle(x: int, y: int)

  /** The five fields the game logic reads and writes. */
  datatype World = World(playerX: int, playerY: int, obstacles: seq<Obstacle>, speed: int, gameOver: bool)

  /** The keys the handler distinguishes; every other key code is Other. */
  datatype Key = Left | Right | Equals | Minus | Other

  function Box(o: Obstacle): Rect {
    Rect(o.x, o.y, ObstacleWidth, ObstacleHeight)
  }

  function PlayerBox(px: int, py: int): Rect {
    Rect(px, py, PlayerWidth, PlayerHeight)
  }

  /** The rock after one tick's fall. */
  function Fall(o: Obstacle, speed: int): Obstacle {
    o.(y := o.y + speed)
  }

  /** A rock below the bottom edge of the window is dropped from the list. */
  predicate OffScreen(o: Obstacle) {
    o.y > WindowHeight
  }

  /** The rock, once fallen, overlaps the player's box. */
  predicate Hits(o: Obstacle, speed: int, player: Rect) {
    Intersects(Box(Fall(o, speed)), player)
  }

  // ---------------------------------------------------------------------------
  // The tick

  /** What the obstacle loop of one tick leaves behind: the new rock list and
      whether it stopped on a collision. */
  datatype Scan = Scan(rocks: seq<Obstacle>, hit: bool)

  /** The obstacle loop of one tick, rock by rock in list order: the rock falls,
      is dropped if it is off screen, and is then tested against the player
      (even when it was just dropped); the first hit ends the loop and leaves
      the remaining rocks where they were. */
  function Sweep(obs: seq<Obstacle>, speed: int, player: Rect): (r: Scan)
    ensures |r.rocks| <= |obs|
    decreases |obs|
  {
    if obs == [] then Scan([], false)
    else
      var o := Fall(obs[0], speed);
      var kept := if OffScreen(o) then [] else [o];
      if Intersects(Box(o), player) then Scan(kept + obs[1..], true)
      else
        var rest := Sweep(obs[1..], speed, player);
        Scan(kept + rest.rocks, rest.hit)
  }

  /** An independent reference for a tick without collision: every rock falls
      once and the ones now off screen are filtered out. */
  function Fallen(obs: seq<Obstacle>, speed: int): (r: seq<Obstacle>)
    ensures |r| <= |obs|
    ensures forall k :: 0 <= k < |r| ==> !OffScreen(r[k])
    decreases |obs|
  {
    if obs == [] then []
    else
      var o := Fall(obs[0], speed);
      (if OffScreen(o) then [] else [o]) + Fallen(obs[1..], speed)
  }

  /** The rock a tick appends at the top, if it spawns one. */
  function Spawned(spawn: bool, spawnX: int): seq<Obstacle> {
    if spawn then [Obstacle(spawnX, 0)] else []
  }

  /** One timer tick. The random spawn decision and the random x are the
      parameters spawn and spawnX. A spawn happens on every tick that started
      while playing, including the one that has just ended the game. */
  function TickSpec(w: World, spawn: bool, spawnX: int): (r: World)
    ensures w.gameOver ==> r == w
    ensures r.playerX == w.playerX && r.playerY == w.playerY && r.speed == w.speed
    ensures |r.obstacles| <= |w.obstacles| + (if spawn then 1 else 0)
  {
    if w.gameOver then w
    else
      var s := Sweep(w.obstacles, w.speed, PlayerBox(w.playerX, w.playerY));
      w.(obstacles := s.rocks + Spawned(spawn, spawnX), gameOver := s.hit)
  }

  // ---------------------------------------------------------------------------
  // Key presses and restart

  /** The larger of two speeds; "-" uses it to keep the speed at least 1. */
  function Max(a: int, b: int): int {
    if a < b then b else a
  }

  /** The player positions reachable with the arrow keys: on the 10-pixel grid
      and with the whole ship inside the window. */
  predicate OnGrid(px: int) {
    0 <= px <= WindowWidth - PlayerWidth && px % MoveStep == 0
  }

  /** One key press. Left and Right move the ship only while it is not at the
      edge it moves towards; Shift with "=" speeds the rocks up; "-" slows them
      down to no less than 1. Game over does not disable keys. */
  function KeyPressSpec(w: World, key: Key, shift: bool): (r: World)
    ensures r.playerY == w.playerY && r.obstacles == w.obstacles && r.gameOver == w.gameOver
    ensures key != Left && key != Right ==> r.playerX == w.playerX
    ensures key == Left ==> (r.playerX == w.playerX - MoveStep <==> w.playerX > 0) && r.playerX <= w.playerX
    ensures key == Left && w.playerX <= 0 ==> r == w
    ensures key == Right ==> (r.playerX == w.playerX + MoveStep <==> w.playerX < WindowWidth - PlayerWidth) &&
                             r.playerX >= w.playerX
    ensures key == Right && w.playerX >= WindowWidth - PlayerWidth ==> r == w
    ensures key != Minus && !(key == Equals && shift) ==> r.speed == w.speed
    ensures key == Equals && shift ==> r.speed == w.speed + 1
    ensures key == Minus ==> r.speed == Max(1, w.speed - 1)
    ensures w.speed >= 1 ==> r.speed >= 1
    ensures OnGrid(w.playerX) ==> OnGrid(r.playerX)
    ensures key == Other || (key == Equals && !shift) ==> r == w
  {
    match key
    case Left => if w.playerX > 0 then w.(playerX := w.playerX - MoveStep) else w
    case Right => if w.playerX < WindowWidth - PlayerWidth then w.(playerX := w.playerX + MoveStep) else w
    case Equals => if shift then w.(speed := w.speed + 1) else w
    case Minus => w.(speed := Max(1, w.speed - 1))
    case Other => w
  }

  /** Every rock the game stores between ticks is on screen and was spawned
      in the allowed x range. */
  predicate InRange(o: Obstacle) {
    0 <= o.x < SpawnRange && 0 <= o.y <= WindowHeight
  }

  predicate AllInRange(obs: seq<Obstacle>) {
    forall k :: 0 <= k < |obs| ==> InRange(obs[k])
  }

  /** The invariant every reachable state keeps. */
  predicate Inv(w: World) {
    OnGrid(w.playerX) && w.playerY == StartY && w.speed >= 1 && AllInRange(w.obstacles)
  }

  /** The state of a new game, and the state a restart produces from any state. */
  function Initial(): (r: World)
    ensures Inv(r) && !r.gameOver && r.obstacles == []
  {
    World(StartX, StartY, [], DefaultSpeed, false)
  }

  // ---------------------------------------------------------------------------
  // What the obstacle loop computes

  /** The loop reports a collision exactly when some rock, after its fall,
      overlaps the player. */
  lemma {:induction false} SweepHitIff(obs: seq<Obstacle>, speed: int, player: Rect)
    ensures Sweep(obs, speed, player).hit <==> exists k :: 0 <= k < |obs| && Hits(obs[k], speed, player)
    decreases |obs|
  {
    if obs != [] && !Hits(obs[0], speed, player) {
      var tail := obs[1..];
      SweepHitIff(tail, speed, player);
      if exists k :: 0 <= k < |obs| && Hits(obs[k], speed, player) {
        var k :| 0 <= k < |obs| && Hits(obs[k], speed, player);
        assert k > 0 && tail[k - 1] == obs[k];
      }
      if exists k :: 0 <= k < |tail| && Hits(tail[k], speed, player) {
        var k :| 0 <= k < |tail| && Hits(tail[k], speed, player);
        assert obs[k + 1] == tail[k];
      }
    }
  }

  /** Without a collision the loop moves every rock down once and drops the
      off-screen ones: the full-scan-then-filter reference. */
  lemma {:induction false} SweepNoHit(obs: seq<Obstacle>, speed: int, player: Rect)
    requires forall k :: 0 <= k < |obs| ==> !Hits(obs[k], speed, player)
    ensures Sweep(obs, speed, player) == Scan(Fallen(obs, speed), false)
    decreases |obs|
  {
    if obs != [] {
      var tail := obs[1..];
      assert !Hits(obs[0], speed, player);
      assert forall k :: 0 <= k < |tail| ==> tail[k] == obs[k + 1];
      SweepNoHit(tail, speed, player);
    }
  }

  /** With a first collision at index k, the rocks up to and including k have
      fallen (and are filtered), and every rock after k is left as it was. */
  lemma {:induction false} SweepFirstHit(obs: seq<Obstacle>, speed: int, player: Rect, k: nat)
    requires k < |obs| && Hits(obs[k], speed, player)
    requires forall j :: 0 <= j < k ==> !Hits(obs[j], speed, player)
    ensures Sweep(obs, speed, player) == Scan(Fallen(obs[..k + 1], speed) + obs[k + 1..], true)
    decreases k
  {
    var o := Fall(obs[0], speed);
    var kept := if OffScreen(o) then [] else [o];
    var tail := obs[1..];
    assert obs[..k + 1][1..] == tail[..k];
    if k == 0 {
      assert Fallen(obs[..1], speed) == kept + Fallen([], speed);
    } else {
      assert !Hits(obs[0], speed, player);
      assert forall j :: 0 <= j < k - 1 ==> tail[j] == obs[j + 1];
      SweepFirstHit(tail, speed, player, k - 1);
      assert tail[k..] == obs[k + 1..];
      assert Fallen(obs[..k + 1], speed) == kept + Fallen(tail[..k], speed);
    }
  }

  /** Falling and filtering keeps the original relative order: it works on a
      concatenation piece by piece. */
  lemma {:induction false} FallenConcat(a: seq<Obstacle>, b: seq<Obstacle>, speed: int)
    ensures Fallen(a + b, speed) == Fallen(a, speed) + Fallen(b, speed)
    decreases |a|
  {
    if a != [] {
      assert (a + b)[1..] == a[1..] + b;
      FallenConcat(a[1..], b, speed);
    } else {
      assert a + b == b;
    }
  }

  /** A rock is in the filtered list exactly when it is some old rock moved
      down by the speed, x unchanged, and still on screen. */
  lemma {:induction false} FallenMembers(obs: seq<Obstacle>, speed: int, o: Obstacle)
    ensures o in Fallen(obs, speed) <==>
            exists k :: 0 <= k < |obs| && o == Fall(obs[k], speed) && !OffScreen(o)
    decreases |obs|
  {
    if obs != [] {
      var tail := obs[1..];
      FallenMembers(tail, speed, o);
      if exists k :: 0 <= k < |obs| && o == Fall(obs[k], speed) && !OffScreen(o) {
        var k :| 0 <= k < |obs| && o == Fall(obs[k], speed) && !OffScreen(o);
        if k > 0 {
          assert tail[k - 1] == obs[k];
        }
      }
      if exists k :: 0 <= k < |tail| && o == Fall(tail[k], speed) && !OffScreen(o) {
        var k :| 0 <= k < |tail| && o == Fall(tail[k], speed) && !OffScreen(o);
        assert obs[k + 1] == tail[k];
      }
    }
  }

  /** Rocks the loop keeps are on screen: fallen ones by the removal test,
      skipped ones because they were before. */
  lemma {:induction false} SweepKeepsRange(obs: seq<Obstacle>, speed: int, player: Rect)
    requires speed >= 1 && AllInRange(obs)
    ensures AllInRange(Sweep(obs, speed, player).rocks)
    decreases |obs|
  {
    if obs != [] {
      var tail := obs[1..];
      assert forall k :: 0 <= k < |tail| ==> tail[k] == obs[k + 1];
      assert InRange(obs[0]);
      if !Hits(obs[0], speed, player) {
        SweepKeepsRange(tail, speed, player);
      }
    }
  }

  /** The rock tested after its removal (the loop uses it after remove(i))
      cannot hit a ship at its fixed height, whose box ends at y = 580. */
  lemma RemovedRockMisses(o: Obstacle, px: int)
    requires OffScreen(o)
    ensures !Intersects(Box(o), PlayerBox(px, StartY))
  {
  }

  // ---------------------------------------------------------------------------
  // What a tick does

  /** A tick ends the game exactly when it starts in game over or some rock,
      after its fall, overlaps the player. */
  lemma TickGameOverIff(w: World, spawn: bool, spawnX: int)
    ensures TickSpec(w, spawn, spawnX).gameOver <==>
            w.gameOver ||
            exists k :: 0 <= k < |w.obstacles| && Hits(w.obstacles[k], w.speed, PlayerBox(w.playerX, w.playerY))
  {
    SweepHitIff(w.obstacles, w.speed, PlayerBox(w.playerX, w.playerY));
  }

  /** A tick in play without any collision: all rocks fall once, off-screen
      ones go, order is kept, and the spawned rock (if any) goes last. */
  lemma TickNoHit(w: World, spawn: bool, spawnX: int)
    requires !w.gameOver
    requires forall k :: 0 <= k < |w.obstacles| ==> !Hits(w.obstacles[k], w.speed, PlayerBox(w.playerX, w.playerY))
    ensures TickSpec(w, spawn, spawnX) == w.(obstacles := Fallen(w.obstacles, w.speed) + Spawned(spawn, spawnX))
  {
    SweepNoHit(w.obstacles, w.speed, PlayerBox(w.playerX, w.playerY));
  }

  /** A tick in play whose first collision is rock k: the game ends, the rocks
      after k keep their old positions, and a spawned rock is still appended. */
  lemma TickFirstHit(w: World, spawn: bool, spawnX: int, k: nat)
    requires !w.gameOver && k < |w.obstacles|
    requires Hits(w.obstacles[k], w.speed, PlayerBox(w.playerX, w.playerY))
    requires forall j :: 0 <= j < k ==> !Hits(w.obstacles[j], w.speed, PlayerBox(w.playerX, w.playerY))
    ensures TickSpec(w, spawn, spawnX) ==
            w.(obstacles := Fallen(w.obstacles[..k + 1], w.speed) + w.obstacles[k + 1..] + Spawned(spawn, spawnX),
               gameOver := true)
  {
    SweepFirstHit(w.obstacles, w.speed, PlayerBox(w.playerX, w.playerY), k);
  }

  /** Ticks keep the invariant, given a spawn x in the range the game draws from. */
  lemma TickPreservesInv(w: World, spawn: bool, spawnX: int)
    requires Inv(w) && 0 <= spawnX < SpawnRange
    ensures Inv(TickSpec(w, spawn, spawnX))
  {
    if !w.gameOver {
      SweepKeepsRange(w.obstacles, w.speed, PlayerBox(w.playerX, w.playerY));
    }
  }

  /** Away from both edges, Left and Right undo each other. */
  lemma LeftRightUndo(w: World)
    requires 0 < w.playerX < WindowWidth - PlayerWidth
    ensures KeyPressSpec(KeyPressSpec(w, Left, false), Right, false) == w
    ensures KeyPressSpec(KeyPressSpec(w, Right, false), Left, false) == w
  {
  }

  /** Key presses keep the invariant. */
  lemma KeyPressPreservesInv(w: World, key: Key, shift: bool)
    requires Inv(w)
    ensures Inv(KeyPressSpec(w, key, shift))
  {
  }
}
