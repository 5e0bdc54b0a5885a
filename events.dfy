/** Runs of the game: any interleaving of timer ticks, key presses and clicks
    on the restart button, applied one at a time (all of them arrive on the
    one UI thread, so each is atomic). */
module GameRuns {
  import opened RockWorld

  datatype Event =
    | TimerTick(spawn: bool, spawnX: int)
    | KeyDown(key: Key, shift: bool)
    | RestartClick

  function Step(w: World, e: Event): World {
    match e
    case TimerTick(spawn, spawnX) => TickSpec(w, spawn, spawnX)
    case KeyDown(key, shift) => KeyPressSpec(w, key, shift)
    case RestartClick => Initial()
  }

  function Run(w: World, events: seq<Event>): World
    decreases |events|
  {
    if events == [] then w else Run(Step(w, events[0]), events[1..])
  }

  /** Every tick's spawn x was drawn from the range the game uses. */
  predicate SpawnsInRange(events: seq<Event>) {
    forall i :: 0 <= i < |events| && events[i].TimerTick? ==> 0 <= events[i].spawnX < SpawnRange
  }

  predicate OnlyTicks(events: seq<Event>) {
    forall i :: 0 <= i < |events| ==> events[i].TimerTick?
  }

  predicate OnlyKeys(events: seq<Event>) {
    forall i :: 0 <= i < |events| ==> events[i].KeyDown?
  }

  /** Whatever happens, the ship stays on the grid inside the window, the
      speed stays at least 1 and every stored rock is on screen. */
  lemma {:induction false} RunPreservesInv(w: World, events: seq<Event>)
    requires Inv(w) && SpawnsInRange(events)
    ensures Inv(Run(w, events))
    decreases |events|
  {
    if events != [] {
      var e := events[0];
      match e {
        case TimerTick(spawn, spawnX) =>
          assert 0 <= spawnX < SpawnRange;
          TickPreservesInv(w, spawn, spawnX);
        case KeyDown(key, shift) =>
          KeyPressPreservesInv(w, key, shift);
        case RestartClick =>
      }
      assert SpawnsInRange(events[1..]) by {
        forall i | 0 <= i < |events[1..]| && events[1..][i].TimerTick?
          ensures 0 <= events[1..][i].spawnX < SpawnRange
        {
          assert events[1..][i] == events[i + 1];
        }
      }
      RunPreservesInv(Step(w, e), events[1..]);
    }
  }

  /** From a new game, any run keeps the invariant. */
  lemma RunFromStart(events: seq<Event>)
    requires SpawnsInRange(events)
    ensures Inv(Run(Initial(), events))
  {
    RunPreservesInv(Initial(), events);
  }

  /** Key presses alone never touch the rocks or the game-over flag, and keep
      the ship on the grid and the speed at least 1. */
  lemma {:induction false} KeysOnly(w: World, events: seq<Event>)
    requires OnlyKeys(events) && OnGrid(w.playerX) && w.speed >= 1
    ensures OnGrid(Run(w, events).playerX) && Run(w, events).speed >= 1
    ensures Run(w, events).obstacles == w.obstacles && Run(w, events).gameOver == w.gameOver
    ensures Run(w, events).playerY == w.playerY
    decreases |events|
  {
    if events != [] {
      assert events[0].KeyDown?;
      assert OnlyKeys(events[1..]) by {
        forall i | 0 <= i < |events[1..]| ensures events[1..][i].KeyDown? {
          assert events[1..][i] == events[i + 1];
        }
      }
      KeysOnly(Step(w, events[0]), events[1..]);
    }
  }

  /** Once the game is over, no number of ticks changes anything. */
  lemma {:induction false} FrozenUnderTicks(w: World, events: seq<Event>)
    requires w.gameOver && OnlyTicks(events)
    ensures Run(w, events) == w
    decreases |events|
  {
    if events != [] {
      assert events[0].TimerTick?;
      assert OnlyTicks(events[1..]) by {
        forall i | 0 <= i < |events[1..]| ensures events[1..][i].TimerTick? {
          assert events[1..][i] == events[i + 1];
        }
      }
      FrozenUnderTicks(Step(w, events[0]), events[1..]);
    }
  }

  /** Restart forgets the past: after it, a run depends only on what follows. */
  lemma RestartForgets(w: World, v: World, events: seq<Event>)
    ensures Run(w, [RestartClick] + events) == Run(v, [RestartClick] + events)
  {
  }

  /** Two restarts in a row equal one. */
  lemma RestartTwice(w: World)
    ensures Run(w, [RestartClick, RestartClick]) == Run(w, [RestartClick]) == Initial()
  {
  }
}
