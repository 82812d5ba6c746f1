/**
 * Properties of the shooter across frames and clicks: the invariant every
 * reachable game keeps, the consequence that the bottom-edge cull never
 * fires while playing, score conservation, spawn cadence, the frozen
 * game-over state, and the worked example frames.
 */
module ShootingGameProofs {
  import opened Wrappers
  import opened ShootingGame

  /** What holds of every game reachable from the initial one. */
  ghost predicate Invariant(g: Game)
  {
    && g.round.player == Pos(290.0, 370.0)
    && g.score % HitPoints == 0
    && (g.phase == Start ==> g == InitialGame())
    && (forall b :: b in g.round.bullets ==> 0.0 <= b.y <= g.round.player.y)
    && (forall e :: e in g.round.enemies ==> -EnemySize <= e.y)
    && (g.phase == Playing ==> forall e :: e in g.round.enemies ==> e.y + EnemySize <= g.round.player.y)
  }

  lemma InitialInvariant()
    ensures Invariant(InitialGame())
  {
  }

  /** A frame keeps the invariant. */
  lemma TickPreservesInvariant(g: Game, now: int, spawnX: real)
    requires 0.0 <= spawnX < CanvasWidth - EnemySize
    requires Invariant(g)
    ensures Invariant(Tick(g, now, spawnX).game)
  {
    var f := Tick(g, now, spawnX).game;
    if g.phase == Playing {
      var k := |Step(g.round, now, spawnX).hits|;
      MultipleOfHitPoints(g.score, k, f.score);
      assert f.phase != Start;
      forall b | b in f.round.bullets
        ensures 0.0 <= b.y <= f.round.player.y
      {
        assert Pos(b.x, b.y + 10.0) in g.round.bullets;
      }
      forall e | e in f.round.enemies
        ensures -EnemySize <= e.y
      {
        if !IsSpawned(e) {
          assert Pos(e.x, e.y - 2.0) in g.round.enemies;
        }
      }
    }
  }

  /** Adding whole hits to a multiple of the hit value keeps it a multiple. */
  lemma MultipleOfHitPoints(before: int, k: nat, after: int)
    requires before % HitPoints == 0
    requires after == before + HitPoints * k
    ensures after % HitPoints == 0
  {
  }

  /** A click keeps the invariant. */
  lemma ClickPreservesInvariant(g: Game, mouseX: real)
    requires Invariant(g)
    ensures Invariant(Click(g, mouseX))
  {
  }

  /** Enemies that all stay above the bottom edge after descending are all kept, in order. */
  lemma {:induction false} NothingCulled(es: seq<Pos>)
    requires forall e :: e in es ==> e.y + EnemySpeed <= CanvasHeight
    ensures |Descend(es)| == |es|
    ensures forall i :: 0 <= i < |es| ==> Descend(es)[i] == Pos(es[i].x, es[i].y + 2.0)
  {
    if |es| > 0 {
      NothingCulled(es[1..]);
      assert es[0] in es;
    }
  }

  /**
   * With the player at y = 370, an enemy whose bottom edge passes 370 ends
   * the round, so while playing every enemy is at y <= 340 and the
   * bottom-edge cull (y > 400 after descending) never removes anything.
   */
  lemma BottomCullUnreachable(g: Game)
    requires Invariant(g)
    requires g.phase == Playing
    ensures |Descend(g.round.enemies)| == |g.round.enemies|
    ensures forall i :: 0 <= i < |g.round.enemies| ==>
      Descend(g.round.enemies)[i] == Pos(g.round.enemies[i].x, g.round.enemies[i].y + 2.0)
  {
    NothingCulled(g.round.enemies);
  }

  /**
   * Score conservation: a frame adds 10 points per bullet and per enemy
   * consumed by a hit, counted after the bullet and movement passes and
   * not counting the enemy spawned in the frame.
   */
  lemma CollisionConservation(g: Game, now: int, spawnX: real)
    requires 0.0 <= spawnX < CanvasWidth - EnemySize
    requires g.phase == Playing
    ensures var f := Tick(g, now, spawnX);
      var spawned := if now - g.round.lastSpawn > SpawnInterval then 1 else 0;
      && |f.game.round.bullets| <= |AdvanceBullets(g.round.bullets)|
      && f.game.score - g.score == 10 * (|AdvanceBullets(g.round.bullets)| - |f.game.round.bullets|)
      && f.game.score - g.score == 10 * (|Descend(g.round.enemies)| + spawned - |f.game.round.enemies|)
  {
    var u := Step(g.round, now, spawnX);
    MultisetSplitLength(u.round.bullets, HitBullets(u.hits), AdvanceBullets(g.round.bullets));
    var es := u.round.enemies;
    if now - g.round.lastSpawn > SpawnInterval {
      MultisetSplitLength(es[..|es| - 1], HitEnemies(u.hits), Descend(g.round.enemies));
    } else {
      MultisetSplitLength(es, HitEnemies(u.hits), Descend(g.round.enemies));
    }
  }

  /**
   * Spawn cadence: a frame adds at most one enemy, only when more than
   * 1000 ms have passed since the last spawn, and then at the top edge in
   * the given column; the spawn time is updated exactly then.
   */
  lemma SpawnCadence(g: Game, now: int, spawnX: real)
    requires 0.0 <= spawnX < CanvasWidth - EnemySize
    requires g.phase == Playing
    ensures var f := Tick(g, now, spawnX);
      if now - g.round.lastSpawn > 1000 then
        && f.game.round.lastSpawn == now
        && 0 < |f.game.round.enemies| <= |g.round.enemies| + 1
        && f.game.round.enemies[|f.game.round.enemies| - 1] == Pos(spawnX, -30.0)
      else
        && f.game.round.lastSpawn == g.round.lastSpawn
        && |f.game.round.enemies| <= |g.round.enemies|
  {
    CollisionConservation(g, now, spawnX);
  }

  /** Two frames less than or equal to 1000 ms apart never both spawn. */
  lemma NoCloseSpawns(g: Game, t1: int, x1: real, t2: int, x2: real)
    requires 0.0 <= x1 < CanvasWidth - EnemySize && 0.0 <= x2 < CanvasWidth - EnemySize
    requires g.phase == Playing
    requires t1 - g.round.lastSpawn > 1000
    requires t2 - t1 <= 1000
    ensures var f1 := Tick(g, t1, x1).game;
      Tick(f1, t2, x2).game.round.lastSpawn == f1.round.lastSpawn
    ensures var f1 := Tick(g, t1, x1).game;
      |Tick(f1, t2, x2).game.round.enemies| <= |f1.round.enemies|
  {
    var f1 := Tick(g, t1, x1).game;
    SpawnCadence(g, t1, x1);
    if f1.phase == Playing {
      SpawnCadence(f1, t2, x2);
    }
  }

  /**
   * Two bullets low enough to leave the screen in the same frame: the
   * source's splice inside `forEach` drops the first and never visits the
   * second, which stays on screen without moving, whereas the intended pass
   * (every bullet rises, off-screen ones go) drops both.
   */
  lemma SpliceSkipsBullet()
    ensures var bs := [Pos(0.0, 5.0), Pos(0.0, 5.0)];
      && AdvanceBulletsAsWritten(bs, 0, |bs|) == [Pos(0.0, 5.0)]
      && AdvanceBullets(bs) == []
  {
  }

  /** Input to the game: a frame at a time with a spawn column, or a click at a column. */
  datatype Event = TickAt(now: int, spawnX: real) | ClickAt(mouseX: real)

  predicate ValidEvent(ev: Event)
  {
    ev.TickAt? ==> 0.0 <= ev.spawnX < CanvasWidth - EnemySize
  }

  function Apply(g: Game, ev: Event): (r: Game)
    requires ValidEvent(ev)
  {
    match ev
    case TickAt(now, spawnX) => Tick(g, now, spawnX).game
    case ClickAt(mouseX) => Click(g, mouseX)
  }

  /** The game after a sequence of events, applied in order. */
  function Run(g: Game, evs: seq<Event>): (r: Game)
    requires forall i :: 0 <= i < |evs| ==> ValidEvent(evs[i])
    decreases |evs|
  {
    if |evs| == 0 then g else Run(Apply(g, evs[0]), evs[1..])
  }

  /** Every game reachable by events from an invariant one satisfies the invariant. */
  lemma {:induction false} RunPreservesInvariant(g: Game, evs: seq<Event>)
    requires forall i :: 0 <= i < |evs| ==> ValidEvent(evs[i])
    requires Invariant(g)
    ensures Invariant(Run(g, evs))
    decreases |evs|
  {
    if |evs| > 0 {
      match evs[0] {
        case TickAt(now, spawnX) => TickPreservesInvariant(g, now, spawnX);
        case ClickAt(mouseX) => ClickPreservesInvariant(g, mouseX);
      }
      RunPreservesInvariant(Apply(g, evs[0]), evs[1..]);
    }
  }

  /**
   * While playing, in any game reachable from the initial one, the
   * bottom-edge cull removes nothing.
   */
  lemma ReachableNeverCullsAtBottom(evs: seq<Event>)
    requires forall i :: 0 <= i < |evs| ==> ValidEvent(evs[i])
    requires Run(InitialGame(), evs).phase == Playing
    ensures |Descend(Run(InitialGame(), evs).round.enemies)| == |Run(InitialGame(), evs).round.enemies|
  {
    InitialInvariant();
    RunPreservesInvariant(InitialGame(), evs);
    BottomCullUnreachable(Run(InitialGame(), evs));
  }

  /** Once a round is over, frames change nothing until a click restarts it. */
  lemma {:induction false} FrozenWithoutClicks(g: Game, evs: seq<Event>)
    requires forall i :: 0 <= i < |evs| ==> ValidEvent(evs[i]) && evs[i].TickAt?
    requires g.phase != Playing
    ensures Run(g, evs) == g
  {
    if |evs| > 0 {
      FrozenWithoutClicks(g, evs[1..]);
    }
  }

  /** Clicks walk the phases start, playing, game over back to start. */
  lemma PhaseCycle(g: Game, x1: real, x2: real)
    requires g.phase == GameOver
    ensures Click(g, x1) == InitialGame()
    ensures Click(Click(g, x1), x2) == InitialGame().(phase := Playing)
  {
  }

  /** Worked example: start, fire from x = 300, one frame with no enemies. */
  lemma ScenarioFireAndRise(now: int)
    requires now <= 1000
    ensures var g1 := Click(InitialGame(), 12.0);
      var g2 := Click(g1, 300.0);
      var f := Tick(g2, now, 0.0);
      && g1.phase == Playing && g1.round == InitialRound() && g1.score == 0
      && g2.round.bullets == [Pos(297.5, 370.0)]
      && f.game.round.bullets == [Pos(297.5, 360.0)]
      && f.game.round.enemies == []
      && f.game.score == 0 && f.requestFrame
  {
  }

  /** Worked example: a bullet fired from x = 300 meets an enemy at (295, 350). */
  lemma ScenarioHit(now: int, spawnX: real)
    requires now <= 1000
    requires 0.0 <= spawnX < CanvasWidth - EnemySize
    ensures var g := Game(Round(Pos(290.0, 370.0), [Pos(297.5, 370.0)], [Pos(295.0, 350.0)], 0), 0, Playing);
      var f := Tick(g, now, spawnX);
      && f.game.round.bullets == [] && f.game.round.enemies == []
      && f.game.score == 10 && f.requestFrame
  {
  }

  /** Worked example: an enemy that descends past the player's line ends the round. */
  lemma ScenarioBreach(now: int, spawnX: real)
    requires now <= 1000
    requires 0.0 <= spawnX < CanvasWidth - EnemySize
    ensures var g := Game(Round(Pos(290.0, 370.0), [], [Pos(0.0, 339.0)], 0), 0, Playing);
      var f := Tick(g, now, spawnX);
      && f.game.phase == GameOver && !f.requestFrame
      && f.game.round.enemies == [Pos(0.0, 341.0)]
  {
  }
}
