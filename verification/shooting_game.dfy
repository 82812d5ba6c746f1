/**
 * The arcade shooter of src/ShootingGame.jsx: the round record built by
 * `initializeGame`, the per-frame update of `gameLoop` and the phase logic of
 * `handleClick`.
 *
 * The component keeps the round in mutable React state and re-schedules
 * itself through `requestAnimationFrame`.  Here a round is an immutable
 * value, one frame is the pure function `Tick`, and "schedule another frame"
 * is the boolean `requestFrame` of its result.  The clock (`Date.now()`) and
 * the random spawn column (`Math.random() * (CANVAS_WIDTH - ENEMY_SIZE)`) are
 * parameters.  Coordinates are exact rationals (`real`).
 */
module ShootingGame {
  import opened Wrappers

  // Playfield and entity configuration.
  const CanvasWidth: real := 600.0
  const CanvasHeight: real := 400.0
  const PlayerSize: real := 20.0
  const EnemySize: real := 30.0
  const BulletSize: real := 5.0
  /** Pixels a bullet rises per frame. */
  const BulletSpeed: real := 10.0
  /** Pixels an enemy descends per frame. */
  const EnemySpeed: real := 2.0
  /** Milliseconds that must strictly elapse between two enemy spawns. */
  const SpawnInterval: int := 1000
  /** Points for each bullet/enemy pair destroyed. */
  const HitPoints: nat := 10

  /** Top-left corner of a square entity. */
  datatype Pos = Pos(x: real, y: real)

  datatype Phase = Start | Playing | GameOver

  /** The object built by `initializeGame` and mutated by the game loop. */
  datatype Round = Round(player: Pos, bullets: seq<Pos>, enemies: seq<Pos>, lastSpawn: int)

  /** Everything the component keeps: the round, the score and the phase. */
  datatype Game = Game(round: Round, score: nat, phase: Phase)

  /** A bullet and an enemy destroyed together in one frame. */
  datatype Hit = Hit(bullet: Pos, enemy: Pos)

  /** The outcome of the enemy pass of one frame. */
  datatype Resolution = Resolution(bullets: seq<Pos>, enemies: seq<Pos>, hits: seq<Hit>)

  /** The state-changing outcome of one frame, before the phase is decided. */
  datatype Update = Update(round: Round, hits: seq<Hit>)

  /** A frame's result: the new game and whether another frame is requested. */
  datatype Frame = Frame(game: Game, requestFrame: bool)

  /** The round every game starts (and restarts) with. */
  function InitialRound(): (r: Round)
    ensures r.player == Pos(290.0, 370.0)
    ensures r.player.x + PlayerSize / 2.0 == CanvasWidth / 2.0
    ensures r.player.y + PlayerSize < CanvasHeight
    ensures r.bullets == [] && r.enemies == [] && r.lastSpawn == 0
  {
    Round(Pos(CanvasWidth / 2.0 - PlayerSize / 2.0, CanvasHeight - PlayerSize - 10.0), [], [], 0)
  }

  /** The state the component mounts with, and the state a restart returns to. */
  function InitialGame(): (g: Game)
    ensures g.phase == Start && g.score == 0
    ensures g.round.player == Pos(290.0, 370.0)
    ensures g.round.bullets == [] && g.round.enemies == [] && g.round.lastSpawn == 0
  {
    Game(InitialRound(), 0, Start)
  }

  function MoveBullet(b: Pos): (r: Pos)
  {
    Pos(b.x, b.y - BulletSpeed)
  }

  function MoveEnemy(e: Pos): (r: Pos)
  {
    Pos(e.x, e.y + EnemySpeed)
  }

  /**
   * The bullet pass: every bullet rises, and a bullet above the top edge is
   * dropped.  The source splices inside `forEach`, which skips the bullet
   * after a dropped one; the model moves every bullet and filters.
   */
  function AdvanceBullets(bs: seq<Pos>): (r: seq<Pos>)
    ensures |r| <= |bs|
  {
    if |bs| == 0 then []
    else
      var b := MoveBullet(bs[0]);
      var rest := AdvanceBullets(bs[1..]);
      if b.y < 0.0 then rest else [b] + rest
  }

  /**
   * The bullet pass as the source writes it: `forEach` over the live array
   * from index `i`, visiting only indices below both the length it started
   * with and the current length, moving the bullet at the index and
   * splicing it out when it is above the top edge.  After a splice the next
   * bullet shifts into the visited index and is not moved in this frame.
   */
  function AdvanceBulletsAsWritten(arr: seq<Pos>, i: nat, len0: nat): (r: seq<Pos>)
    ensures |r| <= |arr|
    decreases len0 - i
  {
    if i >= len0 || i >= |arr| then arr
    else
      var b := MoveBullet(arr[i]);
      if b.y < 0.0 then AdvanceBulletsAsWritten(arr[..i] + arr[i + 1..], i + 1, len0)
      else AdvanceBulletsAsWritten(arr[..i] + [b] + arr[i + 1..], i + 1, len0)
  }

  /** Every bullet the bullet pass keeps is an old bullet, risen, not above the top edge. */
  lemma {:induction false} AdvanceBulletsSound(bs: seq<Pos>)
    ensures forall i :: 0 <= i < |AdvanceBullets(bs)| ==>
      0.0 <= AdvanceBullets(bs)[i].y && Pos(AdvanceBullets(bs)[i].x, AdvanceBullets(bs)[i].y + 10.0) in bs
  {
    if |bs| > 0 {
      AdvanceBulletsSound(bs[1..]);
      forall i | 0 <= i < |AdvanceBullets(bs[1..])|
        ensures AdvanceBullets(bs[1..])[i] in AdvanceBullets(bs[1..])
      {
      }
    }
  }

  /** Every old bullet that is still on screen after rising is kept by the bullet pass. */
  lemma {:induction false} AdvanceBulletsComplete(bs: seq<Pos>)
    ensures forall b :: b in bs && 0.0 <= b.y - 10.0 ==> Pos(b.x, b.y - 10.0) in AdvanceBullets(bs)
  {
    if |bs| > 0 {
      AdvanceBulletsComplete(bs[1..]);
      forall b | b in bs && 0.0 <= b.y - 10.0
        ensures Pos(b.x, b.y - 10.0) in AdvanceBullets(bs)
      {
        if b != bs[0] {
          assert b in bs[1..];
        }
      }
    }
  }

  /**
   * The bullet pass keeps every copy: a position occurs in the result as many
   * times as the bullet 10 below it occurs in the input, when on screen.
   */
  lemma {:induction false} AdvanceBulletsCount(bs: seq<Pos>, p: Pos)
    ensures multiset(AdvanceBullets(bs))[p] ==
      (if 0.0 <= p.y then multiset(bs)[Pos(p.x, p.y + 10.0)] else 0)
  {
    if |bs| > 0 {
      AdvanceBulletsCount(bs[1..], p);
      assert bs == [bs[0]] + bs[1..];
    }
  }

  /**
   * Reference for the movement part of the enemy pass: every enemy descends,
   * and an enemy below the bottom edge is dropped.
   */
  function Descend(es: seq<Pos>): (r: seq<Pos>)
    ensures |r| <= |es|
  {
    if |es| == 0 then []
    else
      var e := MoveEnemy(es[0]);
      var rest := Descend(es[1..]);
      if e.y > CanvasHeight then rest else [e] + rest
  }

  /** Every enemy the movement pass keeps is an old enemy, descended, not below the bottom edge. */
  lemma {:induction false} DescendSound(es: seq<Pos>)
    ensures forall i :: 0 <= i < |Descend(es)| ==>
      Descend(es)[i].y <= 400.0 && Pos(Descend(es)[i].x, Descend(es)[i].y - 2.0) in es
  {
    if |es| > 0 {
      DescendSound(es[1..]);
      forall i | 0 <= i < |Descend(es[1..])|
        ensures Descend(es[1..])[i] in Descend(es[1..])
      {
      }
    }
  }

  /** Every old enemy still on screen after descending is kept by the movement pass. */
  lemma {:induction false} DescendComplete(es: seq<Pos>)
    ensures forall e :: e in es && e.y + 2.0 <= 400.0 ==> Pos(e.x, e.y + 2.0) in Descend(es)
  {
    if |es| > 0 {
      DescendComplete(es[1..]);
      forall e | e in es && e.y + 2.0 <= 400.0
        ensures Pos(e.x, e.y + 2.0) in Descend(es)
      {
        if e != es[0] {
          assert e in es[1..];
        }
      }
    }
  }

  /**
   * The movement pass keeps every copy: a position occurs in the result as
   * many times as the enemy 2 above it occurs in the input, when on screen.
   */
  lemma {:induction false} DescendCount(es: seq<Pos>, p: Pos)
    ensures multiset(Descend(es))[p] ==
      (if p.y <= 400.0 then multiset(es)[Pos(p.x, p.y - 2.0)] else 0)
  {
    if |es| > 0 {
      DescendCount(es[1..], p);
      assert es == [es[0]] + es[1..];
    }
  }

  /** The axis-aligned box test of the source, with its four strict inequalities. */
  predicate Overlaps(b: Pos, e: Pos)
  {
    && b.x < e.x + EnemySize
    && b.x + BulletSize > e.x
    && b.y < e.y + EnemySize
    && b.y + BulletSize > e.y
  }

  /** Index of the first bullet of `bs[from..]` that overlaps `e`. */
  function FirstHitFrom(bs: seq<Pos>, e: Pos, from: nat): (r: Option<nat>)
    requires from <= |bs|
    ensures r.Some? ==> from <= r.value < |bs| && Overlaps(bs[r.value], e)
    ensures r.Some? ==> forall j :: from <= j < r.value ==> !Overlaps(bs[j], e)
    ensures r.None? ==> forall j :: from <= j < |bs| ==> !Overlaps(bs[j], e)
    decreases |bs| - from
  {
    if from == |bs| then None
    else if Overlaps(bs[from], e) then Some(from)
    else FirstHitFrom(bs, e, from + 1)
  }

  /** Index of the first bullet that overlaps `e`, if any does. */
  function FirstHit(bs: seq<Pos>, e: Pos): (r: Option<nat>)
    ensures r.Some? ==> r.value < |bs| && Overlaps(bs[r.value], e)
    ensures r.Some? ==> forall j :: 0 <= j < r.value ==> !Overlaps(bs[j], e)
    ensures r.None? ==> forall j :: 0 <= j < |bs| ==> !Overlaps(bs[j], e)
  {
    FirstHitFrom(bs, e, 0)
  }

  function RemoveAt(s: seq<Pos>, k: nat): (r: seq<Pos>)
    requires k < |s|
    ensures |r| == |s| - 1
    ensures multiset(r) + multiset{s[k]} == multiset(s)
  {
    assert s == s[..k] + [s[k]] + s[k+1..];
    s[..k] + s[k+1..]
  }

  /** The bullets of a list of hits, in order. */
  function HitBullets(hs: seq<Hit>): (r: seq<Pos>)
    ensures |r| == |hs|
  {
    if |hs| == 0 then [] else [hs[0].bullet] + HitBullets(hs[1..])
  }

  /** The enemies of a list of hits, in order. */
  function HitEnemies(hs: seq<Hit>): (r: seq<Pos>)
    ensures |r| == |hs|
  {
    if |hs| == 0 then [] else [hs[0].enemy] + HitEnemies(hs[1..])
  }

  /**
   * The enemy pass: each enemy in turn descends, is dropped below the bottom
   * edge without a hit test, and otherwise is checked against the bullets.
   *
   * Divergence from the source: `gameLoop` splices both arrays while
   * iterating them with `forEach`, so it can skip the element after a removed
   * one, and after a hit it keeps scanning bullets, so a second overlapping
   * bullet removes a different enemy at the same index.  The model takes, for
   * each enemy in order, the first not-yet-used overlapping bullet, removes
   * both and records the pair; every bullet and enemy is removed at most once.
   */
  function ResolveEnemies(es: seq<Pos>, bs: seq<Pos>): (r: Resolution)
    ensures |r.enemies| + |r.hits| <= |es|
    decreases |es|
  {
    if |es| == 0 then Resolution(bs, [], [])
    else
      var e := MoveEnemy(es[0]);
      if e.y > CanvasHeight then
        ResolveEnemies(es[1..], bs)
      else
        match FirstHit(bs, e)
        case None =>
          var rest := ResolveEnemies(es[1..], bs);
          Resolution(rest.bullets, [e] + rest.enemies, rest.hits)
        case Some(k) =>
          var rest := ResolveEnemies(es[1..], RemoveAt(bs, k));
          Resolution(rest.bullets, rest.enemies, [Hit(bs[k], e)] + rest.hits)
  }

  /** Every pair the enemy pass removes overlaps. */
  lemma {:induction false} ResolveHitsOverlap(es: seq<Pos>, bs: seq<Pos>)
    ensures forall h :: h in ResolveEnemies(es, bs).hits ==> Overlaps(h.bullet, h.enemy)
    decreases |es|
  {
    if |es| > 0 {
      var e := MoveEnemy(es[0]);
      if e.y > CanvasHeight {
        ResolveHitsOverlap(es[1..], bs);
      } else {
        match FirstHit(bs, e) {
          case None => ResolveHitsOverlap(es[1..], bs);
          case Some(k) => ResolveHitsOverlap(es[1..], RemoveAt(bs, k));
        }
      }
    }
  }

  /**
   * The bullets the enemy pass keeps, together with the bullets of its hits,
   * are exactly its input bullets: no bullet is created and none is removed
   * twice.
   */
  lemma {:induction false} ResolveConservesBullets(es: seq<Pos>, bs: seq<Pos>)
    ensures var r := ResolveEnemies(es, bs);
      multiset(r.bullets) + multiset(HitBullets(r.hits)) == multiset(bs)
    decreases |es|
  {
    if |es| > 0 {
      var e := MoveEnemy(es[0]);
      if e.y > CanvasHeight {
        ResolveConservesBullets(es[1..], bs);
      } else {
        match FirstHit(bs, e) {
          case None => ResolveConservesBullets(es[1..], bs);
          case Some(k) =>
            var rest := ResolveEnemies(es[1..], RemoveAt(bs, k));
            ResolveConservesBullets(es[1..], RemoveAt(bs, k));
            assert ([Hit(bs[k], e)] + rest.hits)[1..] == rest.hits;
        }
      }
    }
  }

  /**
   * The enemies the enemy pass keeps, together with the enemies of its hits,
   * are exactly the descended, on-screen enemies: none is removed twice.
   */
  lemma {:induction false} ResolveConservesEnemies(es: seq<Pos>, bs: seq<Pos>)
    ensures var r := ResolveEnemies(es, bs);
      multiset(r.enemies) + multiset(HitEnemies(r.hits)) == multiset(Descend(es))
    decreases |es|
  {
    if |es| > 0 {
      var e := MoveEnemy(es[0]);
      if e.y > CanvasHeight {
        ResolveConservesEnemies(es[1..], bs);
      } else {
        match FirstHit(bs, e) {
          case None => ResolveConservesEnemies(es[1..], bs);
          case Some(k) =>
            var rest := ResolveEnemies(es[1..], RemoveAt(bs, k));
            ResolveConservesEnemies(es[1..], RemoveAt(bs, k));
            assert ([Hit(bs[k], e)] + rest.hits)[1..] == rest.hits;
        }
      }
    }
  }

  /** After the enemy pass no surviving enemy overlaps a surviving bullet. */
  lemma {:induction false} ResolveLeavesNoOverlap(es: seq<Pos>, bs: seq<Pos>)
    ensures var r := ResolveEnemies(es, bs);
      forall e, b :: e in r.enemies && b in r.bullets ==> !Overlaps(b, e)
    decreases |es|
  {
    if |es| > 0 {
      var e := MoveEnemy(es[0]);
      if e.y > CanvasHeight {
        ResolveLeavesNoOverlap(es[1..], bs);
      } else {
        match FirstHit(bs, e) {
          case None =>
            var rest := ResolveEnemies(es[1..], bs);
            ResolveLeavesNoOverlap(es[1..], bs);
            ResolveConservesBullets(es[1..], bs);
            MultisetMember(rest.bullets, HitBullets(rest.hits), bs);
          case Some(k) => ResolveLeavesNoOverlap(es[1..], RemoveAt(bs, k));
        }
      }
    }
  }

  /** An element of a part of a multiset split is an element of the whole. */
  lemma MultisetMember(a: seq<Pos>, b: seq<Pos>, c: seq<Pos>)
    requires multiset(a) + multiset(b) == multiset(c)
    ensures forall x :: x in a ==> x in c
  {
    forall x | x in a
      ensures x in c
    {
      assert x in multiset(a);
      assert x in multiset(c);
    }
  }

  /** The parts of a multiset split add up to the whole. */
  lemma MultisetSplitLength(a: seq<Pos>, b: seq<Pos>, c: seq<Pos>)
    requires multiset(a) + multiset(b) == multiset(c)
    ensures |a| + |b| == |c|
  {
    calc {
      |c|;
      |multiset(c)|;
      |multiset(a) + multiset(b)|;
      |multiset(a)| + |multiset(b)|;
    }
  }

  /** The enemy every spawn creates, just above the top edge. */
  predicate IsSpawned(e: Pos)
  {
    e.y == -EnemySize && 0.0 <= e.x < CanvasWidth - EnemySize
  }

  /**
   * The state-changing part of one frame, in source order: bullet pass,
   * enemy pass with collisions, then the spawn check.  A freshly spawned
   * enemy is therefore neither moved nor hit in its spawn frame.
   */
  function Step(r: Round, now: int, spawnX: real): (u: Update)
    requires 0.0 <= spawnX < CanvasWidth - EnemySize
    ensures u.round.player == r.player
    ensures forall h :: h in u.hits ==> Overlaps(h.bullet, h.enemy)
    ensures multiset(u.round.bullets) + multiset(HitBullets(u.hits)) == multiset(AdvanceBullets(r.bullets))
    ensures now - r.lastSpawn > SpawnInterval ==>
      && u.round.lastSpawn == now
      && |u.round.enemies| > 0
      && u.round.enemies[|u.round.enemies| - 1] == Pos(spawnX, -30.0)
      && multiset(u.round.enemies[..|u.round.enemies| - 1]) + multiset(HitEnemies(u.hits)) == multiset(Descend(r.enemies))
    ensures now - r.lastSpawn <= SpawnInterval ==>
      && u.round.lastSpawn == r.lastSpawn
      && multiset(u.round.enemies) + multiset(HitEnemies(u.hits)) == multiset(Descend(r.enemies))
  {
    var bullets := AdvanceBullets(r.bullets);
    var pass := ResolveEnemies(r.enemies, bullets);
    ResolveHitsOverlap(r.enemies, bullets);
    ResolveConservesBullets(r.enemies, bullets);
    ResolveConservesEnemies(r.enemies, bullets);
    if now - r.lastSpawn > SpawnInterval then
      var enemies := pass.enemies + [Pos(spawnX, -EnemySize)];
      assert enemies[..|enemies| - 1] == pass.enemies;
      Update(Round(r.player, pass.bullets, enemies, now), pass.hits)
    else
      Update(Round(r.player, pass.bullets, pass.enemies, r.lastSpawn), pass.hits)
  }

  /** The loss condition: some enemy's bottom edge is below the player's top edge. */
  predicate Breached(r: Round)
  {
    exists e :: e in r.enemies && e.y + EnemySize > r.player.y
  }

  /**
   * One call of `gameLoop`.  Outside `Playing` it changes nothing and asks
   * for no further frame; otherwise it applies `Step`, adds the points of
   * the frame's hits, and ends the round when an enemy breaches the line.
   */
  function Tick(g: Game, now: int, spawnX: real): (f: Frame)
    requires 0.0 <= spawnX < CanvasWidth - EnemySize
    ensures g.phase != Playing ==> f == Frame(g, false)
    ensures g.phase == Playing ==> f.game.phase == (if f.requestFrame then Playing else GameOver)
    ensures g.phase == Playing ==>
      (f.requestFrame <==> forall e :: e in f.game.round.enemies ==> e.y + 30.0 <= f.game.round.player.y)
    ensures g.phase == Playing ==> f.game.score == g.score + 10 * |Step(g.round, now, spawnX).hits|
    ensures f.game.round.player == g.round.player
    ensures f.game.score >= g.score
    ensures |f.game.round.bullets| <= |g.round.bullets|
    ensures g.phase == Playing ==>
      forall b :: b in f.game.round.bullets ==> 0.0 <= b.y && Pos(b.x, b.y + 10.0) in g.round.bullets
    ensures g.phase == Playing ==> forall e :: e in f.game.round.enemies ==>
      IsSpawned(e) || (e.y <= CanvasHeight && Pos(e.x, e.y - 2.0) in g.round.enemies)
  {
    if g.phase != Playing then Frame(g, false)
    else
      var u := Step(g.round, now, spawnX);
      TickBullets(g.round.bullets, u);
      TickEnemies(g.round, now, spawnX, u);
      var score := g.score + HitPoints * |u.hits|;
      if Breached(u.round) then Frame(Game(u.round, score, GameOver), false)
      else Frame(Game(u.round, score, Playing), true)
  }

  /** Every bullet left after a frame is an old bullet, risen, on screen. */
  lemma TickBullets(bs: seq<Pos>, u: Update)
    requires multiset(u.round.bullets) + multiset(HitBullets(u.hits)) == multiset(AdvanceBullets(bs))
    ensures |u.round.bullets| <= |bs|
    ensures forall b :: b in u.round.bullets ==> 0.0 <= b.y && Pos(b.x, b.y + BulletSpeed) in bs
  {
    var adv := AdvanceBullets(bs);
    MultisetSplitLength(u.round.bullets, HitBullets(u.hits), adv);
    MultisetMember(u.round.bullets, HitBullets(u.hits), adv);
    KeptBulletsSound(bs, u.round.bullets);
  }

  /** Bullets drawn from the bullet pass inherit its soundness. */
  lemma KeptBulletsSound(bs: seq<Pos>, kept: seq<Pos>)
    requires forall b :: b in kept ==> b in AdvanceBullets(bs)
    ensures forall b :: b in kept ==> 0.0 <= b.y && Pos(b.x, b.y + BulletSpeed) in bs
  {
    var adv := AdvanceBullets(bs);
    AdvanceBulletsSound(bs);
    forall b | b in kept
      ensures 0.0 <= b.y && Pos(b.x, b.y + BulletSpeed) in bs
    {
      var i :| 0 <= i < |adv| && adv[i] == b;
    }
  }

  /** Every enemy left after a frame is the spawned one or an old enemy, descended, on screen. */
  lemma TickEnemies(r: Round, now: int, spawnX: real, u: Update)
    requires 0.0 <= spawnX < CanvasWidth - EnemySize
    requires u == Step(r, now, spawnX)
    ensures forall e :: e in u.round.enemies ==>
      IsSpawned(e) || (e.y <= CanvasHeight && Pos(e.x, e.y - EnemySpeed) in r.enemies)
  {
    var es := u.round.enemies;
    var d := Descend(r.enemies);
    DescendSound(r.enemies);
    if now - r.lastSpawn > SpawnInterval {
      var earlier := es[..|es| - 1];
      assert es == earlier + [es[|es| - 1]];
      MultisetMember(earlier, HitEnemies(u.hits), d);
      forall e | e in es
        ensures IsSpawned(e) || (e.y <= CanvasHeight && Pos(e.x, e.y - EnemySpeed) in r.enemies)
      {
        if e in earlier {
          var i :| 0 <= i < |d| && d[i] == e;
        }
      }
    } else {
      MultisetMember(es, HitEnemies(u.hits), d);
      forall e | e in es
        ensures e.y <= CanvasHeight && Pos(e.x, e.y - EnemySpeed) in r.enemies
      {
        var i :| 0 <= i < |d| && d[i] == e;
      }
    }
  }

  /**
   * `handleClick`: in `Start` the round begins; in `Playing` one bullet is
   * fired from the click column, centred, at the player's height; in
   * `GameOver` the game is reset.  `mouseX` is the click's x relative to the
   * canvas' left edge.
   */
  function Click(g: Game, mouseX: real): (r: Game)
    ensures g.phase == Start ==> r.phase == Playing && r.round == g.round && r.score == g.score
    ensures g.phase == Playing ==>
      && r.phase == Playing && r.score == g.score
      && r.round.player == g.round.player
      && r.round.enemies == g.round.enemies
      && r.round.lastSpawn == g.round.lastSpawn
      && |r.round.bullets| == |g.round.bullets| + 1
      && r.round.bullets[..|g.round.bullets|] == g.round.bullets
      && r.round.bullets[|g.round.bullets|] == Pos(mouseX - 2.5, g.round.player.y)
    ensures g.phase == GameOver ==> r == InitialGame()
  {
    match g.phase
    case Start => g.(phase := Playing)
    case Playing =>
      var bullet := Pos(mouseX - BulletSize / 2.0, g.round.player.y);
      g.(round := g.round.(bullets := g.round.bullets + [bullet]))
    case GameOver => InitialGame()
  }
}
