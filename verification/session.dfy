/**
 * The GameController's session: pause and game-over flags, the difficulty
 * curve and the bonus health it buys asteroids, the registries of active
 * asteroids and stars, retry, and the logical save and restore of the flat
 * GameState record. Each physics contact is a transition of its own, wired
 * to the player's lives and the global score.
 */
module GameSession {
  import opened Common
  import opened SaveState
  import Scoring
  import H = PlayerHealth
  import A = Asteroids
  import B = Bullets
  import Menu

  /** Lives written to a save when no HealthManager is assigned. */
  const LivesWithoutManager: int := 3

  /** The cap on bonus health. */
  const MaxBonusHealth: int := 20

  /**
   * Inspector settings of the controller. `starPrefab` is None when no star
   * prefab is assigned; `asteroidPrefab` is the asteroid every spawn copies.
   */
  datatype Config = Config(
    maxDifficulty: real,
    difficultyIncreaseRate: real,
    asteroidPrefab: A.Asteroid,
    starPrefab: Option<Scoring.StarSettings>)

  /** The inspector defaults: difficulty capped at 2.0 and growing by 0.1 per 100 seconds. */
  function DefaultConfig(asteroidPrefab: A.Asteroid, starPrefab: Option<Scoring.StarSettings>): Config {
    Config(2.0, 0.1, asteroidPrefab, starPrefab)
  }

  /**
   * The controller together with the global state it drives: the static
   * IsPaused flag, GameManager's score and the volume settings. `health` is
   * None when no HealthManager is assigned; the player object in the scene is
   * the one that HealthManager tracks.
   */
  datatype Session = Session(
    paused: bool,
    gameOver: bool,
    highScore: int,
    elapsed: real,
    uncapped: real,
    difficulty: real,
    asteroids: seq<A.Asteroid>,
    stars: seq<Scoring.Star>,
    nextStarId: nat,
    health: Option<H.HealthState>,
    score: int,
    volumes: Volumes)

  /** The controller's field initialisers, with an optional HealthManager. */
  function Fresh(health: Option<H.HealthState>): Session {
    Session(false, false, 0, 0.0, 1.0, 1.0, [], [], 0, health, 0, DefaultVolumes)
  }

  /** GameObject.FindWithTag("Player"): the player object, if there is one. */
  function ScenePlayer(s: Session): Option<H.Player> {
    if s.health.Some? then s.health.value.player else None
  }

  // ---------------------------------------------------------------------------
  // Pause and game-over flags

  /** GameController.ResumeGame. */
  function ResumeGame(s: Session): (r: Session)
    ensures !r.paused
    ensures r == s.(paused := r.paused)
  {
    s.(paused := false)
  }

  /** GameController.TogglePause. */
  function TogglePause(s: Session): (r: Session)
    ensures r.paused != s.paused
    ensures r == s.(paused := r.paused)
  {
    s.(paused := !s.paused)
  }

  /** GameController.ShowGameOverUI: game over, and never paused while it shows. */
  function ShowGameOverUI(s: Session): (r: Session)
    ensures r.gameOver && !r.paused
    ensures r == s.(gameOver := r.gameOver, paused := r.paused)
  {
    var over := s.(gameOver := true);
    if over.paused then ResumeGame(over) else over
  }

  /** GameController.HideGameOverUI. */
  function HideGameOverUI(s: Session): (r: Session)
    ensures !r.gameOver
    ensures r == s.(gameOver := r.gameOver)
  {
    s.(gameOver := false)
  }

  // ---------------------------------------------------------------------------
  // Difficulty and bonus health

  /** The uncapped difficulty after `t` seconds of unpaused play. */
  function UncappedDifficulty(rate: real, t: real): real {
    1.0 + t * rate / 100.0
  }

  /** Mathf.Min(maxDifficulty, uncapped). */
  function CappedDifficulty(maxDifficulty: real, uncapped: real): (d: real)
    ensures d <= maxDifficulty && d <= uncapped
    ensures d == maxDifficulty || d == uncapped
  {
    MinReal(maxDifficulty, uncapped)
  }

  /** With a non-negative rate the uncapped difficulty never falls as time passes. */
  lemma UncappedDifficultyGrows(rate: real, t1: real, t2: real)
    requires rate >= 0.0 && t1 <= t2
    ensures UncappedDifficulty(rate, t1) <= UncappedDifficulty(rate, t2)
  {
    var gap := t2 - t1;
    assert gap * rate >= 0.0;
    assert t2 * rate == t1 * rate + gap * rate;
  }

  /** How many half-maximum steps the uncapped difficulty lies beyond 80% of the maximum. */
  function ExcessSteps(maxDifficulty: real, uncapped: real): real
    requires maxDifficulty > 0.0
  {
    (uncapped - maxDifficulty * 0.8) / (maxDifficulty * 0.5)
  }

  /** Dividing by a positive step keeps the order of the dividends. */
  lemma ExcessStepsMonotone(maxDifficulty: real, u1: real, u2: real)
    requires maxDifficulty > 0.0 && u1 <= u2
    ensures ExcessSteps(maxDifficulty, u1) <= ExcessSteps(maxDifficulty, u2)
    ensures u1 >= maxDifficulty * 0.8 ==> ExcessSteps(maxDifficulty, u1) >= 0.0
  {
    var step := maxDifficulty * 0.5;
    assert step > 0.0;
    var e1 := u1 - maxDifficulty * 0.8;
    var e2 := u2 - maxDifficulty * 0.8;
    assert e2 / step - e1 / step == (e2 - e1) / step;
  }

  /**
   * The bonus health of GameController.SpawnAsteroid: none below 80% of the
   * maximum difficulty, otherwise the whole number of half-maximum steps
   * beyond it, at most 20.
   */
  function BonusHealth(maxDifficulty: real, uncapped: real): (b: int)
    requires maxDifficulty > 0.0
    ensures 0 <= b <= MaxBonusHealth
    ensures uncapped < maxDifficulty * 0.8 ==> b == 0
    ensures uncapped >= maxDifficulty * 0.8 && ExcessSteps(maxDifficulty, uncapped) < MaxBonusHealth as real ==>
              b as real <= ExcessSteps(maxDifficulty, uncapped) < b as real + 1.0
    ensures uncapped >= maxDifficulty * 0.8 && ExcessSteps(maxDifficulty, uncapped) >= MaxBonusHealth as real ==>
              b == MaxBonusHealth
  {
    if uncapped >= maxDifficulty * 0.8 then
      ExcessStepsMonotone(maxDifficulty, uncapped, uncapped);
      var steps := ExcessSteps(maxDifficulty, uncapped).Floor;
      if steps < MaxBonusHealth then steps else MaxBonusHealth
    else 0
  }

  /** A harder game never buys an asteroid less bonus health. */
  lemma BonusHealthMonotone(maxDifficulty: real, u1: real, u2: real)
    requires maxDifficulty > 0.0 && u1 <= u2
    ensures BonusHealth(maxDifficulty, u1) <= BonusHealth(maxDifficulty, u2)
  {
    if u1 >= maxDifficulty * 0.8 {
      ExcessStepsMonotone(maxDifficulty, u1, u2);
    }
  }

  /**
   * A new asteroid object from the prefab at `pos`: the inspector fields are
   * copied, the derived and runtime fields start from scratch.
   */
  function Instantiate(prefab: A.Asteroid, pos: Vec): A.Asteroid {
    A.Asteroid(pos, prefab.size, prefab.baseHealth, prefab.baseFallSpeed, prefab.playerTag,
               0, 0.0, A.Plain, false, 0, false)
  }

  /**
   * GameController.SpawnAsteroid with the random position and size given:
   * the new asteroid takes the size, and the bonus health only when positive.
   */
  function SpawnAsteroid(s: Session, cfg: Config, pos: Vec, size: real): (r: Session)
    requires cfg.maxDifficulty > 0.0
    ensures |r.asteroids| == |s.asteroids| + 1 && r.asteroids[..|s.asteroids|] == s.asteroids
    ensures var a := r.asteroids[|s.asteroids|];
            var bonus := BonusHealth(cfg.maxDifficulty, s.uncapped);
            && a.pos == pos && a.size == ClampReal(size, A.MinSize, A.MaxSize)
            && a.health == A.SizedHealth(cfg.asteroidPrefab.baseHealth, a.size) + bonus
            && !a.destroyed
    ensures r == s.(asteroids := r.asteroids)
  {
    var sized := A.SetSize(Instantiate(cfg.asteroidPrefab, pos), size);
    var bonus := BonusHealth(cfg.maxDifficulty, s.uncapped);
    var spawned := if bonus > 0 then A.SetBonusHealth(sized, bonus) else sized;
    s.(asteroids := s.asteroids + [spawned])
  }

  /**
   * The engine's Asteroid.Start for tracked asteroid `i`. The engine runs it
   * after SpawnAsteroid (or the load that instantiated the asteroid) has
   * returned and before the asteroid's first physics step: the health is
   * derived from the clamped size again and the tint is cleared.
   */
  function StartAsteroid(s: Session, i: nat): (r: Session)
    requires i < |s.asteroids|
    ensures |r.asteroids| == |s.asteroids|
    ensures var a := s.asteroids[i];
            var b := r.asteroids[i];
            && b.size == ClampReal(a.size, A.MinSize, A.MaxSize)
            && b.health == A.SizedHealth(a.baseHealth, b.size)
            && b.tint == A.Plain && b.rendererCached
            && b.pos == a.pos && b.destroyed == a.destroyed && b.starDrops == a.starDrops
    ensures forall k :: 0 <= k < |s.asteroids| && k != i ==> r.asteroids[k] == s.asteroids[k]
    ensures WellFormed(s) ==> WellFormed(r)
    ensures r == s.(asteroids := r.asteroids)
  {
    s.(asteroids := s.asteroids[i := A.Start(s.asteroids[i])])
  }

  /**
   * A spawned asteroid once the engine has started it: the session holds it
   * at its clamped size with the size-derived health and a plain tint, so the
   * bonus health SpawnAsteroid granted is gone before anything can hit it.
   */
  lemma SpawnedBonusLostAtStart(s: Session, cfg: Config, pos: Vec, size: real)
    requires cfg.maxDifficulty > 0.0
    ensures var r := StartAsteroid(SpawnAsteroid(s, cfg, pos, size), |s.asteroids|);
            var a := r.asteroids[|s.asteroids|];
            && |r.asteroids| == |s.asteroids| + 1 && r.asteroids[..|s.asteroids|] == s.asteroids
            && a.pos == pos && a.size == ClampReal(size, A.MinSize, A.MaxSize)
            && a.health == A.SizedHealth(cfg.asteroidPrefab.baseHealth, a.size)
            && a.tint == A.Plain && !a.destroyed
            && r == s.(asteroids := r.asteroids)
  {
    var spawned := SpawnAsteroid(s, cfg, pos, size);
    var a := spawned.asteroids[|s.asteroids|];
    assert A.MinSize <= a.size <= A.MaxSize;
    var r := StartAsteroid(spawned, |s.asteroids|);
    assert r.asteroids[..|s.asteroids|] == spawned.asteroids[..|s.asteroids|];
  }

  // ---------------------------------------------------------------------------
  // The registries of active asteroids and stars

  /** The entry is still alive, i.e. not yet null for the engine. */
  predicate LiveAsteroid(a: A.Asteroid) {
    !a.destroyed
  }

  predicate LiveStar(st: Scoring.Star) {
    !st.destroyed
  }

  /** No star object is tracked twice. */
  predicate DistinctIds(stars: seq<Scoring.Star>) {
    forall i, j :: 0 <= i < j < |stars| ==> stars[i].id != stars[j].id
  }

  /** Every tracked star is older than the next identity to hand out. */
  predicate IdsBelow(stars: seq<Scoring.Star>, next: nat) {
    forall k :: 0 <= k < |stars| ==> stars[k].id < next
  }

  /** The registry invariant: a duplicate-free star list with fresh identities ahead. */
  predicate WellFormed(s: Session) {
    DistinctIds(s.stars) && IdsBelow(s.stars, s.nextStarId)
  }

  /** A star whose identity no other star shares can head a duplicate-free list. */
  lemma ConsKeepsDistinct(x: Scoring.Star, rest: seq<Scoring.Star>)
    requires DistinctIds(rest)
    requires forall y :: y in rest ==> y.id != x.id
    ensures DistinctIds([x] + rest)
  {
    var r := [x] + rest;
    forall i, j | 0 <= i < j < |r| ensures r[i].id != r[j].id {
      assert r[j] == rest[j - 1];
      if i > 0 {
        assert r[i] == rest[i - 1];
      }
    }
  }

  /** Dropping entries from a duplicate-free star list keeps it duplicate-free. */
  lemma {:induction false} FilterKeepsDistinct(stars: seq<Scoring.Star>)
    requires DistinctIds(stars)
    ensures DistinctIds(Filter(stars, LiveStar))
    decreases |stars|
  {
    if |stars| > 0 {
      var tail := stars[1..];
      assert DistinctIds(tail) by {
        forall i, j | 0 <= i < j < |tail| ensures tail[i].id != tail[j].id {
          assert tail[i] == stars[i + 1] && tail[j] == stars[j + 1];
        }
      }
      FilterKeepsDistinct(tail);
      var rest := Filter(tail, LiveStar);
      if LiveStar(stars[0]) {
        forall y | y in rest ensures y.id != stars[0].id {
          var k :| 0 <= k < |tail| && tail[k] == y;
          assert stars[k + 1] == y;
        }
        ConsKeepsDistinct(stars[0], rest);
      }
    }
  }

  /**
   * GameController.CleanupDestroyedObjects: the entries the engine has
   * destroyed leave both lists, every live entry stays as often as it was
   * there, and nothing else changes.
   */
  function Cleanup(s: Session): (r: Session)
    ensures forall a :: a in r.asteroids <==> a in s.asteroids && LiveAsteroid(a)
    ensures forall st :: st in r.stars <==> st in s.stars && LiveStar(st)
    ensures forall a :: multiset(r.asteroids)[a] == if LiveAsteroid(a) then multiset(s.asteroids)[a] else 0
    ensures forall st :: multiset(r.stars)[st] == if LiveStar(st) then multiset(s.stars)[st] else 0
    ensures WellFormed(s) ==> WellFormed(r)
    ensures r == s.(asteroids := r.asteroids, stars := r.stars)
  {
    FilterCounts(s.asteroids, LiveAsteroid);
    FilterCounts(s.stars, LiveStar);
    var r := s.(asteroids := Filter(s.asteroids, LiveAsteroid), stars := Filter(s.stars, LiveStar));
    if DistinctIds(s.stars) then FilterKeepsDistinct(s.stars); r else r
  }

  /**
   * Saving after a cleanup writes exactly what saving before it writes: the
   * save already skips the entries the engine has destroyed.
   */
  lemma CleanupKeepsSave(s: Session, now: int)
    ensures SaveGame(Cleanup(s), now) == SaveGame(s, now)
  {
    FilterKeepsAll(LiveAsteroids(s), LiveAsteroid);
    FilterKeepsAll(LiveStars(s), LiveStar);
  }

  /**
   * GameController.RegisterStar: a null star and a star already tracked are
   * ignored; any other star is appended.
   */
  function RegisterStar(s: Session, star: Option<Scoring.Star>): (r: Session)
    ensures star.None? || (exists k :: 0 <= k < |s.stars| && s.stars[k].id == star.value.id) ==> r == s
    ensures star.Some? && (forall k :: 0 <= k < |s.stars| ==> s.stars[k].id != star.value.id) ==>
              r.stars == s.stars + [star.value]
    ensures DistinctIds(s.stars) ==> DistinctIds(r.stars)
    ensures r == s.(stars := r.stars)
  {
    if star.Some? && forall k :: 0 <= k < |s.stars| ==> s.stars[k].id != star.value.id then
      s.(stars := s.stars + [star.value])
    else s
  }

  /** Registering the same star twice is the same as registering it once. */
  lemma RegisterStarIdempotent(s: Session, star: Option<Scoring.Star>)
    ensures RegisterStar(RegisterStar(s, star), star) == RegisterStar(s, star)
  {
    var once := RegisterStar(s, star);
    if star.Some? && forall k :: 0 <= k < |s.stars| ==> s.stars[k].id != star.value.id {
      assert once.stars[|s.stars|].id == star.value.id;
    }
  }

  /**
   * Instantiate a star from the prefab at `pos` under the next fresh
   * identity and track it. A new object is never already tracked, so
   * RegisterStar appends it (see FreshStarIsRegistered).
   */
  function AddFreshStar(s: Session, settings: Scoring.StarSettings, pos: Vec): (r: Session)
    ensures |r.stars| == |s.stars| + 1 && r.stars[..|s.stars|] == s.stars
    ensures r.stars[|s.stars|] == Scoring.NewStar(s.nextStarId, pos, settings)
    ensures r.nextStarId == s.nextStarId + 1
    ensures WellFormed(s) ==> WellFormed(r)
    ensures r == s.(stars := r.stars, nextStarId := r.nextStarId)
  {
    s.(stars := s.stars + [Scoring.NewStar(s.nextStarId, pos, settings)], nextStarId := s.nextStarId + 1)
  }

  /** Under the registry invariant, registering a freshly made star is exactly tracking it. */
  lemma FreshStarIsRegistered(s: Session, settings: Scoring.StarSettings, pos: Vec)
    requires WellFormed(s)
    ensures RegisterStar(s, Some(Scoring.NewStar(s.nextStarId, pos, settings))).stars ==
            AddFreshStar(s, settings, pos).stars
  {
  }

  /**
   * Asteroid.SpawnStar followed by GameController.RegisterStar: the star a
   * destroyed asteroid drops at its position. The asteroid uses the star
   * prefab the controller handed it at spawn; without one it logs a warning
   * and no star appears.
   */
  function DropStar(s: Session, cfg: Config, pos: Vec): (r: Session)
    ensures cfg.starPrefab.None? ==> r == s
    ensures cfg.starPrefab.Some? ==> |r.stars| == |s.stars| + 1 && r.stars[|s.stars|].pos == pos
                                     && !r.stars[|s.stars|].isCollected
    ensures cfg.starPrefab.Some? ==> r == AddFreshStar(s, cfg.starPrefab.value, pos)
    ensures |r.stars| >= |s.stars| && r.stars[..|s.stars|] == s.stars
    ensures r == s.(stars := r.stars, nextStarId := r.nextStarId)
    ensures WellFormed(s) ==> WellFormed(r)
  {
    match cfg.starPrefab
    case None => s
    case Some(settings) => AddFreshStar(s, settings, pos)
  }

  /**
   * GameController.SpawnStar, run by the star timer, with the random position
   * given. It instantiates the star prefab unconditionally: without one the
   * call throws, which None stands for. Otherwise the new star is tracked
   * exactly as a dropped star would be.
   */
  function SpawnTimedStar(s: Session, cfg: Config, pos: Vec): (r: Option<Session>)
    ensures r.None? <==> cfg.starPrefab.None?
    ensures r.Some? ==> |r.value.stars| == |s.stars| + 1 && r.value.stars[..|s.stars|] == s.stars
                        && r.value.stars[|s.stars|] == Scoring.NewStar(s.nextStarId, pos, cfg.starPrefab.value)
    ensures r.Some? && WellFormed(s) ==> WellFormed(r.value)
  {
    match cfg.starPrefab
    case None => None
    case Some(settings) => Some(AddFreshStar(s, settings, pos))
  }

  /** The timer's star and a dropped star differ only in that the timer's spawn fails without a prefab. */
  lemma TimedStarIsDroppedStar(s: Session, cfg: Config, pos: Vec)
    ensures cfg.starPrefab.Some? ==> SpawnTimedStar(s, cfg, pos) == Some(DropStar(s, cfg, pos))
    ensures cfg.starPrefab.None? ==> SpawnTimedStar(s, cfg, pos).None? && DropStar(s, cfg, pos) == s
  {
  }

  // ---------------------------------------------------------------------------
  // The frame update

  /**
   * GameController.Update without the spawn and autosave timers. Escape
   * toggles pause unless the game is over; while paused nothing happens;
   * otherwise time advances, both difficulties follow it, and destroyed
   * objects leave the registries.
   */
  function Update(s: Session, cfg: Config, dt: real, escapePressed: bool): (r: Session)
    ensures escapePressed && !s.gameOver ==> r.paused != s.paused && r == s.(paused := r.paused)
    ensures !(escapePressed && !s.gameOver) && s.paused ==> r == s
    ensures !(escapePressed && !s.gameOver) && !s.paused ==>
              && r.elapsed == s.elapsed + dt
              && r.uncapped == UncappedDifficulty(cfg.difficultyIncreaseRate, r.elapsed)
              && r.difficulty == CappedDifficulty(cfg.maxDifficulty, r.uncapped)
              && (r.uncapped <= cfg.maxDifficulty ==> r.difficulty == r.uncapped)
              && (r.uncapped >= cfg.maxDifficulty ==> r.difficulty == cfg.maxDifficulty)
              && (forall a :: a in r.asteroids <==> a in s.asteroids && LiveAsteroid(a))
              && (forall st :: st in r.stars <==> st in s.stars && LiveStar(st))
              && (forall a :: multiset(r.asteroids)[a] == if LiveAsteroid(a) then multiset(s.asteroids)[a] else 0)
              && (forall st :: multiset(r.stars)[st] == if LiveStar(st) then multiset(s.stars)[st] else 0)
              && r.paused == s.paused && r.gameOver == s.gameOver && r.score == s.score
              && r.health == s.health && r.highScore == s.highScore
    ensures WellFormed(s) ==> WellFormed(r)
  {
    if escapePressed && !s.gameOver then TogglePause(s)
    else if s.paused then s
    else
      var t := s.elapsed + dt;
      var u := UncappedDifficulty(cfg.difficultyIncreaseRate, t);
      Cleanup(s.(elapsed := t, uncapped := u, difficulty := CappedDifficulty(cfg.maxDifficulty, u)))
  }

  /** While the game is over, Escape cannot pause or unpause it. */
  lemma GameOverBlocksPause(s: Session, cfg: Config, dt: real, escapePressed: bool)
    requires s.gameOver
    ensures Update(s, cfg, dt, escapePressed).paused == s.paused
  {
  }

  /**
   * With a non-negative rate and time step, and the uncapped difficulty in
   * step with the clock, an update never lowers the uncapped difficulty.
   */
  lemma UpdateNeverEases(s: Session, cfg: Config, dt: real, escapePressed: bool)
    requires cfg.difficultyIncreaseRate >= 0.0 && dt >= 0.0
    requires s.uncapped == UncappedDifficulty(cfg.difficultyIncreaseRate, s.elapsed)
    ensures var r := Update(s, cfg, dt, escapePressed);
            r.uncapped >= s.uncapped && r.uncapped == UncappedDifficulty(cfg.difficultyIncreaseRate, r.elapsed)
  {
    UncappedDifficultyGrows(cfg.difficultyIncreaseRate, s.elapsed, s.elapsed + dt);
  }

  // ---------------------------------------------------------------------------
  // Contacts

  /**
   * HealthManager.TakeDamage as the session sees it: the manager's lives and
   * the global score change, and a game over shows the game-over screen.
   */
  function DamagePlayer(s: Session): (r: Session)
    requires s.health.Some?
    ensures var o := H.TakeDamage(s.health.value, s.score);
            && r.health == Some(o.health) && r.score == o.score
            && (o.gameOver ==> r.gameOver && !r.paused)
            && (!o.gameOver ==> r.gameOver == s.gameOver && r.paused == s.paused)
    ensures r.asteroids == s.asteroids && r.stars == s.stars && r.nextStarId == s.nextStarId
    ensures r.highScore == s.highScore
  {
    var o := H.TakeDamage(s.health.value, s.score);
    var hit := s.(health := Some(o.health), score := o.score);
    if o.gameOver then ShowGameOverUI(hit) else hit
  }

  /** What Asteroid.OnTriggerEnter2D sees of the player object. */
  function PlayerContact(p: H.Player, tag: string): A.Contact {
    A.Contact(tag, false, p.healthMarker, p.asteroidMarker)
  }

  /**
   * Asteroid.OnTriggerEnter2D of asteroid `i` within the session: the
   * asteroid's own update, the player damage it calls for, and the star it
   * drops when it is destroyed.
   */
  function AsteroidContact(s: Session, cfg: Config, i: nat, c: A.Contact): (r: Session)
    requires i < |s.asteroids|
    ensures |r.asteroids| == |s.asteroids|
    ensures var a := s.asteroids[i];
            c.tag == a.playerTag && (c.healthMarker || c.asteroidMarker) ==> r == s
    ensures var a := s.asteroids[i];
            c.tag == a.playerTag && !c.healthMarker && !c.asteroidMarker ==>
              && r.asteroids[i].destroyed
              && (s.health.Some? ==>
                    var o := H.TakeDamage(s.health.value, s.score);
                    && r.score == o.score && r.health == Some(o.health)
                    && (o.gameOver ==> r.gameOver && !r.paused)
                    && (!o.gameOver ==> r.gameOver == s.gameOver && r.paused == s.paused))
              && (s.health.None? ==> r.score == s.score && r.health == s.health
                                     && r.gameOver == s.gameOver && r.paused == s.paused)
              && |r.stars| == |s.stars| + (if cfg.starPrefab.Some? then 1 else 0)
    ensures var a := s.asteroids[i];
            c.tag != a.playerTag && c.isBullet ==>
              && r.asteroids[i].health == a.health - 1
              && r.score == s.score && r.health == s.health
              && r.gameOver == s.gameOver && r.paused == s.paused
              && (r.asteroids[i].destroyed <==> a.destroyed || a.health <= 1)
              && |r.stars| == |s.stars| + (if a.health <= 1 && cfg.starPrefab.Some? then 1 else 0)
    ensures |r.stars| >= |s.stars| && r.stars[..|s.stars|] == s.stars
    ensures r == s.(asteroids := r.asteroids, stars := r.stars, nextStarId := r.nextStarId,
                    health := r.health, score := r.score, gameOver := r.gameOver, paused := r.paused)
    ensures var a := s.asteroids[i];
            c.tag != a.playerTag && !c.isBullet ==> r == s
    ensures forall k :: 0 <= k < |s.asteroids| && k != i ==> r.asteroids[k] == s.asteroids[k]
    ensures WellFormed(s) ==> WellFormed(r)
  {
    var a := s.asteroids[i];
    var res := A.OnTriggerEnter(a, c, s.health.Some?);
    var touched := s.(asteroids := s.asteroids[i := res.asteroid]);
    var damaged := if res.damagePlayer then DamagePlayer(touched) else touched;
    if res.asteroid.starDrops > a.starDrops then DropStar(damaged, cfg, a.pos) else damaged
  }

  /**
   * A vulnerable player touching an asteroid, with a HealthManager tracking
   * that player, loses a life (never below zero) and ten points; the
   * asteroid is destroyed whatever its health; at zero lives the game is over.
   */
  lemma CollisionCostsLifeAndPoints(s: Session, cfg: Config, i: nat)
    requires i < |s.asteroids| && s.health.Some? && s.health.value.player.Some?
    requires !H.Shielded(s.health.value.player.value)
    ensures var p := s.health.value.player.value;
            var r := AsteroidContact(s, cfg, i, PlayerContact(p, s.asteroids[i].playerTag));
            && r.asteroids[i].destroyed
            && r.health.Some? && r.health.value.lives == Max(0, s.health.value.lives - 1)
            && r.score == s.score + H.HitPenalty
            && (r.health.value.lives == 0 ==> r.gameOver && !r.paused && ScenePlayer(r).None?)
  {
  }

  /** A player in its invulnerability phase passes through asteroids unharmed, and so do they. */
  lemma ShieldedPlayerPassesThrough(s: Session, cfg: Config, i: nat)
    requires i < |s.asteroids| && ScenePlayer(s).Some? && H.Shielded(ScenePlayer(s).value)
    ensures AsteroidContact(s, cfg, i, PlayerContact(ScenePlayer(s).value, s.asteroids[i].playerTag)) == s
  {
  }

  /** The session and the bullet after Bullet.OnTriggerEnter2D. */
  datatype BulletOutcome = BulletOutcome(session: Session, bullet: B.Bullet)

  /**
   * Bullet.OnTriggerEnter2D within the session. `target` is the index of
   * the asteroid whose collider was touched, or None when the collider is
   * not an asteroid's. A hit on an asteroid costs it one health.
   */
  function BulletContact(s: Session, cfg: Config, b: B.Bullet, c: B.Collider, target: Option<nat>): (r: BulletOutcome)
    requires target.Some? <==> c.isAsteroid
    requires target.Some? ==> target.value < |s.asteroids|
    ensures |r.session.asteroids| == |s.asteroids|
    ensures B.Classify(b, c).None? ==> r == BulletOutcome(s, b)
    ensures B.Classify(b, c).Some? ==> r.bullet.destroyed
    ensures B.Classify(b, c).Some? && target.Some? ==>
              r.session.asteroids[target.value].health == s.asteroids[target.value].health - 1
    ensures B.Classify(b, c).Some? && target.Some? ==>
              var a := s.asteroids[target.value];
              && (r.session.asteroids[target.value].destroyed <==> a.destroyed || a.health <= 1)
              && |r.session.stars| == |s.stars| + (if a.health <= 1 && cfg.starPrefab.Some? then 1 else 0)
    ensures target.None? ==> r.session == s
    ensures r.bullet == B.OnTriggerEnter(b, c).bullet
    ensures target.Some? ==> forall k :: 0 <= k < |s.asteroids| && k != target.value ==>
                               r.session.asteroids[k] == s.asteroids[k]
    ensures |r.session.stars| >= |s.stars| && r.session.stars[..|s.stars|] == s.stars
    ensures r.session == s.(asteroids := r.session.asteroids, stars := r.session.stars,
                            nextStarId := r.session.nextStarId)
    ensures r.session.score == s.score && r.session.health == s.health
    ensures WellFormed(s) ==> WellFormed(r.session)
  {
    var res := B.OnTriggerEnter(b, c);
    if res.damageAsteroid then
      var i := target.value;
      var a := s.asteroids[i];
      var damaged := A.TakeDamage(a, 1);
      var touched := s.(asteroids := s.asteroids[i := damaged]);
      var after := if damaged.starDrops > a.starDrops then DropStar(touched, cfg, a.pos) else touched;
      BulletOutcome(after, res.bullet)
    else BulletOutcome(s, res.bullet)
  }

  /** The collider Bullet.OnTriggerEnter2D sees for asteroid `i`. */
  function AsteroidCollider(obj: nat, layer: B.Layer): B.Collider {
    B.Collider(obj, B.AsteroidTag, layer, false, true)
  }

  /** The contact Asteroid.OnTriggerEnter2D sees for a bullet tagged `tag`. */
  function BulletAsContact(tag: string): A.Contact {
    A.Contact(tag, true, false, false)
  }

  /**
   * One bullet touching one asteroid triggers both scripts' handlers, and
   * each applies one damage: a bullet that targets asteroids costs the
   * asteroid two health per contact, not one.
   */
  lemma BulletContactDamagesTwice(s: Session, cfg: Config, i: nat, b: B.Bullet, obj: nat,
                                  layer: B.Layer, bulletTag: string)
    requires i < |s.asteroids| && bulletTag != s.asteroids[i].playerTag
    requires B.Classify(b, AsteroidCollider(obj, layer)).Some?
    ensures var first := AsteroidContact(s, cfg, i, BulletAsContact(bulletTag));
            var second := BulletContact(first, cfg, b, AsteroidCollider(obj, layer), Some(i));
            && second.session.asteroids[i].health == s.asteroids[i].health - 2
            && second.session.score == s.score
            && second.bullet.destroyed
  {
  }

  /** Star.OnTriggerEnter2D of tracked star `j`. */
  function StarContact(s: Session, j: nat, tag: string): (r: Session)
    requires j < |s.stars|
    ensures |r.stars| == |s.stars| && r.stars[j].id == s.stars[j].id
    ensures var st := s.stars[j];
            !st.isCollected && tag == st.settings.playerTag ==>
              r.score == s.score + st.settings.pointValue && r.stars[j].isCollected
    ensures var st := s.stars[j];
            st.isCollected || tag != st.settings.playerTag ==> r == s
    ensures WellFormed(s) ==> WellFormed(r)
    ensures r == s.(stars := r.stars, score := r.score)
  {
    var res := Scoring.OnTriggerEnter(s.stars[j], tag, s.score);
    s.(stars := s.stars[j := res.star], score := res.score)
  }

  // ---------------------------------------------------------------------------
  // Clearing, saving, restoring and retrying

  /** GameController.ClearAllGameObjects: the player, every asteroid and every star go. */
  function ClearAllGameObjects(s: Session): (r: Session)
    ensures ScenePlayer(r).None? && r.asteroids == [] && r.stars == []
    ensures r.health.Some? <==> s.health.Some?
    ensures s.health.Some? ==> r.health.value == s.health.value.(player := None)
    ensures WellFormed(r)
    ensures r == s.(asteroids := [], stars := [], health := r.health)
  {
    var health := if s.health.Some? then Some(s.health.value.(player := None)) else None;
    s.(asteroids := [], stars := [], health := health)
  }

  /** The record an asteroid is saved as: its position, size and health. */
  function AsteroidRecord(a: A.Asteroid): ObjectData {
    ObjectData(a.pos.x, a.pos.y, a.size, a.health)
  }

  /** The asteroids the engine still holds, in registry order. */
  function LiveAsteroids(s: Session): seq<A.Asteroid> {
    Filter(s.asteroids, LiveAsteroid)
  }

  /** The stars the engine still holds, in registry order. */
  function LiveStars(s: Session): seq<Scoring.Star> {
    Filter(s.stars, LiveStar)
  }

  /**
   * GameController.SaveGame as the GameState it writes. The volume fields
   * are never assigned, so they keep the record's initialisers.
   */
  function SaveGame(s: Session, now: int): (r: GameState)
    ensures r.playerLives == (if s.health.Some? then s.health.value.lives else LivesWithoutManager)
    ensures r.score == s.score && r.saveTime == now
    ensures r.highScore >= s.highScore && r.highScore >= s.score
    ensures r.highScore == s.highScore || r.highScore == s.score
    ensures r.player.Some? <==> ScenePlayer(s).Some?
    ensures r.player.Some? ==> r.player.value.posX == ScenePlayer(s).value.pos.x
                               && r.player.value.posY == ScenePlayer(s).value.pos.y
    ensures |r.asteroids| == |LiveAsteroids(s)| == Count(s.asteroids, LiveAsteroid)
    ensures forall a :: a in s.asteroids && LiveAsteroid(a) ==> AsteroidRecord(a) in r.asteroids
    ensures forall k :: 0 <= k < |r.asteroids| ==> r.asteroids[k] == AsteroidRecord(LiveAsteroids(s)[k])
    ensures |r.stars| == |LiveStars(s)| == Count(s.stars, LiveStar)
    ensures forall k :: 0 <= k < |r.stars| ==> r.stars[k] == PositionData(LiveStars(s)[k].pos)
    ensures r.volumes == DefaultVolumes
  {
    var live := LiveAsteroids(s);
    var liveStars := LiveStars(s);
    FilterLength(s.asteroids, LiveAsteroid);
    FilterLength(s.stars, LiveStar);
    var asteroids := seq(|live|, k requires 0 <= k < |live| => AsteroidRecord(live[k]));
    assert forall a :: a in s.asteroids && LiveAsteroid(a) ==> AsteroidRecord(a) in asteroids by {
      forall a | a in s.asteroids && LiveAsteroid(a) ensures AsteroidRecord(a) in asteroids {
        var k :| 0 <= k < |live| && live[k] == a;
        assert asteroids[k] == AsteroidRecord(a);
      }
    }
    var player := ScenePlayer(s);
    GameState(
      if s.health.Some? then s.health.value.lives else LivesWithoutManager,
      s.score,
      Max(s.highScore, s.score),
      asteroids,
      seq(|liveStars|, k requires 0 <= k < |liveStars| => PositionData(liveStars[k].pos)),
      if player.Some? then Some(PositionData(player.value.pos)) else None,
      now,
      FreshState.volumes)
  }

  /**
   * The asteroids TryLoadGame instantiates: each at its saved position and
   * given its saved size, from which its health is derived afresh.
   */
  function RestoredAsteroids(prefab: A.Asteroid, records: seq<ObjectData>): (r: seq<A.Asteroid>)
    ensures |r| == |records|
    ensures forall k :: 0 <= k < |r| ==>
              && r[k].pos == Vec(records[k].posX, records[k].posY)
              && r[k].size == ClampReal(records[k].size, A.MinSize, A.MaxSize)
              && r[k].health == A.SizedHealth(prefab.baseHealth, r[k].size)
              && !r[k].destroyed
  {
    seq(|records|, k requires 0 <= k < |records| =>
      A.SetSize(Instantiate(prefab, Vec(records[k].posX, records[k].posY)), records[k].size))
  }

  /** The stars TryLoadGame instantiates, one per record, each under a fresh identity. */
  function RestoreStars(s: Session, settings: Scoring.StarSettings, records: seq<ObjectData>): (r: Session)
    ensures |r.stars| == |s.stars| + |records| && r.stars[..|s.stars|] == s.stars
    ensures forall k :: 0 <= k < |records| ==>
              r.stars[|s.stars| + k].pos == Vec(records[k].posX, records[k].posY)
              && !r.stars[|s.stars| + k].isCollected
    ensures r.nextStarId == s.nextStarId + |records|
    ensures WellFormed(s) ==> WellFormed(r)
    ensures r == s.(stars := r.stars, nextStarId := r.nextStarId)
    decreases |records|
  {
    if |records| == 0 then s
    else
      var first := AddFreshStar(s, settings, Vec(records[0].posX, records[0].posY));
      var r := RestoreStars(first, settings, records[1..]);
      assert forall k :: 1 <= k < |records| ==> records[1..][k - 1] == records[k];
      assert r.stars[|s.stars|] == first.stars[|s.stars|];
      r
  }

  /**
   * The lives part of TryLoadGame: with a HealthManager the saved lives go
   * through SetLivesDirectly, which ends the game at zero.
   */
  function RestoreLives(s: Session, lives: int): (r: Session)
    ensures s.health.None? ==> r == s
    ensures s.health.Some? ==>
              var lr := H.SetLivesDirectly(s.health.value, lives);
              && r.health == Some(lr.health)
              && (lr.gameOver ==> r.gameOver && !r.paused)
              && (!lr.gameOver ==> r.gameOver == s.gameOver && r.paused == s.paused)
    ensures r == s.(health := r.health, gameOver := r.gameOver, paused := r.paused)
  {
    match s.health
    case None => s
    case Some(h) =>
      var lr := H.SetLivesDirectly(h, lives);
      var restored := s.(health := Some(lr.health));
      if lr.gameOver then ShowGameOverUI(restored) else restored
  }

  /**
   * The player part of TryLoadGame: a saved player with lives left is put
   * back at the saved position (moving the scene's player, or spawning one
   * when a HealthManager with a prefab can) and the game-over screen is
   * hidden; with no lives left the game-over screen is shown.
   */
  function RestorePlayer(s: Session, state: GameState): (r: Session)
    ensures state.player.Some? && state.playerLives > 0 ==>
              && !r.gameOver
              && (ScenePlayer(s).Some? || (s.health.Some? && s.health.value.hasPrefab) ==>
                    && ScenePlayer(r).Some?
                    && ScenePlayer(r).value.pos == Vec(state.player.value.posX, state.player.value.posY))
              && (ScenePlayer(s).None? && s.health.Some? && s.health.value.hasPrefab ==>
                    !H.Shielded(ScenePlayer(r).value))
    ensures state.playerLives <= 0 ==> r.gameOver && !r.paused && r.health == s.health
    ensures state.player.None? && state.playerLives > 0 ==> r == s
    ensures r.score == s.score && r.highScore == s.highScore && r.asteroids == s.asteroids
    ensures r.stars == s.stars && r.nextStarId == s.nextStarId && r.volumes == s.volumes
    ensures r.health.Some? <==> s.health.Some?
    ensures r.health.Some? ==> r.health.value.lives == s.health.value.lives
                               && r.health.value.maxLives == s.health.value.maxLives
  {
    if state.player.Some? && state.playerLives > 0 then
      var pos := Vec(state.player.value.posX, state.player.value.posY);
      var placed :=
        if ScenePlayer(s).Some? then
          s.(health := Some(s.health.value.(player := Some(ScenePlayer(s).value.(pos := pos)))))
        else if s.health.Some? && s.health.value.hasPrefab then
          s.(health := Some(H.SpawnPlayerAt(s.health.value, pos)))
        else s;
      HideGameOverUI(placed)
    else if state.playerLives <= 0 then ShowGameOverUI(s)
    else s
  }

  /**
   * The steps of TryLoadGame before the stars, in the order the source takes
   * them: clear the scene, take the high score and the volumes, restore the
   * lives, the score, the player and the asteroids.
   */
  function RestoreBeforeStars(s: Session, cfg: Config, st: GameState): Session {
    var v := st.volumes;
    var settings := ClearAllGameObjects(s).(highScore := st.highScore,
                      volumes := Menu.SetVolumeSettingsFromSave(
                        v.master, v.music, v.shooting, v.explosion, v.starCollecting));
    var withLives := RestoreLives(settings, st.playerLives);
    var scored := withLives.(score := Scoring.AddScore(Scoring.ResetScore(), st.score));
    var placed := RestorePlayer(scored, st);
    placed.(asteroids := RestoredAsteroids(cfg.asteroidPrefab, st.asteroids))
  }

  /** The session after TryLoadGame, and whether it reported success. */
  datatype LoadResult = LoadResult(session: Session, loaded: bool)

  /**
   * GameController.TryLoadGame. A missing or unreadable file changes
   * nothing. A readable one clears the scene, restores the high score, the
   * volumes, the lives, the score, the player and the asteroids, and then the
   * stars; without a star prefab the first saved star aborts the load with
   * everything before it already applied.
   */
  function TryLoadGame(s: Session, cfg: Config, file: SaveFile): (r: LoadResult)
    ensures !file.Stored? ==> r == LoadResult(s, false)
    ensures file.Stored? ==>
              var st := file.state;
              && r.session.highScore == st.highScore && r.session.volumes == st.volumes
              && r.session.score == st.score
              && (s.health.Some? <==> r.session.health.Some?)
              && (s.health.Some? ==> r.session.health.value.lives == Clamp(st.playerLives, 0, s.health.value.maxLives))
              && (st.playerLives <= 0 ==> r.session.gameOver && !r.session.paused)
              && r.session.asteroids == RestoredAsteroids(cfg.asteroidPrefab, st.asteroids)
              && (r.loaded <==> cfg.starPrefab.Some? || |st.stars| == 0)
              && (r.loaded ==> |r.session.stars| == |st.stars|)
              && WellFormed(r.session)
    ensures r.session.elapsed == s.elapsed && r.session.uncapped == s.uncapped
  {
    match file
    case Missing => LoadResult(s, false)
    case Unreadable => LoadResult(s, false)
    case Stored(st) =>
      var withAsteroids := RestoreBeforeStars(s, cfg, st);
      if |st.stars| > 0 && cfg.starPrefab.None? then LoadResult(withAsteroids, false)
      else if |st.stars| == 0 then LoadResult(withAsteroids, true)
      else LoadResult(RestoreStars(withAsteroids, cfg.starPrefab.value, st.stars), true)
  }

  /** The session after RetryGame, and the GameState it saves. */
  datatype RetryResult = RetryResult(session: Session, saved: GameState)

  /**
   * GameController.RetryGame: the clock and uncapped difficulty restart, the
   * high score absorbs the score, the scene is cleared, the score and lives
   * reset, a fresh player appears when one can be spawned, and the result is
   * saved.
   */
  function RetryGame(s: Session, now: int): (r: RetryResult)
    ensures var n := r.session;
            && n.highScore == Max(s.highScore, s.score) && n.highScore >= s.highScore
            && n.score == 0 && !n.gameOver && n.paused == s.paused
            && n.elapsed == 0.0 && n.uncapped == 1.0
            && n.asteroids == [] && n.stars == []
            && (n.health.Some? <==> s.health.Some?)
            && (s.health.Some? ==> n.health.value.lives == s.health.value.maxLives)
            && (s.health.Some? && s.health.value.hasPrefab ==>
                  && ScenePlayer(n).Some? && !H.Shielded(ScenePlayer(n).value)
                  && ScenePlayer(n).value.pos == s.health.value.respawnPoint)
            && WellFormed(n)
    ensures s.health.Some? && H.IdsFresh(s.health.value) ==> H.IdsFresh(r.session.health.value)
    ensures r.saved.score == 0 && r.saved.highScore == Max(r.session.highScore, 0)
    ensures r.saved.playerLives == (if s.health.Some? then s.health.value.maxLives else LivesWithoutManager)
    ensures r.saved.asteroids == [] && r.saved.stars == []
  {
    var restarted := s.(elapsed := 0.0, uncapped := 1.0, highScore := Max(s.highScore, s.score));
    var cleared := ClearAllGameObjects(HideGameOverUI(restarted));
    var reset := cleared.(score := Scoring.ResetScore());
    var healed := if reset.health.Some? then reset.(health := Some(H.ResetHealth(reset.health.value))) else reset;
    var respawned :=
      if healed.health.Some? && healed.health.value.hasPrefab then
        healed.(health := Some(H.SpawnPlayerAt(healed.health.value, healed.health.value.respawnPoint)))
      else healed;
    FilterLength(respawned.asteroids, LiveAsteroid);
    FilterLength(respawned.stars, LiveStar);
    RetryResult(respawned, SaveGame(respawned, now))
  }

  /** A retry leaves the clock and the uncapped difficulty in step. */
  lemma RetryRestartsDifficultyCurve(s: Session, rate: real, now: int)
    ensures var n := RetryGame(s, now).session;
            n.uncapped == UncappedDifficulty(rate, n.elapsed)
  {
  }

  /**
   * Saving and loading again restores the score and raises the high score to
   * cover it, but resets the volumes to their defaults and re-derives every
   * asteroid's health from its size, dropping damage and bonus health.
   */
  lemma SaveThenLoad(s: Session, cfg: Config, now: int, t: Session)
    requires cfg.starPrefab.Some?
    ensures var r := TryLoadGame(t, cfg, Stored(SaveGame(s, now)));
            var live := LiveAsteroids(s);
            && r.loaded
            && r.session.score == s.score
            && r.session.highScore == Max(s.highScore, s.score)
            && r.session.volumes == DefaultVolumes
            && |r.session.asteroids| == |live|
            && (forall k :: 0 <= k < |live| ==>
                  && r.session.asteroids[k].pos == live[k].pos
                  && r.session.asteroids[k].size == ClampReal(live[k].size, A.MinSize, A.MaxSize)
                  && r.session.asteroids[k].health ==
                     A.SizedHealth(cfg.asteroidPrefab.baseHealth, r.session.asteroids[k].size))
            && |r.session.stars| == |LiveStars(s)|
            && (forall k :: 0 <= k < |LiveStars(s)| ==>
                  r.session.stars[k].pos == LiveStars(s)[k].pos && !r.session.stars[k].isCollected)
            && (t.health.Some? && s.health.Some? ==>
                  r.session.health.value.lives == Clamp(s.health.value.lives, 0, t.health.value.maxLives))
  {
    var st := SaveGame(s, now);
    FilterLength(s.asteroids, LiveAsteroid);
    FilterLength(s.stars, LiveStar);
    assert forall k :: 0 <= k < |st.asteroids| ==> st.asteroids[k] == AsteroidRecord(LiveAsteroids(s)[k]);
    assert RestoreBeforeStars(t, cfg, st).stars == [];
  }

  /**
   * Loading a save whose volumes the menu has since updated yields exactly
   * the session the old save gave, except that the new volumes are in force.
   */
  lemma LoadAfterVolumeUpdate(s: Session, cfg: Config, file: SaveFile, current: Volumes)
    requires file.Stored?
    ensures var before := TryLoadGame(s, cfg, file);
            var after := TryLoadGame(s, cfg, Menu.UpdateVolumesInSave(file, current));
            && after.loaded == before.loaded
            && after.session.volumes == current
            && after.session == before.session.(volumes := current)
  {
    var st := file.state;
    RestoreBeforeStarsIgnoresVolumes(s, cfg, st, current);
    if cfg.starPrefab.Some? && |st.stars| > 0 {
      RestoreStarsIgnoresVolumes(RestoreBeforeStars(s, cfg, st), cfg.starPrefab.value, st.stars, current);
    }
  }

  /** Up to the stars, a load takes the saved volumes and otherwise ignores them. */
  lemma RestoreBeforeStarsIgnoresVolumes(s: Session, cfg: Config, st: GameState, v: Volumes)
    ensures RestoreBeforeStars(s, cfg, st.(volumes := v)) == RestoreBeforeStars(s, cfg, st).(volumes := v)
  {
    var cleared := ClearAllGameObjects(s).(highScore := st.highScore);
    var w := st.volumes;
    var old1 := cleared.(volumes := Menu.SetVolumeSettingsFromSave(w.master, w.music, w.shooting, w.explosion, w.starCollecting));
    RestoreLivesIgnoresVolumes(old1, st.playerLives, v);
    var old3 := RestoreLives(old1, st.playerLives).(score := Scoring.AddScore(Scoring.ResetScore(), st.score));
    RestorePlayerIgnoresVolumes(old3, st, v);
  }

  /** Restoring the lives neither reads nor writes the volume settings. */
  lemma RestoreLivesIgnoresVolumes(s: Session, lives: int, v: Volumes)
    ensures RestoreLives(s.(volumes := v), lives) == RestoreLives(s, lives).(volumes := v)
  {
  }

  /** Restoring the player neither reads nor writes any volume setting. */
  lemma RestorePlayerIgnoresVolumes(s: Session, state: GameState, v: Volumes)
    ensures RestorePlayer(s.(volumes := v), state.(volumes := v)) == RestorePlayer(s, state).(volumes := v)
  {
  }

  /** Restoring stars neither reads nor writes the volume settings. */
  lemma {:induction false} RestoreStarsIgnoresVolumes(s: Session, settings: Scoring.StarSettings,
                                                      records: seq<ObjectData>, v: Volumes)
    ensures RestoreStars(s.(volumes := v), settings, records) == RestoreStars(s, settings, records).(volumes := v)
    decreases |records|
  {
    if |records| > 0 {
      var first := AddFreshStar(s, settings, Vec(records[0].posX, records[0].posY));
      RestoreStarsIgnoresVolumes(first, settings, records[1..], v);
    }
  }

  // ---------------------------------------------------------------------------
  // The controller as the scene first creates it

  /**
   * A fresh controller keeps the registry invariant, and its clock and both
   * difficulties start in step under the inspector defaults.
   */
  lemma FreshSessionInStep(health: Option<H.HealthState>, prefab: A.Asteroid,
                           starPrefab: Option<Scoring.StarSettings>)
    ensures var s := Fresh(health);
            var cfg := DefaultConfig(prefab, starPrefab);
            && WellFormed(s) && !s.paused && !s.gameOver && s.score == 0
            && s.uncapped == UncappedDifficulty(cfg.difficultyIncreaseRate, s.elapsed)
            && s.difficulty == CappedDifficulty(cfg.maxDifficulty, s.uncapped)
  {
  }

  /**
   * Under the inspector defaults (cap 2.0, rate 0.1) bonus health starts at
   * an uncapped difficulty of 1.6, but the first whole bonus point needs 2.6:
   * no asteroid is reinforced during the first 1600 seconds of play, and
   * every one spawned from then until 2600 seconds gets exactly one point.
   */
  lemma DefaultCurveBonus(prefab: A.Asteroid, starPrefab: Option<Scoring.StarSettings>, t: real)
    ensures var cfg := DefaultConfig(prefab, starPrefab);
            var b := BonusHealth(cfg.maxDifficulty, UncappedDifficulty(cfg.difficultyIncreaseRate, t));
            && (t < 1600.0 ==> b == 0)
            && (1600.0 <= t < 2600.0 ==> b == 1)
  {
    var u := UncappedDifficulty(0.1, t);
    assert u == 1.0 + t / 1000.0;
    if u >= 1.6 {
      assert ExcessSteps(2.0, u) == u - 1.6;
    }
  }
}
