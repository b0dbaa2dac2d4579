/**
 * The player's lives state machine (HealthManager). Lives never drop below
 * zero, a hit costs a life and ten points unless the player carries an
 * invulnerability marker, and a hit either ends the game or starts a
 * respawn/invulnerability routine. The routine's timing is reduced to two
 * discrete events: it starts, and later it finishes.
 */
module PlayerHealth {
  import opened Common

  /** Points added to the score for each life lost. */
  const HitPenalty: int := -10

  /** The field initialiser of `maxLives`. */
  const DefaultMaxLives: int := 3

  /** Where a player spawns when no respawn point is assigned. */
  const DefaultRespawnPoint := Vec(0.0, -4.0)

  /**
   * The player object. `healthMarker` is a HealthManager.InvulnerabilityMarker
   * component, `asteroidMarker` an Asteroid.InvulnerabilityController
   * component; `id` stands for the object's identity.
   */
  datatype Player = Player(
    id: nat,
    pos: Vec,
    healthMarker: bool,
    asteroidMarker: bool,
    colliderEnabled: bool)

  /** The player carries either invulnerability marker. */
  predicate Shielded(p: Player) {
    p.healthMarker || p.asteroidMarker
  }

  /**
   * A running RespawnPlayer coroutine: either the invulnerability phase of an
   * existing player (which remembers that player's identity), or the wait
   * before a new player is instantiated from the prefab.
   */
  datatype Routine = Shield(playerId: nat) | Respawn

  datatype HealthState = HealthState(
    maxLives: int,
    lives: int,
    livesInitialized: bool,
    player: Option<Player>,
    hasPrefab: bool,
    respawnPoint: Vec,
    nextPlayerId: nat,
    routines: seq<Routine>)

  /**
   * A HealthManager before Start, with the field initialisers of the script.
   * `respawnPoint` is the assigned respawn Transform's position, if any;
   * without one, players appear at DefaultRespawnPoint.
   */
  function Initial(hasPrefab: bool, respawnPoint: Option<Vec>): (r: HealthState)
    ensures r.maxLives == DefaultMaxLives && !r.livesInitialized
    ensures r.player.None? && r.routines == [] && r.hasPrefab == hasPrefab
    ensures respawnPoint.Some? ==> r.respawnPoint == respawnPoint.value
    ensures respawnPoint.None? ==> r.respawnPoint == DefaultRespawnPoint
    ensures IdsFresh(r)
  {
    var point := if respawnPoint.Some? then respawnPoint.value else DefaultRespawnPoint;
    HealthState(DefaultMaxLives, 0, false, None, hasPrefab, point, 0, [])
  }

  /**
   * Player identities are handed out fresh: the current player, and every
   * player an invulnerability phase remembers, is older than the next
   * identity to hand out.
   */
  predicate IdsFresh(h: HealthState) {
    && (h.player.Some? ==> h.player.value.id < h.nextPlayerId)
    && forall i :: 0 <= i < |h.routines| && h.routines[i].Shield? ==> h.routines[i].playerId < h.nextPlayerId
  }

  /** What a HealthManager call leaves behind: its state, the score, and whether it called ShowGameOverUI. */
  datatype Outcome = Outcome(health: HealthState, score: int, gameOver: bool)

  /** Instantiate a player from the prefab at `pos` and make it the current player. */
  function SpawnPlayerAt(h: HealthState, pos: Vec): (r: HealthState)
    ensures r.player.Some? && !Shielded(r.player.value) && r.player.value.colliderEnabled
    ensures r.player.value.pos == pos
    ensures r.player.value.id == h.nextPlayerId && r.nextPlayerId > h.nextPlayerId
    ensures r.lives == h.lives && r.maxLives == h.maxLives && r.routines == h.routines
    ensures IdsFresh(h.(player := None)) ==> IdsFresh(r)
  {
    h.(player := Some(Player(h.nextPlayerId, pos, false, false, true)),
       nextPlayerId := h.nextPlayerId + 1)
  }

  /**
   * HealthManager.Start: lives are reset to the maximum unless a save has
   * already set them, and the player found in the scene becomes the current
   * one. Identities handed out later are newer than that player's.
   */
  function Start(h: HealthState, scenePlayer: Option<Player>): (r: HealthState)
    ensures !h.livesInitialized ==> r.lives == h.maxLives
    ensures h.livesInitialized ==> r.lives == h.lives
    ensures r.player == scenePlayer
    ensures r.maxLives == h.maxLives && r.livesInitialized == h.livesInitialized
    ensures r.routines == h.routines && r.nextPlayerId >= h.nextPlayerId
    ensures IdsFresh(h.(player := None)) ==> IdsFresh(r)
  {
    var next := if scenePlayer.Some? && scenePlayer.value.id >= h.nextPlayerId
                then scenePlayer.value.id + 1 else h.nextPlayerId;
    h.(lives := if h.livesInitialized then h.lives else h.maxLives, player := scenePlayer,
       nextPlayerId := next)
  }

  /** HealthManager.GameOver: the player object is destroyed; ShowGameOverUI follows. */
  function GameOver(h: HealthState): (r: HealthState)
    ensures r.player.None?
    ensures r.lives == h.lives && r.routines == h.routines
    ensures r == h.(player := None)
    ensures IdsFresh(h) ==> IdsFresh(r)
  {
    h.(player := None)
  }

  /**
   * The synchronous part of the RespawnPlayer coroutine: an existing player
   * gets the marker and loses its collider at once; without a player, a
   * respawn is queued when a prefab is assigned; otherwise nothing happens.
   */
  function StartRespawn(h: HealthState): (r: HealthState)
    ensures h.player.Some? ==>
              r.player == Some(h.player.value.(healthMarker := true, colliderEnabled := false))
              && r.routines == h.routines + [Shield(h.player.value.id)]
    ensures h.player.None? && h.hasPrefab ==> r == h.(routines := h.routines + [Respawn])
    ensures h.player.None? && !h.hasPrefab ==> r == h
    ensures r.lives == h.lives
    ensures IdsFresh(h) ==> IdsFresh(r)
  {
    match h.player
    case Some(p) =>
      h.(player := Some(p.(healthMarker := true, colliderEnabled := false)),
         routines := h.routines + [Shield(p.id)])
    case None =>
      if h.hasPrefab then h.(routines := h.routines + [Respawn]) else h
  }

  /** HealthManager.TakeDamage, with the GameManager score it updates. */
  function TakeDamage(h: HealthState, score: int): (o: Outcome)
    ensures h.player.Some? && Shielded(h.player.value) ==> o == Outcome(h, score, false)
    ensures !(h.player.Some? && Shielded(h.player.value)) ==>
              && o.health.lives == Max(0, h.lives - 1)
              && o.score == score - 10
              && (o.gameOver <==> o.health.lives == 0)
    ensures o.gameOver ==> o.health.player.None?
    ensures !(h.player.Some? && Shielded(h.player.value)) && h.lives > 1 ==>
              o.health == StartRespawn(h.(lives := h.lives - 1))
    ensures o.health.maxLives == h.maxLives && o.health.livesInitialized == h.livesInitialized
    ensures !(h.player.Some? && Shielded(h.player.value)) && h.lives <= 1 ==>
              o.health == h.(lives := 0, player := None)
    ensures h.lives >= 0 ==> o.health.lives >= 0
    ensures IdsFresh(h) ==> IdsFresh(o.health)
  {
    if h.player.Some? && Shielded(h.player.value) then Outcome(h, score, false)
    else
      var damaged := h.(lives := Max(0, h.lives - 1));
      var score' := score + HitPenalty;
      if damaged.lives <= 0 then Outcome(GameOver(damaged), score', true)
      else Outcome(StartRespawn(damaged), score', false)
  }

  /**
   * The end of running routine `i`. An invulnerability phase re-enables the
   * collider and removes the marker of the player it started on, if that
   * player is still the current one; a queued respawn instantiates a fresh,
   * unmarked player at the respawn point.
   */
  function FinishRoutine(h: HealthState, i: nat): (r: HealthState)
    requires i < |h.routines|
    ensures r.routines == h.routines[..i] + h.routines[i + 1..]
    ensures r.lives == h.lives && r.maxLives == h.maxLives
    ensures h.routines[i].Respawn? ==>
              r.player.Some? && !Shielded(r.player.value) && r.player.value.colliderEnabled
              && r.player.value.pos == h.respawnPoint
    ensures h.routines[i].Shield? && h.player.Some? && h.player.value.id == h.routines[i].playerId ==>
              r.player == Some(h.player.value.(healthMarker := false, colliderEnabled := true))
    ensures h.routines[i].Shield? && !(h.player.Some? && h.player.value.id == h.routines[i].playerId) ==>
              r.player == h.player
    ensures IdsFresh(h) ==> IdsFresh(r)
  {
    var rest := h.routines[..i] + h.routines[i + 1..];
    match h.routines[i]
    case Shield(pid) =>
      if h.player.Some? && h.player.value.id == pid then
        h.(player := Some(h.player.value.(healthMarker := false, colliderEnabled := true)),
           routines := rest)
      else h.(routines := rest)
    case Respawn =>
      SpawnPlayerAt(h.(routines := rest), h.respawnPoint)
  }

  /** HealthManager.ResetHealth. */
  function ResetHealth(h: HealthState): (r: HealthState)
    ensures r.lives == h.maxLives
    ensures r == h.(lives := r.lives)
    ensures IdsFresh(h) ==> IdsFresh(r)
  {
    h.(lives := h.maxLives)
  }

  /** HealthManager.IsInvulnerable: looks at the HealthManager marker only. */
  function IsInvulnerable(obj: Option<Player>): (r: bool)
    ensures r ==> obj.Some? && Shielded(obj.value)
    ensures obj.Some? && obj.value.healthMarker ==> r
    ensures obj.Some? && !obj.value.healthMarker && obj.value.asteroidMarker ==> !r
  {
    obj.Some? && obj.value.healthMarker
  }

  /** A lives update coming from a save, and whether it called ShowGameOverUI. */
  datatype LivesResult = LivesResult(health: HealthState, gameOver: bool)

  /** HealthManager.SetLivesDirectly: clamp into [0, maxLives], remember it, end the game at zero. */
  function SetLivesDirectly(h: HealthState, lives: int): (r: LivesResult)
    ensures r.health.lives == Clamp(lives, 0, h.maxLives)
    ensures h.maxLives >= 0 ==> 0 <= r.health.lives <= h.maxLives
    ensures 0 <= lives <= h.maxLives ==> r.health.lives == lives
    ensures r.health.livesInitialized
    ensures r.gameOver <==> r.health.lives <= 0
    ensures r.gameOver ==> r.health.player.None?
    ensures !r.gameOver ==> r.health.player == h.player
    ensures r.health.maxLives == h.maxLives && r.health.routines == h.routines
    ensures IdsFresh(h) ==> IdsFresh(r.health)
  {
    var stored := h.(lives := Clamp(lives, 0, h.maxLives), livesInitialized := true);
    if stored.lives <= 0 then LivesResult(GameOver(stored), true) else LivesResult(stored, false)
  }

  // ---------------------------------------------------------------------------
  // Properties relating several calls

  /**
   * A vulnerable player hit with lives to spare goes through one
   * invulnerability phase: marked and intangible while it lasts (a second hit
   * changes nothing), then back to unmarked with its collider enabled.
   */
  lemma ShieldPhaseRoundTrip(h: HealthState, score: int, later: int)
    requires h.player.Some? && !Shielded(h.player.value) && h.lives > 1
    ensures var o := TakeDamage(h, score);
            && !o.gameOver && o.health.lives == h.lives - 1
            && o.health.player.Some? && Shielded(o.health.player.value)
            && !o.health.player.value.colliderEnabled
            && TakeDamage(o.health, later) == Outcome(o.health, later, false)
            && |o.health.routines| == |h.routines| + 1
            && FinishRoutine(o.health, |h.routines|).player ==
               Some(h.player.value.(colliderEnabled := true))
  {
    var o := TakeDamage(h, score);
    assert o.health.routines[|h.routines|] == Shield(h.player.value.id);
  }

  /** A player brought back by a queued respawn carries no marker and can be hit. */
  lemma RespawnedPlayerIsVulnerable(h: HealthState, i: nat, score: int)
    requires i < |h.routines| && h.routines[i].Respawn? && h.lives > 0
    ensures var r := FinishRoutine(h, i);
            !IsInvulnerable(r.player) && TakeDamage(r, score).score == score + HitPenalty
  {
  }

  /** Lives restored from a save survive the later Start; a fresh manager starts full. */
  lemma SavedLivesSurviveStart(h: HealthState, lives: int, scenePlayer: Option<Player>)
    ensures Start(SetLivesDirectly(h, lives).health, scenePlayer).lives == Clamp(lives, 0, h.maxLives)
    ensures !h.livesInitialized ==> Start(h, scenePlayer).lives == h.maxLives
  {
  }

  /** `k` hits in a row; `gameOver` records whether any of them called ShowGameOverUI. */
  function Hits(h: HealthState, score: int, k: nat): Outcome
    decreases k
  {
    if k == 0 then Outcome(h, score, false)
    else
      var first := TakeDamage(h, score);
      var rest := Hits(first.health, first.score, k - 1);
      Outcome(rest.health, rest.score, first.gameOver || rest.gameOver)
  }

  /**
   * While no player object is there to carry a marker, every hit costs a life
   * (never going below zero) and ten points, also once the lives are gone;
   * the game is declared over exactly when the hits reach the lives.
   */
  lemma {:induction false} HitsWithoutPlayer(h: HealthState, score: int, k: nat)
    requires h.player.None? && h.lives >= 0
    ensures Hits(h, score, k).health.lives == Max(0, h.lives - k)
    ensures Hits(h, score, k).score == score + k * HitPenalty
    ensures Hits(h, score, k).gameOver <==> k > 0 && k >= h.lives
    ensures Hits(h, score, k).health.player.None?
    decreases k
  {
    if k > 0 {
      var first := TakeDamage(h, score);
      assert first.health.player.None?;
      HitsWithoutPlayer(first.health, first.score, k - 1);
    }
  }

  /**
   * ResetHealth gives back the whole allowance: with no player object to
   * carry a marker, the game survives maxLives - 1 hits and ends on the next.
   */
  lemma {:induction false} ResetHealthAllowsMaxLivesHits(h: HealthState, score: int)
    requires h.player.None? && h.maxLives > 0
    ensures !Hits(ResetHealth(h), score, h.maxLives - 1).gameOver
    ensures Hits(ResetHealth(h), score, h.maxLives).gameOver
    ensures Hits(ResetHealth(h), score, h.maxLives).health.lives == 0
  {
    HitsWithoutPlayer(ResetHealth(h), score, h.maxLives - 1);
    HitsWithoutPlayer(ResetHealth(h), score, h.maxLives);
  }

  /**
   * A fresh manager with a prefab but no respawn point starts with three
   * lives; its first hit, taken before any player exists, queues a respawn
   * that brings the player in at (0, -4).
   */
  lemma UnassignedRespawnPoint(score: int)
    ensures var h := Start(Initial(true, None), None);
            var o := TakeDamage(h, score);
            && h.lives == DefaultMaxLives
            && !o.gameOver && o.health.lives == DefaultMaxLives - 1
            && o.health.routines == [Respawn]
            && FinishRoutine(o.health, 0).player.Some?
            && FinishRoutine(o.health, 0).player.value.pos == DefaultRespawnPoint
  {
  }

  /**
   * An invulnerability phase that outlives its player never touches a player
   * spawned after it: ending the phase leaves the new player as it is.
   */
  lemma StaleShieldSparesNewPlayer(h: HealthState, pos: Vec, i: nat)
    requires IdsFresh(h) && i < |h.routines| && h.routines[i].Shield?
    ensures var n := SpawnPlayerAt(h, pos);
            FinishRoutine(n, i).player == n.player
  {
  }

  /**
   * A player hit, replaced by a fresh one (as a retry does), and the new
   * player hit too: ending the first player's stale phase leaves the new
   * player marked and intangible, so it still ignores hits.
   */
  lemma ShieldSurvivesStaleRoutine(p: Player, pos: Vec, score: int)
    requires !Shielded(p)
    ensures var h0 := Start(Initial(true, None), Some(p));
            var o1 := TakeDamage(h0, score);
            var h2 := SpawnPlayerAt(ResetHealth(o1.health).(player := None), pos);
            var o3 := TakeDamage(h2, score);
            var h4 := FinishRoutine(o3.health, 0);
            && o1.health.routines == [Shield(p.id)]
            && |o3.health.routines| == 2
            && h4.player.Some? && Shielded(h4.player.value) && !h4.player.value.colliderEnabled
            && TakeDamage(h4, score) == Outcome(h4, score, false)
  {
    var h0 := Start(Initial(true, None), Some(p));
    var o1 := TakeDamage(h0, score);
    var h2 := SpawnPlayerAt(ResetHealth(o1.health).(player := None), pos);
    assert h2.player.value.id != p.id;
  }

  /** IsInvulnerable misses the Asteroid marker that TakeDamage honours. */
  lemma IsInvulnerableIgnoresAsteroidMarker(p: Player, h: HealthState, score: int)
    requires p.asteroidMarker && !p.healthMarker && h.player == Some(p)
    ensures !IsInvulnerable(Some(p))
    ensures TakeDamage(h, score) == Outcome(h, score, false)
  {
  }
}
