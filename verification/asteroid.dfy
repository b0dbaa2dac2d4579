/**
 * Asteroid health: the size clamp and the health derived from it, damage and
 * destruction (which drops a star), reinforcement by bonus health, and the
 * dispatch of a trigger contact to the player or bullet branch.
 */
module Asteroids {
  import opened Common

  const MinSize: real := 0.5
  const MaxSize: real := 3.0

  /** The sprite colour of an asteroid: untinted, or one of three reinforcement tiers. */
  datatype Tint = Plain | Light | Medium | Heavy

  /**
   * An asteroid. `destroyed` means Destroy(gameObject) has been requested;
   * the engine defers the actual removal, so the component still answers
   * calls until then. `starDrops` counts the star spawns it has attempted.
   * `rendererCached` says whether Start has looked up the sprite renderer,
   * without which no tint can be applied.
   */
  datatype Asteroid = Asteroid(
    pos: Vec,
    size: real,
    baseHealth: int,
    baseFallSpeed: real,
    playerTag: string,
    health: int,
    fallSpeed: real,
    tint: Tint,
    destroyed: bool,
    starDrops: nat,
    rendererCached: bool)

  /** The field initialisers of Asteroid.cs; health and fall speed start at zero until sized. */
  const DefaultAsteroid := Asteroid(Vec(0.0, 0.0), 1.0, 3, 3.0, "Player", 0, 0.0, Plain, false, 0, false)

  /**
   * Mathf.RoundToInt, which rounds to the nearest integer and breaks ties
   * towards the even neighbour.
   */
  function RoundToInt(x: real): (r: int)
    ensures r as real - 0.5 <= x <= r as real + 0.5
    ensures x == r as real - 0.5 || x == r as real + 0.5 ==> r % 2 == 0
  {
    var f := x.Floor;
    var frac := x - f as real;
    if frac < 0.5 then f
    else if frac > 0.5 then f + 1
    else if f % 2 == 0 then f
    else f + 1
  }

  function Distance(x: real, k: int): real {
    if x >= k as real then x - k as real else k as real - x
  }

  /** No integer is closer to `x` than RoundToInt(x). */
  lemma RoundToIntIsNearest(x: real, k: int)
    ensures Distance(x, RoundToInt(x)) <= Distance(x, k)
  {
    var r := RoundToInt(x);
    assert Distance(x, r) <= 0.5;
    if k < r {
      assert k as real <= r as real - 1.0;
      assert Distance(x, k) == x - k as real;
    } else if k > r {
      assert k as real >= r as real + 1.0;
      assert Distance(x, k) == k as real - x;
    }
  }

  /** The health an asteroid of `size` gets from its base health. */
  function SizedHealth(baseHealth: int, size: real): int {
    RoundToInt(baseHealth as real * size)
  }

  /** The fall speed an asteroid of `size` gets: larger asteroids fall slower. */
  function SizedFallSpeed(baseFallSpeed: real, size: real): real
    requires size > 0.0
  {
    baseFallSpeed / size
  }

  /**
   * The derived health is base health times size rounded to the nearest
   * integer (ties to even), and fall speed times size gives back the base speed.
   */
  lemma SizedValues(baseHealth: int, baseFallSpeed: real, size: real)
    requires size > 0.0
    ensures var h := SizedHealth(baseHealth, size);
            h as real - 0.5 <= baseHealth as real * size <= h as real + 0.5
    ensures var h := SizedHealth(baseHealth, size);
            baseHealth as real * size == h as real + 0.5 ==> h % 2 == 0
    ensures SizedFallSpeed(baseFallSpeed, size) * size == baseFallSpeed
  {
  }

  /**
   * Asteroid.ApplySize: clamp the size into [MinSize, MaxSize], then derive
   * health and fall speed from the clamped size.
   */
  function ApplySize(a: Asteroid): (r: Asteroid)
    ensures MinSize <= r.size <= MaxSize
    ensures MinSize <= a.size <= MaxSize ==> r.size == a.size
    ensures a.size < MinSize ==> r.size == MinSize
    ensures a.size > MaxSize ==> r.size == MaxSize
    ensures r.health == SizedHealth(a.baseHealth, r.size)
    ensures r.fallSpeed == SizedFallSpeed(a.baseFallSpeed, r.size)
    ensures r == a.(size := r.size, health := r.health, fallSpeed := r.fallSpeed)
  {
    var size := ClampReal(a.size, MinSize, MaxSize);
    a.(size := size,
       health := SizedHealth(a.baseHealth, size),
       fallSpeed := SizedFallSpeed(a.baseFallSpeed, size))
  }

  /** Asteroid.SetSize: store the new size, then apply it. */
  function SetSize(a: Asteroid, newSize: real): (r: Asteroid)
    ensures r.size == ClampReal(newSize, MinSize, MaxSize)
    ensures r.health == SizedHealth(a.baseHealth, r.size)
    ensures r.pos == a.pos && r.tint == a.tint && r.destroyed == a.destroyed
    ensures r.starDrops == a.starDrops && r.baseHealth == a.baseHealth
    ensures r.baseFallSpeed == a.baseFallSpeed && r.playerTag == a.playerTag
  {
    ApplySize(a.(size := newSize))
  }

  /** Applying the size a second time changes nothing. */
  lemma ApplySizeIdempotent(a: Asteroid)
    ensures ApplySize(ApplySize(a)) == ApplySize(a)
  {
  }

  /** Asteroid.DestroyAsteroid: attempt one star drop at the asteroid's position, then remove it. */
  function DestroyAsteroid(a: Asteroid): (r: Asteroid)
    ensures r.destroyed && r.starDrops == a.starDrops + 1
    ensures r.health == a.health && r.pos == a.pos && r.size == a.size
  {
    a.(destroyed := true, starDrops := a.starDrops + 1)
  }

  /**
   * Asteroid.TakeDamage: health drops by exactly `damage`; at or below zero
   * the asteroid is destroyed. Nothing guards against an asteroid already
   * marked for destruction, which destroys (and drops a star) again.
   */
  function TakeDamage(a: Asteroid, damage: int): (r: Asteroid)
    ensures r.health == a.health - damage
    ensures r.health <= 0 ==> r.destroyed && r.starDrops == a.starDrops + 1
    ensures r.health > 0 ==> r == a.(health := r.health)
    ensures r.destroyed <==> a.destroyed || r.health <= 0
    ensures r.size == a.size && r.pos == a.pos
  {
    var hit := a.(health := a.health - damage);
    if hit.health <= 0 then DestroyAsteroid(hit) else hit
  }

  /** The reinforcement tint chosen for a bonus. */
  function BonusTint(bonus: int): (t: Tint)
    ensures t == Light <==> bonus <= 3
    ensures t == Medium <==> 3 < bonus <= 8
    ensures t == Heavy <==> bonus > 8
  {
    if bonus <= 3 then Light else if bonus <= 8 then Medium else Heavy
  }

  /**
   * Asteroid.SetBonusHealth: add the bonus to health and, once the renderer
   * is known, tint the sprite by tier.
   */
  function SetBonusHealth(a: Asteroid, bonus: int): (r: Asteroid)
    ensures r.health == a.health + bonus
    ensures a.rendererCached ==> r.tint == BonusTint(bonus)
    ensures !a.rendererCached ==> r.tint == a.tint
    ensures r == a.(health := r.health, tint := r.tint)
  {
    a.(health := a.health + bonus, tint := if a.rendererCached then BonusTint(bonus) else a.tint)
  }

  /** Heavier bonuses never get a lighter tint. */
  lemma BonusTintMonotone(b1: int, b2: int)
    requires b1 <= b2
    ensures BonusTint(b1) == Heavy ==> BonusTint(b2) == Heavy
    ensures BonusTint(b2) == Light ==> BonusTint(b1) == Light
  {
  }

  /**
   * Asteroid.Start: caches the renderer, resets the sprite to plain white
   * and applies the size again. The engine runs it after the frame in which the asteroid was
   * instantiated, i.e. after the spawner has already called SetSize and
   * SetBonusHealth.
   */
  function Start(a: Asteroid): (r: Asteroid)
    ensures r.tint == Plain && r.rendererCached
    ensures r.size == ClampReal(a.size, MinSize, MaxSize)
    ensures r.health == SizedHealth(a.baseHealth, r.size)
  {
    ApplySize(a).(tint := Plain, rendererCached := true)
  }

  /**
   * The bonus a spawner adds before Start does not survive Start: the health
   * goes back to the one derived from the size, and the tint to plain.
   */
  lemma StartDiscardsBonus(a: Asteroid, size: real, bonus: int)
    ensures Start(SetBonusHealth(SetSize(a, size), bonus)).health == SetSize(a, size).health
    ensures Start(SetBonusHealth(SetSize(a, size), bonus)).tint == Plain
  {
  }

  /** What touched the asteroid's trigger. */
  datatype Contact = Contact(tag: string, isBullet: bool, healthMarker: bool, asteroidMarker: bool)

  /** The asteroid afterwards, and the calls it made on the other parties. */
  datatype ContactResult = ContactResult(asteroid: Asteroid, damagePlayer: bool, destroyBullet: bool)

  /**
   * Asteroid.OnTriggerEnter2D. A player carrying either marker is ignored.
   * A vulnerable player is damaged once (when a HealthManager exists) and the
   * asteroid is destroyed whatever its health. A bullet costs one health and
   * is destroyed. Anything else is ignored.
   */
  function OnTriggerEnter(a: Asteroid, c: Contact, hasHealthManager: bool): (r: ContactResult)
    ensures c.tag == a.playerTag && (c.healthMarker || c.asteroidMarker) ==>
              r == ContactResult(a, false, false)
    ensures c.tag == a.playerTag && !c.healthMarker && !c.asteroidMarker ==>
              && r.asteroid.destroyed && r.asteroid.health == a.health
              && r.asteroid.starDrops == a.starDrops + 1
              && r.damagePlayer == hasHealthManager && !r.destroyBullet
    ensures c.tag != a.playerTag && c.isBullet ==>
              && r.asteroid.health == a.health - 1 && r.destroyBullet && !r.damagePlayer
              && (r.asteroid.destroyed <==> a.destroyed || a.health <= 1)
    ensures c.tag != a.playerTag && !c.isBullet ==> r == ContactResult(a, false, false)
  {
    if c.tag == a.playerTag then
      if c.healthMarker || c.asteroidMarker then ContactResult(a, false, false)
      else ContactResult(DestroyAsteroid(a), hasHealthManager, false)
    else if c.isBullet then ContactResult(TakeDamage(a, 1), false, true)
    else ContactResult(a, false, false)
  }
}
