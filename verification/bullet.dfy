/**
 * Bullet target classification. A contact is a hit when the first of four
 * rules matches (explicit target list, default asteroid tag, layer mask, tag
 * list); a hit damages an asteroid by one and always destroys the bullet.
 */
module Bullets {
  import opened Common

  /** A physics layer index; the engine has 32 of them, numbered 0 to 31. */
  type Layer = bv5

  const AsteroidTag := "Asteroid"

  /** The object a bullet touched: its identity, tag, layer, and which components it has. */
  datatype Collider = Collider(obj: nat, tag: string, layer: Layer, isBullet: bool, isAsteroid: bool)

  datatype Bullet = Bullet(
    targetTags: seq<string>,
    targetLayers: bv32,
    targets: seq<nat>,
    hitAsteroidsByDefault: bool,
    destroyed: bool)

  /** The field initialisers of Bullet.cs. */
  const DefaultBullet := Bullet([AsteroidTag], 0, [], true, false)

  /** The rule that made a contact a hit. */
  datatype Rule = ExplicitTarget | DefaultAsteroid | LayerMask | TagList

  /** The layer test of OnTriggerEnter2D: shift one by the layer and mask it. */
  function LayerSelected(mask: bv32, layer: Layer): bool {
    ((1 as bv32) << (layer as bv32)) & mask != 0
  }

  /** The layer test succeeds exactly when bit `layer` of the mask is set. */
  lemma LayerSelectedIsBit(mask: bv32, layer: Layer)
    ensures LayerSelected(mask, layer) <==> (mask >> (layer as bv32)) & 1 == 1
  {
  }

  /** An empty mask selects no layer, so skipping the test for mask 0 loses nothing. */
  lemma EmptyMaskSelectsNothing(layer: Layer)
    ensures !LayerSelected(0, layer)
  {
  }

  /** Bullet.OnTriggerEnter2D's decision: the first matching rule, or none. */
  function Classify(b: Bullet, c: Collider): (r: Option<Rule>)
    ensures c.isBullet ==> r.None?
    ensures !c.isBullet && c.obj in b.targets ==> r == Some(ExplicitTarget)
    ensures r == Some(ExplicitTarget) ==> !c.isBullet && c.obj in b.targets
    ensures r == Some(DefaultAsteroid) ==>
              b.hitAsteroidsByDefault && c.tag == AsteroidTag && c.obj !in b.targets
    ensures r == Some(LayerMask) ==>
              LayerSelected(b.targetLayers, c.layer)
              && c.obj !in b.targets && !(b.hitAsteroidsByDefault && c.tag == AsteroidTag)
    ensures r == Some(TagList) ==>
              c.tag in b.targetTags
              && c.obj !in b.targets && !(b.hitAsteroidsByDefault && c.tag == AsteroidTag)
              && !LayerSelected(b.targetLayers, c.layer)
    ensures r.Some? ==> !c.isBullet
    ensures r.None? ==> c.isBullet || !AnyRuleMatches(b, c)
  {
    if c.isBullet then None
    else if |b.targets| > 0 && c.obj in b.targets then Some(ExplicitTarget)
    else if b.hitAsteroidsByDefault && c.tag == AsteroidTag then Some(DefaultAsteroid)
    else if b.targetLayers != 0 && LayerSelected(b.targetLayers, c.layer) then Some(LayerMask)
    else if |b.targetTags| > 0 && c.tag in b.targetTags then Some(TagList)
    else None
  }

  /** Whether some rule accepts the contact, each rule read on its own. */
  predicate AnyRuleMatches(b: Bullet, c: Collider) {
    || c.obj in b.targets
    || (b.hitAsteroidsByDefault && c.tag == AsteroidTag)
    || LayerSelected(b.targetLayers, c.layer)
    || c.tag in b.targetTags
  }

  /**
   * The order of the rules decides only which rule is reported: a contact is
   * a hit exactly when it is not a bullet and some rule accepts it.
   */
  lemma HitIffSomeRuleMatches(b: Bullet, c: Collider)
    ensures Classify(b, c).Some? <==> !c.isBullet && AnyRuleMatches(b, c)
  {
  }

  /** The bullet afterwards, and whether it called TakeDamage(1) on an asteroid. */
  datatype HitResult = HitResult(bullet: Bullet, damageAsteroid: bool)

  /**
   * Bullet.OnTriggerEnter2D with HandleHit: on a hit the target is damaged
   * by one if it is an asteroid, and the bullet is destroyed in every case.
   */
  function OnTriggerEnter(b: Bullet, c: Collider): (r: HitResult)
    ensures Classify(b, c).None? ==> r == HitResult(b, false)
    ensures Classify(b, c).Some? ==> r.bullet.destroyed && (r.damageAsteroid <==> c.isAsteroid)
    ensures r.bullet == b.(destroyed := r.bullet.destroyed)
  {
    if Classify(b, c).Some? then HitResult(b.(destroyed := true), c.isAsteroid) else HitResult(b, false)
  }

  /** Bullet.AddTarget: null and already listed objects are ignored. */
  function AddTarget(b: Bullet, target: Option<nat>): (r: Bullet)
    ensures NoDuplicates(b.targets) ==> NoDuplicates(r.targets)
    ensures target.None? ==> r == b
    ensures target.Some? ==> forall o :: o in r.targets <==> o in b.targets || o == target.value
    ensures |r.targets| <= |b.targets| + 1
    ensures r == b.(targets := r.targets)
  {
    if target.Some? && target.value !in b.targets then b.(targets := b.targets + [target.value])
    else b
  }

  /** Adding the same target twice is the same as adding it once. */
  lemma AddTargetIdempotent(b: Bullet, target: Option<nat>)
    ensures AddTarget(AddTarget(b, target), target) == AddTarget(b, target)
  {
  }

  /** Bullet.ClearTargets. */
  function ClearTargets(b: Bullet): (r: Bullet)
    ensures |r.targets| == 0
    ensures r == b.(targets := r.targets)
  {
    b.(targets := [])
  }

  /** After ClearTargets no contact is a hit through the explicit list any more. */
  lemma ClearedBulletHasNoExplicitTargets(b: Bullet, c: Collider)
    ensures Classify(ClearTargets(b), c) != Some(ExplicitTarget)
  {
  }

  /** With its default settings a bullet hits anything tagged as an asteroid, and nothing else. */
  lemma DefaultBulletHitsAsteroidTag(c: Collider)
    ensures Classify(DefaultBullet, c).Some? <==> !c.isBullet && c.tag == AsteroidTag
  {
  }
}
