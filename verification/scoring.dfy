/**
 * The static score counter (GameManager) and the collectable stars that feed it.
 * The score is one integer shared by the whole game; a star pays its point
 * value into it at most once.
 */
module Scoring {
  import opened Common

  // ---------------------------------------------------------------------------
  // GameManager

  /** GameManager.AddScore: the score moves by `points`, which may be negative. */
  function AddScore(score: int, points: int): (r: int)
    ensures r - score == points
  {
    score + points
  }

  /** GameManager.ResetScore: the counter starts again from nothing. */
  function ResetScore(): (r: int)
    ensures r == 0
  {
    0
  }

  /** The points of a list of awards, added up independently of the score counter. */
  function Total(points: seq<int>): int {
    if |points| == 0 then 0 else points[0] + Total(points[1..])
  }

  /** The score after a run of AddScore calls, one per element, in order. */
  function AddEach(score: int, points: seq<int>): int
    decreases |points|
  {
    if |points| == 0 then score else AddEach(AddScore(score, points[0]), points[1..])
  }

  /** A run of AddScore calls moves the score by exactly the total of their points. */
  lemma {:induction false} AddEachIsTotal(score: int, points: seq<int>)
    ensures AddEach(score, points) == score + Total(points)
    decreases |points|
  {
    if |points| > 0 {
      AddEachIsTotal(AddScore(score, points[0]), points[1..]);
    }
  }

  /** After ResetScore the score is the plain total of the awards that follow. */
  lemma ScoreAfterResetIsTotal(points: seq<int>)
    ensures AddEach(ResetScore(), points) == Total(points)
  {
    AddEachIsTotal(ResetScore(), points);
  }

  // ---------------------------------------------------------------------------
  // Star

  /** The inspector settings of a star prefab. */
  datatype StarSettings = StarSettings(pointValue: int, playerTag: string, destroyOnCollect: bool)

  /** The field initialisers of Star.cs. */
  const DefaultStarSettings := StarSettings(10, "Player", true)

  /**
   * A star in the scene. `destroyed` means Destroy(gameObject) has been
   * requested; the engine's sound-length delay is not modelled.
   */
  datatype Star = Star(
    id: nat,
    pos: Vec,
    settings: StarSettings,
    isCollected: bool,
    rendererEnabled: bool,
    colliderEnabled: bool,
    destroyed: bool)

  /** A freshly instantiated star. */
  function NewStar(id: nat, pos: Vec, settings: StarSettings): Star {
    Star(id, pos, settings, false, true, true, false)
  }

  /** The star and the score after a star callback. */
  datatype StarResult = StarResult(star: Star, score: int)

  /** Star.CollectStar: mark collected, pay the points, hide and disable the star. */
  function CollectStar(s: Star, score: int): (r: StarResult)
    ensures r.star.isCollected
    ensures r.score == score + s.settings.pointValue
    ensures !r.star.rendererEnabled && !r.star.colliderEnabled
    ensures r.star.destroyed <==> s.destroyed || s.settings.destroyOnCollect
    ensures r.star.id == s.id && r.star.pos == s.pos && r.star.settings == s.settings
  {
    StarResult(
      s.(isCollected := true, rendererEnabled := false, colliderEnabled := false,
         destroyed := s.destroyed || s.settings.destroyOnCollect),
      AddScore(score, s.settings.pointValue))
  }

  /**
   * Star.OnTriggerEnter2D for a collider carrying tag `otherTag`: only an
   * uncollected star touched by the player tag is collected.
   */
  function OnTriggerEnter(s: Star, otherTag: string, score: int): (r: StarResult)
    ensures s.isCollected || otherTag != s.settings.playerTag ==> r == StarResult(s, score)
    ensures !s.isCollected && otherTag == s.settings.playerTag ==>
              r.star.isCollected && r.score == score + s.settings.pointValue
    ensures r.star.isCollected <==> s.isCollected || otherTag == s.settings.playerTag
  {
    if !s.isCollected && otherTag == s.settings.playerTag then CollectStar(s, score)
    else StarResult(s, score)
  }

  /** A run of trigger callbacks on one star, one per tag, in order. */
  function TriggerEach(s: Star, tags: seq<string>, score: int): StarResult
    decreases |tags|
  {
    if |tags| == 0 then StarResult(s, score)
    else
      var first := OnTriggerEnter(s, tags[0], score);
      TriggerEach(first.star, tags[1..], first.score)
  }

  /** Once collected, a star ignores every later trigger. */
  lemma {:induction false} CollectedStarIsInert(s: Star, tags: seq<string>, score: int)
    requires s.isCollected
    ensures TriggerEach(s, tags, score) == StarResult(s, score)
  {
    if |tags| > 0 {
      CollectedStarIsInert(s, tags[1..], score);
    }
  }

  /**
   * However many colliders touch a star, it pays its points at most once:
   * exactly once if some toucher carries the player tag, never otherwise.
   */
  lemma {:induction false} StarPaysAtMostOnce(s: Star, tags: seq<string>, score: int)
    requires !s.isCollected
    ensures TriggerEach(s, tags, score).score ==
            score + (if s.settings.playerTag in tags then s.settings.pointValue else 0)
    ensures TriggerEach(s, tags, score).star.isCollected <==> s.settings.playerTag in tags
  {
    if |tags| > 0 {
      var first := OnTriggerEnter(s, tags[0], score);
      assert s.settings.playerTag in tags <==>
             tags[0] == s.settings.playerTag || s.settings.playerTag in tags[1..];
      if tags[0] == s.settings.playerTag {
        CollectedStarIsInert(first.star, tags[1..], first.score);
      } else {
        StarPaysAtMostOnce(s, tags[1..], score);
      }
    }
  }

  /**
   * A star with the script's default settings pays ten points to the object
   * tagged "Player", is destroyed by it, and ignores every other tag.
   */
  lemma DefaultStarPaysPlayerTen(id: nat, pos: Vec, tag: string, score: int)
    ensures var r := OnTriggerEnter(NewStar(id, pos, DefaultStarSettings), tag, score);
            && r.score == score + (if tag == "Player" then 10 else 0)
            && (r.star.destroyed <==> tag == "Player")
  {
  }
}
