# Asteroid shooter gameplay core in Dafny

This project models the gameplay state of a Unity arcade game, with the engine callbacks stripped away. The player flies a ship, asteroids fall, bullets break them, and broken asteroids drop stars that add to the score. Hits cost lives and points, and the session can be paused, retried, saved and restored.

Every engine object is an immutable record, and every callback is a pure transition function:

| module | file | models |
|---|---|---|
| `Common` | `common.dfy` | nullable references, positions, `Mathf.Clamp`, `List.RemoveAll` |
| `Scoring` | `scoring.dfy` | the static `GameManager` score and the collect-once `Star` |
| `PlayerHealth` | `health.dfy` | `HealthManager`: lives, the invulnerability markers, respawn phases, game over |
| `Asteroids` | `asteroid.dfy` | asteroid size, health, damage, bonus health and tint, trigger dispatch |
| `Bullets` | `bullet.dfy` | first-match target classification, hit handling, the target list |
| `SaveState` | `savestate.dfy` | the flat `GameState` / `ObjectData` save record and the save file |
| `Menu` | `menu.dfy` | `MenuController`: Continue eligibility, new game, volume settings |
| `GameSession` | `session.dfy` | `GameController`: flags, difficulty, registries, contacts, save, load, retry |

Modelling conventions:
- Players and stars carry `nat` ids, handed out fresh. Asteroids carry no id and are known by their place in the registry. A `destroyed` flag means `Destroy` has been requested.
- The respawn coroutine is a queue of pending routines. Each is either the invulnerability phase of one player id or the wait for a new player. Ending one is a separate transition, so seconds are not modelled.
- A physics contact runs one transition per script that handles it. A bullet touching an asteroid therefore runs both `Asteroid.OnTriggerEnter2D` and `Bullet.OnTriggerEnter2D`.
- File I/O and JSON are lossless. The save file is `Missing`, `Unreadable`, or `Stored(GameState)`.
- Clock readings, random spawn positions, random sizes and key presses are parameters.
- Lives, score and health are `int`. Size, difficulty and volume are `real`.
- `Mathf.RoundToInt` rounds to the nearest integer and breaks ties towards the even neighbour.

Behaviour the proofs make explicit:
- A bullet contact costs an asteroid two health, one from each handler (`GameSession.BulletContactDamagesTwice`).
- `SaveGame` never copies the volume settings into the record. A save followed by a load therefore resets the volumes to the record's initialisers (`GameSession.SaveThenLoad`).
- Restored asteroids get only their saved size. Health is derived afresh, so damage and bonus health are lost (`GameSession.SaveThenLoad`).
- The engine calls `Asteroid.Start` after `SpawnAsteroid` has returned. `Start` derives health from the size again, so the bonus health of a new asteroid does not survive (`GameSession.StartAsteroid`, `GameSession.SpawnedBonusLostAtStart`, `Asteroids.StartDiscardsBonus`). `SetBonusHealth` cannot tint an asteroid whose `Start` has not yet run.
- `HealthManager.IsInvulnerable` looks only at its own marker, while `TakeDamage` honours both markers (`PlayerHealth.IsInvulnerableIgnoresAsteroidMarker`).
- The score can go negative. The save written by `RetryGame` therefore records `max(highScore, 0)` as its high score.

## Model

| member | source | states |
|---|---|---|
| Common.Clamp | Assets/Scripts/HealthManager.cs:358 | Mathf.Clamp on ints: inside the range the value is kept, below it `lo`, above a non-empty range `hi`, and the result lies in range whenever the range is non-empty |
| Common.ClampReal | Assets/Scripts/Asteroid.cs:145 | Mathf.Clamp on floats: kept inside, `lo` below, `hi` above, always within a non-empty range |
| Common.Filter | Assets/Scripts/GameController.cs:547-548 | RemoveAll keeps exactly the elements satisfying the predicate, never more than it had |
| Common.FilterLength | Assets/Scripts/GameController.cs:547-548 | the kept list is as long as the number of elements satisfying the predicate |
| Common.FilterCounts | Assets/Scripts/GameController.cs:547-548 | every kept element occurs exactly as often as before, every other element not at all |
| Common.FilterAppend | Assets/Scripts/GameController.cs:547-548 | RemoveAll keeps the original order: filtering a concatenation filters each part in place |
| Common.FilterKeepsAll | Assets/Scripts/GameController.cs:547-548 | a list whose every element is kept is returned unchanged |
| Scoring.AddScore | Assets/Scripts/Star.cs:141-144 | the score moves by exactly the points given, which may be negative |
| Scoring.ResetScore | Assets/Scripts/Star.cs:150-153 | the score starts again from 0 |
| Scoring.AddEachIsTotal | Assets/Scripts/Star.cs:141-144 | a run of AddScore calls moves the score by exactly the sum of their points |
| Scoring.ScoreAfterResetIsTotal | Assets/Scripts/Star.cs:141-153 | after ResetScore the score equals the sum of the points added since |
| Scoring.CollectStar | Assets/Scripts/Star.cs:87-133 | collecting marks the star collected, pays its point value, hides it, disables its collider, and destroys it iff destroyOnCollect |
| Scoring.OnTriggerEnter | Assets/Scripts/Star.cs:78-85 | only an uncollected star touched by the player tag is collected; the star ends collected iff it was or the tag matched |
| Scoring.CollectedStarIsInert | Assets/Scripts/Star.cs:81 | once collected, any run of later triggers changes neither the star nor the score |
| Scoring.StarPaysAtMostOnce | Assets/Scripts/Star.cs:78-92 | over any run of touches a star pays exactly once if the player tag is among them and never otherwise |
| Scoring.DefaultStarPaysPlayerTen | Assets/Scripts/Star.cs:5-7 | a star with the script's defaults pays 10 points to the "Player" tag and is then destroyed, and ignores every other tag |
| PlayerHealth.SpawnPlayerAt | Assets/Scripts/GameController.cs:391-412 | a spawned player is current, at the given position, unmarked, collidable and gets an identity no earlier player or pending shield phase has; lives and routines are untouched |
| PlayerHealth.Initial | Assets/Scripts/HealthManager.cs:9-16 | a manager before Start has 3 as maxLives, no player, no routines and lives not yet initialised; without an assigned respawn point it respawns at (0, -4); player identities start fresh (the current player and every pending shield phase's player are older than the next identity), and every HealthManager transition below keeps them fresh |
| PlayerHealth.Start | Assets/Scripts/HealthManager.cs:40-47 | lives become maxLives only when no save has set them; lives set earlier are kept; the scene's player becomes current and identities handed out later are newer than its own |
| PlayerHealth.GameOver | Assets/Scripts/HealthManager.cs:311-332 | the player object is gone and the lives are kept |
| PlayerHealth.StartRespawn | Assets/Scripts/HealthManager.cs:196-249 | a present player is marked, loses its collider and gets a shield phase queued; with no player a respawn is queued if a prefab exists, otherwise nothing happens |
| PlayerHealth.TakeDamage | Assets/Scripts/HealthManager.cs:79-114 | a player carrying either marker changes nothing; otherwise lives go to max(0, lives-1), the score drops by 10, game over iff lives reach 0 (lives 0, player removed, nothing else changed), else the respawn phase starts |
| PlayerHealth.FinishRoutine | Assets/Scripts/HealthManager.cs:232-299 | ending a shield phase unmarks the player it started on and re-enables its collider, and leaves any other player alone; ending a respawn yields a fresh unmarked collidable player at the respawn point; identities stay fresh |
| PlayerHealth.StaleShieldSparesNewPlayer | Assets/Scripts/HealthManager.cs:232-249 | a shield phase that outlives its player, ended after a new player is spawned, leaves the new player untouched |
| PlayerHealth.ShieldSurvivesStaleRoutine | Assets/Scripts/HealthManager.cs:196-249 | a player hit, replaced as on retry, and the replacement hit: ending the first phase leaves the replacement marked, intangible and immune to hits |
| PlayerHealth.ResetHealth | Assets/Scripts/HealthManager.cs:336-340 | lives become maxLives and nothing else changes |
| PlayerHealth.IsInvulnerable | Assets/Scripts/HealthManager.cs:343-346 | true for every present object with the HealthManager marker, false for one carrying only the asteroid marker, and never true for an unmarked or missing object |
| PlayerHealth.SetLivesDirectly | Assets/Scripts/HealthManager.cs:355-378 | lives become Clamp(lives, 0, maxLives) and are marked as initialised; game over iff the stored lives are 0, which removes the player |
| PlayerHealth.ShieldPhaseRoundTrip | Assets/Scripts/HealthManager.cs:200-244 | a hit with lives to spare marks the player and makes it intangible; a second hit is ignored; ending the phase restores the unmarked, collidable player |
| PlayerHealth.RespawnedPlayerIsVulnerable | Assets/Scripts/HealthManager.cs:246-299 | a respawned player carries no marker and the next hit costs ten points |
| PlayerHealth.SavedLivesSurviveStart | Assets/Scripts/HealthManager.cs:40-47 | lives restored from a save survive the later Start; a fresh manager starts at maxLives |
| PlayerHealth.HitsWithoutPlayer | Assets/Scripts/HealthManager.cs:92-108 | with no player, k hits leave max(0, lives-k) lives and cost 10k points, including hits at 0 lives; game over is signalled iff k reaches the lives |
| PlayerHealth.IsInvulnerableIgnoresAsteroidMarker | Assets/Scripts/HealthManager.cs:343-346 | a player with only the asteroid marker is reported vulnerable, yet TakeDamage ignores its hit |
| PlayerHealth.ResetHealthAllowsMaxLivesHits | Assets/Scripts/HealthManager.cs:336-340 | after ResetHealth, with no player to carry a marker, maxLives - 1 hits leave the game running and the maxLives-th hit ends it at 0 lives |
| PlayerHealth.UnassignedRespawnPoint | Assets/Scripts/HealthManager.cs:246-257 | a fresh manager with a prefab starts at 3 lives; a hit with no player queues a respawn, which places the new player at (0, -4) when no respawn point is assigned |
| Asteroids.RoundToInt | Assets/Scripts/Asteroid.cs:168 | Mathf.RoundToInt: within 0.5 of the input, and even on a tie |
| Asteroids.RoundToIntIsNearest | Assets/Scripts/Asteroid.cs:168 | no integer is closer to the input than the rounded value |
| Asteroids.SizedValues | Assets/Scripts/Asteroid.cs:167-171 | derived health is base health times size rounded to nearest, and fall speed times size gives the base speed |
| Asteroids.ApplySize | Assets/Scripts/Asteroid.cs:142-172 | size is clamped into [0.5, 3.0], health and fall speed are derived from the clamped size, and other fields are unchanged |
| Asteroids.SetSize | Assets/Scripts/Asteroid.cs:175-187 | the new size is clamped and health is derived from it; position, tint, drops and base values are kept |
| Asteroids.ApplySizeIdempotent | Assets/Scripts/Asteroid.cs:142-172 | applying the size twice equals applying it once |
| Asteroids.DestroyAsteroid | Assets/Scripts/Asteroid.cs:370-395 | destruction always attempts one star drop and marks the asteroid destroyed |
| Asteroids.TakeDamage | Assets/Scripts/Asteroid.cs:360-368 | health drops by exactly the damage; the asteroid is destroyed with a drop iff health ends at or below 0, otherwise only health changes |
| Asteroids.BonusTint | Assets/Scripts/Asteroid.cs:471-486 | light iff the bonus is at most 3, medium iff it is in 4..8, heavy iff it is above 8 |
| Asteroids.SetBonusHealth | Assets/Scripts/Asteroid.cs:463-488 | health rises by exactly the bonus; the tint follows the tier once the renderer is known; nothing else changes |
| Asteroids.BonusTintMonotone | Assets/Scripts/Asteroid.cs:471-486 | a larger bonus never gets a lighter tint |
| Asteroids.Start | Assets/Scripts/Asteroid.cs:71-100 | Start clears the tint, clamps the size and derives health from it again |
| Asteroids.StartDiscardsBonus | Assets/Scripts/Asteroid.cs:71-100 | bonus health added between SetSize and Start is gone after Start, and so is the tint |
| Asteroids.OnTriggerEnter | Assets/Scripts/Asteroid.cs:302-349 | a marked player changes nothing; a vulnerable player is damaged once (if a HealthManager exists) and the asteroid is destroyed whatever its health; a bullet costs exactly 1 health and is destroyed; anything else is ignored |
| Bullets.LayerSelectedIsBit | Assets/Scripts/Bullet.cs:101-107 | the layer test succeeds iff bit `layer` of the mask is set |
| Bullets.EmptyMaskSelectsNothing | Assets/Scripts/Bullet.cs:100-108 | a zero mask selects no layer |
| Bullets.Classify | Assets/Scripts/Bullet.cs:80-124 | another bullet is never a hit; an object in the explicit list always is, and ExplicitTarget is reported only for such objects; each reported rule matches and every earlier rule in the order explicit list, default asteroid tag, layer mask, tag list does not; no result means a bullet or no rule matching |
| Bullets.HitIffSomeRuleMatches | Assets/Scripts/Bullet.cs:80-124 | a contact is a hit iff it is not a bullet and at least one of the four rules accepts it |
| Bullets.OnTriggerEnter | Assets/Scripts/Bullet.cs:80-140 | no match changes nothing; a hit destroys the bullet and damages the target iff it is an asteroid |
| Bullets.AddTarget | Assets/Scripts/Bullet.cs:142-148 | null is ignored; the target list stays duplicate-free, gains at most the new object, and loses nothing |
| Bullets.AddTargetIdempotent | Assets/Scripts/Bullet.cs:142-148 | adding the same target twice equals adding it once |
| Bullets.ClearTargets | Assets/Scripts/Bullet.cs:150-153 | the target list is empty and nothing else changes |
| Bullets.ClearedBulletHasNoExplicitTargets | Assets/Scripts/Bullet.cs:86-91 | after clearing, no contact is a hit through the explicit list |
| Bullets.DefaultBulletHitsAsteroidTag | Assets/Scripts/Bullet.cs:6-11 | with default settings a bullet hits exactly the non-bullet colliders tagged Asteroid |
| Menu.LoadSaveDataInfo | Assets/Scripts/MenuController.cs:148-172 | a save exists iff readable; a readable save gives its high score and whether lives remain; an unreadable one clears both flags and keeps the high score |
| Menu.ContinueIffLiveSave | Assets/Scripts/MenuController.cs:207-213 | Continue is offered iff the save is readable and has lives left |
| Menu.ContinueOffered | Assets/Scripts/MenuController.cs:207-213 | Continue shows only when a save was found and it has lives left; either flag alone is not enough |
| Menu.StartNewGame | Assets/Scripts/MenuController.cs:222-283 | the new save has 3 lives, score 0, no objects, the current volumes, and the previous readable save's high score or 0 |
| Menu.NewGameOffersContinue | Assets/Scripts/MenuController.cs:222-283 | after a new game the menu offers Continue and shows the previous high score |
| Menu.UpdateVolumesInSave | Assets/Scripts/MenuController.cs:328-357 | a readable save gets the current volumes and keeps every other field; missing or unreadable saves are untouched |
| Menu.VolumeUpdateKeepsMenuInfo | Assets/Scripts/MenuController.cs:328-357 | writing new volumes into a save changes neither what the menu reads from it nor whether Continue is offered |
| Menu.SetVolumeSettingsFromSave | Assets/Scripts/MenuController.cs:478-486 | the five values are stored as given, in the order master, music, shooting, explosion, star collecting |
| Menu.MasterVolume | Assets/Scripts/MenuController.cs:428-431 | the master setting is returned as stored |
| Menu.MusicVolume | Assets/Scripts/MenuController.cs:433-436 | the music setting is returned as stored, not scaled by master |
| Menu.ShootingVolume | Assets/Scripts/MenuController.cs:438-441 | silent at master 0, the shooting setting at master 1, and never above the shooting setting while all settings lie in [0, 1] |
| Menu.ExplosionVolume | Assets/Scripts/MenuController.cs:443-446 | silent at master 0, the explosion setting at master 1, and never above it while all settings lie in [0, 1] |
| Menu.StarCollectingVolume | Assets/Scripts/MenuController.cs:448-451 | silent at master 0, the star collecting setting at master 1, and never above it while all settings lie in [0, 1] |
| Menu.GettersAfterSetFromSave | Assets/Scripts/MenuController.cs:428-451 | after setting from a save, master and music read back raw and the effect channels read back scaled by master |
| Menu.EffectVolumesBoundedByChannel | Assets/Scripts/MenuController.cs:438-451 | with sliders in [0, 1], an effect never plays louder than its slider, and exactly at it when master is full |
| GameSession.ResumeGame | Assets/Scripts/GameController.cs:896-909 | the game is unpaused and nothing else changes |
| GameSession.TogglePause | Assets/Scripts/GameController.cs:797-810 | the pause flag flips and nothing else changes |
| GameSession.ShowGameOverUI | Assets/Scripts/GameController.cs:325-362 | the game is over and not paused; nothing else changes |
| GameSession.HideGameOverUI | Assets/Scripts/GameController.cs:293-322 | the game-over flag clears and nothing else changes |
| GameSession.CappedDifficulty | Assets/Scripts/GameController.cs:259 | current difficulty never exceeds the maximum or the uncapped value and equals one of them |
| GameSession.UncappedDifficultyGrows | Assets/Scripts/GameController.cs:258 | with a non-negative rate the uncapped difficulty never falls as time passes |
| GameSession.BonusHealth | Assets/Scripts/GameController.cs:494-505 | bonus is in 0..20, is 0 below 80% of max difficulty, is the whole number of half-max steps beyond that point when there are fewer than 20, and is 20 otherwise |
| GameSession.BonusHealthMonotone | Assets/Scripts/GameController.cs:494-505 | higher uncapped difficulty never gives less bonus health |
| GameSession.SpawnAsteroid | Assets/Scripts/GameController.cs:478-529 | one asteroid is appended at the given position with the clamped size and health derived from it plus the bonus; nothing else changes |
| GameSession.StartAsteroid | Assets/Scripts/Asteroid.cs:71-100 | the started asteroid has its clamped size, the health derived from it and a plain tint; its position, destruction and drops are kept and no other asteroid changes |
| GameSession.SpawnedBonusLostAtStart | Assets/Scripts/GameController.cs:488-511 | a spawned asteroid, once the engine has started it, sits at its clamped size with the size-derived health and a plain tint: the bonus is gone before anything can hit it |
| GameSession.FilterKeepsDistinct | Assets/Scripts/GameController.cs:548 | removing destroyed stars keeps the star registry duplicate-free |
| GameSession.Cleanup | Assets/Scripts/GameController.cs:545-549 | exactly the destroyed asteroids and stars leave the registries, each live entry kept as often as it occurred; the registry invariant is kept; nothing else changes |
| GameSession.CleanupKeepsSave | Assets/Scripts/GameController.cs:545-549 | saving after a cleanup writes exactly the record saving before it writes |
| GameSession.RegisterStar | Assets/Scripts/GameController.cs:787-794 | null and already tracked stars are ignored, any other is appended, and the registry stays duplicate-free |
| GameSession.RegisterStarIdempotent | Assets/Scripts/GameController.cs:787-794 | registering a star twice equals registering it once |
| GameSession.AddFreshStar | Assets/Scripts/Asteroid.cs:435-449 | a new star is appended under a fresh id, keeping the registry invariant |
| GameSession.FreshStarIsRegistered | Assets/Scripts/Asteroid.cs:438-449 | under the registry invariant, RegisterStar on a new star is exactly appending it |
| GameSession.DropStar | Assets/Scripts/Asteroid.cs:409-452 | a destroyed asteroid with a star prefab drops one fresh uncollected star at its position, tracked by the controller after the existing stars; without a prefab nothing happens; nothing but the star list and the next star identity changes |
| GameSession.SpawnTimedStar | Assets/Scripts/GameController.cs:531-543 | the timer's spawn fails (the call throws) exactly when no star prefab is assigned; otherwise one fresh star is appended at the position |
| GameSession.TimedStarIsDroppedStar | Assets/Scripts/GameController.cs:531-543 | with a prefab the timer's star is tracked exactly as a dropped star; without one the timer's spawn fails where the drop does nothing |
| GameSession.Update | Assets/Scripts/GameController.cs:241-259 | Escape outside game over only toggles pause; while paused nothing changes; otherwise time advances, the uncapped difficulty follows the clock, the difficulty is min(max, uncapped) (exactly max at or above the cap), and exactly the destroyed objects are dropped |
| GameSession.GameOverBlocksPause | Assets/Scripts/GameController.cs:243-248 | during game over no update changes the pause flag |
| GameSession.UpdateNeverEases | Assets/Scripts/GameController.cs:254-259 | with the uncapped difficulty in step with the clock, an update never lowers it and keeps it in step |
| GameSession.DamagePlayer | Assets/Scripts/Asteroid.cs:315-320 | lives and score change as HealthManager.TakeDamage says; a game over shows the game-over screen unpaused |
| GameSession.AsteroidContact | Assets/Scripts/Asteroid.cs:302-349 | a marked player changes nothing; a vulnerable player destroys the asteroid, and with a HealthManager takes exactly HealthManager.TakeDamage's lives, score and game-over effect, and gets a star dropped when a prefab exists; a bullet costs 1 health, destroys the asteroid iff it had at most 1 health or was already destroyed, drops a star then, and leaves score and lives alone; other asteroids, the existing stars, the high score, clock and volumes are untouched |
| GameSession.CollisionCostsLifeAndPoints | Assets/Scripts/Asteroid.cs:315-338 | a vulnerable tracked player hitting an asteroid loses one life (not below 0) and 10 points; the asteroid is destroyed; at 0 lives the game is over, unpaused, with no player |
| GameSession.ShieldedPlayerPassesThrough | Assets/Scripts/Asteroid.cs:305-313 | a marked player touching an asteroid leaves the whole session unchanged |
| GameSession.BulletContact | Assets/Scripts/Bullet.cs:126-140 | no hit changes nothing; a hit destroys the bullet as Bullet.OnTriggerEnter2D does and costs a targeted asteroid exactly 1 health, destroying it (and dropping a star when a prefab exists) iff it had at most 1 health or was already destroyed; other asteroids, the existing stars, score, lives and every other session field are untouched |
| GameSession.BulletContactDamagesTwice | Assets/Scripts/Asteroid.cs:341-348 | one bullet contact runs both handlers and costs the asteroid 2 health, leaves the score alone and destroys the bullet |
| GameSession.StarContact | Assets/Scripts/Star.cs:78-85 | touching an uncollected star with the player tag pays its value; otherwise the session is unchanged |
| GameSession.ClearAllGameObjects | Assets/Scripts/GameController.cs:739-775 | the player, all asteroids and all stars are gone; nothing else changes |
| GameSession.SaveGame | Assets/Scripts/GameController.cs:551-606 | lives are the manager's (3 without one); the score; high score = max(high score, score); one record per live asteroid with its position, size and health; one position per live star; the player position if any; default volumes |
| GameSession.RestoredAsteroids | Assets/Scripts/GameController.cs:691-709 | one asteroid per record, at its position, with the clamped saved size and health derived from the size rather than the saved health |
| GameSession.RestoreStars | Assets/Scripts/GameController.cs:711-722 | one uncollected star per record, in order, at its position, under fresh ids, keeping the registry invariant |
| GameSession.RestoreLives | Assets/Scripts/GameController.cs:645-650 | with a manager, lives go through SetLivesDirectly and its game over shows the game-over screen; without one nothing changes |
| GameSession.RestorePlayer | Assets/Scripts/GameController.cs:655-689 | a saved player with lives is put back at the saved position and game over is hidden; no lives shows game over |
| GameSession.TryLoadGame | Assets/Scripts/GameController.cs:608-732 | a missing or unreadable file changes nothing; otherwise high score, volumes and score are restored exactly, lives are clamped, game over at no lives, asteroids come back by size only, and with no star prefab any saved star makes the load fail |
| GameSession.RetryGame | Assets/Scripts/GameController.cs:365-420 | high score becomes max(high score, score) and never falls; score 0, lives maxLives, clock and uncapped difficulty restart, scene cleared, fresh player at the respawn point with identities kept fresh, and the saved record agrees |
| GameSession.RetryRestartsDifficultyCurve | Assets/Scripts/GameController.cs:367-369 | after a retry the uncapped difficulty is in step with the restarted clock |
| GameSession.SaveThenLoad | Assets/Scripts/GameController.cs:551-732 | save then load restores the score and raises the high score to cover it, resets the volumes to defaults, brings back each live asteroid at its position with its size but size-derived health, brings back every live star at its position and uncollected, in order, and clamps the lives |
| GameSession.LoadAfterVolumeUpdate | Assets/Scripts/GameController.cs:625-641 | loading a save whose volumes the menu updated gives the same session as loading it before, with the new volumes in force |
| GameSession.FreshSessionInStep | Assets/Scripts/GameController.cs:66-67 | a fresh controller keeps the registry invariant, starts unpaused with score 0, and its clock and both difficulties start in step under the inspector defaults |
| GameSession.DefaultCurveBonus | Assets/Scripts/GameController.cs:497-504 | under the defaults no asteroid gets bonus health during the first 1600 seconds, and every one spawned from then until 2600 seconds gets exactly one point |

## Left out

- Asteroid movement patterns, rotation, fall speed application and camera-viewport culling of asteroids, stars and bullets: floating-point motion and the engine camera.
- Shoot.cs, Move.cs, Scoring.cs, Scroll.cs, ExplosionController.cs, StarEffectController.cs and MusicManager.cs: input polling, rendering, animation and audio.
- The spawn and autosave timers of `GameController.Update` and the random spawn positions and sizes. Spawns are separate transitions that take the position and size as arguments. The bullet's 3-second lifetime and its 0.05-second collision-enable delay are timers too and are left out.
- `GameController.SpawnStar` with no star prefab: `Instantiate` throws, and since `starTimer` is reset only after the call, every later `Update` throws at that point and skips the autosave and `CleanupDestroyedObjects`. `GameSession.SpawnTimedStar` returns None for the throw; the frames that repeat it are not modelled, because the timers are not.
- The engine's call order between `SpawnAsteroid` and the asteroid's first physics step. `GameSession.StartAsteroid` is a transition of its own; contacts accept any session, including one where an asteroid has not been started yet, which the engine never produces. Contacts and `FinishRoutine` likewise accept a paused session, whereas `TogglePause` sets `Time.timeScale` to 0, which stops both physics triggers and `WaitForSeconds`; contacts in a paused session are outside what the engine produces. So are contacts with a player in its shield phase: `StartRespawn` disables the player's collider (HealthManager.cs:210-213), so the engine reports no asteroid or star contact for it, whereas `GameSession.StarContact` and `GameSession.AsteroidContact` accept one.
- `GameController.Start`, `SpawnNewPlayer`, `GoToMainMenu`, `QuitGame`, `OnApplicationQuit` and the options panel: the order in which the engine runs the `Start` methods of different scripts is unspecified, and the rest is scene loading and UI.
- The volume slider setters of both controllers and `MenuController`'s PlayerPrefs persistence. Each controller has its own static volume fields. `GameController`'s setters and `TryLoadGame` write both sets, through `MenuController.SetVolumeSettingsFromSave`, but `MenuController`'s setters write only its own, so the two sets can diverge. The model keeps a single set of volumes, which matches both only after a load or a `GameController` setter.
- `HealthManager.SavePlayerStats` and `ApplyPlayerStats`: empty placeholders. The heart display, blink timing and explosion effects are left out as presentation.
- Deferred destruction. The model treats `Destroy` of the player as immediate. `FindWithTag` therefore never finds a player already marked for destruction. Asteroids and stars count as gone for `CleanupDestroyedObjects` once their `destroyed` flag is set. The visible consequence is in loading: in the engine `TryLoadGame` moves the player `ClearAllGameObjects` has only scheduled for destruction, `GameController.Start` then finds it and spawns no new one, and the player disappears at the end of the frame, whereas the model's load spawns a fresh player at the saved position.
- A scene player without a `HealthManager`. The model's scene player is the `HealthManager`'s player, so with no `HealthManager` there is none. The source's `SaveGame` finds the tagged player by itself (GameController.cs:563-567) and saves its position, and `TryLoadGame` moves it, even with no `HealthManager`.
- `JsonUtility` quirks: the model treats serialisation as lossless. In particular, a missing player stays missing, whereas `JsonUtility` would read it back as a zero record.
- Exceptions other than a missing star prefab, during load or in the timer's star spawn: a null asteroid prefab, file write errors, and the `File.Delete` failure in `StartNewGame`.
- `Asteroid.SpawnStar`'s fallback search for a star prefab in Resources or the scene, and a star prefab assigned to the asteroid prefab itself in the inspector (Asteroid.cs:17, 412; the controller copies its own only when that field is null, GameController.cs:522-525, 704-707). A dropped star appears only when the controller's star prefab is assigned.
- Float precision: sizes, difficulties and volumes are exact reals.
- Integer width: lives, score and asteroid health are C# 32-bit `int`, which wraps on overflow (`Score += points` in `GameManager.AddScore`, for example). The model uses unbounded integers, so it does not show the wrap after some 2^31 points. `Mathf.FloorToInt` of a difficulty step count beyond the `int` range is not modelled either: the model floors exactly and so gives the cap of 20 there, whatever the engine's conversion returns.
- GameSession.BonusHealth: requires a positive maximum difficulty, because a non-positive maximum is a nonsensical setting. The source does not guard it: its float division then yields infinity or a negative step count, and no bonus is applied.
- GameSession.SpawnAsteroid: requires a positive maximum difficulty, for the same reason as BonusHealth.
- GameSession.UpdateNeverEases: assumes a non-negative time step and increase rate; the source does not check either.
