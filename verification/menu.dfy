/**
 * The main menu's view of the save: whether Continue is offered, the state a
 * new game writes, the volume update of an existing save, and the volume
 * settings the rest of the game reads.
 */
module Menu {
  import opened Common
  import opened SaveState

  /** Lives a new game starts with. */
  const NewGameLives: int := 3

  /** What the menu has read from the save file. */
  datatype MenuInfo = MenuInfo(highScore: int, hasSaveData: bool, playerHasLives: bool)

  /** The menu's fields before anything is read. */
  const InitialInfo := MenuInfo(0, false, false)

  /**
   * MenuController.LoadSaveDataInfo. A missing file clears `hasSaveData`; an
   * unreadable one clears both flags and keeps the high score; a readable one
   * supplies the high score and whether lives remain.
   */
  function LoadSaveDataInfo(info: MenuInfo, file: SaveFile): (r: MenuInfo)
    ensures r.hasSaveData <==> file.Stored?
    ensures file.Stored? ==> r.highScore == file.state.highScore
                             && (r.playerHasLives <==> file.state.playerLives > 0)
    ensures file.Unreadable? ==> r == MenuInfo(info.highScore, false, false)
    ensures file.Missing? ==> r == info.(hasSaveData := false)
  {
    match file
    case Missing => info.(hasSaveData := false)
    case Unreadable => info.(hasSaveData := false, playerHasLives := false)
    case Stored(state) => MenuInfo(state.highScore, true, state.playerLives > 0)
  }

  /**
   * MenuController.UpdateContinueButton: the Continue button shows only when
   * a save was found and it has lives left; neither flag suffices alone.
   */
  predicate ContinueOffered(info: MenuInfo)
    ensures ContinueOffered(info) ==> info.hasSaveData && info.playerHasLives
    ensures !info.hasSaveData || !info.playerHasLives ==> !ContinueOffered(info)
  {
    info.hasSaveData && info.playerHasLives
  }

  /**
   * Continue is offered exactly when the save exists, can be read, and has
   * lives left, whatever the menu had read before.
   */
  lemma ContinueIffLiveSave(info: MenuInfo, file: SaveFile)
    ensures ContinueOffered(LoadSaveDataInfo(info, file)) <==>
            file.Stored? && file.state.playerLives > 0
  {
  }

  /**
   * MenuController.StartNewGame: the save becomes a fresh state with three
   * lives, no score, the current volumes, and the previous save's high score
   * (zero when there was no readable save).
   */
  function StartNewGame(file: SaveFile, current: Volumes, now: int): (r: SaveFile)
    ensures r.Stored?
    ensures r.state.playerLives == NewGameLives && r.state.score == 0
    ensures r.state.highScore == (if file.Stored? then file.state.highScore else 0)
    ensures r.state.volumes == current
    ensures r.state.asteroids == [] && r.state.stars == [] && r.state.player.None?
  {
    var preservedHighScore := if file.Stored? then file.state.highScore else 0;
    Stored(FreshState.(playerLives := NewGameLives, score := 0, highScore := preservedHighScore,
                       saveTime := now, volumes := current))
  }

  /**
   * Once a new game has been written, the menu offers Continue and shows the
   * high score the previous save held.
   */
  lemma NewGameOffersContinue(file: SaveFile, current: Volumes, now: int, info: MenuInfo)
    ensures ContinueOffered(LoadSaveDataInfo(info, StartNewGame(file, current, now)))
    ensures LoadSaveDataInfo(info, StartNewGame(file, current, now)).highScore ==
            LoadSaveDataInfo(InitialInfo, file).highScore
  {
  }

  /**
   * MenuController.UpdateVolumeSettingsInSaveFile: a readable save gets the
   * current volumes and keeps every other field; a missing or unreadable one
   * is left alone.
   */
  function UpdateVolumesInSave(file: SaveFile, current: Volumes): (r: SaveFile)
    ensures r.Stored? <==> file.Stored?
    ensures !file.Stored? ==> r == file
    ensures file.Stored? ==>
              && r.state.volumes == current
              && r.state.playerLives == file.state.playerLives
              && r.state.score == file.state.score
              && r.state.highScore == file.state.highScore
              && r.state.asteroids == file.state.asteroids
              && r.state.stars == file.state.stars
              && r.state.player == file.state.player
              && r.state.saveTime == file.state.saveTime
  {
    match file
    case Stored(state) => Stored(state.(volumes := current))
    case _ => file
  }

  /**
   * MenuController.SetVolumeSettingsFromSave: the five values are stored as
   * given, in the order master, music, shooting, explosion, star collecting.
   */
  function SetVolumeSettingsFromSave(master: real, music: real, shooting: real,
                                     explosion: real, starCollecting: real): (r: Volumes)
    ensures r.master == master && r.music == music && r.shooting == shooting
    ensures r.explosion == explosion && r.starCollecting == starCollecting
  {
    Volumes(master, music, shooting, explosion, starCollecting)
  }

  /** Scaling a non-negative channel by a master in [0, 1] can only lower it. */
  lemma ScaledBelowChannel(channel: real, master: real)
    requires 0.0 <= channel && 0.0 <= master <= 1.0
    ensures 0.0 <= channel * master <= channel
  {
    var lost := channel * (1.0 - master);
    assert lost >= 0.0;
    assert channel * master == channel - lost;
  }

  /**
   * A channel as the game hears it: scaled by master, silent at master 0,
   * unchanged at master 1, and never above the channel when both lie in [0, 1].
   */
  function Scaled(channel: real, master: real): (r: real)
    ensures master == 0.0 ==> r == 0.0
    ensures master == 1.0 ==> r == channel
    ensures 0.0 <= channel && 0.0 <= master <= 1.0 ==> 0.0 <= r <= channel
  {
    if 0.0 <= channel && 0.0 <= master <= 1.0 then
      ScaledBelowChannel(channel, master);
      channel * master
    else channel * master
  }

  /** MenuController.GetMasterVolume: the master setting itself. */
  function MasterVolume(v: Volumes): (r: real)
    ensures r == v.master
  {
    v.master
  }

  /**
   * MenuController.GetMusicVolume: the music setting as stored, not scaled by
   * master, unlike the three effect channels.
   */
  function MusicVolume(v: Volumes): (r: real)
    ensures r == v.music
  {
    v.music
  }

  /** MenuController.GetShootingVolume: the shooting channel scaled by master. */
  function ShootingVolume(v: Volumes): (r: real)
    ensures v.master == 0.0 ==> r == 0.0
    ensures v.master == 1.0 ==> r == v.shooting
    ensures InSliderRange(v) ==> 0.0 <= r <= v.shooting
  {
    Scaled(v.shooting, v.master)
  }

  /** MenuController.GetExplosionVolume: the explosion channel scaled by master. */
  function ExplosionVolume(v: Volumes): (r: real)
    ensures v.master == 0.0 ==> r == 0.0
    ensures v.master == 1.0 ==> r == v.explosion
    ensures InSliderRange(v) ==> 0.0 <= r <= v.explosion
  {
    Scaled(v.explosion, v.master)
  }

  /** MenuController.GetStarCollectingVolume: the star collecting channel scaled by master. */
  function StarCollectingVolume(v: Volumes): (r: real)
    ensures v.master == 0.0 ==> r == 0.0
    ensures v.master == 1.0 ==> r == v.starCollecting
    ensures InSliderRange(v) ==> 0.0 <= r <= v.starCollecting
  {
    Scaled(v.starCollecting, v.master)
  }

  /**
   * After the settings are taken from a save, master and music read back
   * unchanged and the three effect channels read back scaled by master.
   */
  lemma GettersAfterSetFromSave(master: real, music: real, shooting: real,
                                explosion: real, starCollecting: real)
    ensures var v := SetVolumeSettingsFromSave(master, music, shooting, explosion, starCollecting);
            && MasterVolume(v) == master && MusicVolume(v) == music
            && ShootingVolume(v) == shooting * master
            && ExplosionVolume(v) == explosion * master
            && StarCollectingVolume(v) == starCollecting * master
  {
  }

  /** All five settings lie in the sliders' range [0, 1]. */
  predicate InSliderRange(v: Volumes) {
    && 0.0 <= v.master <= 1.0 && 0.0 <= v.music <= 1.0 && 0.0 <= v.shooting <= 1.0
    && 0.0 <= v.explosion <= 1.0 && 0.0 <= v.starCollecting <= 1.0
  }

  /**
   * With settings in slider range, each effect channel never plays louder
   * than its own slider, and plays exactly at it when master is full.
   */
  lemma EffectVolumesBoundedByChannel(v: Volumes)
    requires InSliderRange(v)
    ensures 0.0 <= ShootingVolume(v) <= v.shooting
    ensures 0.0 <= ExplosionVolume(v) <= v.explosion
    ensures 0.0 <= StarCollectingVolume(v) <= v.starCollecting
    ensures v.master == 1.0 ==> ShootingVolume(v) == v.shooting && ExplosionVolume(v) == v.explosion
                                && StarCollectingVolume(v) == v.starCollecting
  {
  }

  /** Writing new volumes into a save never changes what the menu reads from it. */
  lemma VolumeUpdateKeepsMenuInfo(info: MenuInfo, file: SaveFile, current: Volumes)
    ensures LoadSaveDataInfo(info, UpdateVolumesInSave(file, current)) == LoadSaveDataInfo(info, file)
    ensures ContinueOffered(LoadSaveDataInfo(info, UpdateVolumesInSave(file, current))) ==
            ContinueOffered(LoadSaveDataInfo(info, file))
  {
  }
}
