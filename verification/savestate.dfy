/**
 * The flat save record (GameState with its ObjectData entries) and the save
 * file as the game sees it. Serialisation is taken to be lossless, so the
 * file simply holds a GameState, unless it is absent or cannot be parsed.
 */
module SaveState {
  import opened Common

  /** GameState.ObjectData: a position, a size and a health. */
  datatype ObjectData = ObjectData(posX: real, posY: real, size: real, health: int)

  /** The ObjectData(position) constructor: size and health take their defaults 1.0 and 1. */
  function PositionData(p: Vec): ObjectData {
    ObjectData(p.x, p.y, 1.0, 1)
  }

  /** The five volume settings: master, music, shooting, explosion, star collecting. */
  datatype Volumes = Volumes(
    master: real,
    music: real,
    shooting: real,
    explosion: real,
    starCollecting: real)

  /** The field initialisers of the volume fields of GameState (and of the menu's settings). */
  const DefaultVolumes := Volumes(1.0, 0.5, 0.8, 0.7, 0.6)

  /** GameState; `saveTime` is the clock reading at the time of saving. */
  datatype GameState = GameState(
    playerLives: int,
    score: int,
    highScore: int,
    asteroids: seq<ObjectData>,
    stars: seq<ObjectData>,
    player: Option<ObjectData>,
    saveTime: int,
    volumes: Volumes)

  /** `new GameState()`: every field at its initialiser. */
  const FreshState := GameState(0, 0, 0, [], [], None, 0, DefaultVolumes)

  /** The save file: missing, present but unreadable, or holding a state. */
  datatype SaveFile = Missing | Unreadable | Stored(state: GameState)
}
