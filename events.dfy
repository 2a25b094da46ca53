/** The input the game reacts to. pygame's event queue, its timers and the
    mouse position are replaced by explicit values: a timer event carries the
    outcome of the random pipe-height choice it triggers, and a mouse click
    carries whether it landed in the name box or on the submit button. */
module Events {
  import opened Pipes

  /** The keys the core distinguishes; every other key is `OtherKey`. */
  datatype Key = KeyP | KeyReturn | KeyBackspace | KeySpace | OtherKey

  /** pygame's left mouse button. */
  const LeftButton: int := 1

  datatype Event =
    | Quit
      /** A key press with the text it produces (`event.unicode`). */
    | KeyDown(key: Key, unicode: string)
      /** The `SPAWNPIPE` timer, with the height index `random.choice` picks. */
    | SpawnPipeTimer(choice: HeightIndex)
      /** The `BIRDFLAP` timer. */
    | BirdFlapTimer
      /** A mouse click: its button, and whether it hit the name box or the
          submit button of the name-entry form. */
    | MouseDown(button: int, inInputBox: bool, onSubmit: bool)
    | OtherEvent
}
