/** The device's input events: presses and releases of its eight keys. */
module UiEvent {

  datatype Key = Up | Down | Left | Right | Center | Back | Enter | Shift

  datatype Event = KeyDown(key: Key) | KeyUp(key: Key)

  /** The key's name as its derived `Debug` output spells it. */
  function KeyName(k: Key): string
  {
    match k
    case Up => "Up"
    case Down => "Down"
    case Left => "Left"
    case Right => "Right"
    case Center => "Center"
    case Back => "Back"
    case Enter => "Enter"
    case Shift => "Shift"
  }

  /** A press or release of the Shift key. */
  predicate IsShiftEvent(ev: Event)
  {
    ev.key == Shift
  }
}
