/** Key events as the matrix reports them, and the records that carry their tap state. */
module KeyRecords {
  import opened Machine

  datatype Key = Key(row: u8, col: u8)
  datatype Event = Event(key: Key, pressed: bool, time: u16)
  datatype Tap = Tap(interrupted: bool, count: u4)
  datatype Record = Record(event: Event, tap: Tap)

  const NO_TAP := Tap(false, 0)
  const NO_RECORD := Record(Event(Key(0, 0), false, 0), NO_TAP)

  /** An event without a time, or off the matrix, is no key event. */
  predicate IsNoEvent(e: Event) {
    e.time == 0 || (e.key.row == 255 && e.key.col == 255)
  }

  predicate IsReleased(e: Event) { !IsNoEvent(e) && !e.pressed }
}
