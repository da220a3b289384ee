/** Values shared by every part of the model: an optional value, and the two
    Qt time types the records carry. */
module Common {

  datatype Option<+T> = None | Some(value: T)

  /** A `QDate`: either the null date or a calendar day, counted as a day number. */
  datatype Date = NullDate | Day(day: int)

  /** A `QDateTime`: either the null date-time or an instant in milliseconds since the epoch. */
  datatype DateTime = NullDateTime | Instant(ms: int)
}
