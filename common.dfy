/** Values shared by every part of the model: optional values, row ids and time. */
module Common {

  /** A value that may be absent: a JSON field that was not sent, a NULL column. */
  datatype Option<+T> = None | Some(value: T)

  /** A row id. The database draws ids with gen_random_uuid(); the model hands out fresh numbers instead. */
  type Id = nat

  /** A point in time in whole seconds. The SQL clock NOW() and JavaScript's Date.now() are both read as one such value. */
  type Timestamp = int

  const Minute: int := 60
  const Hour: int := 60 * Minute
  const Day: int := 24 * Hour

  function Max(a: int, b: int): (m: int)
    ensures m >= a && m >= b && (m == a || m == b)
  {
    if a >= b then a else b
  }
}
