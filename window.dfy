/** The query window: from midnight at the start of yesterday to one second
    before midnight at the end of today, on the process's local clock.
    Times are whole seconds counted from a local midnight. */
module Window {

  const DAY: int := 86400

  /** Midnight at the start of the day holding t. */
  function Midnight(t: int): (m: int)
    ensures m % DAY == 0 && m <= t < m + DAY
  {
    t - t % DAY
  }

  /** The window asked for at time now: it starts at a midnight, on the day
      before now's day, and covers two whole days less one second, so it
      ends at 23:59:59 of now's day and contains now. */
  function QueryWindow(now: int): (w: (int, int))
    ensures w.0 % DAY == 0 && w.0 + DAY <= now < w.0 + 2 * DAY
    ensures w.1 == w.0 + 2 * DAY - 1
    ensures w.0 <= now <= w.1
  {
    var start := Midnight(now - DAY);
    (start, start + 2 * DAY - 1)
  }
}
