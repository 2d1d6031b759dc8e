/** The keys of a Redis store as the scripts see them. */
module RedisKeys {
  import opened Wrappers

  /** A stored number and, once it has one, the last millisecond of its life. */
  datatype Entry = Entry(value: int, expireAt: Option<int>)

  /** Redis drops a key when the clock is past its time, not at it. */
  predicate Live(entry: Option<Entry>, now: int) {
    entry.Some? && (entry.value.expireAt.None? || now <= entry.value.expireAt.value)
  }
}
