/** Optional values and stored clock readings. */
module Common {

  datatype Option<+T> = None | Some(value: T)

  /** Clock readings in nanoseconds. */
  type Time = int

  const SECOND: int := 1_000_000_000

  /** What a timestamp becomes once it is stored: whole seconds, rounded down. */
  function Persisted(t: Time): (r: Time)
    ensures t - SECOND < r <= t && r % SECOND == 0
    ensures forall u :: u % SECOND == 0 && u <= t ==> u <= r
  {
    t - t % SECOND
  }
}
