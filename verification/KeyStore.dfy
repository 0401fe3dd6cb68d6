/** The timed key-value store behind missions and challenges.

    A key set at time t with lifetime d is visible before t + d. Times are whole seconds. An expired
    entry may stay in a map; no operation sees it. */
module KeyStore {
  import opened Wrappers
  import opened Encoding

  datatype Timed<T> = Timed(value: T, expires: int)

  function Get<T>(m: map<Bytes, Timed<T>>, key: Bytes, now: int): Option<T> {
    if key in m && now < m[key].expires then Some(m[key].value) else None
  }
}
