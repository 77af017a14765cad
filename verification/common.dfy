/** Failure-carrying shapes shared by every module of the model. */
module Common {

  /** A value that may be absent (Rust's `Option`). */
  datatype Option<T> = None | Some(value: T)

  /** A value or an error (Rust's `Result`). */
  datatype Result<T, E> = Ok(value: T) | Err(error: E)

  /** Absolute difference is at most one: Rust's `(a - b).abs() <= 1` on unbounded integers. */
  predicate WithinOne(a: int, b: int) {
    -1 <= a - b <= 1
  }

  /** A second update of the same key overrides the first. */
  lemma UpdateTwice<K, V>(m: map<K, V>, k: K, a: V, b: V)
    ensures m[k := a][k := b] == m[k := b]
  {
  }
}
