/** Reference counts of shared nodes. */
module References {

  /** How many references are held to `e`. */
  function Count<T(==)>(refs: map<T, nat>, e: T): nat { if e in refs then refs[e] else 0 }

  function One(b: bool): nat { if b then 1 else 0 }
}
