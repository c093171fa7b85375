/** The references that a cache of formulas accounts for: one per entry. */
module Ledger {
  import opened References
  import opened Smt

  /** The number of entries of `m` that hold `e`. */
  ghost function Entries<K>(m: map<K, Expr>, e: Expr): nat {
    |set k | k in m && m[k] == e|
  }

  lemma NoEntries<K>(m: map<K, Expr>, e: Expr)
    requires m == map[]
    ensures Entries(m, e) == 0
  {
    assert (set k | k in m && m[k] == e) == {};
  }

  lemma EntryCounts<K>(m: map<K, Expr>, k: K)
    requires k in m
    ensures Entries(m, m[k]) > 0
  {
    var e := m[k];
    var holders := set x | x in m && m[x] == e;
    assert k in holders;
  }

  lemma Insert<K>(m: map<K, Expr>, k: K, e: Expr)
    requires k !in m
    ensures forall y :: Entries(m[k := e], y) == Entries(m, y) + One(y == e)
  {
    var m' := m[k := e];
    forall y
      ensures Entries(m', y) == Entries(m, y) + One(y == e)
    {
      var before, after := set x | x in m && m[x] == y, set x | x in m' && m'[x] == y;
      assert after == if y == e then before + {k} else before;
    }
  }

  lemma Remove<K>(m: map<K, Expr>, k: K)
    requires k in m
    ensures forall y :: Entries(m, y) == Entries(m - {k}, y) + One(y == m[k])
  {
    assert m == (m - {k})[k := m[k]];
    Insert(m - {k}, k, m[k]);
  }
}
