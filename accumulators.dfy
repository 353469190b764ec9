/** The mutable Python containers the analysis scripts thread through their calls:
    a `collections.Counter`, a `set` and a `list`. */
module Accumulators {

  /** The count a map of counts gives a key: 0 for a key never counted. */
  function CountOf<K>(counts: map<K, nat>, k: K): nat
  {
    if k in counts then counts[k] else 0
  }

  /** `collections.Counter`: a missing key reads as 0. */
  class Counter<K(==)> {
    var counts: map<K, nat>

    /** `Counter()`. */
    constructor()
      ensures counts == map[]
    {
      counts := map[];
    }

    /** `counter[k]`, 0 for a key never counted. */
    function Count(k: K): nat
      reads this
    {
      CountOf(counts, k)
    }

    /** `counter[k] += 1`: the key is stored with its count raised by one, nothing else moves. */
    method Increment(k: K)
      modifies this
      ensures counts == old(counts)[k := CountOf(old(counts), k) + 1]
      ensures Count(k) == CountOf(old(counts), k) + 1
      ensures forall j :: j != k ==> Count(j) == CountOf(old(counts), j)
    {
      counts := counts[k := Count(k) + 1];
    }
  }

  /** A Python `set`. */
  class MutableSet<T(==)> {
    var elems: set<T>

    /** `set()`. */
    constructor()
      ensures elems == {}
    {
      elems := {};
    }

    /** `s.add(x)`. */
    method Add(x: T)
      modifies this
      ensures elems == old(elems) + {x}
    {
      elems := elems + {x};
    }
  }

  /** A Python `list`. */
  class MutableList<T> {
    var items: seq<T>

    /** `[]`. */
    constructor()
      ensures items == []
    {
      items := [];
    }

    /** `l.append(x)`. */
    method Append(x: T)
      modifies this
      ensures items == old(items) + [x]
    {
      items := items + [x];
    }
  }
}
