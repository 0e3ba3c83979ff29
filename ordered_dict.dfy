/** A PHP array used as a dictionary: keys in insertion order, each with one
    value. Assigning to a present key keeps its position; assigning to a new
    key appends it. */
module OrderedDicts {
  import opened Sequences

  datatype ODict<K(==,!new), V> = ODict(keys: seq<K>, vals: map<K, V>)
  {
    /** The keys are listed once each, and are exactly those with a value. */
    ghost predicate Valid()
    {
      NoDuplicates(keys) && forall k :: k in vals <==> k in keys
    }

    /** `$array[$k] = $v`. */
    function Put(k: K, v: V): (d: ODict<K, V>)
      requires Valid()
      ensures d.Valid()
      ensures d.vals == vals[k := v]
      ensures k in vals ==> d.keys == keys
      ensures k !in vals ==> d.keys == keys + [k]
    {
      if k in vals then ODict(keys, vals[k := v]) else ODict(keys + [k], vals[k := v])
    }
  }

  /** `[]`. */
  function Empty<K(==,!new), V>(): (d: ODict<K, V>)
    ensures d.Valid() && d.keys == [] && d.vals == map[]
  {
    ODict([], map[])
  }
}
