/** A JavaScript `Map` with string keys, iterated in insertion order. */
module OrderedMap {
  import opened Text

  type Entries<V> = seq<(string, V)>

  function Keys<V>(m: Entries<V>): seq<string> {
    seq(|m|, i requires 0 <= i < |m| => m[i].0)
  }

  /** `map.set(key, value)`: in place for a known key, at the end for a new one. */
  function Set<V>(m: Entries<V>, key: string, value: V): Entries<V> {
    if m == [] then [(key, value)]
    else if m[0].0 == key then [(key, value)] + m[1..]
    else [m[0]] + Set(m[1..], key, value)
  }

  /** `map.get(key)`. */
  function Lookup<V>(m: Entries<V>, key: string): Option<V> {
    if m == [] then None
    else if m[0].0 == key then Some(m[0].1)
    else Lookup(m[1..], key)
  }

  lemma {:induction false} SetNew<V>(m: Entries<V>, key: string, value: V)
    requires key !in Keys(m)
    ensures Set(m, key, value) == m + [(key, value)]
  {
    if m != [] {
      assert Keys(m) == [m[0].0] + Keys(m[1..]);
      SetNew(m[1..], key, value);
    }
  }

  /** A known key keeps its place. */
  lemma {:induction false} SetKnown<V>(m: Entries<V>, key: string, value: V, i: nat)
    requires i < |m| && m[i].0 == key && forall j | 0 <= j < i :: m[j].0 != key
    ensures Set(m, key, value) == m[i := (key, value)]
  {
    if i > 0 {
      SetKnown(m[1..], key, value, i - 1);
    }
  }

  lemma {:induction false} SetAdds<V>(m: Entries<V>, key: string, value: V)
    ensures (key, value) in Set(m, key, value)
    ensures forall entry | entry in Set(m, key, value) :: entry == (key, value) || entry in m
  {
    if m != [] && m[0].0 != key {
      SetAdds(m[1..], key, value);
    }
  }

  lemma {:induction false} SetKeeps<V>(m: Entries<V>, key: string, value: V, entry: (string, V))
    requires entry in m && (entry.0 == key ==> entry.1 == value)
    ensures entry in Set(m, key, value)
  {
    if m[0] != entry && m[0].0 != key {
      SetKeeps(m[1..], key, value, entry);
    }
  }

  lemma {:induction false} LookupFinds<V>(m: Entries<V>, key: string)
    ensures Lookup(m, key).Some? <==> key in Keys(m)
    ensures Lookup(m, key).Some? ==> (key, Lookup(m, key).value) in m
  {
    if m != [] {
      assert Keys(m) == [m[0].0] + Keys(m[1..]);
      LookupFinds(m[1..], key);
    }
  }
}
