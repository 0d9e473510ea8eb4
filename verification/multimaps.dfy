/** Guava's `ListMultimap<String, V>` and the (name, value) entries it is built from.

    A multimap is modelled as a map from each key to the list of its values in
    insertion order. Guava multimaps compare equal when they hold the same keys
    with the same value lists, irrespective of the order in which different keys
    were inserted; on maps that hold no empty value list (`WellFormed`, the
    only maps a Guava multimap can be) that is exactly Dafny's equality on
    `map<string, seq<V>>`. */
module Multimaps {

  /** One (name, value) entry: the shape of Apache HttpClient's `NameValuePair`
      and `Header`. */
  datatype Pair<V> = Pair(name: string, value: V)

  type Multimap<V> = map<string, seq<V>>

  /** Guava's `get`: the values stored under `key`, empty when the key is absent. */
  function Get<V>(m: Multimap<V>, key: string): seq<V>
  {
    if key in m then m[key] else []
  }

  /** A Guava multimap never keeps a key with no values. */
  ghost predicate WellFormed<V>(m: Multimap<V>)
  {
    forall key :: key in m ==> m[key] != []
  }

  /** Guava's `put`: appends `value` to the list under `key`. */
  function Put<V>(m: Multimap<V>, key: string, value: V): Multimap<V>
  {
    m[key := Get(m, key) + [value]]
  }

  /** The multimap obtained by putting the entries one at a time, in order. */
  function Group<V>(entries: seq<Pair<V>>): (m: Multimap<V>)
    ensures WellFormed(m)
    ensures forall key :: key in m ==> exists i :: 0 <= i < |entries| && entries[i].name == key
    decreases |entries|
  {
    if entries == [] then map[]
    else
      var last := entries[|entries| - 1];
      var init := Group(entries[..|entries| - 1]);
      assert forall key :: key in init ==> exists i :: 0 <= i < |entries| && entries[i].name == key by {
        forall key | key in init
          ensures exists i :: 0 <= i < |entries| && entries[i].name == key
        {
          var i :| 0 <= i < |entries| - 1 && entries[..|entries| - 1][i].name == key;
          assert entries[i].name == key;
        }
      }
      Put(init, last.name, last.value)
  }

  lemma GroupSingleton<V>(entry: Pair<V>)
    ensures Group([entry]) == map[entry.name := [entry.value]]
  {
    assert [entry][..0] == [];
    assert Get(map[], entry.name) + [entry.value] == [entry.value];
  }

  /** Reference definition: the values recorded under `name`, in arrival order. */
  function ValuesOf<V>(entries: seq<Pair<V>>, name: string): seq<V>
    decreases |entries|
  {
    if entries == [] then []
    else
      var last := entries[|entries| - 1];
      ValuesOf(entries[..|entries| - 1], name) + (if last.name == name then [last.value] else [])
  }

  /** Grouping keeps, under every name, exactly the values of the entries with
      that name, in the order they arrived. */
  lemma {:induction false} GroupValues<V>(entries: seq<Pair<V>>)
    ensures forall name :: Get(Group(entries), name) == ValuesOf(entries, name)
    decreases |entries|
  {
    if entries != [] {
      GroupValues(entries[..|entries| - 1]);
    }
  }

  /** A name is a key of the grouped multimap iff some entry carries it. */
  lemma GroupKeys<V>(entries: seq<Pair<V>>, name: string)
    ensures name in Group(entries) <==> ValuesOf(entries, name) != []
  {
    GroupValues(entries);
  }

  /** Well-formed multimaps are equal as soon as `Get` agrees on every key. */
  lemma {:induction false} WellFormedExtensional<V>(a: Multimap<V>, b: Multimap<V>)
    requires WellFormed(a) && WellFormed(b)
    requires forall key :: Get(a, key) == Get(b, key)
    ensures a == b
  {
    forall key | key in a ensures key in b && a[key] == b[key] {
      assert Get(a, key) == a[key];
    }
    forall key | key in b ensures key in a {
      assert Get(b, key) == b[key];
    }
  }

  /** Entry lists that agree, name by name, on the values and their order
      group to the same multimap: how entries of different names are
      interleaved does not matter. */
  lemma GroupSameValues<V>(a: seq<Pair<V>>, b: seq<Pair<V>>)
    requires forall name :: ValuesOf(a, name) == ValuesOf(b, name)
    ensures Group(a) == Group(b)
  {
    GroupValues(a);
    GroupValues(b);
    WellFormedExtensional(Group(a), Group(b));
  }

  /** Conversely, equal groupings agree on every name's values. */
  lemma GroupEqualSameValues<V>(a: seq<Pair<V>>, b: seq<Pair<V>>, name: string)
    requires Group(a) == Group(b)
    ensures ValuesOf(a, name) == ValuesOf(b, name)
  {
    GroupValues(a);
    GroupValues(b);
  }

  /** Filtering by name distributes over concatenation. */
  lemma {:induction false} ValuesOfAppend<V>(a: seq<Pair<V>>, b: seq<Pair<V>>, name: string)
    ensures ValuesOf(a + b, name) == ValuesOf(a, name) + ValuesOf(b, name)
    decreases |b|
  {
    if b == [] {
      assert a + b == a;
    } else {
      var init := b[..|b| - 1];
      assert (a + b)[..|a + b| - 1] == a + init;
      ValuesOfAppend(a, init, name);
    }
  }
}
