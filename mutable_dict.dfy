/** The mutable dictionary of `mutable_dict.ffi.mjs`: a JavaScript `Map`
    (ECMA-262, section 24.1, Map Objects) changed in place. Its keys keep the
    order of their first insertion; setting an existing key keeps its place,
    deleting a key forgets it. */
module MutableDict {
  import opened Support

  /** The entries `ks` reads from `m`, in the order of `ks`. */
  function EntriesOf<K, V>(ks: seq<K>, m: map<K, V>): (r: seq<(K, V)>)
    requires forall k :: k in ks ==> k in m
    ensures |r| == |ks|
    ensures forall i :: 0 <= i < |ks| ==> r[i] == (ks[i], m[ks[i]])
  {
    if ks == [] then [] else [(ks[0], m[ks[0]])] + EntriesOf(ks[1..], m)
  }

  /** The values `ks` reads from `m`, in the order of `ks`. */
  function ValuesOf<K, V>(ks: seq<K>, m: map<K, V>): (r: seq<V>)
    requires forall k :: k in ks ==> k in m
    ensures |r| == |ks|
    ensures forall i :: 0 <= i < |ks| ==> r[i] == m[ks[i]]
  {
    if ks == [] then [] else [m[ks[0]]] + ValuesOf(ks[1..], m)
  }

  /** The object `to_json` builds from `entries`: one property per entry,
      written in order, so a later entry overwrites an earlier one whose key
      converts to the same property name. */
  function JsonOf<K, V, J>(entries: seq<(K, V)>, keyToJson: K -> string, valueToJson: V -> J): map<string, J>
  {
    if entries == [] then map[]
    else
      var last := entries[|entries| - 1];
      JsonOf(entries[..|entries| - 1], keyToJson, valueToJson)[keyToJson(last.0) := valueToJson(last.1)]
  }

  /** The object has exactly one property per converted key. */
  lemma {:induction false} JsonOfKeys<K, V, J>(entries: seq<(K, V)>, keyToJson: K -> string, valueToJson: V -> J)
    ensures JsonOf(entries, keyToJson, valueToJson).Keys == set e | e in entries :: keyToJson(e.0)
  {
    if entries != [] {
      var front := entries[..|entries| - 1];
      var last := entries[|entries| - 1];
      JsonOfKeys(front, keyToJson, valueToJson);
      assert entries == front + [last];
      assert (set e | e in entries :: keyToJson(e.0)) == (set e | e in front :: keyToJson(e.0)) + {keyToJson(last.0)};
    }
  }

  /** A property holds the value of the last entry whose key converts to
      its name. */
  lemma {:induction false} JsonOfLastWins<K, V, J>(entries: seq<(K, V)>, keyToJson: K -> string, valueToJson: V -> J, i: nat)
    requires i < |entries|
    requires forall j :: i < j < |entries| ==> keyToJson(entries[j].0) != keyToJson(entries[i].0)
    ensures keyToJson(entries[i].0) in JsonOf(entries, keyToJson, valueToJson)
    ensures JsonOf(entries, keyToJson, valueToJson)[keyToJson(entries[i].0)] == valueToJson(entries[i].1)
  {
    if i < |entries| - 1 {
      var front := entries[..|entries| - 1];
      assert front[i] == entries[i];
      JsonOfLastWins(front, keyToJson, valueToJson, i);
    }
  }

  /** Converting the keys of the entries is converting the keys. */
  lemma EntryKeys<K, V>(ks: seq<K>, m: map<K, V>, keyToJson: K -> string)
    requires forall k :: k in ks ==> k in m
    ensures (set e | e in EntriesOf(ks, m) :: keyToJson(e.0)) == set k | k in ks :: keyToJson(k)
  {
    var es := EntriesOf(ks, m);
    forall k | k in ks ensures keyToJson(k) in set e | e in es :: keyToJson(e.0) {
      var i :| 0 <= i < |ks| && ks[i] == k;
      assert es[i] in es;
    }
  }

  /** A JavaScript `Map` owned by the Gleam side and changed in place. */
  class Dict<K(==), V> {
    /** The keys, in the order they were first inserted. */
    var order: seq<K>
    /** The value of each key. */
    var table: map<K, V>

    ghost predicate Valid()
      reads this
    {
      && NoDups(order)
      && (forall k :: k in order ==> k in table)
      && (forall k :: k in table ==> k in order)
    }

    /** `make`: an empty dictionary. */
    constructor Make()
      ensures Valid()
      ensures order == [] && table == map[]
    {
      order := [];
      table := map[];
    }

    /** `get`: the value of `key`, None (`undefined`) when it is absent. */
    function Get(key: K): (r: Option<V>)
      reads this
      requires Valid()
      ensures r.Some? <==> key in order
      ensures r.Some? ==> r.value == table[key]
    {
      if key in table then Some(table[key]) else None
    }

    /** `has_key`. */
    function HasKey(key: K): (b: bool)
      reads this
      requires Valid()
      ensures b <==> Get(key).Some?
    {
      key in table
    }

    /** `keys`: every key once, in insertion order. */
    function Keys(): (r: seq<K>)
      reads this
      requires Valid()
      ensures NoDups(r)
      ensures forall k :: k in r ==> HasKey(k)
      ensures forall k :: k in table ==> k in r
    {
      order
    }

    /** `values`: the values, in the order of the keys. */
    function Values(): (r: seq<V>)
      reads this
      requires Valid()
      ensures |r| == |Keys()|
      ensures forall i :: 0 <= i < |r| ==> Get(Keys()[i]) == Some(r[i])
    {
      ValuesOf(order, table)
    }

    /** `to_list`: the entries, aligned with `keys` and `values`. */
    function ToList(): (r: seq<(K, V)>)
      reads this
      requires Valid()
      ensures |r| == |Keys()| == |Values()|
      ensures forall i :: 0 <= i < |r| ==> r[i] == (Keys()[i], Values()[i])
    {
      EntriesOf(order, table)
    }

    /** `to_json`: walks the entries in order and sets one property of a
        fresh object per entry. */
    method ToJson<J>(keyToJson: K -> string, valueToJson: V -> J) returns (json: map<string, J>)
      requires Valid()
      ensures json == JsonOf(ToList(), keyToJson, valueToJson)
      ensures json.Keys == set k | k in Keys() :: keyToJson(k)
    {
      var entries := ToList();
      json := map[];
      for i := 0 to |entries|
        invariant json == JsonOf(entries[..i], keyToJson, valueToJson)
      {
        var key := entries[i].0;
        var value := entries[i].1;
        json := json[keyToJson(key) := valueToJson(value)];
        assert entries[..i + 1][..i] == entries[..i];
      }
      assert entries[..|entries|] == entries;
      JsonOfKeys(entries, keyToJson, valueToJson);
      EntryKeys(order, table, keyToJson);
    }

    /** `insert`: sets `key` to `value` in place and returns the same
        dictionary. A new key goes last; an existing key keeps its place. */
    method Insert(key: K, value: V) returns (r: Dict<K, V>)
      requires Valid()
      modifies this
      ensures r == this && Valid()
      ensures Get(key) == Some(value)
      ensures table == old(table)[key := value]
      ensures forall k :: k in old(table) && k != key ==> k in table && table[k] == old(table)[k]
      ensures key in old(order) ==> order == old(order)
      ensures key !in old(order) ==> order == old(order) + [key]
    {
      order := AppendNew(order, key);
      table := table[key := value];
      r := this;
    }

    /** `remove`: deletes `key` in place and returns the same dictionary;
        the other keys keep their order and values. */
    method Remove(key: K) returns (r: Dict<K, V>)
      requires Valid()
      modifies this
      ensures r == this && Valid()
      ensures !HasKey(key)
      ensures table == old(table) - {key}
      ensures forall k :: k in old(table) && k != key ==> k in table && table[k] == old(table)[k]
      ensures order == Without(old(order), key)
      ensures key !in old(order) ==> order == old(order) && table == old(table)
    {
      WithoutNoDups(order, key);
      if key !in order {
        WithoutAbsent(order, key);
      }
      order := Without(order, key);
      table := table - {key};
      r := this;
    }
  }
}
