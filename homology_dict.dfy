/**
 * The equivalence-class store of homology_dict.py: a dictionary together with
 * a reverse index (`aux_dict`) from each value to the list of keys that map to
 * it.  Assigning a new value to a key that is already present moves every key
 * of the old value's group to the new value and drops the old group.
 */
module HomologyDict {
  import opened Wrappers

  /** The keys of `d` that map to `v`. */
  function Group<K(==,!new), V(==)>(d: map<K, V>, v: V): (g: set<K>)
    ensures forall key :: key in g <==> key in d && d[key] == v
  {
    set key | key in d && d[key] == v
  }

  /**
   * The effect of `h[item] = value` on the key-to-value mapping.  Re-setting a
   * key to the value it already has is a no-op here: in the source that case
   * never terminates (see ReassignSameValueAsWritten).
   */
  function Assign<K(==,!new), V(==)>(d: map<K, V>, item: K, value: V): (r: map<K, V>)
    // keys are never removed: the key set grows by exactly `item`
    ensures r.Keys == d.Keys + {item}
    ensures r[item] == value
    // a new key leaves every other entry alone
    ensures item !in d ==> forall key :: key in d ==> r[key] == d[key]
    // an existing key drags its whole group along to the new value ...
    ensures item in d ==> forall key :: key in d && d[key] == d[item] ==> r[key] == value
    // ... and every key outside that group keeps its value
    ensures item in d ==> forall key :: key in d && d[key] != d[item] ==> r[key] == d[key]
    // after a re-point nothing maps to the old value any more
    ensures item in d && d[item] != value ==> Group(r, d[item]) == {}
  {
    if item !in d then d[item := value]
    else if d[item] == value then d
    else map key | key in d :: if d[key] == d[item] then value else d[key]
  }

  /** The effect of `h.update(items)`: every pair assigned in turn. */
  function AssignAll<K(==,!new), V(==)>(d: map<K, V>, items: seq<(K, V)>): map<K, V>
    decreases |items|
  {
    if items == [] then d
    else AssignAll(Assign(d, items[0].0, items[0].1), items[1..])
  }

  /** The keys of a list of pairs. */
  function KeysOf<K(==,!new), V(==)>(items: seq<(K, V)>): (r: set<K>)
    ensures forall key :: key in r <==> exists i :: 0 <= i < |items| && items[i].0 == key
  {
    set i | 0 <= i < |items| :: items[i].0
  }

  /** A list of pairs that can be the items of a Python dict: no key twice. */
  predicate DistinctKeys<K(==), V>(items: seq<(K, V)>)
  {
    forall i, j :: 0 <= i < j < |items| ==> items[i].0 != items[j].0
  }

  /** `update` adds exactly the keys of its argument, and the last pair's key ends at its value. */
  lemma {:induction false} AssignAllKeys<K(!new), V>(d: map<K, V>, items: seq<(K, V)>)
    ensures AssignAll(d, items).Keys == d.Keys + KeysOf(items)
    ensures items != [] ==> AssignAll(d, items)[items[|items| - 1].0] == items[|items| - 1].1
    decreases |items|
  {
    if items != [] {
      var d' := Assign(d, items[0].0, items[0].1);
      AssignAllKeys(d', items[1..]);
      assert KeysOf(items) == {items[0].0} + KeysOf(items[1..]) by {
        forall key | key in KeysOf(items) ensures key in {items[0].0} + KeysOf(items[1..]) {
          var i :| 0 <= i < |items| && items[i].0 == key;
          if i > 0 { assert items[1..][i - 1].0 == key; }
        }
        forall key | key in KeysOf(items[1..]) ensures key in KeysOf(items) {
          var i :| 0 <= i < |items[1..]| && items[1..][i].0 == key;
          assert items[i + 1].0 == key;
        }
      }
    }
  }

  /**
   * The reverse-index invariant of `aux_dict`: every group is a non-empty list
   * without repeats holding exactly the keys that map to its value, and every
   * value in use has a group.
   */
  ghost predicate IndexOf<K(!new), V(!new)>(d: map<K, V>, aux: map<V, seq<K>>)
  {
    && (forall key :: key in d ==> d[key] in aux)
    && (forall v :: v in aux ==> aux[v] != [] && Distinct(aux[v]))
    && (forall v, key :: v in aux ==> (key in aux[v] <==> key in d && d[key] == v))
  }

  /** What the invariant means: the groups partition the key set, and each key lies in its own value's group. */
  lemma IndexIsPartition<K(!new), V(!new)>(d: map<K, V>, aux: map<V, seq<K>>)
    requires IndexOf(d, aux)
    ensures forall v :: v in aux ==> |aux[v]| > 0
    ensures forall v, w, key :: v in aux && w in aux && key in aux[v] && key in aux[w] ==> v == w
    ensures forall key :: key in d <==> exists v :: v in aux && key in aux[v]
    ensures forall key :: key in d ==> key in aux[d[key]]
    ensures forall v :: v in aux ==> Elems(aux[v]) == Group(d, v)
  {
    forall key | key in d ensures exists v :: v in aux && key in aux[v] {
      assert key in aux[d[key]];
    }
    forall v, w, key | v in aux && w in aux && key in aux[v] && key in aux[w] ensures v == w {
      assert d[key] == v && d[key] == w;
    }
  }


  /** Adding a new key to the end of its value's group keeps the reverse index exact. */
  lemma IndexAfterAdd<K(!new), V(!new)>(d: map<K, V>, aux: map<V, seq<K>>, item: K, value: V)
    requires IndexOf(d, aux)
    requires item !in d
    ensures IndexOf(d[item := value], aux[value := (if value in aux then aux[value] else []) + [item]])
  {
    var base := if value in aux then aux[value] else [];
    assert item !in base;
    assert Distinct(base + [item]) by {
      forall a, b | 0 <= a < b < |base + [item]| ensures (base + [item])[a] != (base + [item])[b] {
        if b == |base| { assert (base + [item])[a] in base; }
      }
    }
  }

  /**
   * Moving a whole group onto another value, as the source's loop leaves it,
   * is the assignment `Assign` describes, and keeps the reverse index exact.
   */
  lemma IndexAfterRepoint<K(!new), V(!new)>(d: map<K, V>, aux: map<V, seq<K>>, item: K, value: V, d': map<K, V>)
    requires IndexOf(d, aux)
    requires item in d && d[item] != value
    requires d'.Keys == d.Keys
    requires forall key :: key in d' ==> d'[key] == if key in aux[d[item]] then value else d[key]
    ensures d' == Assign(d, item, value)
    ensures IndexOf(d', (aux - {d[item]})[value := (if value in aux then aux[value] else []) + aux[d[item]]])
  {
    var oldValue := d[item];
    var base := if value in aux then aux[value] else [];
    var members := aux[oldValue];
    assert d' == Assign(d, item, value);
    assert Distinct(base + members) by {
      forall a, b | 0 <= a < b < |base + members| ensures (base + members)[a] != (base + members)[b] {
        if a < |base| && b >= |base| {
          assert (base + members)[a] in base;
          assert (base + members)[b] in members;
        }
      }
    }
  }

  class HomDict<K(==,!new), V(==,!new)> {
    /** The dictionary itself. */
    var dict: map<K, V>
    /** `aux_dict`: each value's keys, in the order they joined the group. */
    var aux: map<V, seq<K>>

    ghost predicate Valid()
      reads this
    {
      IndexOf(dict, aux)
    }

    /** `HomDict(items)`: an empty store followed by `update(items)`. */
    constructor (items: seq<(K, V)>)
      requires DistinctKeys(items)
      ensures Valid()
      ensures dict == AssignAll(map[], items)
    {
      dict := map[];
      aux := map[];
      new;
      Update(items);
    }

    /** `self[item]`; a missing key raises KeyError in the source, so callers must ask for present keys. */
    function Get(item: K): (v: V)
      reads this
      requires Valid()
      requires item in dict
      ensures v in aux && item in aux[v]
    {
      dict[item]
    }

    /** `self[item] = value`. */
    method Set(item: K, value: V)
      requires Valid()
      modifies this
      ensures Valid()
      ensures dict == Assign(old(dict), item, value)
      // a new key joins the end of its value's group, which is created if absent
      ensures item !in old(dict) ==>
        aux == old(aux)[value := (if value in old(aux) then old(aux)[value] else []) + [item]]
      // a re-point appends the old group to the new value's group and deletes the old group
      ensures item in old(dict) && old(dict)[item] != value ==>
        aux == (old(aux) - {old(dict)[item]})[value := (if value in old(aux) then old(aux)[value] else []) + old(aux)[old(dict)[item]]]
      ensures item in old(dict) && old(dict)[item] == value ==> aux == old(aux)
    {
      if item !in dict {
        AddKey(item, value);
      } else if dict[item] != value {
        Repoint(item, value);
      }
    }

    /** The first branch of `__setitem__`: a key not yet present. */
    method AddKey(item: K, value: V)
      requires Valid()
      requires item !in dict
      modifies this
      ensures Valid()
      ensures dict == old(dict)[item := value]
      ensures aux == old(aux)[value := (if value in old(aux) then old(aux)[value] else []) + [item]]
    {
      dict := dict[item := value];
      if value !in aux {
        assert [] + [item] == [item];
        aux := aux[value := [item]];
      } else {
        aux := aux[value := aux[value] + [item]];
      }
      IndexAfterAdd(old(dict), old(aux), item, value);
    }

    /** The second branch of `__setitem__`: a present key moved, with its whole group, to a different value. */
    method Repoint(item: K, value: V)
      requires Valid()
      requires item in dict && dict[item] != value
      modifies this
      ensures Valid()
      ensures dict == Assign(old(dict), item, value)
      ensures aux == (old(aux) - {old(dict)[item]})[value := (if value in old(aux) then old(aux)[value] else []) + old(aux)[old(dict)[item]]]
    {
      var oldValue := dict[item];
      ghost var base := if value in aux then aux[value] else [];
      if value !in aux {
        aux := aux[value := []];
      }
      assert aux == old(aux)[value := base];
      MoveGroup(oldValue, value);
      aux := aux - {oldValue};
      assert aux == (old(aux) - {oldValue})[value := base + old(aux)[oldValue]];
      IndexAfterRepoint(old(dict), old(aux), item, value, dict);
    }

    /** The loop of `__setitem__` that appends every key of `oldValue`'s group to `value`'s group and re-points it. */
    method MoveGroup(oldValue: V, value: V)
      requires oldValue in aux && value in aux && oldValue != value
      requires forall key :: key in aux[oldValue] ==> key in dict
      modifies this
      ensures dict.Keys == old(dict).Keys
      ensures forall key :: key in dict ==> dict[key] == if key in old(aux)[oldValue] then value else old(dict)[key]
      ensures aux == old(aux)[value := old(aux)[value] + old(aux)[oldValue]]
    {
      var members := aux[oldValue];
      var i := 0;
      assert aux[value] + members[..0] == aux[value];
      while i < |members|
        invariant 0 <= i <= |members|
        invariant aux == old(aux)[value := old(aux)[value] + members[..i]]
        invariant dict.Keys == old(dict).Keys
        invariant forall key :: key in dict ==> dict[key] == if key in members[..i] then value else old(dict)[key]
      {
        var key := members[i];
        assert members[..i + 1] == members[..i] + [key];
        assert aux[value] + [key] == old(aux)[value] + members[..i + 1];
        aux := aux[value := aux[value] + [key]];
        dict := dict[key := value];
        i := i + 1;
      }
      assert members[..i] == members;
    }

    /** `self.update(items)`: each pair assigned in turn through `__setitem__`. */
    method Update(items: seq<(K, V)>)
      requires Valid()
      requires DistinctKeys(items)
      modifies this
      ensures Valid()
      ensures dict == AssignAll(old(dict), items)
    {
      var i := 0;
      while i < |items|
        invariant 0 <= i <= |items|
        invariant Valid()
        invariant AssignAll(old(dict), items) == AssignAll(dict, items[i..])
      {
        Set(items[i].0, items[i].1);
        assert items[i..][1..] == items[i + 1..];
        i := i + 1;
      }
    }
  }

  /**
   * What the source's loop does when `value` is the key's current value: the
   * list being iterated is the list being appended to, so every step adds one
   * more element ahead of the iterator.  `None` means "still running after
   * `fuel` steps".
   */
  function ReassignSameValueAsWritten<K>(group: seq<K>, i: nat, fuel: nat): Option<seq<K>>
    decreases fuel
  {
    if i >= |group| then Some(group)
    else if fuel == 0 then None
    else ReassignSameValueAsWritten(group + [group[i]], i + 1, fuel - 1)
  }

  /** The as-written loop never finishes on a non-empty group, whatever the number of steps allowed. */
  lemma {:induction false} ReassignSameValueNeverTerminates<K>(group: seq<K>, i: nat, fuel: nat)
    requires i < |group|
    ensures ReassignSameValueAsWritten(group, i, fuel) == None
    decreases fuel
  {
    if fuel > 0 {
      ReassignSameValueNeverTerminates(group + [group[i]], i + 1, fuel - 1);
    }
  }

  /** The corrected assignment of a key's own value changes nothing. */
  lemma AssignSameValueIsNoOp<K(!new), V>(d: map<K, V>, item: K)
    requires item in d
    ensures Assign(d, item, d[item]) == d
  {
  }
}
