/** The id allocator of capnp-rpc/src/rpc.rs (`ExportTable`), which hands out question, export and embargo
    ids. */
module IdTable {
  import opened Options

  /** A table as a value: slot `i` holds the entry with id `i`, if there is one. */
  type Slots<T> = seq<Option<T>>

  predicate Has<T>(slots: Slots<T>, id: nat) {
    id < |slots| && slots[id].Some?
  }

  /** The least id not in use. */
  function NextId<T>(slots: Slots<T>): (id: nat)
    ensures id <= |slots| && !Has(slots, id)
    ensures forall k: nat | k < id :: Has(slots, k)
  {
    NextFrom(slots, 0)
  }

  function NextFrom<T>(slots: Slots<T>, i: nat): (id: nat)
    requires i <= |slots| && forall k: nat | k < i :: Has(slots, k)
    ensures id <= |slots| && !Has(slots, id)
    ensures forall k: nat | k < id :: Has(slots, k)
    decreases |slots| - i
  {
    if Has(slots, i) then NextFrom(slots, i + 1) else i
  }

  function Put<T>(slots: Slots<T>, value: T): Slots<T> {
    var id := NextId(slots);
    if id < |slots| then slots[id := Some(value)] else slots + [Some(value)]
  }

  function Without<T>(slots: Slots<T>, id: nat): Slots<T>
    requires Has(slots, id)
  {
    slots[id := None]
  }

  function Update<T>(slots: Slots<T>, id: nat, value: T): Slots<T>
    requires Has(slots, id)
  {
    slots[id := Some(value)]
  }

  /** The finite map that a table stands for. */
  function Live<T>(slots: Slots<T>): map<nat, T> {
    map id: nat | id < |slots| && slots[id].Some? :: slots[id].value
  }

  /** Adding takes the least unused id, and changes nothing else. */
  lemma PutIsInsert<T>(slots: Slots<T>, value: T)
    ensures NextId(slots) !in Live(slots)
    ensures forall k: nat | k !in Live(slots) :: NextId(slots) <= k
    ensures Live(Put(slots, value)) == Live(slots)[NextId(slots) := value]
  {
    hide NextId;
    assert forall k: nat :: k in Live(slots) <==> Has(slots, k);
  }

  lemma EraseIsRemove<T>(slots: Slots<T>, id: nat)
    requires Has(slots, id)
    ensures Live(Without(slots, id)) == Live(slots) - {id}
  {
  }

  /** The entries in id order. */
  function Values<T>(slots: Slots<T>): seq<T> {
    if slots == [] then []
    else Values(slots[..|slots| - 1]) + (if slots[|slots| - 1].Some? then [slots[|slots| - 1].value] else [])
  }

  /** `ids` lists the live ids in increasing order, and `values` the entries under them. */
  ghost predicate Lists<T>(slots: Slots<T>, ids: seq<nat>, values: seq<T>) {
    && (forall i, j | 0 <= i < j < |ids| :: ids[i] < ids[j])
    && (forall id: nat :: id in ids <==> Has(slots, id))
    && |values| == |ids| && (forall i | 0 <= i < |ids| :: Has(slots, ids[i]) && values[i] == slots[ids[i]].value)
  }

  lemma ListsSnoc<T>(slots: Slots<T>, ids: seq<nat>, values: seq<T>, slot: Option<T>)
    requires Lists(slots, ids, values)
    ensures slot.None? ==> Lists(slots + [slot], ids, values)
    ensures slot.Some? ==> Lists(slots + [slot], ids + [|slots|], values + [slot.value])
  {
    var more := slots + [slot];
    assert forall id: nat :: Has(more, id) <==> Has(slots, id) || (id == |slots| && slot.Some?);
    assert forall i | 0 <= i < |ids| :: ids[i] in ids && more[ids[i]] == slots[ids[i]];
    if slot.Some? {
      assert forall id: nat :: id in ids + [|slots|] <==> id in ids || id == |slots|;
    }
  }

  /** The entries listed are exactly those of the table, each once, by increasing id. */
  lemma {:induction false} ValuesAreLive<T>(slots: Slots<T>) returns (ids: seq<nat>)
    ensures Lists(slots, ids, Values(slots))
  {
    if slots == [] {
      ids := [];
    } else {
      var init, last := slots[..|slots| - 1], slots[|slots| - 1];
      ids := ValuesAreLive(init);
      ListsSnoc(init, ids, Values(init), last);
      assert slots == init + [last];
      if last.Some? { ids := ids + [|init|]; } else { assert Values(init) + [] == Values(init); }
    }
  }

  lemma {:induction false} Least(ids: multiset<nat>, x: nat) returns (y: nat)
    requires x in ids
    ensures y in ids && forall k | k in ids :: y <= k
    decreases x
  {
    if k :| k in ids && k < x { y := Least(ids, k); } else { y := x; }
  }

  class ExportTable<T> {
    var slots: Slots<T>
    // The heap of free ids, as a bag whose least element is popped.
    var freeIds: multiset<nat>

    /** The heap holds the id of each empty slot exactly once, and no other. */
    ghost predicate Valid()
      reads this
    {
      forall id: nat :: freeIds[id] == if id < |slots| && slots[id].None? then 1 else 0
    }

    constructor ()
      ensures Valid() && slots == []
    {
      slots, freeIds := [], multiset{};
    }

    method Erase(id: nat)
      requires Valid() && Has(slots, id)
      modifies this
      ensures Valid() && slots == Without(old(slots), id)
    {
      slots := slots[id := None];
      freeIds := freeIds + multiset{id};
    }

    method Push(value: T) returns (id: nat)
      requires Valid()
      modifies this
      ensures Valid() && id == NextId(old(slots)) && slots == Put(old(slots), value)
    {
      hide NextId;
      ghost var next := NextId(slots);
      assert freeIds[next] == if next < |slots| then 1 else 0;
      if freeIds == multiset{} {
        id := |slots|;
        slots := slots + [Some(value)];
      } else {
        ghost var x :| x in freeIds;
        ghost var least := Least(freeIds, x);
        id :| id in freeIds && forall k | k in freeIds :: id <= k;
        assert freeIds[id] == 1;
        assert !Has(slots, id) && next in freeIds;
        freeIds := freeIds - multiset{id};
        slots := slots[id := Some(value)];
      }
    }

    method Find(id: nat) returns (r: Option<T>)
      ensures r == if Has(slots, id) then Some(slots[id].value) else None
    {
      r := if id < |slots| then slots[id] else None;
    }

    /** Replaces the entry under an id, as a caller does through the reference that `find` gives. */
    method Set(id: nat, value: T)
      requires Valid() && Has(slots, id)
      modifies this
      ensures Valid() && slots == Update(old(slots), id, value)
    {
      slots := slots[id := Some(value)];
    }

    /** Iterates over the entries. */
    method Iter() returns (values: seq<T>)
      ensures values == Values(slots) && exists ids: seq<nat> :: Lists(slots, ids, values)
    {
      values := [];
      for idx := 0 to |slots|
        invariant values == Values(slots[..idx])
      {
        assert slots[..idx + 1][..idx] == slots[..idx];
        if slots[idx].Some? { values := values + [slots[idx].value]; }
      }
      assert slots[..|slots|] == slots;
      ghost var ids := ValuesAreLive(slots);
    }
  }
}
