/**
 The server's resource tables: a fixed array of slots, a linear search by
 identifier, and identifiers counted up from 1 that are never handed out twice.
 Every table of a session (allocations, modules, kernels, streams, events,
 transfers) has this form.
 */
module SlotTable {
  /** A record: the module it belongs to, 0 for none, and its native object. */
  datatype Record = Record(owner: nat, native: nat)

  datatype Slot = Unused | Used(id: nat, value: Record)

  ghost predicate Separate(slots: seq<Slot>)
  {
    forall i, j :: 0 <= i < j < |slots| && slots[i].Used? && slots[j].Used? ==> slots[i].id != slots[j].id
  }

  /** The table as a map from identifiers to records. */
  ghost function Records(slots: seq<Slot>): map<nat, Record>
    requires Separate(slots)
  {
    map i | 0 <= i < |slots| && slots[i].Used? :: slots[i].id := slots[i].value
  }

  lemma FilledRecords(slots: seq<Slot>, i: nat, id: nat, v: Record)
    requires Separate(slots) && i < |slots| && slots[i].Unused? && id !in Records(slots)
    ensures Separate(slots[i := Used(id, v)])
    ensures Records(slots[i := Used(id, v)]) == Records(slots)[id := v]
  {
    var s := slots[i := Used(id, v)];
    forall j | 0 <= j < |slots| && slots[j].Used? ensures slots[j].id != id && s[j] == slots[j] {
      assert slots[j].id in Records(slots);
    }
    var r, r' := Records(slots)[id := v], Records(s);
    forall k | k in r ensures k in r' && r'[k] == r[k] {
      if k == id {
        assert s[i].id == k;
      } else {
        var j :| 0 <= j < |slots| && slots[j].Used? && slots[j].id == k;
        assert s[j].id == k;
      }
    }
    forall k | k in r' ensures k in r {
      var j :| 0 <= j < |s| && s[j].Used? && s[j].id == k;
      assert j != i ==> slots[j].id in Records(slots);
    }
  }

  lemma ClearedRecords(slots: seq<Slot>, i: nat)
    requires Separate(slots) && i < |slots| && slots[i].Used?
    ensures Separate(slots[i := Unused])
    ensures Records(slots[i := Unused]) == Records(slots) - {slots[i].id}
  {
    var s := slots[i := Unused];
    var r, r' := Records(slots), Records(s);
    assert slots[i].id in r;
    forall k | k in r && k != slots[i].id ensures k in r' && r'[k] == r[k] {
      var j :| 0 <= j < |slots| && slots[j].Used? && slots[j].id == k;
      assert s[j].id == k;
    }
    forall k | k in r' ensures k in r && k != slots[i].id {
      var j :| 0 <= j < |s| && s[j].Used? && s[j].id == k;
      assert slots[j].id == k;
    }
  }

  lemma ClearedCount(slots: seq<Slot>, i: nat)
    requires Separate(slots) && i < |slots| && slots[i].Used?
    ensures Separate(slots[i := Unused]) && |Records(slots)| == |Records(slots[i := Unused])| + 1
  {
    assert slots[i].id in Records(slots);
    ClearedRecords(slots, i);
    hide Records, Separate;
    var r, id := Records(slots), slots[i].id;
    assert r == (r - {id})[id := r[id]];
  }

  function UsedCount(slots: seq<Slot>): nat
  {
    if slots == [] then 0 else UsedCount(slots[..|slots| - 1]) + if slots[|slots| - 1].Used? then 1 else 0
  }

  lemma {:induction false} UsedCountCleared(slots: seq<Slot>, i: nat)
    requires i < |slots| && slots[i].Used?
    ensures UsedCount(slots) == UsedCount(slots[i := Unused]) + 1
  {
    var n := |slots| - 1;
    if i < n {
      UsedCountCleared(slots[..n], i);
      assert slots[i := Unused][..n] == slots[..n][i := Unused];
    } else {
      assert slots[i := Unused][..n] == slots[..n];
    }
  }

  lemma {:induction false} UsedCountEnds(slots: seq<Slot>)
    ensures UsedCount(slots) == 0 <==> forall i :: 0 <= i < |slots| ==> slots[i].Unused?
    ensures UsedCount(slots) <= |slots|
    ensures UsedCount(slots) == |slots| <==> forall i :: 0 <= i < |slots| ==> slots[i].Used?
  {
    if slots != [] {
      var n := |slots| - 1;
      UsedCountEnds(slots[..n]);
      assert forall i :: 0 <= i < n ==> slots[..n][i] == slots[i];
    }
  }

  lemma {:induction false} RecordsCount(slots: seq<Slot>)
    requires Separate(slots)
    ensures |Records(slots)| == UsedCount(slots)
    decreases UsedCount(slots)
  {
    UsedCountEnds(slots);
    if UsedCount(slots) == 0 {
      assert Records(slots) == map[];
    } else {
      var i :| 0 <= i < |slots| && slots[i].Used?;
      UsedCountCleared(slots, i);
      ClearedCount(slots, i);
      RecordsCount(slots[i := Unused]);
    }
  }

  /** Slots are lost to nothing: there is room for another record until the table holds as many as it has slots. */
  lemma RoomLeft(slots: seq<Slot>)
    requires Separate(slots)
    ensures |Records(slots)| <= |slots|
    ensures (exists i :: 0 <= i < |slots| && slots[i].Unused?) <==> |Records(slots)| < |slots|
  {
    hide Records;
    RecordsCount(slots);
    UsedCountEnds(slots);
  }

  class Table {
    const slots: array<Slot>
    var next: nat

    constructor (capacity: nat)
      ensures fresh(slots) && slots.Length == capacity && Valid() && Contents() == map[] && next == 1
    {
      slots := new Slot[capacity](_ => Unused);
      next := 1;
    }

    ghost predicate Valid()
      reads this, slots
    {
      Separate(slots[..]) && 1 <= next && forall id :: id in Records(slots[..]) ==> 1 <= id < next
    }

    ghost function Contents(): map<nat, Record>
      requires Valid()
      reads this, slots
    {
      Records(slots[..])
    }

    /** The slot of a record, or the capacity when there is none. */
    method Find(id: nat) returns (i: nat)
      requires Valid()
      ensures i <= slots.Length && (i < slots.Length <==> id in Contents())
      ensures i < slots.Length ==> slots[i] == Used(id, Contents()[id])
    {
      i := 0;
      while i < slots.Length && !(slots[i].Used? && slots[i].id == id)
        invariant i <= slots.Length && forall j :: 0 <= j < i ==> !(slots[j].Used? && slots[j].id == id)
      {
        i := i + 1;
      }
      if i < slots.Length {
        assert slots[..][i].id in Contents();
      }
    }

    /** Take the first free slot and the next identifier. */
    method New(v: Record) returns (ok: bool, id: nat)
      requires Valid()
      modifies this, slots
      ensures Valid() && ok == (|old(Contents())| < slots.Length) && id == old(next)
      ensures Contents() == if ok then old(Contents())[id := v] else old(Contents())
      ensures next == if ok then old(next) + 1 else old(next)
    {
      RoomLeft(slots[..]);
      var i := 0;
      while i < slots.Length && slots[i].Used?
        invariant i <= slots.Length && forall j :: 0 <= j < i ==> slots[j].Used?
      {
        i := i + 1;
      }
      ok, id := i < slots.Length, next;
      if ok {
        assert slots[..][i].Unused?;
        FilledRecords(slots[..], i, id, v);
        slots[i] := Used(id, v);
        next := next + 1;
      } else {
        assert forall j :: 0 <= j < |slots[..]| ==> slots[..][j].Used?;
      }
    }

    method Clear(i: nat)
      requires Valid() && i < slots.Length && slots[i].Used?
      modifies slots
      ensures Valid() && Contents() == old(Contents()) - {old(slots[i]).id}
    {
      ClearedRecords(slots[..], i);
      slots[i] := Unused;
    }

    /** A module takes its records with it. */
    method ClearOwned(owner: nat)
      requires Valid()
      modifies slots
      ensures Valid()
      ensures forall id :: id in Contents() <==> id in old(Contents()) && old(Contents())[id].owner != owner
      ensures forall id :: id in Contents() ==> Contents()[id] == old(Contents())[id]
    {
      ghost var was := slots[..];
      for i := 0 to slots.Length
        invariant forall j :: 0 <= j < i ==> slots[j] == if was[j].Used? && was[j].value.owner == owner then Unused else was[j]
        invariant forall j :: i <= j < slots.Length ==> slots[j] == was[j]
      {
        if slots[i].Used? && slots[i].value.owner == owner {
          slots[i] := Unused;
        }
      }
      Sifted(was, slots[..], owner);
    }
  }

  lemma Sifted(was: seq<Slot>, now: seq<Slot>, owner: nat)
    requires Separate(was) && |now| == |was|
    requires forall j :: 0 <= j < |was| ==> now[j] == if was[j].Used? && was[j].value.owner == owner then Unused else was[j]
    ensures Separate(now)
    ensures forall id :: id in Records(now) <==> id in Records(was) && Records(was)[id].owner != owner
    ensures forall id :: id in Records(now) ==> Records(now)[id] == Records(was)[id]
  {
    forall id | id in Records(now)
      ensures id in Records(was) && Records(now)[id] == Records(was)[id] && Records(was)[id].owner != owner
    {
      var j :| 0 <= j < |now| && now[j].Used? && now[j].id == id;
      assert was[j].id == id;
    }
    forall id | id in Records(was) && Records(was)[id].owner != owner ensures id in Records(now) {
      var j :| 0 <= j < |was| && was[j].Used? && was[j].id == id;
      assert now[j].id == id;
    }
  }
}
