/** The pointer-to-blob index of the shared memory manager: an ordered map from the start
    address of each mapped blob to its size and id, asked with `upper_bound` and the
    element before it. An ordered map is its entries in ascending order of key. */
module Segments {
  import opened Common

  type ObjectId = x: nat | x < SIZE_MAX_PLUS_ONE

  const INVALID: ObjectId := 0xFFFF_FFFF_FFFF_FFFF

  datatype Entry = Entry(start: nat, size: nat, id: ObjectId)

  predicate Sorted(index: seq<Entry>)
  {
    forall i, j :: 0 <= i < j < |index| ==> index[i].start < index[j].start
  }

  /** Exact lookup, the reference for everything below. */
  function Lookup(index: seq<Entry>, start: nat): (r: Option<Entry>)
    ensures r.Some? ==> r.value in index && r.value.start == start
    ensures r.None? ==> forall e :: e in index ==> e.start != start
  {
    if index == [] then None
    else if index[|index| - 1].start == start then Some(index[|index| - 1])
    else Lookup(index[..|index| - 1], start)
  }

  lemma LookupFinds(index: seq<Entry>, i: nat)
    requires Sorted(index) && i < |index|
    ensures Lookup(index, index[i].start) == Some(index[i])
  {
    var r := Lookup(index, index[i].start);
    assert index[i] in index;
    var j :| 0 <= j < |index| && index[j] == r.value;
    assert i == j;
  }

  /** `segments_[start] = ...`: overwrite or insert in order. */
  function Put(index: seq<Entry>, e: Entry): (r: seq<Entry>)
  {
    if index == [] then [e]
    else
      var last := index[|index| - 1];
      if last.start < e.start then index + [e]
      else if last.start == e.start then index[..|index| - 1] + [e]
      else Put(index[..|index| - 1], e) + [last]
  }

  lemma SortedSnoc(index: seq<Entry>, last: Entry)
    ensures Sorted(index + [last]) <==> Sorted(index) && forall x :: x in index ==> x.start < last.start
  {
    var all := index + [last];
    if Sorted(all) {
      forall x | x in index ensures x.start < last.start {
        var i :| 0 <= i < |index| && index[i] == x;
        assert all[i] == x && all[|index|] == last;
      }
      assert forall i :: 0 <= i < |index| ==> index[i] == all[i];
    }
  }

  lemma {:induction false} PutKeepsOrder(index: seq<Entry>, e: Entry)
    requires Sorted(index)
    ensures Sorted(Put(index, e))
    ensures forall x :: x in Put(index, e) ==> x == e || x in index
    ensures e in Put(index, e)
  {
    if index != [] {
      var init, last := index[..|index| - 1], index[|index| - 1];
      assert index == init + [last];
      SortedSnoc(init, last);
      PutKeepsOrder(init, e);
      SortedSnoc(Put(init, e), last);
      SortedSnoc(init, e);
      SortedSnoc(index, e);
    }
  }

  lemma LookupSnoc(index: seq<Entry>, last: Entry, start: nat)
    ensures Lookup(index + [last], start) == if last.start == start then Some(last) else Lookup(index, start)
  {
    assert (index + [last])[..|index|] == index;
  }

  lemma {:induction false} PutThenLookup(index: seq<Entry>, e: Entry, start: nat)
    requires Sorted(index)
    ensures Lookup(Put(index, e), start) == if start == e.start then Some(e) else Lookup(index, start)
  {
    if index == [] {
      assert [] + [e] == [e];
      LookupSnoc([], e, start);
    } else {
      var init, last := index[..|index| - 1], index[|index| - 1];
      LookupSnoc(index, e, start);
      LookupSnoc(init, e, start);
      PutThenLookup(init, e, start);
      LookupSnoc(Put(init, e), last, start);
    }
  }

  /** `std::map::upper_bound`: how many entries start at or before the target. */
  method UpperBound(index: seq<Entry>, target: nat) returns (loc: nat)
    requires Sorted(index)
    ensures loc <= |index|
    ensures forall i :: 0 <= i < loc ==> index[i].start <= target
    ensures forall i :: loc <= i < |index| ==> index[i].start > target
  {
    var lo, hi := 0, |index|;
    while lo < hi
      invariant 0 <= lo <= hi <= |index|
      invariant forall i :: 0 <= i < lo ==> index[i].start <= target
      invariant forall i :: hi <= i < |index| ==> index[i].start > target
    {
      var mid := (lo + hi) / 2;
      if index[mid].start <= target {
        lo := mid + 1;
      } else {
        hi := mid;
      }
    }
    loc := lo;
  }

  /** `resolveObjectID`: the target must be the start of the blob. */
  function ResolveObjectId(target: nat, e: Entry): (id: ObjectId)
  {
    if e.start == target then e.id else INVALID
  }

  /** `Exists` is exact lookup: true just when a blob with a valid id starts at the target,
      and then `id` is that blob's. */
  method Exists(index: seq<Entry>, target: nat) returns (found: bool, id: ObjectId)
    requires Sorted(index)
    ensures found <==> Lookup(index, target).Some? && Lookup(index, target).value.id != INVALID
    ensures id == if found then Lookup(index, target).value.id else INVALID
  {
    id := INVALID;
    if index == [] {
      return false, id;
    }
    var loc := UpperBound(index, target);
    if loc == 0 {
      NoLookup(index, target);
      return false, id;
    } else if loc == |index| {
      // check rbegin
      id := ResolveObjectId(target, index[|index| - 1]);
    } else {
      // check prev
      id := ResolveObjectId(target, index[loc - 1]);
    }
    LookupFinds(index, loc - 1);
    if index[loc - 1].start != target {
      NoLookup(index, target);
    }
    found := id != INVALID;
  }

  lemma NoLookup(index: seq<Entry>, target: nat)
    requires forall i :: 0 <= i < |index| ==> index[i].start != target
    ensures Lookup(index, target).None?
  {
  }
}
