/** The in-memory cache table of tcam_entry_mgr.c and the placement of one entry into
    it: the boundary scan, the forward shift, the free-predecessor case and the
    append at the tail (tcam_entry_mgr.c:89-136). A table is a sequence of `cap`
    slots; a slot whose id is 0 is empty. */
module CacheTable {
  import opened TcamDefs

  /** The occupied entries of `t`, in index order. */
  function Occupied(t: seq<Entry>): (r: seq<Entry>)
    ensures |r| <= |t|
    ensures forall k :: 0 <= k < |r| ==> r[k].IsBusy()
  {
    if |t| == 0 then []
    else (if t[0].IsBusy() then [t[0]] else []) + Occupied(t[1..])
  }

  /** The number of occupied slots: what `total_tcam_entries` is meant to count. */
  function NumOccupied(t: seq<Entry>): nat {
    |Occupied(t)|
  }

  lemma {:induction false} OccupiedAppend(a: seq<Entry>, b: seq<Entry>)
    ensures Occupied(a + b) == Occupied(a) + Occupied(b)
  {
    if |a| == 0 {
      assert a + b == b;
    } else {
      assert (a + b)[1..] == a[1..] + b;
      OccupiedAppend(a[1..], b);
    }
  }

  /** A table counts no occupied slot exactly when every slot is empty. */
  lemma {:induction false} NoneOccupied(t: seq<Entry>)
    ensures NumOccupied(t) == 0 <==> forall k :: 0 <= k < |t| ==> !t[k].IsBusy()
  {
    if |t| > 0 {
      NoneOccupied(t[1..]);
      assert forall k :: 1 <= k < |t| ==> t[k] == t[1..][k - 1];
    }
  }

  /** Occupied slots are in non-decreasing priority-value order. */
  ghost predicate Sorted(t: seq<Entry>) {
    forall p, q :: 0 <= p < q < |t| && t[p].IsBusy() && t[q].IsBusy() ==> t[p].prio <= t[q].prio
  }

  /** An occupied slot that an entry of priority value `prio` must be placed in front of. */
  predicate Blocks(x: Entry, prio: int) {
    x.IsBusy() && x.prio >= prio
  }

  /** The boundary scan (tcam_entry_mgr.c:92-97): the first slot at or after `from`
      that blocks `prio`. */
  function Boundary(t: seq<Entry>, prio: int, from: nat): (r: Option<nat>)
    requires from <= |t|
    ensures r.Some? ==> from <= r.value < |t| && Blocks(t[r.value], prio)
    ensures r.Some? ==> forall k :: from <= k < r.value ==> !Blocks(t[k], prio)
    ensures r.None? ==> forall k :: from <= k < |t| ==> !Blocks(t[k], prio)
    decreases |t| - from
  {
    if from == |t| then None
    else if Blocks(t[from], prio) then Some(from)
    else Boundary(t, prio, from + 1)
  }

  /** The shift scan (tcam_entry_mgr.c:108-109): the first empty slot at or after
      `from`. The C loop reads index `cap` before testing the bound; that read is taken
      as an empty slot, so the scan then stops at `cap`, reported here as None. */
  function FreeFrom(t: seq<Entry>, from: nat): (r: Option<nat>)
    requires from <= |t|
    ensures r.Some? ==> from <= r.value < |t| && !t[r.value].IsBusy()
    ensures r.Some? ==> forall k :: from <= k < r.value ==> t[k].IsBusy()
    ensures r.None? ==> forall k :: from <= k < |t| ==> t[k].IsBusy()
    decreases |t| - from
  {
    if from == |t| then None
    else if !t[from].IsBusy() then Some(from)
    else FreeFrom(t, from + 1)
  }

  /** The tail scan of the append path (tcam_entry_mgr.c:123): walk down from `j`
      while the slot is empty, never below 0. The first read, at index `cap`, is
      taken as an empty slot. */
  function TailScan(t: seq<Entry>, j: nat): (r: nat)
    ensures r <= j
    ensures 0 < r ==> r < |t| && t[r].IsBusy()
    ensures forall k :: r < k <= j && k < |t| ==> !t[k].IsBusy()
    decreases j
  {
    if j == 0 then 0
    else if j < |t| && t[j].IsBusy() then j
    else TailScan(t, j - 1)
  }

  /** The forward shift (tcam_entry_mgr.c:114-115 and :129): the run t[j..sp] moves
      one slot up into the empty slot `sp`, and `e` takes slot `j`. */
  function ShiftInsert(t: seq<Entry>, j: nat, sp: nat, e: Entry): (r: seq<Entry>)
    requires j < sp < |t|
    ensures |r| == |t|
    ensures r[j] == e
    ensures forall k :: j < k <= sp ==> r[k] == t[k - 1]
    ensures forall k :: 0 <= k < |t| && (k < j || sp < k) ==> r[k] == t[k]
  {
    t[..j] + [e] + t[j..sp] + t[sp + 1..]
  }

  /** The effect of placing one entry: the new table, the slot the entry went to and
      whether a shift happened; or the mid-batch failure of the shift scan (NoRoom);
      or an append target equal to `cap`, where the C code writes past the end of
      the table (PastEnd). */
  datatype Placement = Placed(table: seq<Entry>, pos: nat, shifted: bool) | NoRoom | PastEnd

  /** One iteration of the insert loop (tcam_entry_mgr.c:90-129), table only. */
  function Place(t: seq<Entry>, e: Entry): (r: Placement)
    ensures r.Placed? ==> |r.table| == |t| && r.pos < |t| && r.table[r.pos] == e
    ensures r.Placed? && !r.shifted ==> !t[r.pos].IsBusy() && r.table == t[r.pos := e]
    ensures r.Placed? && r.shifted ==> t[r.pos].IsBusy()
  {
    match Boundary(t, e.prio, 0)
    case Some(j) =>
      if j == 0 || t[j - 1].IsBusy() then
        match FreeFrom(t, j + 1)
        case None => NoRoom
        case Some(sp) => Placed(ShiftInsert(t, j, sp, e), j, true)
      else
        Placed(t[j - 1 := e], j - 1, false)
    case None =>
      var last := TailScan(t, |t|);
      if last + 1 >= |t| then PastEnd
      else Placed(t[last + 1 := e], last + 1, false)
  }

  /** `j` is the first slot of `t` that blocks `prio`. */
  ghost predicate FirstBlock(t: seq<Entry>, j: int, prio: int) {
    && 0 <= j < |t|
    && Blocks(t[j], prio)
    && forall k :: 0 <= k < j ==> !Blocks(t[k], prio)
  }

  /** When placement fails, and why: the shift scan fails exactly when the first
      blocking slot has no free predecessor and every slot above it is occupied; the
      append target is `cap` exactly when nothing blocks and the last slot is occupied
      (or the table has fewer than two slots). */
  lemma PlaceFailures(t: seq<Entry>, e: Entry)
    ensures Place(t, e).NoRoom? <==>
      exists j :: FirstBlock(t, j, e.prio)
        && (j == 0 || t[j - 1].IsBusy())
        && (forall k :: j < k < |t| ==> t[k].IsBusy())
    ensures Place(t, e).PastEnd? <==>
      (forall k :: 0 <= k < |t| ==> !Blocks(t[k], e.prio))
        && (|t| <= 1 || t[|t| - 1].IsBusy())
  {
    var b := Boundary(t, e.prio, 0);
    if b.Some? {
      var j := b.value;
      assert FirstBlock(t, j, e.prio);
      forall j' | FirstBlock(t, j', e.prio)
        ensures j' == j
      {
      }
      if (j == 0 || t[j - 1].IsBusy()) && FreeFrom(t, j + 1).Some? {
        var sp := FreeFrom(t, j + 1).value;
        assert !t[sp].IsBusy();
      }
    } else {
      if |t| >= 2 && t[|t| - 1].IsBusy() {
        assert TailScan(t, |t|) == |t| - 1 by {
          assert TailScan(t, |t|) == TailScan(t, |t| - 1);
        }
      }
    }
  }

  /** Placing a busy entry only ever fills or overwrites slots at or above the
      landing slot, and every slot it writes ends up occupied: no occupied slot is
      vacated and nothing below the landing slot changes. */
  lemma PlaceOnlyFillsUpward(t: seq<Entry>, e: Entry)
    requires e.IsBusy()
    requires Place(t, e).Placed?
    ensures forall k :: 0 <= k < |t| && Place(t, e).table[k] != t[k] ==>
      Place(t, e).pos <= k && Place(t, e).table[k].IsBusy()
    ensures forall k :: 0 <= k < |t| && t[k].IsBusy() ==> Place(t, e).table[k].IsBusy()
  {
    var r := Place(t, e);
    if r.shifted {
      var j := r.pos;
      var sp := FreeFrom(t, j + 1).value;
      assert r.table == ShiftInsert(t, j, sp, e);
      forall k | j < k <= sp
        ensures r.table[k].IsBusy()
      {
        assert r.table[k] == t[k - 1];
        if k - 1 > j {
          assert t[k - 1].IsBusy();
        }
      }
    }
  }

  /** Where the entry lands (the order and recency properties of the doc-comment at
      tcam_entry_mgr.c:39-46): in a sorted table, every other occupied slot below the
      landing slot has a strictly smaller priority value and every one above it has a
      priority value at least the entry's. In particular an older entry of equal
      priority always ends at a higher index than the new one. */
  lemma PlaceLandsAtBoundary(t: seq<Entry>, e: Entry)
    requires Sorted(t)
    requires Place(t, e).Placed?
    ensures forall q :: 0 <= q < |t| && q != Place(t, e).pos && Place(t, e).table[q].IsBusy() ==>
      (q < Place(t, e).pos <==> Place(t, e).table[q].prio < e.prio)
  {
    var r := Place(t, e);
    var b := Boundary(t, e.prio, 0);
    if b.Some? {
      var j := b.value;
      if r.shifted {
        var sp := FreeFrom(t, j + 1).value;
        assert r.table == ShiftInsert(t, j, sp, e);
        forall q | 0 <= q < |t| && q != j && r.table[q].IsBusy()
          ensures q < j <==> r.table[q].prio < e.prio
        {
          if q < j {
            assert r.table[q] == t[q];
          } else if q <= sp {
            assert r.table[q] == t[q - 1];
            if q - 1 > j {
              assert t[j].prio <= t[q - 1].prio;
            }
          } else {
            assert r.table[q] == t[q];
            assert t[j].prio <= t[q].prio;
          }
        }
      } else {
        forall q | 0 <= q < |t| && q != j - 1 && r.table[q].IsBusy()
          ensures q < j - 1 <==> r.table[q].prio < e.prio
        {
          assert r.table[q] == t[q];
          if q > j {
            assert t[j].prio <= t[q].prio;
          }
        }
      }
    } else {
      var last := TailScan(t, |t|);
      forall q | 0 <= q < |t| && q != last + 1 && r.table[q].IsBusy()
        ensures q < last + 1 && r.table[q].prio < e.prio
      {
        assert r.table[q] == t[q];
      }
    }
  }

  /** A table that is sorted once slot `pos` is left out, and whose slot `pos` holds
      an entry that every other occupied slot sits on the correct side of, is sorted. */
  lemma SortedAround(r: seq<Entry>, pos: nat, e: Entry)
    requires pos < |r| && r[pos] == e
    requires forall q :: 0 <= q < |r| && q != pos && r[q].IsBusy() ==> (q < pos <==> r[q].prio < e.prio)
    requires forall p, q :: 0 <= p < q < |r| && p != pos && q != pos && r[p].IsBusy() && r[q].IsBusy() ==>
      r[p].prio <= r[q].prio
    ensures Sorted(r)
  {
  }

  /** The forward shift keeps the relative order of the entries it moves. */
  lemma ShiftInsertKeepsOthersSorted(t: seq<Entry>, j: nat, sp: nat, e: Entry)
    requires j < sp < |t|
    requires Sorted(t)
    ensures var r := ShiftInsert(t, j, sp, e);
      forall p, q :: 0 <= p < q < |t| && p != j && q != j && r[p].IsBusy() && r[q].IsBusy() ==>
        r[p].prio <= r[q].prio
  {
    var r := ShiftInsert(t, j, sp, e);
    forall p, q | 0 <= p < q < |t| && p != j && q != j && r[p].IsBusy() && r[q].IsBusy()
      ensures r[p].prio <= r[q].prio
    {
      var p' := if p < j || sp < p then p else p - 1;
      var q' := if q < j || sp < q then q else q - 1;
      assert r[p] == t[p'] && r[q] == t[q'];
    }
  }

  /** Placing an entry keeps the occupied slots in priority order. */
  lemma PlaceKeepsOrder(t: seq<Entry>, e: Entry)
    requires Sorted(t)
    requires Place(t, e).Placed?
    ensures Sorted(Place(t, e).table)
  {
    var r := Place(t, e);
    PlaceLandsAtBoundary(t, e);
    if r.shifted {
      var j := r.pos;
      var sp := FreeFrom(t, j + 1).value;
      assert r.table == ShiftInsert(t, j, sp, e);
      ShiftInsertKeepsOthersSorted(t, j, sp, e);
    }
    SortedAround(r.table, r.pos, e);
  }

  /** The occupied entries of a table split at any index. */
  lemma OccupiedSplit(t: seq<Entry>, p: nat)
    requires p <= |t|
    ensures Occupied(t) == Occupied(t[..p]) + Occupied(t[p..])
  {
    assert t == t[..p] + t[p..];
    OccupiedAppend(t[..p], t[p..]);
  }

  /** Filling an empty slot inserts the entry into the occupied sequence at that slot. */
  lemma OccupiedFill(t: seq<Entry>, p: nat, e: Entry)
    requires p < |t| && !t[p].IsBusy() && e.IsBusy()
    ensures Occupied(t[p := e]) == Occupied(t[..p]) + [e] + Occupied(t[p..])
  {
    assert t[p := e] == t[..p] + [e] + t[p + 1..];
    OccupiedAppend(t[..p] + [e], t[p + 1..]);
    OccupiedAppend(t[..p], [e]);
    assert Occupied([e]) == [e];
    assert t[p..] == [t[p]] + t[p + 1..];
    OccupiedAppend([t[p]], t[p + 1..]);
    assert Occupied([t[p]]) == [];
  }

  /** The forward shift inserts the entry into the occupied sequence at slot `j`. */
  lemma OccupiedShiftInsert(t: seq<Entry>, j: nat, sp: nat, e: Entry)
    requires j < sp < |t| && !t[sp].IsBusy() && e.IsBusy()
    ensures Occupied(ShiftInsert(t, j, sp, e)) == Occupied(t[..j]) + [e] + Occupied(t[j..])
  {
    var a, m, z := t[..j], t[j..sp], t[sp + 1..];
    assert ShiftInsert(t, j, sp, e) == (a + [e] + m) + z;
    OccupiedAppend(a + [e] + m, z);
    OccupiedAppend(a + [e], m);
    OccupiedAppend(a, [e]);
    assert Occupied([e]) == [e];
    assert t[j..] == (m + [t[sp]]) + z;
    OccupiedAppend(m + [t[sp]], z);
    OccupiedAppend(m, [t[sp]]);
    assert Occupied([t[sp]]) == [];
  }

  /** Placing a busy entry inserts it into the sequence of occupied entries right
      between those below and those at or above the landing slot: no other entry is
      lost, duplicated or reordered. */
  lemma PlaceAddsEntry(t: seq<Entry>, e: Entry)
    requires e.IsBusy()
    requires Place(t, e).Placed?
    ensures Occupied(Place(t, e).table) ==
      Occupied(t[..Place(t, e).pos]) + [e] + Occupied(t[Place(t, e).pos..])
    ensures multiset(Occupied(Place(t, e).table)) == multiset(Occupied(t)) + multiset{e}
    ensures NumOccupied(Place(t, e).table) == NumOccupied(t) + 1
  {
    var r := Place(t, e);
    var p := r.pos;
    if r.shifted {
      var sp := FreeFrom(t, p + 1).value;
      assert r.table == ShiftInsert(t, p, sp, e);
      OccupiedShiftInsert(t, p, sp, e);
    } else {
      OccupiedFill(t, p, e);
    }
    OccupiedSplit(t, p);
  }

  /** Emptying a slot removes its entry (if any) from the occupied sequence and
      keeps the rest in order. */
  lemma OccupiedClear(t: seq<Entry>, i: nat, x: Entry)
    requires i < |t| && !x.IsBusy()
    ensures Occupied(t[i := x]) == Occupied(t[..i]) + Occupied(t[i + 1..])
    ensures Occupied(t) == Occupied(t[..i]) + Occupied([t[i]]) + Occupied(t[i + 1..])
  {
    assert t[i := x] == t[..i] + [x] + t[i + 1..];
    OccupiedAppend(t[..i] + [x], t[i + 1..]);
    OccupiedAppend(t[..i], [x]);
    assert Occupied([x]) == [];
    assert t == t[..i] + [t[i]] + t[i + 1..];
    OccupiedAppend(t[..i] + [t[i]], t[i + 1..]);
    OccupiedAppend(t[..i], [t[i]]);
  }

  /** Emptying an occupied slot takes exactly its entry out of the occupied entries. */
  lemma ClearSlot(t: seq<Entry>, i: nat, x: Entry)
    requires i < |t| && !x.IsBusy() && t[i].IsBusy()
    ensures multiset(Occupied(t[i := x])) == multiset(Occupied(t)) - multiset{t[i]}
    ensures NumOccupied(t[i := x]) == NumOccupied(t) - 1
  {
    OccupiedClear(t, i, x);
    assert Occupied([t[i]]) == [t[i]];
  }

  /** Emptying an empty slot leaves the occupied entries as they are. */
  lemma ClearEmptySlot(t: seq<Entry>, i: nat, x: Entry)
    requires i < |t| && !x.IsBusy() && !t[i].IsBusy()
    ensures Occupied(t[i := x]) == Occupied(t)
  {
    OccupiedClear(t, i, x);
    assert Occupied([t[i]]) == [];
  }

  /** Emptying a slot keeps the occupied slots in order. */
  lemma ClearKeepsOrder(t: seq<Entry>, i: nat, x: Entry)
    requires i < |t| && !x.IsBusy()
    requires Sorted(t)
    ensures Sorted(t[i := x])
  {
  }
}
