/** Corrected variants of the insert, remove and destroy paths of tcam_entry_mgr.c,
    next to the behaviour of the code as written (module EntryMgr):
    - insert is all-or-nothing, as the comment above tcam_insert promises, never
      writes or reads outside the table or the batch, and checks the capacity
      without unsigned wrap-around;
    - remove refuses id 0, the marker of an empty slot, instead of "removing" an
      empty slot;
    - destroy clears the caller's handle, so that later calls see NULL. */
module Hardened {
  import opened TcamDefs
  import opened CacheTable
  import opened EntryMgr
  import HwTcam

  /** tcam_insert with its evident intent: the capacity is checked on the exact sum
      (a negative count, which only the miscounting remove of id 0 produces, is
      refused as well), an empty batch is a no-op, and a batch that cannot be placed
      in full (shift scan failure or append past the end) leaves the handler as it
      was and reports TCAM_ERR_TCAM_FULL. */
  function InsertAtomic(s: Engine, es: seq<Entry>): (r: Reply)
    requires WellFormed(s)
    requires |es| < U32Limit
    ensures r.Returned?
    ensures r.status == Success || r.state == s
    ensures r.status == Success || r.status == ErrTcamFull || r.status == ErrNullCache
  {
    if s.cache.Null? then Returned(s, ErrNullCache)
    else if s.total < 0 || s.total + |es| >= s.cap then Returned(s, ErrTcamFull)
    else if |es| == 0 then Returned(s, Success)
    else
      match RunPass(s.cache.table, s.total, es)
      case Some(Completed(p)) =>
        Returned(s.(cache := Live(p.table), total := p.total, hw := HwTcam.ProgramCells(s.hw, p.table, Replay(p))), Success)
      case _ => Returned(s, ErrTcamFull)
  }

  /** Where the count is not negative and `total + num` does not wrap, the corrected
      insert agrees with the code as written whenever the latter succeeds on a
      non-empty batch, and fails without any effect exactly where the latter stops
      part-way or reaches undefined behaviour. Where the sum wraps, the corrected
      insert refuses the batch. */
  lemma InsertAtomicAgrees(s: Engine, es: seq<Entry>)
    requires WellFormed(s)
    requires |es| < U32Limit
    ensures 0 <= s.total && s.total + |es| < U32Limit && |es| > 0 && Insert(s, es).Returned? && Insert(s, es).status == Success ==>
      InsertAtomic(s, es) == Insert(s, es)
    ensures 0 <= s.total && s.total + |es| < U32Limit && |es| > 0 && (Insert(s, es).Undefined? || Insert(s, es).status == ErrTcamFull) ==>
      InsertAtomic(s, es) == Returned(s, ErrTcamFull)
    ensures Insert(s, es).Returned? && Insert(s, es).status == ErrNullCache ==>
      InsertAtomic(s, es) == Insert(s, es)
    ensures !s.cache.Null? && s.total + |es| >= U32Limit ==> InsertAtomic(s, es) == Returned(s, ErrTcamFull)
  {
    if !s.cache.Null? && 0 <= s.total && s.total + |es| < U32Limit && |es| > 0 {
      AgreesWithoutWrap(s, es);
    }
  }

  /** Without wrap-around both checks decide alike, and past them both inserts run
      the same pass. */
  lemma AgreesWithoutWrap(s: Engine, es: seq<Entry>)
    requires WellFormed(s) && !s.cache.Null?
    requires 0 <= s.total && s.total + |es| < U32Limit && 0 < |es|
    ensures Insert(s, es).Returned? && Insert(s, es).status == Success ==> InsertAtomic(s, es) == Insert(s, es)
    ensures Insert(s, es).Undefined? || Insert(s, es).status == ErrTcamFull ==> InsertAtomic(s, es) == Returned(s, ErrTcamFull)
  {
    var x := s.total + |es|;
    assert x % U32Limit == x;
    if x >= s.cap {
      assert Insert(s, es) == Returned(s, ErrTcamFull);
    } else if RunPass(s.cache.table, s.total, es).value.Completed? {
      PastCheckCompleted(s, es);
    } else {
      PastCheckStopped(s, es);
    }
  }

  /** Past the check, a pass that places the whole batch gives both inserts the
      same successful result. */
  lemma PastCheckCompleted(s: Engine, es: seq<Entry>)
    requires WellFormed(s) && s.cache.Live?
    requires 0 <= s.total && s.total + |es| < s.cap && 0 < |es|
    requires RunPass(s.cache.table, s.total, es).value.Completed?
    ensures Insert(s, es).Returned? && Insert(s, es).status == Success
    ensures InsertAtomic(s, es) == Insert(s, es)
  {
    assert (s.total + |es|) % U32Limit == s.total + |es|;
  }

  /** Past the check, a pass that stops part-way or runs past the table leaves the
      code as written without success and the corrected insert without effect. */
  lemma PastCheckStopped(s: Engine, es: seq<Entry>)
    requires WellFormed(s) && s.cache.Live?
    requires 0 <= s.total && s.total + |es| < s.cap && 0 < |es|
    requires !RunPass(s.cache.table, s.total, es).value.Completed?
    ensures Insert(s, es).Undefined? || Insert(s, es).status == ErrTcamFull
    ensures InsertAtomic(s, es) == Returned(s, ErrTcamFull)
  {
    assert (s.total + |es|) % U32Limit == s.total + |es|;
  }

  /** All or nothing: from a consistent, mirrored handler the corrected insert either
      adds the whole batch (keeping order, count and mirror) or changes nothing; an
      empty batch changes nothing at all. */
  lemma InsertAtomicAllOrNothing(s: Engine, es: seq<Entry>)
    requires Consistent(s) && Mirrored(s)
    requires |es| < U32Limit
    requires forall k :: 0 <= k < |es| ==> es[k].IsBusy()
    ensures var r := InsertAtomic(s, es);
      && Consistent(r.state) && Mirrored(r.state)
      && (r.status != Success ==> r.state == s)
      && (r.status == Success ==>
            && r.state.cache.Live?
            && r.state.total == s.total + |es|
            && multiset(Occupied(r.state.cache.table)) == multiset(Occupied(s.cache.table)) + multiset(es))
    ensures |es| == 0 ==> InsertAtomic(s, es).state == s
  {
    var r := InsertAtomic(s, es);
    InsertAtomicAgrees(s, es);
    if r.status == Success && |es| > 0 {
      assert Insert(s, es).Returned? && Insert(s, es).status == Success;
      InsertSucceeds(s, es);
    }
  }

  /** The corrected capacity check keeps one slot free for every batch size: a call
      that starts below `cap` never brings the total to `cap`. */
  lemma InsertAtomicKeepsSpareSlot(s: Engine, es: seq<Entry>)
    requires Consistent(s)
    requires |es| < U32Limit
    requires s.total < s.cap
    ensures InsertAtomic(s, es).state.total < s.cap
    ensures InsertAtomic(s, es).status == Success ==> s.total + |es| < s.cap
  {
    var r := InsertAtomic(s, es);
    if s.cache.Live? && s.total + |es| < s.cap && |es| > 0 {
      var rp := RunPass(s.cache.table, s.total, es);
      if rp.Some? && rp.value.Completed? {
        assert r.state.total == s.total + |es|;
      }
    }
  }

  /** tcam_remove with id 0 refused: 0 marks an empty slot, so it names no entry. */
  function RemoveChecked(s: Engine, id: u32): (r: Reply)
    requires WellFormed(s)
    ensures id != 0 ==> r == Remove(s, id)
    ensures s.cache.Live? && id == 0 ==> r == Returned(s, ErrEinval)
  {
    if s.cache.Live? && id == 0 then Returned(s, ErrEinval) else Remove(s, id)
  }

  /** The corrected remove keeps the table invariants and the mirror for every id. */
  lemma RemoveCheckedKeepsInvariants(s: Engine, id: u32)
    requires Consistent(s) && Mirrored(s)
    ensures RemoveChecked(s, id).Returned?
    ensures Consistent(RemoveChecked(s, id).state) && Mirrored(RemoveChecked(s, id).state)
  {
    if id != 0 {
      RemoveKeepsInvariants(s, id);
    }
  }

  /** The code as written: removing id 0 from a table with an empty slot reports
      success, "removes" that empty slot, and leaves the total one below the number
      of occupied slots. */
  lemma RemoveZeroMiscounts(s: Engine, k: nat)
    requires Consistent(s) && s.cache.Live?
    requires k < s.cap && !s.cache.table[k].IsBusy()
    ensures Remove(s, 0).status == Success
    ensures Remove(s, 0).state.cache.Live?
    ensures Remove(s, 0).state.total == NumOccupied(Remove(s, 0).state.cache.table) - 1
    ensures !Consistent(Remove(s, 0).state)
  {
    var r := Remove(s, 0);
    assert r.status != ErrEinval;
    var i :| RemovedAt(s, 0, r.state, i);
    ClearEmptySlot(s.cache.table, i, Empty);
  }

  /** tcam_cache_destroy taking the caller's handle by reference, so that the
      `tcam = NULL` of line 222 reaches the caller: the table is released and the
      handle reads NULL afterwards. */
  function DestroyClearing(s: Engine): (r: Engine)
    ensures r.cache.Null? && r.total == 0 && r.cap == 0 && r.hw == s.hw
  {
    Engine(Null, 0, 0, s.hw)
  }

  /** With the handle cleared, destroy is idempotent, the handler stays consistent,
      later inserts and removes report NULL_CACHE, and even the destroy as written is
      harmless on it. */
  lemma DestroyClearingIsSafe(s: Engine, es: seq<Entry>, id: u32)
    requires HwTcam.WellSized(s.hw)
    requires |es| < U32Limit
    ensures DestroyClearing(DestroyClearing(s)) == DestroyClearing(s)
    ensures Consistent(DestroyClearing(s)) && Mirrored(DestroyClearing(s))
    ensures Insert(DestroyClearing(s), es) == Returned(DestroyClearing(s), ErrNullCache)
    ensures Remove(DestroyClearing(s), id) == Returned(DestroyClearing(s), ErrNullCache)
    ensures Destroy(DestroyClearing(s)) == Returned(DestroyClearing(s), Success)
  {
  }
}
