/** The TCAM bank handler (tcam_entry_mgr.c): tcam_init, tcam_insert, tcam_remove and
    tcam_cache_destroy over one explicit state value in place of the file-scope
    statics of tcam_entry_mgr.c:8-13 and tcam.c:8. */
module EntryMgr {
  import opened TcamDefs
  import opened CacheTable
  import HwTcam

  /** The caller's handle to the cache table: NULL, a live table, or the pointer to a
      table that tcam_cache_destroy has freed. tcam_cache_destroy clears only its own
      copy of the pointer (line 222), so the caller keeps a freed one. */
  datatype Handle = Null | Live(table: seq<Entry>) | Freed

  /** The handler state.
      - cache: the caller's handle to the cache table.
      - total: total_tcam_entries (a signed 32-bit counter in the C code).
      - cap:   max_tcam_entries, the size given to tcam_init.
      - hw:    the hardware TCAM (hw_tcam_local) with its access counter. */
  datatype Engine = Engine(cache: Handle, total: int, cap: nat, hw: HwTcam.Device)

  /** Shapes the C code relies on: the table has `cap` slots, `cap` fits the hardware
      bank, and the hardware array has TCAM_MAX_ENTRIES cells. A freed handle comes
      with the zeroed capacity and total that tcam_cache_destroy leaves behind. */
  ghost predicate WellFormed(s: Engine) {
    && s.cap <= MaxEntries
    && HwTcam.WellSized(s.hw)
    && (s.cache.Live? ==> |s.cache.table| == s.cap)
    && (s.cache.Freed? ==> s.cap == 0 && s.total == 0)
  }

  /** The table invariants: the running total counts the occupied slots, and the
      occupied slots are in priority order. */
  ghost predicate Consistent(s: Engine) {
    && WellFormed(s)
    && (s.cache.Live? ==> s.total == NumOccupied(s.cache.table) && Sorted(s.cache.table))
  }

  /** A hardware cell mirrors a cache slot: same id, and the same entry when occupied. */
  predicate Mirrors(cell: Entry, slot: Entry) {
    cell.id == slot.id && (slot.IsBusy() ==> cell == slot)
  }

  /** The hardware bank mirrors every slot of the cache table. */
  ghost predicate Mirrored(s: Engine) {
    && WellFormed(s)
    && (s.cache.Live? ==> forall i :: 0 <= i < s.cap ==> Mirrors(s.hw.cells[i], s.cache.table[i]))
  }

  /** Points where the C code reads or writes outside an array, so that its behaviour
      is undefined: entries[0] of an empty batch on an empty table (line 82), and an
      append target equal to `cap` (lines 123-129), and a second free of a table
      already freed (line 221). */
  datatype Fault = EmptyBatchRead | AppendPastEnd | DoubleFree

  /** What a call of the handler does: it returns a status and a new state, or it
      reaches undefined behaviour. */
  datatype Reply = Returned(state: Engine, status: Status) | Undefined(fault: Fault)

  /** The program's starting point: every static zero, no handle, a zeroed hardware
      array (the test driver's static hw_tcam). */
  function Start(): (s: Engine)
    ensures Consistent(s) && Mirrored(s)
  {
    Engine(Null, 0, 0, HwTcam.Device(HwTcam.Zeros(MaxEntries), 0))
  }

  /** tcam_init (lines 25-33): a fresh all-empty table of `size` slots and a zeroed
      hardware bank. The allocation is not checked and the call always succeeds; the
      running total is not reset here, only by tcam_cache_destroy. */
  function Init(s: Engine, size: nat): (r: Engine)
    requires HwTcam.WellSized(s.hw)
    requires size <= MaxEntries
    ensures WellFormed(r) && r.cap == size && r.total == s.total
    ensures r.cache.Live? && forall k :: 0 <= k < size ==> r.cache.table[k] == Empty
    ensures NumOccupied(r.cache.table) == 0
    ensures r.hw == HwTcam.Init(s.hw, size) && r.hw.access == 0
    ensures s.total == 0 <==> Consistent(r)
    ensures Mirrored(r)
  {
    var t := HwTcam.Zeros(size);
    NoneOccupied(t);
    Engine(Live(t), s.total, size, HwTcam.Init(s.hw, size))
  }

  /** tcam_cache_destroy (lines 218-229): the table is freed and the total and
      capacity go back to zero; the hardware array belongs to the caller and keeps
      its contents. The caller's handle is left pointing at the freed table, and a
      second call frees it again. The function returns nothing; `Success` stands for
      its normal return. */
  function Destroy(s: Engine): (r: Reply)
    ensures r.Undefined? <==> s.cache.Freed?
    ensures r.Returned? ==> r.status == Success && r.state.total == 0 && r.state.cap == 0 && r.state.hw == s.hw
    ensures r.Returned? ==> (r.state.cache.Freed? <==> s.cache.Live?) && (r.state.cache.Null? <==> s.cache.Null?)
    ensures r.Returned? && HwTcam.WellSized(s.hw) ==> Consistent(r.state) && Mirrored(r.state)
  {
    match s.cache
    case Freed => Undefined(DoubleFree)
    case Null => Returned(Engine(Null, 0, 0, s.hw), Success)
    case Live(_) => Returned(Engine(Freed, 0, 0, s.hw), Success)
  }

  /** Destroying a handle that is not already freed and initialising again always
      yields a clean handler, whatever the running total was. */
  lemma DestroyThenInit(s: Engine, size: nat)
    requires HwTcam.WellSized(s.hw)
    requires size <= MaxEntries
    requires !s.cache.Freed?
    ensures Destroy(s).Returned?
    ensures Consistent(Init(Destroy(s).state, size)) && Mirrored(Init(Destroy(s).state, size))
    ensures Init(Destroy(s).state, size).total == 0
  {
  }

  /** After tcam_cache_destroy the caller still holds the freed table: insert then
      reports TCAM_FULL (the capacity check at line 72 sees a capacity of 0), remove
      reports EINVAL (the search at line 191 covers no slot), neither NULL_CACHE, and a
      second destroy frees the table again (line 221). */
  lemma StaleHandle(s: Engine, es: seq<Entry>, id: u32)
    requires WellFormed(s) && s.cache.Live?
    requires |es| < U32Limit
    ensures Destroy(s).Returned?
    ensures var d := Destroy(s).state;
      && Insert(d, es) == Returned(d, ErrTcamFull)
      && Remove(d, id) == Returned(d, ErrEinval)
      && Destroy(d) == Undefined(DoubleFree)
  {
  }

  // ---------------------------------------------------------------------------
  // tcam_insert

  /** The bookkeeping of one tcam_insert call: the table, the running total, `top`
      (the lowest index written), insert_list (the set of written indices) and
      shift_cell (whether any entry was shifted). */
  datatype Pass = Pass(table: seq<Entry>, total: int, top: int, marks: set<nat>, shifted: bool)

  /** How the placement loop ends: every entry placed; stopped by the shift-scan
      failure at batch index `at` (lines 111-112); or an append past the end. */
  datatype PassEnd = Completed(pass: Pass) | Halted(pass: Pass, at: nat) | Overran

  /** Lines 76-86: the bookkeeping before the loop and the index the loop starts
      from. When the running total is not positive, entries[0] is copied to slot 0
      and the total is set to 1; None when that copy reads past an empty batch. */
  function StartPass(t: seq<Entry>, total: int, es: seq<Entry>): (r: Option<(Pass, nat)>)
    requires |t| >= 1
    ensures r.None? <==> total <= 0 && |es| == 0
    ensures r.Some? ==> |r.value.0.table| == |t| && r.value.1 <= |es|
    ensures r.Some? && total <= 0 ==>
      && r.value.0.table[0] == es[0]
      && (forall k :: 1 <= k < |t| ==> r.value.0.table[k] == t[k])
      && r.value.0.total == 1 && r.value.0.top == 0 && r.value.0.marks == {0}
      && !r.value.0.shifted && r.value.1 == 1
    ensures total > 0 ==>
      && r.Some? && r.value.0.table == t && r.value.0.total == total
      && r.value.0.top == |t| && r.value.0.marks == {}
      && !r.value.0.shifted && r.value.1 == 0
  {
    if total <= 0 then
      if |es| == 0 then None
      else Some((Pass(t[0 := es[0]], 1, 0, {0}, false), 1))
    else
      Some((Pass(t, total, |t|, {}, false), 0))
  }

  /** The placement loop (lines 89-136) from batch index `i` on. */
  function PlaceAll(b: Pass, es: seq<Entry>, i: nat): (r: PassEnd)
    requires i <= |es|
    requires 0 <= b.top <= |b.table|
    requires b.shifted ==> b.top < |b.table|
    ensures r.Completed? ==> |r.pass.table| == |b.table| && 0 <= r.pass.top <= |b.table|
    ensures r.Completed? && r.pass.shifted ==> r.pass.top < |b.table|
    ensures r.Halted? ==> |r.pass.table| == |b.table| && i <= r.at < |es|
    ensures r.Completed? ==> r.pass.total == b.total + (|es| - i)
    ensures r.Halted? ==> r.pass.total == b.total + (r.at - i)
    ensures r.Completed? && b.shifted ==> r.pass.shifted
    decreases |es| - i
  {
    if i == |es| then Completed(b)
    else
      match Place(b.table, es[i])
      case NoRoom => Halted(b, i)
      case PastEnd => Overran
      case Placed(_, _, _) => PlaceAll(Advance(b, Place(b.table, es[i])), es, i + 1)
  }

  /** Lines 129-135: the bookkeeping after one entry has been placed. */
  function Advance(b: Pass, pl: Placement): (r: Pass)
    requires pl.Placed?
    ensures r.table == pl.table && r.total == b.total + 1
    ensures r.marks == b.marks + {pl.pos}
    ensures r.top <= b.top && r.top <= pl.pos && (r.top == b.top || r.top == pl.pos)
    ensures r.shifted <==> b.shifted || pl.shifted
  {
    Pass(pl.table, b.total + 1, if pl.pos < b.top then pl.pos else b.top, b.marks + {pl.pos}, b.shifted || pl.shifted)
  }

  /** The shift replay (lines 150-153): from index `i` down to `top`, every occupied
      slot, in descending index order. The first read, at index `cap`, is taken as
      an empty slot. */
  function SweepDown(t: seq<Entry>, top: nat, i: int): (r: seq<nat>)
    ensures forall k :: 0 <= k < |r| ==> top <= r[k] <= i && r[k] < |t| && t[r[k]].IsBusy()
    ensures forall k :: top <= k <= i && k < |t| && t[k].IsBusy() ==> k in r
    ensures forall a, b :: 0 <= a < b < |r| ==> r[a] > r[b]
    decreases i - top + 1
  {
    if i < top then []
    else (if i < |t| && t[i].IsBusy() then [i] else []) + SweepDown(t, top, i - 1)
  }

  /** The replay without shift (lines 155-157): from index `i` up, every slot that
      insert_list marks and that is occupied, in ascending index order. */
  function SweepUp(t: seq<Entry>, marks: set<nat>, i: nat): (r: seq<nat>)
    requires i <= |t|
    ensures forall k :: 0 <= k < |r| ==> i <= r[k] < |t| && r[k] in marks && t[r[k]].IsBusy()
    ensures forall k :: i <= k < |t| && k in marks && t[k].IsBusy() ==> k in r
    ensures forall a, b :: 0 <= a < b < |r| ==> r[a] < r[b]
    decreases |t| - i
  {
    if i == |t| then []
    else (if i in marks && t[i].IsBusy() then [i] else []) + SweepUp(t, marks, i + 1)
  }

  /** The indices programmed after a completed pass, in programming order (lines
      149-158). */
  function Replay(p: Pass): (r: seq<nat>)
    requires 0 <= p.top
    ensures p.shifted ==> forall k :: k in r <==> p.top <= k < |p.table| && p.table[k].IsBusy()
    ensures p.shifted ==> forall a, b :: 0 <= a < b < |r| ==> r[a] > r[b]
    ensures !p.shifted ==> forall k :: k in r <==> k in p.marks && k < |p.table| && p.table[k].IsBusy()
    ensures !p.shifted ==> forall a, b :: 0 <= a < b < |r| ==> r[a] < r[b]
  {
    if p.shifted then SweepDown(p.table, p.top, |p.table|) else SweepUp(p.table, p.marks, 0)
  }

  /** The pass run by tcam_insert once the NULL and capacity checks have passed
      (lines 76-136). The first-entry path restarts the count from 0, so the total a
      pass adds to is the running total, or 0 when that is not positive. */
  function RunPass(t: seq<Entry>, total: int, es: seq<Entry>): (r: Option<PassEnd>)
    requires |t| >= 1
    ensures r.None? <==> total <= 0 && |es| == 0
    ensures r.Some? && !r.value.Overran? ==> |r.value.pass.table| == |t|
    ensures r.Some? && r.value.Completed? ==>
      r.value.pass.total == (if total <= 0 then 0 else total) + |es|
    ensures r.Some? && r.value.Halted? ==>
      r.value.at < |es| && r.value.pass.total == (if total <= 0 then 0 else total) + r.value.at
  {
    match StartPass(t, total, es)
    case None => None
    case Some((b, i)) => Some(PlaceAll(b, es, i))
  }

  /** tcam_insert (lines 58-163). */
  function Insert(s: Engine, es: seq<Entry>): (r: Reply)
    requires WellFormed(s)
    requires |es| < U32Limit
    ensures s.cache.Null? ==> r == Returned(s, ErrNullCache)
    ensures s.cache.Live? && (s.total + |es|) % U32Limit >= s.cap ==> r == Returned(s, ErrTcamFull)
    ensures r.Returned? ==> WellFormed(r.state) && r.state.cap == s.cap && r.state.cache.Live? == s.cache.Live?
    ensures r.Returned? && r.status != Success ==> r.state.hw == s.hw
    ensures r.Returned? ==> r.status == Success || r.status == ErrTcamFull || r.status == ErrNullCache
  {
    if s.cache.Null? then Returned(s, ErrNullCache)
    else if (s.total + |es|) % U32Limit >= s.cap then Returned(s, ErrTcamFull)
    else
      match RunPass(s.cache.table, s.total, es)
      case None => Undefined(EmptyBatchRead)
      case Some(Overran) => Undefined(AppendPastEnd)
      case Some(Halted(p, _)) => Returned(s.(cache := Live(p.table), total := p.total), ErrTcamFull)
      case Some(Completed(p)) =>
        Returned(s.(cache := Live(p.table), total := p.total, hw := HwTcam.ProgramCells(s.hw, p.table, Replay(p))), Success)
  }

  /** The facts the placement loop keeps about its bookkeeping, relative to the table
      `t0` the call started from, once the entries of `placed` have been placed. */
  ghost predicate Tracks(t0: seq<Entry>, placed: seq<Entry>, b: Pass) {
    TableTracks(t0, placed, b) && MarksTrack(t0, placed, b) && FrameTracks(t0, b)
  }

  /** The table keeps its size and order, the total counts it, and its occupied
      entries are those of `t0` plus the placed ones. */
  ghost predicate TableTracks(t0: seq<Entry>, placed: seq<Entry>, b: Pass) {
    && |b.table| == |t0|
    && 0 <= b.top <= |t0|
    && (b.shifted ==> b.top < |t0|)
    && b.total == NumOccupied(b.table)
    && Sorted(b.table)
    && multiset(Occupied(b.table)) == multiset(Occupied(t0)) + multiset(placed)
  }

  /** insert_list holds occupied slots at or above `top`, one per placed entry while
      nothing has been shifted. */
  ghost predicate MarksTrack(t0: seq<Entry>, placed: seq<Entry>, b: Pass) {
    && (forall k :: k in b.marks ==> b.top <= k < |t0| && k < |b.table| && b.table[k].IsBusy())
    && (!b.shifted ==> |b.marks| == |placed|)
  }

  /** No occupied slot of `t0` became empty, and every slot that changed is occupied,
      at or above `top`, and marked unless a shift happened. */
  ghost predicate FrameTracks(t0: seq<Entry>, b: Pass) {
    && |b.table| == |t0|
    && (forall k :: 0 <= k < |t0| && t0[k].IsBusy() ==> b.table[k].IsBusy())
    && (forall k :: 0 <= k < |t0| && b.table[k] != t0[k] ==>
          b.top <= k && b.table[k].IsBusy() && (b.shifted || k in b.marks))
  }

  /** What placement guarantees about the new table `t`, with `e` written at `pos`. */
  ghost predicate PlacedBy(old_t: seq<Entry>, e: Entry, t: seq<Entry>, pos: nat, sh: bool) {
    && e.IsBusy()
    && |t| == |old_t| && pos < |t| && t[pos] == e
    && (!sh ==> !old_t[pos].IsBusy() && t == old_t[pos := e])
    && (forall k :: 0 <= k < |t| && t[k] != old_t[k] ==> pos <= k && t[k].IsBusy())
    && (forall k :: 0 <= k < |t| && old_t[k].IsBusy() ==> t[k].IsBusy())
    && Sorted(t)
    && multiset(Occupied(t)) == multiset(Occupied(old_t)) + multiset{e}
    && NumOccupied(t) == NumOccupied(old_t) + 1
  }

  lemma StepTable(t0: seq<Entry>, placed: seq<Entry>, b: Pass, e: Entry, t: seq<Entry>, pos: nat, sh: bool)
    requires TableTracks(t0, placed, b)
    requires PlacedBy(b.table, e, t, pos, sh)
    ensures TableTracks(t0, placed + [e], Pass(t, b.total + 1, if pos < b.top then pos else b.top, b.marks + {pos}, b.shifted || sh))
  {
    assert multiset(placed + [e]) == multiset(placed) + multiset{e};
  }

  lemma StepMarks(t0: seq<Entry>, placed: seq<Entry>, b: Pass, e: Entry, t: seq<Entry>, pos: nat, sh: bool)
    requires |b.table| == |t0|
    requires MarksTrack(t0, placed, b)
    requires PlacedBy(b.table, e, t, pos, sh)
    ensures MarksTrack(t0, placed + [e], Pass(t, b.total + 1, if pos < b.top then pos else b.top, b.marks + {pos}, b.shifted || sh))
  {
    if !b.shifted && !sh {
      assert pos !in b.marks;
      assert |b.marks + {pos}| == |b.marks| + 1;
    }
  }

  lemma StepFrame(t0: seq<Entry>, b: Pass, e: Entry, t: seq<Entry>, pos: nat, sh: bool)
    requires FrameTracks(t0, b)
    requires PlacedBy(b.table, e, t, pos, sh)
    ensures FrameTracks(t0, Pass(t, b.total + 1, if pos < b.top then pos else b.top, b.marks + {pos}, b.shifted || sh))
  {
    var b' := Pass(t, b.total + 1, if pos < b.top then pos else b.top, b.marks + {pos}, b.shifted || sh);
    forall k | 0 <= k < |t0| && t[k] != t0[k]
      ensures b'.top <= k && t[k].IsBusy() && (b'.shifted || k in b'.marks)
    {
      if t[k] == b.table[k] {
        assert b.table[k] != t0[k];
      }
    }
  }

  /** One iteration of the placement loop keeps `Tracks`. */
  lemma PlaceTracks(t0: seq<Entry>, placed: seq<Entry>, b: Pass, e: Entry)
    requires Tracks(t0, placed, b)
    requires e.IsBusy()
    requires Place(b.table, e).Placed?
    ensures Tracks(t0, placed + [e], Advance(b, Place(b.table, e)))
  {
    var pl := Place(b.table, e);
    PlaceOnlyFillsUpward(b.table, e);
    PlaceKeepsOrder(b.table, e);
    PlaceAddsEntry(b.table, e);
    assert PlacedBy(b.table, e, pl.table, pl.pos, pl.shifted);
    StepTable(t0, placed, b, e, pl.table, pl.pos, pl.shifted);
    StepMarks(t0, placed, b, e, pl.table, pl.pos, pl.shifted);
    StepFrame(t0, b, e, pl.table, pl.pos, pl.shifted);
  }

  /** How a pass that keeps `Tracks` ends: completed with the whole batch placed, or
      halted with the entries before the halting one placed. */
  ghost predicate EndTracks(t0: seq<Entry>, es: seq<Entry>, r: PassEnd) {
    match r
    case Completed(p) => Tracks(t0, es, p)
    case Halted(p, at) => at <= |es| && Tracks(t0, es[..at], p)
    case Overran => true
  }

  /** The whole placement loop keeps `Tracks`, up to the end of the batch or up to the
      entry where it stops. */
  lemma {:induction false} PlaceAllTracks(t0: seq<Entry>, es: seq<Entry>, b: Pass, i: nat)
    requires i <= |es|
    requires forall k :: 0 <= k < |es| ==> es[k].IsBusy()
    requires Tracks(t0, es[..i], b)
    ensures EndTracks(t0, es, PlaceAll(b, es, i))
    decreases |es| - i
  {
    if i == |es| {
      assert es[..i] == es;
    } else if Place(b.table, es[i]).Placed? {
      PlaceStepTracks(t0, es, b, i);
      PlaceAllStep(b, es, i);
      PlaceAllTracks(t0, es, Advance(b, Place(b.table, es[i])), i + 1);
    } else {
      PlaceAllStops(t0, es, b, i);
    }
  }

  /** One placed entry: the loop goes on from the advanced bookkeeping, which keeps
      `Tracks` for one more entry of the batch. */
  lemma PlaceStepTracks(t0: seq<Entry>, es: seq<Entry>, b: Pass, i: nat)
    requires i < |es| && es[i].IsBusy()
    requires Tracks(t0, es[..i], b)
    requires Place(b.table, es[i]).Placed?
    ensures Tracks(t0, es[..i + 1], Advance(b, Place(b.table, es[i])))
  {
    var placed := es[..i + 1];
    assert placed == es[..i] + [es[i]];
    PlaceTracks(t0, es[..i], b, es[i]);
  }

  /** A placed entry hands the rest of the batch to the advanced bookkeeping. */
  lemma PlaceAllStep(b: Pass, es: seq<Entry>, i: nat)
    requires i < |es|
    requires 0 <= b.top <= |b.table|
    requires b.shifted ==> b.top < |b.table|
    requires Place(b.table, es[i]).Placed?
    ensures PlaceAll(b, es, i) == PlaceAll(Advance(b, Place(b.table, es[i])), es, i + 1)
  {
  }

  /** A failed placement ends the loop where it is. */
  lemma PlaceAllStops(t0: seq<Entry>, es: seq<Entry>, b: Pass, i: nat)
    requires i < |es|
    requires Tracks(t0, es[..i], b)
    requires !Place(b.table, es[i]).Placed?
    ensures EndTracks(t0, es, PlaceAll(b, es, i))
  {
  }

  /** The bookkeeping set up before the loop satisfies `Tracks` for the entries it
      has already placed (entries[0] on an empty table, none otherwise). */
  lemma StartTracks(t: seq<Entry>, total: int, es: seq<Entry>)
    requires |t| >= 1
    requires total == NumOccupied(t) && Sorted(t)
    requires forall k :: 0 <= k < |es| ==> es[k].IsBusy()
    requires StartPass(t, total, es).Some?
    ensures var (b, i) := StartPass(t, total, es).value; Tracks(t, es[..i], b)
  {
    if total <= 0 {
      NoneOccupied(t);
      OccupiedFill(t, 0, es[0]);
      assert t[..0] == [] && t[0..] == t;
      assert es[..1] == [es[0]];
      var t' := t[0 := es[0]];
      forall k | 0 <= k < |t| && t'[k] != t[k]
        ensures k == 0
      {
      }
    } else {
      assert es[..0] == [];
    }
  }

  /** The indices a replay writes, as a set. */
  function Written(r: seq<nat>): set<nat> {
    set x | x in r
  }

  /** A strictly increasing sequence has as many elements as distinct values. */
  lemma {:induction false} IncreasingCard(r: seq<nat>)
    requires forall a, b :: 0 <= a < b < |r| ==> r[a] < r[b]
    ensures |Written(r)| == |r|
  {
    if |r| > 0 {
      IncreasingCard(r[1..]);
      var rest := Written(r[1..]);
      assert r[0] !in rest;
      assert Written(r) == {r[0]} + rest;
    }
  }

  /** The shift replay issues one write per occupied slot from `top` to index `i`. */
  lemma {:induction false} SweepDownCount(t: seq<Entry>, top: nat, i: int)
    requires top <= |t| && top - 1 <= i <= |t|
    ensures |SweepDown(t, top, i)| == NumOccupied(t[top..if i < |t| then i + 1 else |t|])
    decreases i - top + 1
  {
    if i >= top {
      SweepDownCount(t, top, i - 1);
      if i < |t| {
        assert t[top..i + 1] == t[top..i] + [t[i]];
        OccupiedAppend(t[top..i], [t[i]]);
        if t[i].IsBusy() {
          assert Occupied([t[i]]) == [t[i]];
        } else {
          assert Occupied([t[i]]) == [];
        }
      }
    }
  }

  /** After a completed pass the replay brings every hardware cell below `cap` back
      in line with the table, provided it was in line before the call. */
  lemma ReplayMirrors(s: Engine, placed: seq<Entry>, p: Pass)
    requires Mirrored(s) && s.cache.Live?
    requires Tracks(s.cache.table, placed, p)
    ensures var hw := HwTcam.ProgramCells(s.hw, p.table, Replay(p));
      forall i :: 0 <= i < s.cap ==> Mirrors(hw.cells[i], p.table[i])
  {
    var t0 := s.cache.table;
    var ps := Replay(p);
    var hw := HwTcam.ProgramCells(s.hw, p.table, ps);
    forall i | 0 <= i < s.cap
      ensures Mirrors(hw.cells[i], p.table[i])
    {
      if i !in ps {
        assert hw.cells[i] == s.hw.cells[i];
        assert p.table[i] == t0[i];
      }
    }
  }

  /** The number of writes of the replay: one per inserted entry without a shift. */
  lemma ReplayCount(t0: seq<Entry>, es: seq<Entry>, p: Pass)
    requires Tracks(t0, es, p)
    ensures !p.shifted ==> |Replay(p)| == |es|
    ensures p.shifted ==> |Replay(p)| == NumOccupied(p.table[p.top..])
  {
    if p.shifted {
      SweepDownCount(p.table, p.top, |p.table|);
      assert p.table[p.top..|p.table|] == p.table[p.top..];
    } else {
      MarkedReplayCount(p.table, p.marks, |es|);
    }
  }

  /** The ascending replay writes each marked slot once when every mark is an
      occupied slot of the table. */
  lemma MarkedReplayCount(t: seq<Entry>, marks: set<nat>, n: nat)
    requires forall k :: k in marks ==> k < |t| && t[k].IsBusy()
    requires |marks| == n
    ensures |SweepUp(t, marks, 0)| == n
  {
    var r := SweepUp(t, marks, 0);
    IncreasingCard(r);
    assert Written(r) == marks;
  }

  /** What a successful insert is: a completed pass whose table and total are kept
      and whose replay is programmed into the hardware. */
  lemma InsertSuccessShape(s: Engine, es: seq<Entry>)
    requires WellFormed(s)
    requires |es| < U32Limit
    requires Insert(s, es).Returned? && Insert(s, es).status == Success
    ensures s.cache.Live? && (s.total + |es|) % U32Limit < s.cap
    ensures RunPass(s.cache.table, s.total, es).Some? && RunPass(s.cache.table, s.total, es).value.Completed?
    ensures var p := RunPass(s.cache.table, s.total, es).value.pass;
      && 0 <= p.top
      && Insert(s, es).state == s.(cache := Live(p.table), total := p.total, hw := HwTcam.ProgramCells(s.hw, p.table, Replay(p)))
  {
  }

  /** The converse: a call that passes the checks and whose pass completes succeeds
      with the table and total of that pass. */
  lemma InsertCompletes(s: Engine, es: seq<Entry>, p: Pass)
    requires WellFormed(s) && s.cache.Live?
    requires |es| < U32Limit && (s.total + |es|) % U32Limit < s.cap
    requires RunPass(s.cache.table, s.total, es) == Some(Completed(p))
    ensures Insert(s, es).Returned? && Insert(s, es).status == Success
    ensures Insert(s, es).state.cache == Live(p.table) && Insert(s, es).state.total == p.total
  {
  }

  /** The pass of a call that got past the capacity check keeps `Tracks` to its end. */
  lemma RunPassTracks(t: seq<Entry>, total: int, es: seq<Entry>)
    requires |t| >= 1
    requires total == NumOccupied(t) && Sorted(t)
    requires forall k :: 0 <= k < |es| ==> es[k].IsBusy()
    requires RunPass(t, total, es).Some?
    ensures EndTracks(t, es, RunPass(t, total, es).value)
  {
    StartTracks(t, total, es);
    var (b, i) := StartPass(t, total, es).value;
    PlaceAllTracks(t, es, b, i);
  }

  /** A successful insert keeps the table invariants and the hardware mirror, adds
      exactly the batch to the occupied entries and counts it in the total. */
  lemma InsertSucceeds(s: Engine, es: seq<Entry>)
    requires Consistent(s) && Mirrored(s)
    requires |es| < U32Limit
    requires forall k :: 0 <= k < |es| ==> es[k].IsBusy()
    requires Insert(s, es).Returned? && Insert(s, es).status == Success
    ensures var s' := Insert(s, es).state;
      && s'.cache.Live?
      && Consistent(s') && Mirrored(s')
      && s'.total == s.total + |es|
      && multiset(Occupied(s'.cache.table)) == multiset(Occupied(s.cache.table)) + multiset(es)
  {
    InsertSuccessShape(s, es);
    var t := s.cache.table;
    RunPassTracks(t, s.total, es);
    var p := RunPass(t, s.total, es).value.pass;
    ReplayMirrors(s, es, p);
    assert p.total == s.total + |es| by {
      var (b, i) := StartPass(t, s.total, es).value;
    }
  }

  /** The hardware writes of a successful insert: exactly one per entry of the
      batch when nothing was shifted; otherwise one per occupied slot from the end of
      the table down to the lowest written index, in descending index order. */
  lemma InsertWrites(s: Engine, es: seq<Entry>)
    requires Consistent(s)
    requires |es| < U32Limit
    requires forall k :: 0 <= k < |es| ==> es[k].IsBusy()
    requires Insert(s, es).Returned? && Insert(s, es).status == Success
    ensures s.cache.Live? && RunPass(s.cache.table, s.total, es).Some?
    ensures var p := RunPass(s.cache.table, s.total, es).value.pass;
      && 0 <= p.top
      && Insert(s, es).state.hw.access == s.hw.access + |Replay(p)|
      && (!p.shifted ==> |Replay(p)| == |es|)
      && (p.shifted ==>
            && |Replay(p)| == NumOccupied(p.table[p.top..])
            && (forall k :: k in Replay(p) <==> p.top <= k < s.cap && p.table[k].IsBusy())
            && (forall a, b :: 0 <= a < b < |Replay(p)| ==> Replay(p)[a] > Replay(p)[b]))
  {
    InsertSuccessShape(s, es);
    var t := s.cache.table;
    RunPassTracks(t, s.total, es);
    var p := RunPass(t, s.total, es).value.pass;
    ReplayCount(t, es, p);
  }

  /** The batch is not atomic (contrary to the promise at line 38): when the shift
      scan fails for the entry at batch index `at`, the entries before it stay in the
      table and in the total, the table invariants still hold, and the hardware is not
      touched at all. */
  lemma InsertHaltKeepsPrefix(s: Engine, es: seq<Entry>)
    requires Consistent(s)
    requires |es| < U32Limit
    requires forall k :: 0 <= k < |es| ==> es[k].IsBusy()
    requires s.cache.Live? && (s.total + |es|) % U32Limit < s.cap
    requires Insert(s, es).Returned? && Insert(s, es).status == ErrTcamFull
    ensures RunPass(s.cache.table, s.total, es).Some? && RunPass(s.cache.table, s.total, es).value.Halted?
    ensures var at := RunPass(s.cache.table, s.total, es).value.at;
      var s' := Insert(s, es).state;
      && at < |es|
      && Consistent(s')
      && s'.hw == s.hw
      && s'.total == s.total + at
      && multiset(Occupied(s'.cache.table)) == multiset(Occupied(s.cache.table)) + multiset(es[..at])
  {
    var t := s.cache.table;
    RunPassTracks(t, s.total, es);
    assert RunPass(t, s.total, es).value.pass.total == s.total + RunPass(t, s.total, es).value.at by {
      var (b, i) := StartPass(t, s.total, es).value;
    }
  }

  /** Where the total after an insert comes from: it is kept, or it is the total of
      the pass run after the capacity check, completed when the call succeeds. */
  lemma InsertTotal(s: Engine, es: seq<Entry>)
    requires WellFormed(s)
    requires |es| < U32Limit
    requires Insert(s, es).Returned?
    ensures Insert(s, es).state.total == s.total || (
      && s.cache.Live? && (s.total + |es|) % U32Limit < s.cap
      && RunPass(s.cache.table, s.total, es).Some?
      && !RunPass(s.cache.table, s.total, es).value.Overran?
      && Insert(s, es).state.total == RunPass(s.cache.table, s.total, es).value.pass.total
      && (Insert(s, es).status == Success ==> RunPass(s.cache.table, s.total, es).value.Completed?))
  {
  }

  /** The capacity check at line 72 uses `>=`, so a call that starts below `cap`
      keeps one slot free, as long as `total + num` does not wrap around 2^32. When
      it wraps, the check sees only the remainder: a batch larger than the whole
      table gets past it and the placement loop runs. (A sum that reaches `cap` again
      after the wrap would be refused, but it cannot arise from a total below `cap`
      and a batch below 2^32.) */
  lemma InsertKeepsSpareSlot(s: Engine, es: seq<Entry>)
    requires Consistent(s) && s.cache.Live?
    requires |es| < U32Limit
    requires s.total < s.cap
    requires Insert(s, es).Returned?
    ensures s.total + |es| < U32Limit ==> Insert(s, es).state.total < s.cap
    ensures s.total + |es| < U32Limit && Insert(s, es).status == Success ==> s.total + |es| < s.cap
    ensures U32Limit <= s.total + |es| ==>
      && |es| > s.cap
      && RunPass(s.cache.table, s.total, es).Some?
      && !RunPass(s.cache.table, s.total, es).value.Overran?
      && Insert(s, es).state.total == RunPass(s.cache.table, s.total, es).value.pass.total
  {
    InsertTotal(s, es);
    var x := s.total + |es|;
    assert 0 <= x < 2 * U32Limit;
    if x < U32Limit {
      assert x % U32Limit == x;
    } else {
      assert x % U32Limit == x - U32Limit;
    }
  }

  // ---------------------------------------------------------------------------
  // tcam_remove

  /** The search loop of tcam_remove (lines 191-196): the first slot at or after
      `from` that holds `id`. */
  function FindId(t: seq<Entry>, id: int, from: nat): (r: Option<nat>)
    requires from <= |t|
    ensures r.Some? ==> from <= r.value < |t| && t[r.value].id == id
    ensures r.Some? ==> forall k :: from <= k < r.value ==> t[k].id != id
    ensures r.None? ==> forall k :: from <= k < |t| ==> t[k].id != id
    decreases |t| - from
  {
    if from == |t| then None
    else if t[from].id == id then Some(from)
    else FindId(t, id, from + 1)
  }

  /** `s'` is `s` after removing the entry with `id` from slot `i`, the first slot
      holding it: the slot is empty, the total is one less, and exactly one hardware
      write cleared the id of cell `i` (the priority stays, because the cache id is
      cleared before the write and the priority only after it). */
  ghost predicate RemovedAt(s: Engine, id: int, s': Engine, i: int) {
    && s.cache.Live?
    && 0 <= i < s.cap <= MaxEntries
    && |s.cache.table| == s.cap
    && |s.hw.cells| == MaxEntries
    && s.cache.table[i].id == id
    && (forall k :: 0 <= k < i ==> s.cache.table[k].id != id)
    && s'.cache == Live(s.cache.table[i := Empty])
    && s'.total == s.total - 1
    && s'.cap == s.cap
    && s'.hw.cells == s.hw.cells[i := Entry(0, s.cache.table[i].prio)]
    && s'.hw.access == s.hw.access + 1
  }

  /** tcam_remove (lines 183-209). A freed handle comes with a capacity of 0, so the
      search covers no slot and the id is not found. */
  function Remove(s: Engine, id: u32): (r: Reply)
    requires WellFormed(s)
    ensures r.Returned? && WellFormed(r.state) && r.state.cap == s.cap
    ensures s.cache.Null? ==> r == Returned(s, ErrNullCache)
    ensures s.cache.Freed? ==> r == Returned(s, ErrEinval)
    ensures s.cache.Live? ==>
      (r.status == ErrEinval <==> forall k :: 0 <= k < s.cap ==> s.cache.table[k].id != id)
    ensures r.status == ErrEinval ==> r.state == s
    ensures s.cache.Live? && r.status != ErrEinval ==>
      r.status == Success && exists i :: RemovedAt(s, id, r.state, i)
  {
    match s.cache
    case Null => Returned(s, ErrNullCache)
    case Freed => Returned(s, ErrEinval)
    case Live(t) =>
      match FindId(t, id, 0)
      case None => Returned(s, ErrEinval)
      case Some(i) =>
        var cleared := t[i := Entry(0, t[i].prio)];
        var (hw, st) := HwTcam.Program(s.hw, cleared[i], i);
        if st == Success then
          var s' := s.(cache := Live(cleared[i := Empty]), total := s.total - 1, hw := hw);
          assert cleared[i := Empty] == t[i := Empty];
          assert RemovedAt(s, id, s', i);
          Returned(s', Success)
        else
          Returned(s.(cache := Live(cleared), hw := hw), Success)
  }

  /** Removing a present non-zero id keeps the table invariants and the hardware
      mirror, and takes exactly that entry out of the occupied entries. */
  lemma RemoveKeepsInvariants(s: Engine, id: u32)
    requires Consistent(s) && Mirrored(s)
    requires id != 0
    ensures Consistent(Remove(s, id).state) && Mirrored(Remove(s, id).state)
    ensures Remove(s, id).status == Success ==>
      exists i :: RemovedAt(s, id, Remove(s, id).state, i)
        && multiset(Occupied(Remove(s, id).state.cache.table)) ==
           multiset(Occupied(s.cache.table)) - multiset{s.cache.table[i]}
  {
    var r := Remove(s, id);
    if s.cache.Live? && r.status == Success {
      var i :| RemovedAt(s, id, r.state, i);
      ClearSlot(s.cache.table, i, Empty);
      ClearKeepsOrder(s.cache.table, i, Empty);
    }
  }
}
