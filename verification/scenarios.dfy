/** The handler on fixed inputs: the unit tests of tcam_mgr_main.c on a small table,
    and inputs that exhibit the defects the Hardened module corrects. Every
    handler here serves a bank of TCAM_MAX_ENTRIES cells; only the table is small. */
module Scenarios {
  import opened TcamDefs
  import opened CacheTable
  import opened EntryMgr
  import opened Hardened
  import HwTcam

  /** A handler with table `t`, running total `total` and hardware bank `hw`. */
  function Handler(t: seq<Entry>, total: int, hw: HwTcam.Device): (s: Engine)
    requires |t| <= MaxEntries && HwTcam.WellSized(hw)
    ensures WellFormed(s) && s.cache == Live(t) && s.total == total && s.cap == |t| && s.hw == hw
  {
    Engine(Live(t), total, |t|, hw)
  }

  /** test_null_tcam_insert and test_null_tcam_remove: a NULL handle is reported and
      nothing changes. */
  lemma NullHandle(s: Engine)
    requires WellFormed(s) && s.cache.Null?
    ensures Insert(s, [Entry(1, 100), Entry(2, 300), Entry(3, 200)]) == Returned(s, ErrNullCache)
    ensures Remove(s, 3) == Returned(s, ErrNullCache)
  {
  }

  /** test_full_tcam: 2045 entries in a bank of 2048 leave no room for a batch of 5. */
  lemma FullTable(s: Engine, es: seq<Entry>)
    requires WellFormed(s) && s.cache.Live? && s.cap == MaxEntries && s.total == 2045
    requires |es| == 5
    ensures Insert(s, es) == Returned(s, ErrTcamFull)
  {
    assert (s.total + |es|) % U32Limit == 2050;
  }

  /** The batches of test_tcam_insert_1 and the tables they pass through. */
  const Batch1: seq<Entry> := [Entry(1, 300), Entry(2, 100), Entry(3, 500), Entry(4, 400), Entry(5, 600)]
  const Batch2: seq<Entry> := [Entry(6, 1000), Entry(7, 200), Entry(8, 500), Entry(9, 400), Entry(10, 600)]
  const B1T0: seq<Entry> := [Entry(1, 300), Empty, Empty, Empty, Empty, Empty, Empty, Empty, Empty, Empty]
  const B1T1: seq<Entry> := [Entry(2, 100), Entry(1, 300), Empty, Empty, Empty, Empty, Empty, Empty, Empty, Empty]
  const B1T2: seq<Entry> := [Entry(2, 100), Entry(1, 300), Entry(3, 500), Empty, Empty, Empty, Empty, Empty, Empty, Empty]
  const B1T3: seq<Entry> := [Entry(2, 100), Entry(1, 300), Entry(4, 400), Entry(3, 500), Empty, Empty, Empty, Empty, Empty, Empty]
  const B1T4: seq<Entry> := [Entry(2, 100), Entry(1, 300), Entry(4, 400), Entry(3, 500), Entry(5, 600), Empty, Empty, Empty, Empty, Empty]
  const B2T0: seq<Entry> := [Empty, Empty, Empty, Entry(3, 500), Entry(5, 600), Empty, Empty, Empty, Empty, Empty]
  const B2T1: seq<Entry> := [Empty, Empty, Empty, Entry(3, 500), Entry(5, 600), Entry(6, 1000), Empty, Empty, Empty, Empty]
  const B2T2: seq<Entry> := [Empty, Empty, Entry(7, 200), Entry(3, 500), Entry(5, 600), Entry(6, 1000), Empty, Empty, Empty, Empty]
  const B2T3: seq<Entry> := [Empty, Empty, Entry(7, 200), Entry(8, 500), Entry(3, 500), Entry(5, 600), Entry(6, 1000), Empty, Empty, Empty]
  const B2T4: seq<Entry> := [Empty, Empty, Entry(7, 200), Entry(9, 400), Entry(8, 500), Entry(3, 500), Entry(5, 600), Entry(6, 1000), Empty, Empty]
  const B2T5: seq<Entry> := [Empty, Empty, Entry(7, 200), Entry(9, 400), Entry(8, 500), Entry(3, 500), Entry(10, 600), Entry(5, 600), Entry(6, 1000), Empty]

  /** (2,100) is shifted in before (1,300). */
  lemma FirstBatchShift1()
    ensures Place(B1T0, Batch1[1]) == Placed(B1T1, 0, true)
  {
    assert Boundary(B1T0, 100, 0) == Some(0);
    assert FreeFrom(B1T0, 1) == Some(1);
    assert ShiftInsert(B1T0, 0, 1, Batch1[1]) == B1T1;
  }

  /** (3,500) is appended. */
  lemma FirstBatchAppend2()
    ensures Place(B1T1, Batch1[2]) == Placed(B1T2, 2, false)
  {
    assert Boundary(B1T1, 500, 0) == None;
    assert TailScan(B1T1, 1) == 1;
    assert TailScan(B1T1, 2) == 1;
    assert TailScan(B1T1, 3) == 1;
    assert TailScan(B1T1, 4) == 1;
    assert TailScan(B1T1, 5) == 1;
    assert TailScan(B1T1, 6) == 1;
    assert TailScan(B1T1, 7) == 1;
    assert TailScan(B1T1, 8) == 1;
    assert TailScan(B1T1, 9) == 1;
    assert TailScan(B1T1, 10) == 1;
    assert B1T1[2 := Batch1[2]] == B1T2;
  }

  /** (4,400) is shifted in before (3,500). */
  lemma FirstBatchShift3()
    ensures Place(B1T2, Batch1[3]) == Placed(B1T3, 2, true)
  {
    assert Boundary(B1T2, 400, 2) == Some(2);
    assert Boundary(B1T2, 400, 1) == Some(2);
    assert Boundary(B1T2, 400, 0) == Some(2);
    assert FreeFrom(B1T2, 3) == Some(3);
    assert ShiftInsert(B1T2, 2, 3, Batch1[3]) == B1T3;
  }

  /** (5,600) is appended. */
  lemma FirstBatchAppend4()
    ensures Place(B1T3, Batch1[4]) == Placed(B1T4, 4, false)
  {
    assert Boundary(B1T3, 600, 0) == None;
    assert TailScan(B1T3, 3) == 3;
    assert TailScan(B1T3, 4) == 3;
    assert TailScan(B1T3, 5) == 3;
    assert TailScan(B1T3, 6) == 3;
    assert TailScan(B1T3, 7) == 3;
    assert TailScan(B1T3, 8) == 3;
    assert TailScan(B1T3, 9) == 3;
    assert TailScan(B1T3, 10) == 3;
    assert B1T3[4 := Batch1[4]] == B1T4;
  }

  /** The placement loop over the first batch. */
  lemma FirstBatchPass()
    ensures RunPass(HwTcam.Zeros(10), 0, Batch1) == Some(Completed(Pass(B1T4, 5, 0, {0, 2, 4}, true)))
  {
    var z := HwTcam.Zeros(10);
    assert z[0 := Batch1[0]] == B1T0;
    assert StartPass(z, 0, Batch1) == Some((Pass(B1T0, 1, 0, {0}, false), 1));
    FirstBatchLoop();
  }

  /** The placement loop over the first batch, one iteration per lemma. */
  lemma FirstBatchLoop()
    ensures PlaceAll(Pass(B1T0, 1, 0, {0}, false), Batch1, 1) == Completed(Pass(B1T4, 5, 0, {0, 2, 4}, true))
  {
    FirstBatchShift1();
    PlaceAllStep(Pass(B1T0, 1, 0, {0}, false), Batch1, 1);
    assert Advance(Pass(B1T0, 1, 0, {0}, false), Placed(B1T1, 0, true)) == Pass(B1T1, 2, 0, {0}, true);
    FirstBatchLoop2();
  }

  lemma FirstBatchLoop2()
    ensures PlaceAll(Pass(B1T1, 2, 0, {0}, true), Batch1, 2) == Completed(Pass(B1T4, 5, 0, {0, 2, 4}, true))
  {
    FirstBatchAppend2();
    PlaceAllStep(Pass(B1T1, 2, 0, {0}, true), Batch1, 2);
    assert Advance(Pass(B1T1, 2, 0, {0}, true), Placed(B1T2, 2, false)) == Pass(B1T2, 3, 0, {0, 2}, true);
    FirstBatchLoop3();
  }

  lemma FirstBatchLoop3()
    ensures PlaceAll(Pass(B1T2, 3, 0, {0, 2}, true), Batch1, 3) == Completed(Pass(B1T4, 5, 0, {0, 2, 4}, true))
  {
    FirstBatchShift3();
    PlaceAllStep(Pass(B1T2, 3, 0, {0, 2}, true), Batch1, 3);
    assert Advance(Pass(B1T2, 3, 0, {0, 2}, true), Placed(B1T3, 2, true)) == Pass(B1T3, 4, 0, {0, 2}, true);
    FirstBatchLoop4();
  }

  lemma FirstBatchLoop4()
    ensures PlaceAll(Pass(B1T3, 4, 0, {0, 2}, true), Batch1, 4) == Completed(Pass(B1T4, 5, 0, {0, 2, 4}, true))
  {
    FirstBatchAppend4();
    PlaceAllStep(Pass(B1T3, 4, 0, {0, 2}, true), Batch1, 4);
    assert Advance(Pass(B1T3, 4, 0, {0, 2}, true), Placed(B1T4, 4, false)) == Pass(B1T4, 5, 0, {0, 2, 4}, true);
  }

  /** The first batch of test_tcam_insert_1 on an empty table of ten slots: lower
      priority values end up first, by forward shifts and appends. */
  lemma FirstBatch(hw: HwTcam.Device)
    requires HwTcam.WellSized(hw)
    ensures var r := Insert(Handler(HwTcam.Zeros(10), 0, hw), Batch1);
      && r.Returned? && r.status == Success
      && r.state.total == 5
      && r.state.cache == Live(B1T4)
  {
    FirstBatchPass();
    InsertCompletes(Handler(HwTcam.Zeros(10), 0, hw), Batch1, Pass(B1T4, 5, 0, {0, 2, 4}, true));
  }

  /** The batch of test_invalid_id_tcam_remove and the tables it passes through. */
  const Batch0: seq<Entry> := [Entry(1, 100), Entry(2, 300), Entry(3, 200)]
  const B0T0: seq<Entry> := [Entry(1, 100), Empty, Empty, Empty, Empty]
  const B0T1: seq<Entry> := [Entry(1, 100), Entry(2, 300), Empty, Empty, Empty]
  const B0T2: seq<Entry> := [Entry(1, 100), Entry(3, 200), Entry(2, 300), Empty, Empty]

  /** (2,300) is appended after (1,100). */
  lemma InvalidIdAppend1()
    ensures Place(B0T0, Batch0[1]) == Placed(B0T1, 1, false)
  {
    assert Boundary(B0T0, 300, 0) == None;
    assert TailScan(B0T0, 1) == 0;
    assert TailScan(B0T0, 2) == 0;
    assert TailScan(B0T0, 3) == 0;
    assert TailScan(B0T0, 4) == 0;
    assert TailScan(B0T0, 5) == 0;
    assert B0T0[1 := Batch0[1]] == B0T1;
  }

  /** (3,200) is shifted in before (2,300). */
  lemma InvalidIdShift2()
    ensures Place(B0T1, Batch0[2]) == Placed(B0T2, 1, true)
  {
    assert Boundary(B0T1, 200, 1) == Some(1);
    assert Boundary(B0T1, 200, 0) == Some(1);
    assert FreeFrom(B0T1, 2) == Some(2);
    assert ShiftInsert(B0T1, 1, 2, Batch0[2]) == B0T2;
  }

  /** The placement loop over the batch, one iteration per lemma. */
  lemma InvalidIdLoop()
    ensures PlaceAll(Pass(B0T0, 1, 0, {0}, false), Batch0, 1) == Completed(Pass(B0T2, 3, 0, {0, 1}, true))
  {
    InvalidIdAppend1();
    PlaceAllStep(Pass(B0T0, 1, 0, {0}, false), Batch0, 1);
    assert Advance(Pass(B0T0, 1, 0, {0}, false), Placed(B0T1, 1, false)) == Pass(B0T1, 2, 0, {0, 1}, false);
    InvalidIdLoop2();
  }

  lemma InvalidIdLoop2()
    ensures PlaceAll(Pass(B0T1, 2, 0, {0, 1}, false), Batch0, 2) == Completed(Pass(B0T2, 3, 0, {0, 1}, true))
  {
    InvalidIdShift2();
    PlaceAllStep(Pass(B0T1, 2, 0, {0, 1}, false), Batch0, 2);
    assert Advance(Pass(B0T1, 2, 0, {0, 1}, false), Placed(B0T2, 1, true)) == Pass(B0T2, 3, 0, {0, 1}, true);
  }

  /** The placement loop over the batch of test_invalid_id_tcam_remove. */
  lemma InvalidIdPass()
    ensures RunPass(HwTcam.Zeros(5), 0, Batch0) == Some(Completed(Pass(B0T2, 3, 0, {0, 1}, true)))
  {
    var z := HwTcam.Zeros(5);
    assert z[0 := Batch0[0]] == B0T0;
    assert StartPass(z, 0, Batch0) == Some((Pass(B0T0, 1, 0, {0}, false), 1));
    InvalidIdLoop();
  }

  /** test_invalid_id_tcam_remove on a table of five slots: the batch goes in, and
      then id 10, which is not in the table, is refused without any effect. */
  lemma InvalidIdRemove(hw: HwTcam.Device)
    requires HwTcam.WellSized(hw)
    ensures var r := Insert(Handler(HwTcam.Zeros(5), 0, hw), Batch0);
      && r.Returned? && r.status == Success
      && r.state.cache == Live(B0T2) && r.state.total == 3
      && Remove(r.state, 10) == Returned(r.state, ErrEinval)
  {
    InvalidIdInsert(hw);
    InvalidIdAbsent(Insert(Handler(HwTcam.Zeros(5), 0, hw), Batch0).state);
  }

  /** The insert of test_invalid_id_tcam_remove succeeds. */
  lemma InvalidIdInsert(hw: HwTcam.Device)
    requires HwTcam.WellSized(hw)
    ensures var r := Insert(Handler(HwTcam.Zeros(5), 0, hw), Batch0);
      && r.Returned? && r.status == Success
      && r.state.cache == Live(B0T2) && r.state.total == 3
  {
    InvalidIdPass();
    InsertCompletes(Handler(HwTcam.Zeros(5), 0, hw), Batch0, Pass(B0T2, 3, 0, {0, 1}, true));
  }

  /** No slot of the table the insert leaves holds id 10. */
  lemma InvalidIdAbsent(s: Engine)
    requires WellFormed(s) && s.cache == Live(B0T2)
    ensures Remove(s, 10) == Returned(s, ErrEinval)
  {
    assert FindId(B0T2, 10, 0) == None;
  }

  /** (6,1000) is appended after (5,600). */
  lemma SecondBatchAppend0()
    ensures Place(B2T0, Batch2[0]) == Placed(B2T1, 5, false)
  {
    assert Boundary(B2T0, 1000, 0) == None;
    assert TailScan(B2T0, 4) == 4;
    assert TailScan(B2T0, 5) == 4;
    assert TailScan(B2T0, 6) == 4;
    assert TailScan(B2T0, 7) == 4;
    assert TailScan(B2T0, 8) == 4;
    assert TailScan(B2T0, 9) == 4;
    assert TailScan(B2T0, 10) == 4;
    assert B2T0[5 := Batch2[0]] == B2T1;
  }

  /** (7,200) takes the free slot before (3,500). */
  lemma SecondBatchFree1()
    ensures Place(B2T1, Batch2[1]) == Placed(B2T2, 2, false)
  {
    assert Boundary(B2T1, 200, 3) == Some(3);
    assert Boundary(B2T1, 200, 2) == Some(3);
    assert Boundary(B2T1, 200, 1) == Some(3);
    assert Boundary(B2T1, 200, 0) == Some(3);
    assert B2T1[2 := Batch2[1]] == B2T2;
  }

  /** (8,500) is shifted in before the older (3,500). */
  lemma SecondBatchShift2()
    ensures Place(B2T2, Batch2[2]) == Placed(B2T3, 3, true)
  {
    assert Boundary(B2T2, 500, 3) == Some(3);
    assert Boundary(B2T2, 500, 2) == Some(3);
    assert Boundary(B2T2, 500, 1) == Some(3);
    assert Boundary(B2T2, 500, 0) == Some(3);
    assert FreeFrom(B2T2, 6) == Some(6);
    assert FreeFrom(B2T2, 5) == Some(6);
    assert FreeFrom(B2T2, 4) == Some(6);
    assert ShiftInsert(B2T2, 3, 6, Batch2[2]) == B2T3;
  }

  /** (9,400) is shifted in before (8,500). */
  lemma SecondBatchShift3()
    ensures Place(B2T3, Batch2[3]) == Placed(B2T4, 3, true)
  {
    assert Boundary(B2T3, 400, 3) == Some(3);
    assert Boundary(B2T3, 400, 2) == Some(3);
    assert Boundary(B2T3, 400, 1) == Some(3);
    assert Boundary(B2T3, 400, 0) == Some(3);
    assert FreeFrom(B2T3, 7) == Some(7);
    assert FreeFrom(B2T3, 6) == Some(7);
    assert FreeFrom(B2T3, 5) == Some(7);
    assert FreeFrom(B2T3, 4) == Some(7);
    assert ShiftInsert(B2T3, 3, 7, Batch2[3]) == B2T4;
  }

  /** (10,600) is shifted in before the older (5,600). */
  lemma SecondBatchShift4()
    ensures Place(B2T4, Batch2[4]) == Placed(B2T5, 6, true)
  {
    assert Boundary(B2T4, 600, 6) == Some(6);
    assert Boundary(B2T4, 600, 5) == Some(6);
    assert Boundary(B2T4, 600, 4) == Some(6);
    assert Boundary(B2T4, 600, 3) == Some(6);
    assert Boundary(B2T4, 600, 2) == Some(6);
    assert Boundary(B2T4, 600, 1) == Some(6);
    assert Boundary(B2T4, 600, 0) == Some(6);
    assert FreeFrom(B2T4, 8) == Some(8);
    assert FreeFrom(B2T4, 7) == Some(8);
    assert ShiftInsert(B2T4, 6, 8, Batch2[4]) == B2T5;
  }

  /** The placement loop over the second batch, one iteration per lemma. */
  lemma SecondBatchLoop()
    ensures PlaceAll(Pass(B2T0, 2, 10, {}, false), Batch2, 0) == Completed(Pass(B2T5, 7, 2, {2, 3, 5, 6}, true))
  {
    SecondBatchAppend0();
    PlaceAllStep(Pass(B2T0, 2, 10, {}, false), Batch2, 0);
    assert Advance(Pass(B2T0, 2, 10, {}, false), Placed(B2T1, 5, false)) == Pass(B2T1, 3, 5, {5}, false);
    SecondBatchLoop1();
  }

  lemma SecondBatchLoop1()
    ensures PlaceAll(Pass(B2T1, 3, 5, {5}, false), Batch2, 1) == Completed(Pass(B2T5, 7, 2, {2, 3, 5, 6}, true))
  {
    SecondBatchFree1();
    PlaceAllStep(Pass(B2T1, 3, 5, {5}, false), Batch2, 1);
    assert Advance(Pass(B2T1, 3, 5, {5}, false), Placed(B2T2, 2, false)) == Pass(B2T2, 4, 2, {2, 5}, false);
    SecondBatchLoop2();
  }

  lemma SecondBatchLoop2()
    ensures PlaceAll(Pass(B2T2, 4, 2, {2, 5}, false), Batch2, 2) == Completed(Pass(B2T5, 7, 2, {2, 3, 5, 6}, true))
  {
    SecondBatchShift2();
    PlaceAllStep(Pass(B2T2, 4, 2, {2, 5}, false), Batch2, 2);
    assert Advance(Pass(B2T2, 4, 2, {2, 5}, false), Placed(B2T3, 3, true)) == Pass(B2T3, 5, 2, {2, 3, 5}, true);
    SecondBatchLoop3();
  }

  lemma SecondBatchLoop3()
    ensures PlaceAll(Pass(B2T3, 5, 2, {2, 3, 5}, true), Batch2, 3) == Completed(Pass(B2T5, 7, 2, {2, 3, 5, 6}, true))
  {
    SecondBatchShift3();
    PlaceAllStep(Pass(B2T3, 5, 2, {2, 3, 5}, true), Batch2, 3);
    assert Advance(Pass(B2T3, 5, 2, {2, 3, 5}, true), Placed(B2T4, 3, true)) == Pass(B2T4, 6, 2, {2, 3, 5}, true);
    SecondBatchLoop4();
  }

  lemma SecondBatchLoop4()
    ensures PlaceAll(Pass(B2T4, 6, 2, {2, 3, 5}, true), Batch2, 4) == Completed(Pass(B2T5, 7, 2, {2, 3, 5, 6}, true))
  {
    SecondBatchShift4();
    PlaceAllStep(Pass(B2T4, 6, 2, {2, 3, 5}, true), Batch2, 4);
    assert Advance(Pass(B2T4, 6, 2, {2, 3, 5}, true), Placed(B2T5, 6, true)) == Pass(B2T5, 7, 2, {2, 3, 5, 6}, true);
  }

  /** The placement loop over the second batch. */
  lemma SecondBatchPass()
    ensures RunPass(B2T0, 2, Batch2) == Some(Completed(Pass(B2T5, 7, 2, {2, 3, 5, 6}, true)))
  {
    assert StartPass(B2T0, 2, Batch2) == Some((Pass(B2T0, 2, 10, {}, false), 0));
    SecondBatchLoop();
  }

  /** The removals of test_tcam_insert_1 (delete_tcam_entries with ids 1, 2 and 4)
      after the first batch: each succeeds, and the table keeps (3,500) and (5,600)
      in their slots. */
  lemma DeleteEntries(s: Engine)
    requires WellFormed(s) && s.cache == Live(B1T4) && s.total == 5
    ensures var r1 := Remove(s, 1);
      var r2 := Remove(r1.state, 2);
      var r3 := Remove(r2.state, 4);
      && r1.status == Success && r2.status == Success && r3.status == Success
      && r3.state.cache == Live(B2T0) && r3.state.total == 2
  {
    var r1 := Remove(s, 1);
    assert FindId(B1T4, 1, 0) == Some(1);
    var r2 := Remove(r1.state, 2);
    assert r1.state.cache == Live(B1T4[1 := Empty]);
    assert FindId(B1T4[1 := Empty], 2, 0) == Some(0);
    var r3 := Remove(r2.state, 4);
    assert r2.state.cache == Live(B1T4[1 := Empty][0 := Empty]);
    var t2 := B1T4[1 := Empty][0 := Empty];
    assert t2[2] == Entry(4, 400);
    assert FindId(t2, 4, 2) == Some(2);
    assert FindId(t2, 4, 1) == Some(2);
    assert FindId(t2, 4, 0) == Some(2);
    assert B1T4[1 := Empty][0 := Empty][2 := Empty] == B2T0;
  }

  /** The second batch of test_tcam_insert_1, on the handler the removals leave: a
      newer entry goes before the older ones of equal priority (8 before 3, 10 before
      5). */
  lemma SecondBatch(s: Engine)
    requires WellFormed(s) && s.cache == Live(B2T0) && s.total == 2
    ensures var r := Insert(s, Batch2);
      && r.Returned? && r.status == Success
      && r.state.total == 7
      && r.state.cache == Live(B2T5)
  {
    SecondBatchPass();
    InsertCompletes(s, Batch2, Pass(B2T5, 7, 2, {2, 3, 5, 6}, true));
  }

  /** test_tcam_insert_1 end to end on a table of ten slots: first batch, three
      removals, second batch, each reporting success. */
  lemma InsertTest1(hw: HwTcam.Device)
    requires HwTcam.WellSized(hw)
    ensures var a := Insert(Handler(HwTcam.Zeros(10), 0, hw), Batch1);
      && a.Returned? && a.status == Success
      && var r1 := Remove(a.state, 1);
      var r2 := Remove(r1.state, 2);
      var r3 := Remove(r2.state, 4);
      && r1.status == Success && r2.status == Success && r3.status == Success
      && var b := Insert(r3.state, Batch2);
      && b.Returned? && b.status == Success
      && b.state.cache == Live(B2T5) && b.state.total == 7
  {
    FirstBatch(hw);
    var a := Insert(Handler(HwTcam.Zeros(10), 0, hw), Batch1);
    DeleteEntries(a.state);
    var r3 := Remove(Remove(Remove(a.state, 1).state, 2).state, 4);
    SecondBatch(r3.state);
  }

  /** The batch is not atomic: the shift scan fails for the second entry, yet the
      first stays in the table and in the total, and the hardware is untouched. The
      corrected insert changes nothing. */
  lemma PartialBatch(hw: HwTcam.Device)
    requires HwTcam.WellSized(hw)
    ensures var s := Handler([Empty, Empty, Empty, Entry(1, 30), Entry(2, 40), Entry(3, 50)], 3, hw);
      var es := [Entry(4, 5), Entry(5, 40)];
      && Insert(s, es) == Returned(s.(cache := Live([Empty, Empty, Entry(4, 5), Entry(1, 30), Entry(2, 40), Entry(3, 50)]), total := 4), ErrTcamFull)
      && InsertAtomic(s, es) == Returned(s, ErrTcamFull)
  {
    var es := [Entry(4, 5), Entry(5, 40)];
    var t := [Empty, Empty, Empty, Entry(1, 30), Entry(2, 40), Entry(3, 50)];
    var t1 := [Empty, Empty, Entry(4, 5), Entry(1, 30), Entry(2, 40), Entry(3, 50)];
    assert StartPass(t, 3, es) == Some((Pass(t, 3, 6, {}, false), 0));
    assert Boundary(t, 5, 3) == Some(3);
    assert Boundary(t, 5, 2) == Some(3);
    assert Boundary(t, 5, 1) == Some(3);
    assert Boundary(t, 5, 0) == Some(3);
    assert Place(t, es[0]) == Placed(t1, 2, false);
    assert FreeFrom(t1, 6) == None;
    assert FreeFrom(t1, 5) == None;
    assert Boundary(t1, 40, 4) == Some(4);
    assert Boundary(t1, 40, 3) == Some(4);
    assert Boundary(t1, 40, 2) == Some(4);
    assert Boundary(t1, 40, 1) == Some(4);
    assert Boundary(t1, 40, 0) == Some(4);
    assert Place(t1, es[1]) == NoRoom;
    assert PlaceAll(Pass(t1, 4, 2, {2}, false), es, 1) == Halted(Pass(t1, 4, 2, {2}, false), 1);
    assert PlaceAll(Pass(t, 3, 6, {}, false), es, 0) == Halted(Pass(t1, 4, 2, {2}, false), 1);
    assert RunPass(t, 3, es) == Some(Halted(Pass(t1, 4, 2, {2}, false), 1));
  }

  /** Appending after an occupied last slot targets index `cap`, outside the table,
      although the capacity check passed. The corrected insert reports a full table. */
  lemma AppendPastLastSlot(hw: HwTcam.Device)
    requires HwTcam.WellSized(hw)
    ensures var s := Handler([Empty, Empty, Empty, Entry(1, 10)], 1, hw);
      && Insert(s, [Entry(2, 20)]) == Undefined(AppendPastEnd)
      && InsertAtomic(s, [Entry(2, 20)]) == Returned(s, ErrTcamFull)
  {
    var t := [Empty, Empty, Empty, Entry(1, 10)];
    assert Boundary(t, 20, 0) == None;
    assert TailScan(t, 4) == 3;
    assert Place(t, Entry(2, 20)) == PastEnd;
    var s := Handler(t, 1, hw);
    assert StartPass(t, 1, [Entry(2, 20)]) == Some((Pass(t, 1, 4, {}, false), 0));
    assert RunPass(t, 1, [Entry(2, 20)]) == Some(Overran);
  }

  /** An empty batch on an empty table copies entries[0], past the end of the batch.
      The corrected insert treats the empty batch as a no-op. */
  lemma EmptyBatch(hw: HwTcam.Device)
    requires HwTcam.WellSized(hw)
    ensures var s := Handler([Empty, Empty, Empty], 0, hw);
      && Insert(s, []) == Undefined(EmptyBatchRead)
      && InsertAtomic(s, []) == Returned(s, Success)
  {
  }

  /** The capacity check adds in 32 bits: with one entry in a table of two slots, a
      batch of 2^32 - 1 entries makes `total + num` wrap to 0, so the check passes.
      The first entry fills the free slot, the second finds no room, and the call
      reports TCAM_ERR_TCAM_FULL on a table with no free slot left. The corrected
      insert refuses the batch up front. */
  lemma WrappedBatch(hw: HwTcam.Device)
    requires HwTcam.WellSized(hw)
    ensures var s := Handler([Empty, Entry(1, 10)], 1, hw);
      var es := seq(U32Limit - 1, _ => Entry(2, 5));
      && Insert(s, es) == Returned(s.(cache := Live([Entry(2, 5), Entry(1, 10)]), total := 2), ErrTcamFull)
      && Insert(s, es).state.total == s.cap
      && InsertAtomic(s, es) == Returned(s, ErrTcamFull)
  {
    var t := [Empty, Entry(1, 10)];
    var t1 := [Entry(2, 5), Entry(1, 10)];
    var es := seq(U32Limit - 1, _ => Entry(2, 5));
    assert (1 + |es|) % U32Limit == 0;
    assert StartPass(t, 1, es) == Some((Pass(t, 1, 2, {}, false), 0));
    WrappedBatchLoop(es);
  }

  /** The placement loop of WrappedBatch: one entry placed, then no room. */
  lemma WrappedBatchLoop(es: seq<Entry>)
    requires 2 <= |es| && es[0] == Entry(2, 5) && es[1] == Entry(2, 5)
    ensures PlaceAll(Pass([Empty, Entry(1, 10)], 1, 2, {}, false), es, 0) ==
      Halted(Pass([Entry(2, 5), Entry(1, 10)], 2, 0, {0}, false), 1)
  {
    var t := [Empty, Entry(1, 10)];
    var t1 := [Entry(2, 5), Entry(1, 10)];
    assert Boundary(t, 5, 1) == Some(1);
    assert Boundary(t, 5, 0) == Some(1);
    assert t[0 := es[0]] == t1;
    assert Place(t, es[0]) == Placed(t1, 0, false);
    PlaceAllStep(Pass(t, 1, 2, {}, false), es, 0);
    assert Advance(Pass(t, 1, 2, {}, false), Placed(t1, 0, false)) == Pass(t1, 2, 0, {0}, false);
    assert Boundary(t1, 5, 0) == Some(0);
    assert FreeFrom(t1, 2) == None;
    assert FreeFrom(t1, 1) == None;
    assert Place(t1, es[1]) == NoRoom;
    assert PlaceAll(Pass(t1, 2, 0, {0}, false), es, 1) == Halted(Pass(t1, 2, 0, {0}, false), 1);
  }
}
