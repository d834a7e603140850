/** The hardware TCAM stub (tcam.c): a bank of cells, a bounds-checked single-cell
    write and a counter of the writes issued. The C file keeps the counter in a
    file-scope static; here it travels with the cells in one `Device` value. */
module HwTcam {
  import opened TcamDefs

  /** The hardware bank: `cells` is the caller's array of TCAM_MAX_ENTRIES cells,
      `access` the number of successful programming operations (hw_access, read by
      tcam_get_hw_access_cnt). */
  datatype Device = Device(cells: seq<Entry>, access: nat)

  ghost predicate WellSized(d: Device) {
    |d.cells| == MaxEntries
  }

  /** hw_tcam_init: zero the first `size` cells and reset the access counter. */
  function Init(d: Device, size: nat): (r: Device)
    requires size <= |d.cells|
    ensures |r.cells| == |d.cells|
    ensures r.access == 0
    ensures forall k :: 0 <= k < size ==> r.cells[k] == Empty
    ensures forall k :: size <= k < |d.cells| ==> r.cells[k] == d.cells[k]
  {
    Device(Zeros(size) + d.cells[size..], 0)
  }

  /** `n` empty cells. */
  function Zeros(n: nat): (r: seq<Entry>)
    ensures |r| == n
    ensures forall k :: 0 <= k < n ==> r[k] == Empty
  {
    seq(n, _ => Empty)
  }

  /** tcam_program: a position at or beyond TCAM_MAX_ENTRIES is refused; any other
      position receives a copy of `e` and the access counter goes up by one. */
  function Program(d: Device, e: Entry, pos: nat): (r: (Device, Status))
    requires WellSized(d)
    ensures WellSized(r.0)
    ensures r.1 == Success || r.1 == ErrEinval
    ensures r.1 == Success <==> pos < MaxEntries
    ensures r.1 == ErrEinval ==> r.0 == d
    ensures r.1 == Success ==> r.0.cells[pos] == e && r.0.access == d.access + 1
    ensures forall k :: 0 <= k < |d.cells| && k != pos ==> r.0.cells[k] == d.cells[k]
  {
    if pos >= MaxEntries then (d, ErrEinval)
    else (Device(d.cells[pos := e], d.access + 1), Success)
  }

  /** A run of tcam_program calls, each a cell value and a position, applied in
      order with their statuses ignored. */
  function ProgramEach(d: Device, ws: seq<(Entry, nat)>): (r: Device)
    requires WellSized(d)
    ensures WellSized(r)
    decreases |ws|
  {
    if |ws| == 0 then d else ProgramEach(Program(d, ws[0].0, ws[0].1).0, ws[1..])
  }

  /** The number of calls of `ws` whose position is inside the bank. */
  function Accepted(ws: seq<(Entry, nat)>): (n: nat)
    ensures n <= |ws|
    decreases |ws|
  {
    if |ws| == 0 then 0 else (if ws[0].1 < MaxEntries then 1 else 0) + Accepted(ws[1..])
  }

  /** tcam_get_hw_access_cnt (tcam.c:35-38) reads `access`: after hw_tcam_init and
      any run of tcam_program calls it is the number of those calls that were
      accepted; a refused write (EINVAL) is not counted. */
  lemma AccessCountMeasuresWrites(d: Device, size: nat, ws: seq<(Entry, nat)>)
    requires WellSized(d) && size <= MaxEntries
    ensures ProgramEach(Init(d, size), ws).access == Accepted(ws)
  {
    AccessCountAdds(Init(d, size), ws);
  }

  /** Each run of writes adds its accepted calls to the counter. */
  lemma {:induction false} AccessCountAdds(d: Device, ws: seq<(Entry, nat)>)
    requires WellSized(d)
    ensures ProgramEach(d, ws).access == d.access + Accepted(ws)
    decreases |ws|
  {
    if |ws| > 0 {
      AccessCountAdds(Program(d, ws[0].0, ws[0].1).0, ws[1..]);
    }
  }

  /** The replay loops of tcam_insert: program cell `p` with `t[p]` for every `p` of
      `ps`, in the order of `ps`, ignoring the returned status. */
  function ProgramCells(d: Device, t: seq<Entry>, ps: seq<nat>): (r: Device)
    requires WellSized(d)
    requires forall i :: 0 <= i < |ps| ==> ps[i] < |t| && ps[i] < MaxEntries
    ensures WellSized(r)
    ensures r.access == d.access + |ps|
    ensures forall k :: 0 <= k < |d.cells| ==> r.cells[k] == if k in ps then t[k] else d.cells[k]
    decreases |ps|
  {
    if |ps| == 0 then d
    else
      var next := ProgramCells(Program(d, t[ps[0]], ps[0]).0, t, ps[1..]);
      assert forall k :: k in ps <==> k == ps[0] || k in ps[1..] by {
        assert ps == [ps[0]] + ps[1..];
      }
      next
  }
}
