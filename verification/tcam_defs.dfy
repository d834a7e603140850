/** Types and constants shared by the TCAM bank handler (tcam_defs.h). */
module TcamDefs {

  /** TCAM_MAX_ENTRIES: the number of cells of the hardware TCAM bank. */
  const MaxEntries: nat := 2048

  /** 2^32: the modulus of the unsigned 32-bit arithmetic used by the C code. */
  const U32Limit: int := 0x1_0000_0000

  type u32 = x: int | 0 <= x < U32Limit

  /** An entry of the cache table or of the hardware TCAM. `id == 0` marks an empty
      cell (TCAM_CELL_STATE_EMPTY); a lower `prio` value means a higher priority. */
  datatype Entry = Entry(id: u32, prio: u32) {
    predicate IsBusy() {
      id != 0
    }
  }

  /** The all-zero cell written by calloc/memset and by a completed remove. */
  const Empty: Entry := Entry(0, 0)

  /** tcam_err_t, in declaration order. */
  datatype Status =
    | Success
    | ErrFull
    | ErrMemAllocFail
    | ErrTcamFull
    | ErrNullCache
    | ErrEinval
    | ErrInvalidPrio

  datatype Option<+T> = None | Some(value: T)
}
