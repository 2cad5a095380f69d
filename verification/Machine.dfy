/** Constants shared by the whole kernel: status codes, page geometry, and the 32-bit machine word. */
module Machine {
  datatype Option<T> = None | Some(value: T)

  const EIO := 1
  const EINVARG := 2
  const ENOMEM := 3
  const EFSNOTUS := 5
  const ERDONLY := 6
  const EINFORMAT := 9

  const MAX_PATH := 108

  const BLOCK_SIZE := 4096
  const U32 := 0x1_0000_0000

  /** An unsigned 32-bit value: `uint32_t`, `size_t` and every pointer of the target. */
  type Word = w: int | 0 <= w < 0x1_0000_0000

  /** Next multiple of 4096 in 32-bit arithmetic; wraps to 0 above 2^32 - 4096. */
  function AlignUp(a: Word): Word {
    if a % 4096 == 0 then a else (a - a % 4096 + 4096) % 0x1_0000_0000
  }

  /** Rounding up the end of a request of n whole or part pages that starts on a page boundary. */
  lemma AlignUpIs(a: Word, size: int, n: nat)
    requires a % 4096 == 0 && (n - 1) * 4096 < size <= n * 4096 && a + n * 4096 < U32 && 0 <= size
    ensures AlignUp(a + size) == a + n * 4096
  {
    var e := a + n * 4096;
    assert e % 4096 == 0 && e - 4096 < a + size <= e;
  }

  lemma AlignUpBounds(x: Word)
    requires x <= U32 - 4096
    ensures x <= AlignUp(x) < x + 4096 && AlignUp(x) % 4096 == 0
  {
  }

  function AlignDown(a: Word): Word {
    a - a % 4096
  }

  lemma Aligned(a: Word)
    ensures AlignDown(a) % 4096 == 0 && AlignUp(a) % 4096 == 0
  {
  }
}
