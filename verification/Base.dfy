/** Shared vocabulary. */
module Base {
  datatype Option<+T> = None | Some(value: T)

  type int64 = n: int | -0x8000_0000_0000_0000 <= n < 0x8000_0000_0000_0000

  /** An int64 that is a block number. */
  type BlockNumber = n: nat | n < 0x8000_0000_0000_0000

  /** 2^64. */
  const WORD: int := 0x1_0000_0000_0000_0000

  /** A non-negative number cut to its low 64 bits and read as a signed word. */
  function Int64(v: nat): int64 {
    var low := v % 0x1_0000_0000_0000_0000;
    if low < 0x8000_0000_0000_0000 then low else low - 0x1_0000_0000_0000_0000
  }

  /** The signed word that differs from the number by a multiple of 2^64. */
  lemma Int64Is(v: nat)
    ensures (v - Int64(v)) % 0x1_0000_0000_0000_0000 == 0
    ensures v < 0x8000_0000_0000_0000 ==> Int64(v) == v
  {
  }
}
