/** Sizes that several parts of the gateway share, and bytes. */
module Particulars {
  const UPMU_1SEC_BUF_LEN := 6312
  const DATA_QUEUE_LEN := 16
  const MAX_OUTSTANDING_MEM_BUF := 5

  // One second of samples: the rate, the six numbers of the time, and for each of 120 samples the state of the lock and
  // an angle and a magnitude on six channels, four bytes each; and 44 bytes more.
  lemma {:induction false} RecordLayout()
    ensures UPMU_1SEC_BUF_LEN == 4 + 6 * 4 + 120 * 4 + 6 * 120 * (4 + 4) + 44
  {
  }

  type Byte = b: int | 0 <= b < 256
}
