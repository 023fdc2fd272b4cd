/** The bits of a proposed cookie. */
module CookieBits {

  /** Two random words, mixed with the time; the last bit is set. */
  function Candidate(high: bv32, low: bv32, now: bv64): bv64 {
    (Drawn(high, low) ^ now) | 1
  }

  function Drawn(high: bv32, low: bv32): bv64 {
    ((high as bv64) << 32) | (low as bv64)
  }

  /** All random bits are in the cookie, but for the last: they read back from it and the
      time.  So two CPUs that draw different words at the same time propose different
      cookies, unless the last bit is all that differs. */
  lemma DrawReadsBack(high: bv32, low: bv32, now: bv64)
    ensures (Candidate(high, low, now) ^ now) >> 32 == high as bv64
    ensures (Candidate(high, low, now) ^ now) & 0xffff_fffe == (low as bv64) & 0xffff_fffe
    ensures Candidate(high, low, now) & 1 == 1
  {
  }
}
