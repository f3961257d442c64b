/** uint64_t counters. */
module Words {
  type Word = n: nat | n < 0x1_0000_0000_0000_0000

  function Increment(n: Word): Word { if n == 0xFFFF_FFFF_FFFF_FFFF then 0 else n + 1 }

  function Decrement(n: Word): Word { if n == 0 then 0xFFFF_FFFF_FFFF_FFFF else n - 1 }

  /** What a uint64_t shows of a number. */
  ghost function Wrapped(n: int): Word { n % 0x1_0000_0000_0000_0000 }

  lemma {:induction false} Wraps(n: int)
    ensures Increment(Wrapped(n)) == Wrapped(n + 1)
    ensures Decrement(Wrapped(n)) == Wrapped(n - 1)
    ensures Wrapped(0) == 0
  {
  }

  lemma {:induction false} WrapsAlike(n: int, extra: int)
    ensures Wrapped(n + extra) == Wrapped(n) <==> Wrapped(extra) == 0
  {
  }
}
