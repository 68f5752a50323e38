/** How many blocks of which size the constructor makes (lines 80-131 of readerwriterqueue.h). */
module Sizing {
  import opened Words
  import R = RingSteps

  /** What is built for `maxSize` elements with blocks of at most `maxBlock` slots. */
  function Sized(maxSize: nat, maxBlock: nat): R.Config
    requires 1 <= maxSize && 2 <= maxBlock
  {
    if LeastPow2(maxSize + 1) > 2 * maxBlock
    then R.Config(maxSize, maxBlock, (maxSize + 2 * maxBlock - 3) / (maxBlock - 1), maxBlock)
    else R.Config(maxSize, maxBlock, 1, LeastPow2(maxSize + 1))
  }

  /** The division rounds up and adds the block that the consumer may be reading. */
  lemma BlocksSuffice(m: nat, d: nat)
    requires 1 <= d && 1 <= m
    ensures var n := (m + 2 * d - 1) / d; 2 <= n && m <= (n - 1) * d && (n - 2) * d < m
  {
    var n, r := (m + 2 * d - 1) / d, (m + 2 * d - 1) % d;
    assert m + 2 * d - 1 == d * n + r;
    MulStep(d, n, 2);
    assert (n - 1) * d == d * n - d && (n - 2) * d == d * n - 2 * d;
  }

  /** Whatever `maxSize` is, the blocks built hold that many elements with one block to spare, or in
      a single block. */
  lemma SizedIsValid(maxSize: nat, maxBlock: nat)
    requires 1 <= maxSize && 2 <= maxBlock && IsPow2(maxBlock)
    ensures R.ValidConfig(Sized(maxSize, maxBlock)) && IsPow2(Sized(maxSize, maxBlock).size)
    ensures Sized(maxSize, maxBlock).cap == maxSize && Sized(maxSize, maxBlock).maxBlock == maxBlock
  {
    LeastPow2IsLeast(maxSize + 1, 0);
    BlocksSuffice(maxSize, maxBlock - 1);
  }

  /** Below twice the block size there is one block, of the least power of two that leaves a slot unused; from there
      on there are blocks of that size, as many as are needed with one to spare, and no more. */
  lemma SizedIs(maxSize: nat, maxBlock: nat)
    requires 1 <= maxSize && 2 <= maxBlock && IsPow2(maxBlock)
    ensures var c := Sized(maxSize, maxBlock);
            if maxSize < 2 * maxBlock then c.count == 1 && IsPow2(c.size) && maxSize < c.size && c.size / 2 <= maxSize
            else c.size == maxBlock && (c.count - 2) * (maxBlock - 1) < maxSize <= (c.count - 1) * (maxBlock - 1)
  {
    DoubleIsPow2(maxBlock);
    LeastPow2IsLeast(maxSize + 1, 2 * maxBlock);
    HalfIsSmaller(maxSize + 1);
    BlocksSuffice(maxSize, maxBlock - 1);
  }

  lemma HalfIsSmaller(x: nat)
    requires 2 <= x
    ensures LeastPow2(x) / 2 < x
  {
    LeastPow2IsLeast(x, 0);
    var k: nat :| LeastPow2(x) == Pow2(k);
    if k > 0 {
      LeastPow2IsLeast(x, Pow2(k - 1));
    }
  }

  /** Lines 90-97, in 64-bit words, for every `maxSize`: the planned size exactly if it is below 2^63;
      otherwise a single block of no slots. */
  method Plan(maxSize: nat, maxBlock: nat) returns (size: nat, count: nat)
    requires 1 <= maxSize < 0x1_0000_0000_0000_0000 && 2 <= maxBlock < 0x8000_0000_0000_0000 && IsPow2(maxBlock)
    ensures size == Sized(maxSize, maxBlock).size && count == Sized(maxSize, maxBlock).count <==> maxSize < 0x8000_0000_0000_0000
    ensures maxSize < 0x8000_0000_0000_0000 ==> IsPow2(size) && 2 <= size <= WORD && 2 * maxBlock <= WORD && 1 <= count
    ensures maxSize >= 0x8000_0000_0000_0000 ==> size == 0 && count == 1
  {
    hide Low, Sized, LeastPow2, IsPow2;
    SizedIsValid(maxSize, maxBlock);
    SizedSmall(maxSize, maxBlock);
    LowIs(maxSize + 1);
    LowIs(2 * maxBlock);
    LowIs(maxSize + 2 * maxBlock - 3);
    size := CeilToPow2(Low(maxSize + 1));
    count := 1;
    if size > Low(2 * maxBlock) {
      count := Low(maxSize + 2 * maxBlock - 3) / (maxBlock - 1);
      size := maxBlock;
    }
  }

  /** What is left of a sum in a 64-bit word. */
  function Low(x: nat): nat { x % WORD }

  lemma LowIs(x: nat)
    requires x < 2 * WORD
    ensures Low(x) == if x < WORD then x else x - WORD
  {
    if x < WORD {
      ModOf(x, WORD, 0, x);
    } else {
      ModOf(x, WORD, 1, x - WORD);
    }
  }

  lemma SizedSmall(maxSize: nat, maxBlock: nat)
    requires 1 <= maxSize && 2 <= maxBlock < 0x8000_0000_0000_0000 && IsPow2(maxBlock)
    ensures maxBlock <= 0x4000_0000_0000_0000 && 2 <= Sized(maxSize, maxBlock).size <= 2 * maxBlock
    ensures Sized(maxSize, maxBlock)
         == if LeastPow2(maxSize + 1) > 2 * maxBlock
            then R.Config(maxSize, maxBlock, (maxSize + 2 * maxBlock - 3) / (maxBlock - 1), maxBlock)
            else R.Config(maxSize, maxBlock, 1, LeastPow2(maxSize + 1))
  {
    SizedIsValid(maxSize, maxBlock);
    WordIsPow2();
    var k: nat :| maxBlock == Pow2(k);
    Pow2Strict(k, 63);
    Pow2Mono(k, 62);
    assert Pow2(63) == 2 * Pow2(62);
  }
}
