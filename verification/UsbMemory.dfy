/** kernel/usb/memory.cpp: the bump allocator behind the controller's data structures. */
module UsbMemory {
  import opened Arithmetic
  import opened Options

  const POOL_SIZE: nat := 4096 * 32

  function Pow2(k: nat): (p: nat)
    ensures p > 0
  {
    if k == 0 then 1 else 2 * Pow2(k - 1)
  }

  /** Bitwise and. */
  function And(x: nat, y: nat): nat {
    if x == 0 || y == 0 then 0 else (x % 2) * (y % 2) + 2 * And(x / 2, y / 2)
  }

  /** The source's rounding, on words of 64 bits: add, and clear the low bits with a mask. */
  function Ceil(value: nat, alignment: nat): nat
    requires 0 < alignment <= Pow2(64)
  {
    And((value + alignment - 1) % Pow2(64), Pow2(64) - 1 - (alignment - 1))
  }

  lemma {:induction false} Pow2Mono(j: nat, k: nat)
    requires j <= k
    ensures Pow2(j) <= Pow2(k) && Pow2(k) == Pow2(j) * Pow2(k - j)
    decreases k
  {
    if j < k {
      Pow2Mono(j, k - 1);
      assert Pow2(k) == 2 * (Pow2(j) * Pow2(k - 1 - j)) == Pow2(j) * (2 * Pow2(k - 1 - j));
    }
  }

  lemma {:induction false} AndAll(v: nat, n: nat)
    requires v < Pow2(n)
    ensures And(v, Pow2(n) - 1) == v
  {
    if v > 0 {
      AndAll(v / 2, n - 1);
      assert (Pow2(n) - 1) / 2 == Pow2(n - 1) - 1 && (Pow2(n) - 1) % 2 == 1;
    }
  }

  /** v with its k lowest bits cleared. */
  function ClearLow(v: nat, k: nat): nat {
    if k == 0 then v else 2 * ClearLow(v / 2, k - 1)
  }

  /** A mask of high bits clears the low ones. */
  lemma {:induction false} AndMask(v: nat, n: nat, k: nat)
    requires v < Pow2(n) && k <= n && Pow2(k) <= Pow2(n)
    ensures And(v, Pow2(n) - Pow2(k)) == ClearLow(v, k)
    decreases k
  {
    if k == 0 {
      AndAll(v, n);
    } else {
      AndMask(v / 2, n - 1, k - 1);
      assert (Pow2(n) - Pow2(k)) / 2 == Pow2(n - 1) - Pow2(k - 1) && (Pow2(n) - Pow2(k)) % 2 == 0;
      var q := ClearedIs(v, k);
    }
  }

  /** Clearing the low bits gives the multiple of 2^k at or below the number. */
  lemma {:induction false} ClearedIs(v: nat, k: nat) returns (q: nat)
    ensures ClearLow(v, k) == q * Pow2(k) && ClearLow(v, k) <= v < ClearLow(v, k) + Pow2(k)
    decreases k
  {
    if k == 0 {
      q := v;
    } else {
      q := ClearedIs(v / 2, k - 1);
      Doubled(q, Pow2(k - 1), Pow2(k));
    }
  }

  lemma Doubled(q: nat, a: nat, b: nat)
    requires b == 2 * a
    ensures q * b == 2 * (q * a)
  {
  }

  lemma Small(v: nat, a: nat)
    requires v < a
    ensures v % a == v
  {
  }

  ghost predicate IsPow2(a: nat) {
    exists k: nat :: k < 32 && a == Pow2(k)
  }

  /** The mask form is true rounding up: the least multiple that is not below the value. */
  lemma CeilRoundsUp(value: nat, k: nat)
    requires k < 32 && value + Pow2(k) <= Pow2(64)
    ensures Pow2(k) <= Pow2(64)
    ensures var a, r := Pow2(k), Ceil(value, Pow2(k));
            value <= r < value + a && r % a == 0 && forall m: nat :: m % a == 0 && value <= m ==> r <= m
  {
    hide And, Pow2;
    var a := Pow2(k);
    Pow2Mono(k, 64);
    var v := value + a - 1;
    AndMask(v, 64, k);
    Small(v, Pow2(64));
    var r := Ceil(value, a);
    var q := ClearedIs(v, k);
    DivUnique(q, 0, a);
    forall m: nat | m % a == 0 && value <= m
      ensures r <= m
    {
      Multiples(r, m, a);
    }
  }

  /** Multiples of a that are apart are a apart. */
  lemma Multiples(x: nat, y: nat, a: nat)
    requires a > 0 && x % a == 0 && y % a == 0
    ensures y < x ==> y + a <= x
  {
    DivMod(x, a);
    DivMod(y, a);
    MulNext(y / a, a);
    if x / a <= y / a {
      MulMono(x / a, y / a, a);
    } else {
      MulMono(y / a + 1, x / a, a);
    }
  }

  /** A multiple of a power of two is a multiple of every lower one. */
  lemma LowerPower(x: nat, j: nat, k: nat)
    requires j <= k && x % Pow2(k) == 0
    ensures x % Pow2(j) == 0
  {
    hide Pow2;
    Pow2Mono(j, k);
    var a, b := Pow2(j), Pow2(k - j);
    DivMod(x, Pow2(k));
    MulAssoc(x / Pow2(k), a, b);
    DivUnique(x / Pow2(k) * b, 0, a);
  }

  datatype Block = Block(start: nat, size: nat) {
    function End(): nat { start + size }
  }

  /** No multiple of the boundary lies strictly inside. */
  ghost predicate Crosses(b: Block, boundary: nat)
    requires boundary > 0
  {
    exists m: nat :: m % boundary == 0 && b.start < m < b.End()
  }

  class Pool {
    const base: nat
    var allocPtr: nat
    ghost var blocks: seq<Block>

    /** The blocks handed out lie one behind the other in the pool, before the pointer. */
    ghost predicate Valid()
      reads this
    {
      && base + POOL_SIZE + Pow2(32) <= Pow2(64) && base <= allocPtr <= TopOf(base)
      && (forall i :: 0 <= i < |blocks| ==> base <= blocks[i].start && blocks[i].End() <= base + POOL_SIZE && blocks[i].End() <= allocPtr)
      && (forall i, j :: 0 <= i < j < |blocks| ==> blocks[i].End() <= blocks[j].start)
    }

    constructor (base: nat)
      requires base + POOL_SIZE + Pow2(32) <= Pow2(64)
      ensures Valid() && this.base == base && blocks == []
    {
      this.base, allocPtr, blocks := base, base, [];
      new;
      TopAbove(base);
    }

    method AllocMem(size: nat, alignment: nat, boundary: nat) returns (p: Option<nat>)
      requires Valid() && (alignment == 0 || IsPow2(alignment)) && (boundary == 0 || IsPow2(boundary))
      modifies this`allocPtr, this`blocks
      ensures Valid()
      ensures p == None ==> blocks == old(blocks)
      ensures p.Some? ==>
                && blocks == old(blocks) + [Block(p.value, size)]
                && base <= p.value && p.value + size <= base + POOL_SIZE
                && (forall i :: 0 <= i < |old(blocks)| ==> old(blocks)[i].End() <= p.value)
                && (alignment > 0 ==> p.value % alignment == 0)
                && (boundary > 0 && size <= boundary ==> !Crosses(Block(p.value, size), boundary))
    {
      hide Pow2, Ceil, Crosses, IsPow2, TopOf;
      TopAbove(base);
      if alignment > 0 {
        RoundedInPool(base, allocPtr, alignment);
        allocPtr := Ceil(allocPtr, alignment);
      }
      ghost var aligned := allocPtr;
      if boundary > 0 {
        RoundedInPool(base, allocPtr, boundary);
        SmallPower(boundary);
        var nextBoundary := Ceil(allocPtr, boundary);
        if alignment > 0 {
          StaysAligned(aligned, alignment, boundary);
        }
        if nextBoundary < allocPtr + size {
          allocPtr := nextBoundary;
        }
        KeepsBoundary(aligned, size, boundary);
      }
      if base + POOL_SIZE < allocPtr + size {
        return None;
      }
      var start := allocPtr;
      allocPtr := allocPtr + size;
      blocks := blocks + [Block(start, size)];
      return Some(start);
    }
  }

  /** As far as rounding can drive the pointer. */
  ghost function TopOf(base: nat): nat {
    var v := base + POOL_SIZE + Pow2(31) - 1;
    v - v % Pow2(31)
  }

  lemma TopAbove(base: nat)
    ensures base + POOL_SIZE <= TopOf(base) < base + POOL_SIZE + Pow2(31) && TopOf(base) % Pow2(31) == 0
    ensures Pow2(32) == 2 * Pow2(31) && Pow2(31) > 0
  {
    hide Pow2;
    Doubles(31);
    var v, a := base + POOL_SIZE + Pow2(31) - 1, Pow2(31);
    DivMod(v, a);
    DivUnique(v / a, 0, a);
  }

  lemma Doubles(k: nat)
    ensures Pow2(k + 1) == 2 * Pow2(k)
  {
  }

  lemma RoundedInPool(base: nat, ptr: nat, a: nat)
    requires IsPow2(a) && base <= ptr <= TopOf(base) && base + POOL_SIZE + Pow2(32) <= Pow2(64)
    ensures 0 < a <= Pow2(64) && ptr <= Ceil(ptr, a) <= TopOf(base) && Ceil(ptr, a) < ptr + a && Ceil(ptr, a) % a == 0
  {
    hide Ceil, TopOf;
    var k :| k < 32 && a == Pow2(k);
    TopAbove(base);
    Pow2Mono(k, 31);
    CeilRoundsUp(ptr, k);
    LowerPower(TopOf(base), k, 31);
  }

  lemma SmallPower(a: nat)
    requires IsPow2(a)
    ensures 0 < a <= Pow2(31)
  {
    hide Pow2;
    var k: nat :| k < 32 && a == Pow2(k);
    Pow2Mono(k, 31);
  }

  /** Moving an aligned pointer up to a boundary keeps it aligned, whichever of the two is larger. */
  lemma StaysAligned(ptr: nat, alignment: nat, boundary: nat)
    requires IsPow2(alignment) && IsPow2(boundary) && ptr % alignment == 0 && ptr + boundary <= Pow2(64)
    ensures 0 < boundary <= Pow2(64) && Ceil(ptr, boundary) % alignment == 0
  {
    hide Ceil, Pow2;
    var j: nat :| j < 32 && alignment == Pow2(j);
    var k: nat :| k < 32 && boundary == Pow2(k);
    CeilRoundsUp(ptr, k);
    if j <= k {
      LowerPower(Ceil(ptr, boundary), j, k);
    } else {
      LowerPower(ptr, k, j);
    }
  }

  /** A block at the pointer, or at the next boundary if it would reach beyond it, crosses none. */
  lemma KeepsBoundary(ptr: nat, size: nat, boundary: nat)
    requires IsPow2(boundary) && ptr + boundary <= Pow2(64)
    ensures 0 < boundary <= Pow2(64)
    ensures var start := if Ceil(ptr, boundary) < ptr + size then Ceil(ptr, boundary) else ptr;
            size <= boundary ==> !Crosses(Block(start, size), boundary)
  {
    hide Ceil, Pow2;
    var k: nat :| k < 32 && boundary == Pow2(k);
    CeilRoundsUp(ptr, k);
    var r := Ceil(ptr, boundary);
    var start := if r < ptr + size then r else ptr;
    if size <= boundary {
      forall m: nat | m % boundary == 0
        ensures !(start < m < start + size)
      {
        Multiples(m, r, boundary);
      }
    }
  }
}
