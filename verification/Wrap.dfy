/** Ring indices computed with 16-bit counters: masking with a power of two is insensitive to the
    wrap-around of the counter. */
module Wrap {

  /** A multiple of `n` smaller than `n` in size is zero. */
  lemma SmallMultiple(n: int, k: int)
    requires n > 0 && -n < n * k < n
    ensures k == 0
  {
    MulGrows(n, k);
    MulGrows(n, -k);
    assert n * -k == -(n * k);
  }

  lemma MulGrows(n: int, k: int)
    requires n > 0
    ensures k >= 1 ==> n * k >= n
  {}

  lemma ModUnique(a: int, n: int, q: int, r: int)
    requires 0 <= r < n && a == n * q + r
    ensures a % n == r
  {
    assert a == n * (a / n) + a % n;
    Distribute(n, q, a / n);
    SmallMultiple(n, q - a / n);
  }

  lemma Distribute(n: int, p: int, q: int)
    ensures n * (p - q) == n * p - n * q
  {}

  lemma ModAddMultiple(a: int, n: int, k: int)
    requires n > 0
    ensures (a + n * k) % n == a % n
  {
    assert a + n * k == n * (a / n + k) + a % n;
    ModUnique(a + n * k, n, a / n + k, a % n);
  }

  lemma ModAddMod(a: int, b: int, n: int)
    requires n > 0
    ensures (a % n + b) % n == (a + b) % n
  {
    assert a + b == a % n + b + n * (a / n);
    ModAddMultiple(a % n + b, n, a / n);
  }

  /** Reducing modulo 0x10000 first does not change the slot. */
  lemma WrapSlot(x: int, j: int, n: int)
    requires n > 0 && 0x10000 % n == 0
    ensures (x % 0x10000 + j) % n == (x + j) % n
  {
    var m, q := 0x10000 / n, x / 0x10000;
    assert 0x10000 == n * m;
    assert n * m * q == n * (m * q);
    assert x + j == (x % 0x10000 + j) + n * (m * q);
    ModAddMultiple(x % 0x10000 + j, n, m * q);
  }

  /** Fewer than `n` steps apart, positions share a slot only if they are the same. */
  lemma SlotsDiffer(x: int, j: int, k: int, n: int)
    requires 0 <= k - j < n
    ensures (x + j) % n == (x + k) % n <==> j == k
  {
    var a, b := x + j, x + k;
    Distribute(n, b / n, a / n);
    assert a == n * (a / n) + a % n && b == n * (b / n) + b % n;
    if a % n == b % n {
      SmallMultiple(n, b / n - a / n);
    }
  }

  /** The distance from slot `a % n` forward to slot `b % n`. */
  lemma SlotDistance(x: int, k: int, n: int)
    requires 0 <= k < n
    ensures (x + k) % n == if x % n + k < n then x % n + k else x % n + k - n
  {
    if x % n + k < n {
      assert x + k == n * (x / n) + (x % n + k);
      ModUnique(x + k, n, x / n, x % n + k);
    } else {
      assert x + k == n * (x / n + 1) + (x % n + k - n);
      ModUnique(x + k, n, x / n + 1, x % n + k - n);
    }
  }

  /** The slot `j` steps after slot `x` in a ring of `n`. */
  function Slot(x: int, j: int, n: int): (r: int)
    requires n > 0
    ensures 0 <= r < n
  {
    (x + j) % n
  }

  lemma EarlierSlots(x: int, k: int, n: int)
    requires 0 <= k < n - 1
    ensures forall j :: -1 <= j < k ==> Slot(x, j, n) != Slot(x, k, n)
  {
    forall j | -1 <= j < k
      ensures Slot(x, j, n) != Slot(x, k, n)
    {
      SlotsDiffer(x, j, k, n);
    }
  }

  lemma NextSlot(a: int, b: int, k: int, n: int)
    requires n >= 2 && 0x10000 % n == 0 && a % n == Slot(b, k, n)
    ensures (a + 1) % 0x10000 % n == Slot(b, k + 1, n)
  {
    WrapSlot(a + 1, 0, n);
    SlotDistance(a, 1, n);
    SlotDistance(b + k, 1, n);
  }

  /** A 16-bit counter `j` steps after it stood at `x`. */
  function Counter(x: int, j: int): (r: int)
    ensures 0 <= r < 0x10000
  {
    (x + j) % 0x10000
  }

  lemma Step16(x: int, p: int, j: int)
    ensures (Counter(x, p) + j) % 0x10000 == Counter(x, p + j)
  {
    WrapSlot(x + p, j, 0x10000);
  }
}
