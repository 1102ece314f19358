/**
 * Ring storage (src/ring.rs): a fixed array of N cells addressed by sequence
 * numbers through the mask `seq & (N - 1)`.  The ring does not know which cells
 * hold a value; in the model a cell is `Some(v)` when it holds an initialised
 * value and `None` when it is uninitialised or its value has been moved out,
 * and the operations demand of their caller what the source's safety notes do.
 */
module Ring {
  import opened Wrappers
  import opened Errors

  /** `usize::is_power_of_two`: exactly one bit is set, so 0 is not a power of two. */
  predicate IsPowerOfTwo(n: nat)
    decreases n
  {
    if n <= 1 then n == 1 else n % 2 == 0 && IsPowerOfTwo(n / 2)
  }

  /** Independent reference definition: 2 raised to k. */
  function Pow2(k: nat): nat
  {
    if k == 0 then 1 else 2 * Pow2(k - 1)
  }

  lemma {:induction false} Pow2IsPowerOfTwo(k: nat)
    ensures IsPowerOfTwo(Pow2(k))
  {
    if k > 0 {
      Pow2IsPowerOfTwo(k - 1);
      assert Pow2(k) / 2 == Pow2(k - 1);
    }
  }

  /** The bit-counting test agrees with "n is 2 to some power", both ways. */
  lemma {:induction false} PowerOfTwoIsPow2(n: nat)
    ensures IsPowerOfTwo(n) <==> exists k: nat :: Pow2(k) == n
    decreases n
  {
    if IsPowerOfTwo(n) {
      if n == 1 {
        assert Pow2(0) == n;
      } else {
        PowerOfTwoIsPow2(n / 2);
        var k: nat :| Pow2(k) == n / 2;
        assert Pow2(k + 1) == n;
      }
    }
    if exists k: nat :: Pow2(k) == n {
      var k: nat :| Pow2(k) == n;
      Pow2IsPowerOfTwo(k);
    }
  }

  /** Bitwise AND of two naturals, computed one bit at a time: the `&` of `usize`. */
  function BitAnd(a: nat, b: nat): nat
    decreases a
  {
    if a == 0 || b == 0 then 0
    else 2 * BitAnd(a / 2, b / 2) + (if a % 2 == 1 && b % 2 == 1 then 1 else 0)
  }

  /**
   * The capacity checks of `RingBuffer::from`, in the order of its two
   * `assert!`s.  Because `is_power_of_two` is already false for 0, the
   * positivity check can never be the one that fails.
   */
  function CheckCapacity(n: nat): (r: Result<(), CapacityError>)
    ensures r.Ok? <==> IsPowerOfTwo(n)
    ensures r.Ok? ==> n > 0
    ensures r.Err? ==> r.error == NotPowerOfTwo
  {
    if !IsPowerOfTwo(n) then Err(NotPowerOfTwo)
    else if n == 0 then Err(NotPositive)
    else Ok(())
  }

  /** `index`: the slot of a sequence number is its low bits, which is its remainder modulo n. */
  function Index(sn: nat, n: nat): (i: nat)
    requires IsPowerOfTwo(n)
    ensures i < n
    ensures i == sn % n
  {
    MaskIsModulo(sn, n);
    BitAnd(sn, n - 1)
  }

  // ---------------------------------------------------------------------------
  // Arithmetic behind the mask

  lemma {:induction false} MulAtLeast(d: int, k: int)
    requires d > 0 && k >= 1
    ensures d * k >= d
  {
    if k > 1 {
      MulAtLeast(d, k - 1);
      assert d * k == d * (k - 1) + d;
    }
  }

  /** Euclidean division is unique: any decomposition x == d * q + r with 0 <= r < d is the one. */
  lemma DivModUnique(x: int, d: int, q: int, r: int)
    requires d > 0 && 0 <= r < d && x == d * q + r
    ensures x / d == q && x % d == r
  {
    var q', r' := x / d, x % d;
    assert x == d * q' + r';
    if q' > q {
      assert d * (q' - q) == r - r' by { assert d * q' - d * q == d * (q' - q); }
      MulAtLeast(d, q' - q);
    } else if q' < q {
      assert d * (q - q') == r' - r by { assert d * q - d * q' == d * (q - q'); }
      MulAtLeast(d, q - q');
    }
  }

  lemma HalvingMod(x: nat, m: nat)
    requires m > 0
    ensures x % (2 * m) == 2 * ((x / 2) % m) + x % 2
  {
    var q, r := x / 2, x % 2;
    var a, b := q / m, q % m;
    assert q == m * a + b;
    assert x == (2 * m) * a + (2 * b + r);
    DivModUnique(x, 2 * m, a, 2 * b + r);
  }

  /** For a power of two n, masking with n - 1 is exactly reduction modulo n. */
  lemma {:induction false} MaskIsModulo(sn: nat, n: nat)
    requires IsPowerOfTwo(n)
    ensures BitAnd(sn, n - 1) == sn % n
    decreases n
  {
    if n == 1 {
      DivModUnique(sn, 1, sn, 0);
    } else {
      var m := n / 2;
      assert IsPowerOfTwo(m) && n == 2 * m;
      MaskIsModulo(sn / 2, m);
      DivModUnique(n - 1, 2, m - 1, 1);
      if sn != 0 {
        LowBit(sn, n - 1);
      }
      HalvingMod(sn, m);
    }
  }

  /** Against an odd mask, the lowest bit of a survives and the rest is halved. */
  lemma LowBit(a: nat, b: nat)
    requires a != 0 && b % 2 == 1
    ensures BitAnd(a, b) == 2 * BitAnd(a / 2, b / 2) + a % 2
  {
  }

  lemma {:induction false} BitAndSelf(a: nat)
    ensures BitAnd(a, a) == a
    decreases a
  {
    if a != 0 {
      BitAndSelf(a / 2);
    }
  }

  /**
   * `n & (n - 1)` is zero exactly for powers of two: at sequence number n the
   * mask agrees with `n % n == 0` only then, which is why construction insists
   * on a power of two.
   */
  lemma {:induction false} MaskOfSelfZeroIffPowerOfTwo(n: nat)
    requires n > 0
    ensures BitAnd(n, n - 1) == 0 <==> IsPowerOfTwo(n)
    ensures !IsPowerOfTwo(n) ==> BitAnd(n, n - 1) != n % n
    decreases n
  {
    if n > 1 {
      var m := n / 2;
      if n % 2 == 0 {
        MaskOfSelfZeroIffPowerOfTwo(m);
        assert (n - 1) / 2 == m - 1 && (n - 1) % 2 == 1;
        assert BitAnd(n, n - 1) == 2 * BitAnd(m, m - 1);
      } else {
        BitAndSelf(m);
        assert (n - 1) / 2 == m && (n - 1) % 2 == 0;
        assert BitAnd(n, n - 1) == 2 * BitAnd(m, m);
      }
    }
  }

  lemma IndexShift(s: nat, n: nat)
    requires IsPowerOfTwo(n)
    ensures Index(s + n, n) == Index(s, n)
  {
    ModShift(s, n);
  }

  lemma ModShift(s: nat, n: nat)
    requires n > 0
    ensures (s + n) % n == s % n
  {
    var q, r := s / n, s % n;
    assert s == n * q + r;
    assert n * (q + 1) == n * q + n;
    DivModUnique(s + n, n, q + 1, r);
  }

  lemma ModDistinct(a: nat, b: nat, n: nat)
    requires n > 0 && a < b < a + n
    ensures a % n != b % n
  {
    var qa, ra := a / n, a % n;
    assert a == n * qa + ra;
    var d := b - a;
    if ra + d < n {
      DivModUnique(b, n, qa, ra + d);
    } else {
      assert n * (qa + 1) == n * qa + n;
      DivModUnique(b, n, qa + 1, ra + d - n);
    }
  }

  /** Sequence numbers less than n apart land in distinct slots. */
  lemma IndexDistinct(a: nat, b: nat, n: nat)
    requires IsPowerOfTwo(n) && a < b < a + n
    ensures Index(a, n) != Index(b, n)
  {
    ModDistinct(a, b, n);
  }

  /** Within any window of n consecutive sequence numbers, Index is injective. */
  lemma IndexInjective(lo: nat, a: nat, b: nat, n: nat)
    requires IsPowerOfTwo(n) && lo <= a < lo + n && lo <= b < lo + n && a != b
    ensures Index(a, n) != Index(b, n)
  {
    if a < b {
      IndexDistinct(a, b, n);
    } else {
      IndexDistinct(b, a, n);
    }
  }

  /** The slot of one sequence of a window is the slot of no other sequence of it. */
  lemma IndexUnshared(lo: nat, a: nat, n: nat)
    requires IsPowerOfTwo(n) && lo <= a < lo + n
    ensures forall q :: lo <= q < lo + n && q != a ==> Index(q, n) != Index(a, n)
  {
    forall q | lo <= q < lo + n && q != a
      ensures Index(q, n) != Index(a, n)
    {
      IndexInjective(lo, q, a, n);
    }
  }

  /** How far slot i lies after slot r, going round the ring. */
  function Offset(r: nat, n: nat, i: nat): (d: nat)
    requires r < n && i < n
    ensures d < n
  {
    if i >= r then i - r else n - r + i
  }

  lemma OffsetLands(lo: nat, i: nat, n: nat)
    requires n > 0 && i < n
    ensures (lo + Offset(lo % n, n, i)) % n == i
  {
    var q, r := lo / n, lo % n;
    assert lo == n * q + r;
    if i >= r {
      DivModUnique(lo + (i - r), n, q, i);
    } else {
      assert n * (q + 1) == n * q + n;
      DivModUnique(lo + (n - r + i), n, q + 1, i);
    }
  }

  /** The sequence number of window [lo, lo + n) that lands in slot j. */
  function WindowSeq(lo: nat, j: nat, n: nat): (s: nat)
    requires IsPowerOfTwo(n) && j < n
    ensures lo <= s < lo + n
    ensures Index(s, n) == j
  {
    OffsetLands(lo, j, n);
    lo + Offset(Index(lo, n), n, j)
  }

  // ---------------------------------------------------------------------------
  // The ring of plain cells: RingBuffer<UnsafeCell<MaybeUninit<T>>, N>

  class RingBuffer<T> {
    const capacity: nat
    const cells: array<Option<T>>

    ghost predicate Valid()
    {
      IsPowerOfTwo(capacity) && cells.Length == capacity
    }

    /** The tuple-struct construction `Self(buffer)`, reached only after the checks. */
    constructor Wrap(buffer: array<Option<T>>)
      requires IsPowerOfTwo(buffer.Length)
      ensures Valid() && cells == buffer && capacity == buffer.Length
    {
      capacity := buffer.Length;
      cells := buffer;
    }

    /** `RingBuffer::from`: check the capacity, then wrap the given cells. */
    static method From(buffer: array<Option<T>>) returns (r: Result<RingBuffer<T>, CapacityError>)
      ensures CheckCapacity(buffer.Length).Err? ==> r == Err(CheckCapacity(buffer.Length).error)
      ensures CheckCapacity(buffer.Length).Ok? ==>
        r.Ok? && fresh(r.value) && r.value.Valid() && r.value.cells == buffer
    {
      if !IsPowerOfTwo(buffer.Length) {
        return Err(NotPowerOfTwo);
      }
      if buffer.Length == 0 {
        return Err(NotPositive);
      }
      var ring := new RingBuffer.Wrap(buffer);
      return Ok(ring);
    }

    /** `RingBuffer::default`: n uninitialised cells, then `from`. */
    static method Default(n: nat) returns (r: Result<RingBuffer<T>, CapacityError>)
      ensures CheckCapacity(n).Err? ==> r == Err(CheckCapacity(n).error)
      ensures CheckCapacity(n).Ok? ==>
        r.Ok? && fresh(r.value) && fresh(r.value.cells) && r.value.Valid() && r.value.capacity == n
      ensures r.Ok? ==> forall i :: 0 <= i < n ==> r.value.cells[i] == None
    {
      var buffer := new Option<T>[n](_ => None);
      r := From(buffer);
    }

    /** `write`: store v in cell i; the caller guarantees the cell holds no live value. */
    method Write(i: nat, v: T)
      requires Valid() && i < capacity && cells[i] == None
      modifies cells
      ensures cells[i] == Some(v)
      ensures forall j :: 0 <= j < capacity && j != i ==> cells[j] == old(cells[j])
    {
      cells[i] := Some(v);
    }

    /** `read`: move the value out of initialised cell i, leaving it logically empty. */
    method Read(i: nat) returns (v: T)
      requires Valid() && i < capacity && cells[i].Some?
      modifies cells
      ensures old(cells[i]) == Some(v) && cells[i] == None
      ensures forall j :: 0 <= j < capacity && j != i ==> cells[j] == old(cells[j])
    {
      v := cells[i].value;
      cells[i] := None;
    }

    /** `drop` / `drop_in_place`: destruct the value of initialised cell i in place. */
    method DropInPlace(i: nat)
      requires Valid() && i < capacity && cells[i].Some?
      modifies cells
      ensures cells[i] == None
      ensures forall j :: 0 <= j < capacity && j != i ==> cells[j] == old(cells[j])
    {
      cells[i] := None;
    }
  }

  // ---------------------------------------------------------------------------
  // The unit tests of ring.rs

  /** `test_rw`: a value written at the slot of sequence 0 reads back unchanged. */
  method TestReadWrite() returns (out: int)
    ensures out == 28392
  {
    var r := RingBuffer<int>.Default(2);
    var ring := r.value;
    var i := Index(0, ring.capacity);
    ring.Write(i, 28392);
    out := ring.Read(i);
  }

  /** `test_panics`: a ring of 6 cells is refused. */
  method TestPanics() returns (r: Result<RingBuffer<()>, CapacityError>)
    ensures r == Err(NotPowerOfTwo)
  {
    r := RingBuffer<()>.Default(6);
  }

  /** `test_modulo`: the mask is the modulo for N = 2, and differs from it for N = 5 at 3 and 6. */
  lemma TestModulo()
    ensures Index(3, 2) == 3 % 2 && Index(4, 2) == 4 % 2
    ensures BitAnd(3, 5 - 1) != 3 % 5 && BitAnd(6, 5 - 1) != 6 % 5
  {
    assert BitAnd(3, 4) == 2 * BitAnd(1, 2);
    assert BitAnd(1, 2) == 2 * BitAnd(0, 1);
    assert BitAnd(6, 4) == 2 * BitAnd(3, 2);
    assert BitAnd(3, 2) == 2 * BitAnd(1, 1) + 0;
    assert BitAnd(1, 1) == 2 * BitAnd(0, 0) + 1;
  }
}
