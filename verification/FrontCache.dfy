/**
The direct-mapped cache of include/frontCache.h: a table of (key, value) slots indexed by Fibonacci
hashing in 64-bit arithmetic, overwritten in place.
*/
module FrontCache {
  import opened Common

  const TWO_64: nat := 0x1_0000_0000_0000_0000
  const GOLDEN_RATIO_64: nat := 0x9E37_79B9_7F4A_7C15

  /** A slot; a null value marks one that was never filled. */
  datatype Entry<+V> = Entry(key: Address, value: Option<V>)

  function Pow2(n: nat): (p: nat)
    ensures p > 0
  {
    if n == 0 then 1 else 2 * Pow2(n - 1)
  }

  /** bits_of */
  function BitsOf(n: nat): nat {
    if n <= 1 then 0 else 1 + BitsOf(n / 2)
  }

  lemma {:induction false} BitsOfPow2(k: nat)
    ensures BitsOf(Pow2(k)) == k
  {
    if k > 0 {
      BitsOfPow2(k - 1);
    }
  }

  lemma {:induction false} Pow2Sum(a: nat, b: nat)
    ensures Pow2(a + b) == Pow2(a) * Pow2(b)
  {
    if a > 0 {
      Pow2Sum(a - 1, b);
    }
  }

  lemma Pow2Of64()
    ensures Pow2(64) == TWO_64
  {
    Pow2Sum(32, 32);
    Pow2Sum(16, 16);
    assert Pow2(16) == 0x1_0000 by {
      Pow2Sum(8, 8);
      assert Pow2(8) == 256 by {
        Pow2Sum(4, 4);
        assert Pow2(4) == 16;
      }
    }
  }

  /** The key times the golden ratio, as a 64-bit multiplication wraps it. */
  function Mixed(key: Address): (m: nat)
    ensures m < TWO_64
  {
    key * GOLDEN_RATIO_64 % TWO_64
  }

  /** slot_of: the top bits of the mixed key. */
  function SlotOf(key: Address, bits: nat): nat
    requires bits <= 64
  {
    Quotient(Mixed(key), Pow2(64 - bits))
  }

  function Quotient(n: nat, d: nat): nat
    requires d > 0
  {
    n / d
  }

  /** Every key hashes into the table, whose number of slots gives back the number of bits. */
  lemma SlotInTable(key: Address, bits: nat)
    requires bits <= 64
    ensures BitsOf(Pow2(bits)) == bits && SlotOf(key, bits) < Pow2(bits)
  {
    BitsOfPow2(bits);
    Pow2Sum(64 - bits, bits);
    Pow2Of64();
    DivBound(Mixed(key), Pow2(64 - bits), Pow2(bits));
  }

  lemma DivBound(x: nat, a: nat, b: nat)
    requires a > 0 && x < a * b
    ensures x / a < b
  {
    assert x == a * (x / a) + x % a;
    if x / a >= b {
      MulMonotone(a, b, x / a);
    }
  }

  lemma MulMonotone(a: nat, b: nat, c: nat)
    requires b <= c
    ensures a * b <= a * c
  {
  }

  // ---------- how keys are spread ----------

  const GOLDEN_INVERSE: nat := 0xF1DE_83E1_9937_733D

  lemma DropMultiple(k: nat, r: nat)
    requires r < TWO_64
    ensures (k * TWO_64 + r) % TWO_64 == r
  {
  }

  /** Multiplying by the inverse undoes the mixing: different 64-bit keys are mixed differently. */
  lemma MixingIsUndone(key: Address)
    requires key < TWO_64
    ensures Mixed(key) * GOLDEN_INVERSE % TWO_64 == key
  {
    var q := key * GOLDEN_RATIO_64 / TWO_64;
    assert key * GOLDEN_RATIO_64 == q * TWO_64 + Mixed(key);
    assert GOLDEN_RATIO_64 * GOLDEN_INVERSE == 10771413168148108919 * TWO_64 + 1;
    assert Mixed(key) * GOLDEN_INVERSE
        == (key * 10771413168148108919 - q * GOLDEN_INVERSE) * TWO_64 + key;
    DropMultiple(key * 10771413168148108919 - q * GOLDEN_INVERSE, key);
  }

  lemma ModSum(x: nat, y: nat, z: nat)
    requires z == x + y
    ensures z % TWO_64 == x % TWO_64 + y % TWO_64 || z % TWO_64 == x % TWO_64 + y % TWO_64 - TWO_64
  {
    var k, r := x / TWO_64 + y / TWO_64, x % TWO_64 + y % TWO_64;
    assert z == k * TWO_64 + r;
    if r < TWO_64 {
      DropMultiple(k, r);
    } else {
      DropMultiple(k + 1, r - TWO_64);
    }
  }

  lemma MixedSum(key: Address, d: nat)
    ensures var step := d * GOLDEN_RATIO_64 % TWO_64;
            Mixed(key + d) == Mixed(key) + step || Mixed(key + d) == Mixed(key) + step - TWO_64
  {
    ModSum(key * GOLDEN_RATIO_64, d * GOLDEN_RATIO_64, (key + d) * GOLDEN_RATIO_64);
  }

  lemma SameQuotient(x: nat, y: nat, w: nat)
    requires w > 0 && Quotient(x, w) == Quotient(y, w)
    ensures x - y < w && y - x < w
  {
  }

  /** Keys whose mixed distance is at least a slot's width, either way round, never share a slot. */
  lemma DistantKeysPart(key: Address, d: nat, step: nat, bits: nat)
    requires bits <= 64 && step == d * GOLDEN_RATIO_64 % TWO_64
    requires Pow2(64 - bits) <= step <= TWO_64 - Pow2(64 - bits)
    ensures SlotOf(key + d, bits) != SlotOf(key, bits)
  {
    MixedSum(key, d);
    if SlotOf(key + d, bits) == SlotOf(key, bits) {
      SameQuotient(Mixed(key + d), Mixed(key), Pow2(64 - bits));
    }
  }

  lemma WidthOf1024(bits: nat)
    requires bits == 10
    ensures Pow2(64 - bits) == 0x40_0000_0000_0000
  {
    Pow2Sum(bits + 17, bits + 17);
    Pow2Sum(bits + 3, bits + 4);
    assert Pow2(13) == 0x2000;
  }

  lemma MixedDistances()
    ensures 16 * GOLDEN_RATIO_64 % TWO_64 == 0xE377_9B97_F4A7_C150
    ensures 1024 * GOLDEN_RATIO_64 % TWO_64 == 0xDDE6_E5FD_29F0_5400
    ensures 4096 * GOLDEN_RATIO_64 % TWO_64 == 0x779B_97F4_A7C1_5000
  {
    DropMultiple(9, 0xE377_9B97_F4A7_C150);
    DropMultiple(632, 0xDDE6_E5FD_29F0_5400);
    DropMultiple(2531, 0x779B_97F4_A7C1_5000);
  }

  /**
  In a table of 1024 slots: neighbouring addresses, aligned ones, those as far apart as there are slots, which a modulus
  would put together, and the same place on the next page.
  */
  lemma NeighboursPart(key: Address, bits: nat)
    requires bits == 10
    ensures SlotOf(key + 1, bits) != SlotOf(key, bits)
    ensures SlotOf(key + 16, bits) != SlotOf(key, bits)
    ensures SlotOf(key + 1024, bits) != SlotOf(key, bits)
    ensures SlotOf(key + 4096, bits) != SlotOf(key, bits)
  {
    WidthOf1024(bits);
    MixedDistances();
    DistantKeysPart(key, 1, GOLDEN_RATIO_64, bits);
    DistantKeysPart(key, 16, 0xE377_9B97_F4A7_C150, bits);
    DistantKeysPart(key, 1024, 0xDDE6_E5FD_29F0_5400, bits);
    DistantKeysPart(key, 4096, 0x779B_97F4_A7C1_5000, bits);
  }

  /** A table of 2^k slots, 2 <= 2^k, on a 64-bit machine. */
  predicate Table<V>(entries: seq<Entry<V>>, k: nat) {
    1 <= k <= 64 && |entries| == Pow2(k)
  }

  /** What the table answers for a key. */
  function Find<V>(entries: seq<Entry<V>>, k: nat, key: Address): Option<V>
    requires Table(entries, k)
  {
    SlotInTable(key, k);
    var entry := entries[SlotOf(key, k)];
    if entry.key == key then entry.value else None
  }

  function Store<V>(entries: seq<Entry<V>>, k: nat, key: Address, value: V): (r: seq<Entry<V>>)
    requires Table(entries, k)
    ensures Table(r, k)
  {
    SlotInTable(key, k);
    entries[SlotOf(key, k) := Entry(key, Some(value))]
  }

  /** Storing answers for the key itself, forgets the key it displaced, and changes nothing else. */
  lemma StoreThenFind<V>(entries: seq<Entry<V>>, k: nat, key: Address, value: V, other: Address)
    requires Table(entries, k)
    ensures Find(Store(entries, k, key, value), k, key) == Some(value)
    ensures other != key ==> (Find(Store(entries, k, key, value), k, other)
                           == if SlotOf(other, k) == SlotOf(key, k) then None else Find(entries, k, other))
  {
    SlotInTable(key, k);
    SlotInTable(other, k);
  }

  /** An untouched table answers nothing, not even for the null key. */
  function Empty<V>(k: nat): (entries: seq<Entry<V>>)
    requires 1 <= k <= 64
    ensures Table(entries, k)
    ensures forall key :: Find(entries, k, key) == None
  {
    var entries: seq<Entry<V>> := seq(Pow2(k), _ => Entry(0, None));
    assert forall key :: Find(entries, k, key) == None by {
      forall key ensures Find(entries, k, key) == None { SlotInTable(key, k); }
    }
    entries
  }

  /** The cache itself. */
  class FrontCache<V> {
    const k: nat
    const entries: array<Entry<V>>

    ghost predicate Valid()
      reads this, entries
    {
      Table(entries[..], k)
    }

    constructor (k: nat)
      requires 1 <= k <= 64
      ensures Valid() && this.k == k && fresh(entries)
      ensures forall key :: Find(entries[..], k, key) == None
    {
      this.k := k;
      entries := new Entry<V>[Pow2(k)](_ => Entry(0, None));
      new;
      assert entries[..] == Empty(k);
    }

    method Lookup(key: Address) returns (value: Option<V>)
      requires Valid()
      ensures value == Find(entries[..], k, key)
    {
      SlotInTable(key, k);
      var entry := entries[SlotOf(key, k)];
      value := if entry.key == key then entry.value else None;
    }

    method Remember(key: Address, value: V)
      requires Valid()
      modifies entries
      ensures Valid() && entries[..] == Store(old(entries[..]), k, key, value)
    {
      SlotInTable(key, k);
      entries[SlotOf(key, k)] := Entry(key, Some(value));
    }
  }
}
