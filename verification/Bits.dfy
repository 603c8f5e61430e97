/** Single-bit identifiers: powers of two below a limit, handed out lowest first. */
module Bits {

  function Pow2(n: nat): (p: nat)
    ensures p > 0
  {
    if n == 0 then 1 else 2 * Pow2(n - 1)
  }

  lemma {:induction false} Pow2Monotone(a: nat, b: nat)
    requires a < b
    ensures Pow2(a) < Pow2(b)
  {
    if a + 1 < b {
      Pow2Monotone(a, b - 1);
    }
  }

  lemma {:induction false} Pow2Add(a: nat, b: nat)
    ensures Pow2(a + b) == Pow2(a) * Pow2(b)
  {
    if b > 0 {
      Pow2Add(a, b - 1);
    }
  }

  lemma Pow2Compare(a: nat, b: nat)
    ensures Pow2(a) < Pow2(b) <==> a < b
    ensures Pow2(a) == Pow2(b) <==> a == b
  {
    if a < b {
      Pow2Monotone(a, b);
    } else if b < a {
      Pow2Monotone(b, a);
    }
  }

  lemma Pow2At8()
    ensures Pow2(8) == 0x100
  {
    assert Pow2(4) == 16;
  }

  lemma Pow2At32()
    ensures Pow2(32) == 0x1_0000_0000
  {
    hide Pow2;
    Pow2At8();
    Pow2Add(8, 8);
    Pow2Add(16, 16);
  }

  lemma Pow2At64()
    ensures Pow2(64) == 0x1_0000_0000_0000_0000
  {
    hide Pow2;
    Pow2At32();
    Pow2Add(32, 32);
  }

  lemma Halves(n: nat)
    requires n >= 2
    ensures Pow2(n) == 2 * Pow2(n - 1) == 4 * Pow2(n - 2)
  {
  }

  lemma Pow2Values()
    ensures Pow2(30) == 0x4000_0000 && Pow2(31) == 0x8000_0000 && Pow2(32) == 0x1_0000_0000
    ensures Pow2(62) == 0x4000_0000_0000_0000
    ensures Pow2(63) == 0x8000_0000_0000_0000
    ensures Pow2(64) == 0x1_0000_0000_0000_0000
  {
    hide Pow2;
    Pow2At32();
    Pow2At64();
    Halves(32);
    Halves(64);
  }

  /** The bits from 2^first below the limit. */
  ghost predicate InRange(l: nat, first: nat, limit: nat) {
    exists k: nat :: first <= k && l == Pow2(k) && l < limit
  }

  lemma NothingBelow(first: nat)
    ensures forall x: nat :: !InRange(x, first, Pow2(first))
  {
    forall x: nat ensures !InRange(x, first, Pow2(first)) {
      forall k: nat | first < k ensures Pow2(first) < Pow2(k) {
        Pow2Monotone(first, k);
      }
    }
  }

  /** The lowest bit from 2^first below the limit that is not in use, or 0 when all are. */
  function FreeBit(used: set<nat>, first: nat, limit: nat): (l: nat)
    decreases limit - Pow2(first)
  {
    if Pow2(first) >= limit then 0
    else if Pow2(first) !in used then Pow2(first)
    else FreeBit(used, first + 1, limit)
  }

  lemma {:induction false} FreeBitIs(used: set<nat>, first: nat, limit: nat)
    ensures var l := FreeBit(used, first, limit);
      if l != 0 then InRange(l, first, limit) && l !in used && forall x: nat | InRange(x, first, l) :: x in used
      else forall x: nat | InRange(x, first, limit) :: x in used
    decreases limit - Pow2(first)
  {
    if Pow2(first) < limit && Pow2(first) in used {
      FreeBitIs(used, first + 1, limit);
      forall x: nat, limit | InRange(x, first, limit)
        ensures x == Pow2(first) || InRange(x, first + 1, limit)
      {
      }
    } else {
      NothingBelow(first);
      forall x: nat | InRange(x, first, limit)
        ensures Pow2(first) <= x < limit
      {
        var k: nat :| first <= k && x == Pow2(k) && x < limit;
        Pow2Compare(k, first);
      }
    }
  }

  /** The allocation loops of UmodeAdd, CmodeAdd and clicap_allocate_cap. */
  method FirstFreeBit(used: set<nat>, first: nat, limit: nat) returns (l: nat)
    ensures l == FreeBit(used, first, limit)
  {
    l := Pow2(first);
    ghost var k := first;
    while l < limit
      invariant first <= k && l == Pow2(k) && FreeBit(used, first, limit) == FreeBit(used, k, limit)
      decreases limit - l
    {
      if l !in used {
        return;
      }
      l := 2 * l;
      k := k + 1;
    }
    return 0;
  }

  /** Distinct bits below 2^(first + n) number at most n. */
  lemma {:induction false} AtMost(bits: seq<nat>, first: nat, n: nat)
    requires forall b | b in bits :: InRange(b, first, Pow2(first + n))
    requires forall i, j | 0 <= i < j < |bits| :: bits[i] != bits[j]
    ensures |bits| <= n
  {
    if n == 0 {
      if bits != [] {
        assert bits[0] in bits && first + n == first;
        NothingBelow(first);
        assert false;
      }
    } else {
      var top := Pow2(first + n - 1);
      if i :| 0 <= i < |bits| && bits[i] == top {
        var rest := bits[..i] + bits[i + 1..];
        BelowTop(bits, rest, first, n);
        AtMost(rest, first, n - 1);
      } else {
        BelowTop(bits, bits, first, n);
        AtMost(bits, first, n - 1);
      }
    }
  }

  lemma BelowTop(bits: seq<nat>, rest: seq<nat>, first: nat, n: nat)
    requires n > 0 && forall b | b in bits :: InRange(b, first, Pow2(first + n))
    requires forall b | b in rest :: b in bits && b != Pow2(first + n - 1)
    ensures forall b | b in rest :: InRange(b, first, Pow2(first + n - 1))
  {
    forall b | b in rest ensures InRange(b, first, Pow2(first + n - 1)) {
      var k: nat :| first <= k && b == Pow2(k) && b < Pow2(first + n);
      if k >= first + n {
        if k > first + n {
          Pow2Monotone(first + n, k);
        }
        assert false;
      }
      assert k < first + n - 1;
      Pow2Monotone(k, first + n - 1);
    }
  }
}
