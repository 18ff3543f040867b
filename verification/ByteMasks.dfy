/** The byte masks of backend/src/auth/ip-allowlist.ts against arithmetic on whole addresses. */
module ByteMasks {
  import opened Arith

  /** The & of two non-negative numbers, bit by bit. */
  function BitAnd(a: nat, b: nat): nat {
    if a == 0 || b == 0 then 0
    else 2 * BitAnd(a / 2, b / 2) + if a % 2 == 1 && b % 2 == 1 then 1 else 0
  }

  predicate Bytes(bytes: seq<int>) {
    forall i :: 0 <= i < |bytes| ==> 0 <= bytes[i] < 256
  }

  /** How many leading bits of byte i a prefix keeps. */
  function Kept(prefix: nat, i: nat): (kept: nat)
    ensures kept <= 8
  {
    var rest := prefix - i * 8;
    if rest < 0 then 0 else if rest > 8 then 8 else rest
  }

  /** The mask (0xff << (8 - kept)) & 0xff. */
  function Mask(kept: nat): nat
    requires kept <= 8
  {
    BitAnd(0xff * Pow2(8 - kept), 0xff)
  }

  function MaskedAt(bytes: seq<int>, prefix: nat, i: nat): int
    requires Bytes(bytes) && i < |bytes|
  {
    BitAnd(bytes[i], Mask(Kept(prefix, i)))
  }

  /** The first `prefix` bits of an address, the rest zeroed. */
  function Network(bytes: seq<int>, prefix: nat): (start: seq<int>)
    requires Bytes(bytes)
    ensures |start| == |bytes|
  {
    seq(|bytes|, i requires 0 <= i < |bytes| => MaskedAt(bytes, prefix, i))
  }

  /** The address as one number, most significant byte first. */
  function ValueOf(bytes: seq<int>): int {
    if bytes == [] then 0 else ValueOf(bytes[..|bytes| - 1]) * 256 + bytes[|bytes| - 1]
  }

  /** v rounded down to a multiple of 2 ^ low. */
  function RoundDown(v: int, low: nat): int
    decreases low
  {
    if low == 0 then v else 2 * RoundDown(v / 2, low - 1)
  }

  lemma {:induction false} RoundDownIsMod(v: int, low: nat)
    ensures RoundDown(v, low) == v - v % Pow2(low)
    decreases low
  {
    if low == 0 {
      UniqueRemainder(v, v, 1, 0);
    } else {
      RoundDownIsMod(v / 2, low - 1);
      HalfRemainder(v, Pow2(low - 1));
    }
  }

  // ---- One byte ----

  lemma HalfRemainder(x: int, m: int)
    requires m >= 1
    ensures x % (2 * m) == 2 * (x / 2 % m) + x % 2
  {
    var h := x / 2;
    DivMod(h, m);
    UniqueRemainder(x, h / m, 2 * m, 2 * (h % m) + x % 2);
  }

  lemma AndByHalves(a: nat, b: nat)
    ensures BitAnd(a, b) == 2 * BitAnd(a / 2, b / 2) + if a % 2 == 1 && b % 2 == 1 then 1 else 0
  {
  }

  /** Masking off the low bits of an n-bit number rounds it down. */
  lemma {:induction false} MaskRoundsDown(x: nat, n: nat, low: nat)
    requires x < Pow2(n) && low <= n
    ensures Pow2(low) <= Pow2(n) && BitAnd(x, Pow2(n) - Pow2(low)) == RoundDown(x, low)
  {
    Pow2Grows(low, n);
    if n > 0 {
      var mask := Pow2(n) - Pow2(low);
      AndByHalves(x, mask);
      if low > 0 {
        MaskRoundsDown(x / 2, n - 1, low - 1);
        assert mask / 2 == Pow2(n - 1) - Pow2(low - 1) && mask % 2 == 0;
      } else {
        MaskRoundsDown(x / 2, n - 1, 0);
        assert mask / 2 == Pow2(n - 1) - 1 && mask % 2 == 1;
      }
    }
  }

  /** Masking with n ones keeps what rounding down drops. */
  lemma {:induction false} OnesKeepLow(a: nat, n: nat)
    ensures BitAnd(a, Pow2(n) - 1) == a - RoundDown(a, n)
  {
    if n > 0 {
      var ones := Pow2(n) - 1;
      OnesKeepLow(a / 2, n - 1);
      AndByHalves(a, ones);
      assert ones / 2 == Pow2(n - 1) - 1 && ones % 2 == 1;
    }
  }

  lemma OnesTakeRemainder(a: nat, n: nat)
    ensures BitAnd(a, Pow2(n) - 1) == a % Pow2(n)
  {
    OnesKeepLow(a, n);
    RoundDownIsMod(a, n);
  }

  lemma RoundByFour(v: int, low: nat)
    ensures RoundDown(v, low + 4) == 16 * RoundDown(v / 16, low)
  {
    assert RoundDown(v, low + 4) == 2 * RoundDown(v / 2, low + 3);
    assert RoundDown(v / 2, low + 3) == 2 * RoundDown(v / 4, low + 2);
    assert RoundDown(v / 4, low + 2) == 2 * RoundDown(v / 8, low + 1);
    assert RoundDown(v / 8, low + 1) == 2 * RoundDown(v / 16, low);
  }

  /** Rounding past a byte rounds what stands before it. */
  lemma RoundAboveByte(q: int, b: int, low: nat)
    requires 0 <= b < 256
    ensures RoundDown(q * 256 + b, low + 8) == 256 * RoundDown(q, low)
  {
    RoundByFour(q * 256 + b, low + 4);
    RoundByFour((q * 256 + b) / 16, low);
    assert (q * 256 + b) / 16 / 16 == q;
  }

  /** The mask of a byte is its kept leading bits. */
  lemma MaskIsHighBits(kept: nat)
    requires kept <= 8
    ensures Mask(kept) + Pow2(8 - kept) == 256
  {
    Pow2Eight();
    Pow2Grows(8 - kept, 8);
    HighBits(Pow2(8 - kept), 8, 0xff);
  }

  lemma HighBits(p: nat, n: nat, ones: nat)
    requires 1 <= p <= 256 && n == 8 && Pow2(n) == ones + 1 == 256
    ensures BitAnd(0xff * p, ones) + p == 256
  {
    OnesKeepLow(0xff * p, n);
    RoundAboveByte(p - 1, 256 - p, n - 8);
  }

  lemma MaskedByte(b: nat, kept: nat, low: nat, mask: nat)
    requires b < 256 && kept + low == 8 && mask == Mask(kept)
    ensures BitAnd(b, mask) == RoundDown(b, low)
  {
    Pow2Eight();
    MaskIsHighBits(kept);
    MaskRoundsDown(b, 8, low);
  }

  // ---- The whole address ----

  /** The block starts within the new last byte. */
  lemma {:induction false} RoundWithin(q: int, p: int, n: nat, b: int, low: nat)
    requires low <= n && p == Pow2(n)
    ensures RoundDown(q * p + b, low) == q * p + RoundDown(b, low)
    decreases low
  {
    if low > 0 {
      Half(q * p + b, q, Pow2(n - 1), b);
      RoundWithin(q, Pow2(n - 1), n - 1, b / 2, low - 1);
      assert q * p == 2 * (q * Pow2(n - 1));
    }
  }

  lemma RoundWithinByte(q: int, b: int, low: nat)
    requires low <= 8
    ensures RoundDown(q * 256 + b, low) == q * 256 + RoundDown(b, low)
  {
    Pow2Eight();
    RoundWithin(q, 256, 8, b, low);
  }

  lemma {:induction false} RoundDownBounds(v: int, low: nat)
    requires v >= 0
    ensures 0 <= RoundDown(v, low) <= v
  {
    if low > 0 {
      RoundDownBounds(v / 2, low - 1);
    }
  }

  /** Each byte rounded down by the bits its position does not keep. */
  predicate PerByte(bytes: seq<int>, start: seq<int>, prefix: nat) {
    |start| == |bytes| && forall i :: 0 <= i < |bytes| ==> start[i] == RoundDown(bytes[i], 8 - Kept(prefix, i))
  }

  lemma NetworkIsPerByte(bytes: seq<int>, prefix: nat)
    requires Bytes(bytes)
    ensures PerByte(bytes, Network(bytes, prefix), prefix)
  {
    var start := Network(bytes, prefix);
    forall i | 0 <= i < |bytes| ensures start[i] == RoundDown(bytes[i], 8 - Kept(prefix, i)) {
      MaskedByte(bytes[i], Kept(prefix, i), 8 - Kept(prefix, i), Mask(Kept(prefix, i)));
    }
  }

  lemma WholeBytesKept(bytes: seq<int>, start: seq<int>, prefix: nat)
    requires PerByte(bytes, start, prefix) && prefix >= 8 * |bytes|
    ensures start == bytes
  {
  }

  lemma PerByteWithin(init: seq<int>, b: int, start: seq<int>, s: int, prefix: nat, low: nat)
    requires Bytes(init) && 0 <= b < 256 && low <= 8 && prefix + low == 8 * |init| + 8
    requires PerByte(init, start, prefix) && s == RoundDown(b, low)
    ensures Bytes(start) && ValueOf(start) * 256 + s == RoundDown(ValueOf(init) * 256 + b, low)
  {
    WholeBytesKept(init, start, prefix);
    RoundWithinByte(ValueOf(init), b, low);
  }

  lemma LastByteZero(b: int, s: int)
    requires 0 <= b < 256 && s == RoundDown(b, 8)
    ensures s == 0
  {
    RoundAboveByte(0, b, 0);
  }

  lemma PerByteAbove(init: seq<int>, b: int, start: seq<int>, s: int, low: nat, cut: nat)
    requires 0 <= b < 256 && low >= cut == 8 && s == RoundDown(b, cut)
    requires ValueOf(start) == RoundDown(ValueOf(init), low - 8)
    ensures s == 0 && ValueOf(start) * 256 + s == RoundDown(ValueOf(init) * 256 + b, low)
  {
    LastByteZero(b, s);
    RoundAboveByte(ValueOf(init), b, low - 8);
  }

  lemma PerByteSplits(bytes: seq<int>, start: seq<int>, prefix: nat, n: nat) returns (cut: nat)
    requires PerByte(bytes, start, prefix) && |bytes| == n + 1
    ensures PerByte(bytes[..n], start[..n], prefix)
    ensures cut == 8 - Kept(prefix, n) && start[n] == RoundDown(bytes[n], cut)
  {
    cut := 8 - Kept(prefix, n);
  }

  lemma BytesExtend(init: seq<int>, b: int, bytes: seq<int>)
    requires bytes == init + [b] && Bytes(init) && 0 <= b < 256
    ensures Bytes(bytes) && ValueOf(bytes) == ValueOf(init) * 256 + b
  {
    assert bytes[..|bytes| - 1] == init;
  }

  lemma {:induction false} PerByteRoundsDown(bytes: seq<int>, start: seq<int>, prefix: nat, low: nat)
    requires Bytes(bytes) && PerByte(bytes, start, prefix) && prefix + low == 8 * |bytes|
    ensures Bytes(start) && ValueOf(start) == RoundDown(ValueOf(bytes), low)
  {
    if bytes != [] {
      var n := |bytes| - 1;
      var init, b, rounded, s := bytes[..n], bytes[n], start[..n], start[n];
      var cut := PerByteSplits(bytes, start, prefix, n);
      if low <= 8 {
        RoundDownBounds(b, cut);
        PerByteWithin(init, b, rounded, s, prefix, low);
      } else {
        PerByteRoundsDown(init, rounded, prefix, low - 8);
        PerByteAbove(init, b, rounded, s, low, cut);
      }
      BytesExtend(rounded, s, start);
      BytesExtend(init, b, bytes);
    }
  }

  /** The masked bytes are the address rounded down to a multiple of 2 ^ low, low being the bits past the prefix. */
  lemma NetworkRoundsDown(bytes: seq<int>, prefix: nat, low: nat)
    requires Bytes(bytes) && prefix + low == 8 * |bytes|
    ensures Bytes(Network(bytes, prefix)) && ValueOf(Network(bytes, prefix)) == RoundDown(ValueOf(bytes), low)
  {
    NetworkIsPerByte(bytes, prefix);
    PerByteRoundsDown(bytes, Network(bytes, prefix), prefix, low);
  }

  /** Different bytes, different numbers. */
  lemma {:induction false} ValueIsInjective(a: seq<int>, b: seq<int>)
    requires Bytes(a) && Bytes(b) && |a| == |b|
    ensures ValueOf(a) == ValueOf(b) <==> a == b
  {
    if a != [] {
      var i, j := a[..|a| - 1], b[..|b| - 1];
      ValueIsInjective(i, j);
      assert a == i + [a[|a| - 1]] && b == j + [b[|b| - 1]];
    }
  }

  /** Two numbers round down to the same multiple exactly when one lies in the other's block. */
  lemma SameBlock(v: int, w: int, low: nat)
    ensures RoundDown(v, low) == RoundDown(w, low) <==> RoundDown(w, low) <= v < RoundDown(w, low) + Pow2(low)
  {
    RoundDownIsMod(v, low);
    RoundDownIsMod(w, low);
    SameMultiple(v, w, Pow2(low));
  }

  lemma SameMultiple(v: int, w: int, m: int)
    requires m >= 1
    ensures v - v % m == w - w % m <==> w - w % m <= v < w - w % m + m
  {
    DivMod(v, m);
    DivMod(w, m);
    if w - w % m <= v < w - w % m + m {
      UniqueRemainder(v, w / m, m, v - (w - w % m));
    }
  }

  /** Two addresses have the same network exactly when one lies in the block of the other. */
  lemma SameNetworkIsInterval(address: seq<int>, start: seq<int>, prefix: nat, low: nat)
    requires Bytes(address) && Bytes(start) && |address| == |start| && prefix + low == 8 * |start|
    ensures Network(address, prefix) == Network(start, prefix) <==>
      ValueOf(Network(start, prefix)) <= ValueOf(address) < ValueOf(Network(start, prefix)) + Pow2(low)
  {
    NetworkRoundsDown(address, prefix, low);
    NetworkRoundsDown(start, prefix, low);
    ValueIsInjective(Network(address, prefix), Network(start, prefix));
    SameBlock(ValueOf(address), ValueOf(start), low);
  }

  /** An address is the start of its block exactly when no host bit is set. */
  lemma StartHasNoHostBits(bytes: seq<int>, prefix: nat, low: nat)
    requires Bytes(bytes) && prefix + low == 8 * |bytes|
    ensures Network(bytes, prefix) == bytes <==> ValueOf(bytes) % Pow2(low) == 0
  {
    NetworkRoundsDown(bytes, prefix, low);
    ValueIsInjective(Network(bytes, prefix), bytes);
    RoundDownIsMod(ValueOf(bytes), low);
  }

  lemma {:induction false} RoundDownTwice(v: int, low: nat)
    ensures RoundDown(RoundDown(v, low), low) == RoundDown(v, low)
    decreases low
  {
    if low > 0 {
      RoundDownTwice(v / 2, low - 1);
    }
  }

  /** The start of a block is the start of its own block. */
  lemma StartIsStart(bytes: seq<int>, prefix: nat)
    requires Bytes(bytes) && prefix <= 8 * |bytes|
    ensures Bytes(Network(bytes, prefix)) && Network(Network(bytes, prefix), prefix) == Network(bytes, prefix)
  {
    var start, low := Network(bytes, prefix), 8 * |bytes| - prefix;
    NetworkRoundsDown(bytes, prefix, low);
    NetworkRoundsDown(start, prefix, low);
    RoundDownTwice(ValueOf(bytes), low);
    ValueIsInjective(Network(start, prefix), start);
  }
}
