/**
 The base32 encoder of backend/src/auth/mfa/totp.ts against section 6 of RFC 4648, unpadded. The
 accumulator is the unsigned reading of a 32-bit JavaScript integer: it is never masked, only wraps.
 */
module Base32 {
  import opened Arith
  import opened ByteMasks
  import opened Collections

  const BASE32_ALPHABET := "ABCDEFGHIJKLMNOPQRSTUVWXYZ234567"

  /** Its letters in order: A to Z, then 2 to 7. */
  function Letter(i: nat): (c: char)
    requires i < 32
  {
    if i < 26 then ('A' as int + i) as char else ('2' as int + i - 26) as char
  }

  method CharAt(i: nat) returns (c: char)
    requires i < 32
    ensures c == Letter(i)
  {
    c := BASE32_ALPHABET[i];
  }

  const WORD := 0x1_0000_0000

  // ---- 32-bit operators ----

  function ShiftLeft(x: nat, n: nat): nat {
    x * Pow2(n) % WORD
  }

  function ShiftRight(x: nat, n: nat): nat {
    Quotient(x, Pow2(n))
  }

  function BitOr(a: nat, b: nat): nat
    decreases a + b
  {
    if a == 0 then b else if b == 0 then a
    else 2 * BitOr(a / 2, b / 2) + if a % 2 == 1 || b % 2 == 1 then 1 else 0
  }

  // ---- Bits, most significant first ----

  type Bit = b: int | 0 <= b < 2

  function BitsOf(v: nat, width: nat): (bits: seq<Bit>)
    ensures |bits| == width
  {
    if width == 0 then [] else BitsOf(v / 2, width - 1) + [v % 2]
  }

  function NumberOf(bits: seq<Bit>): (v: nat)
    ensures v < Pow2(|bits|)
  {
    if bits == [] then 0 else 2 * NumberOf(bits[..|bits| - 1]) + bits[|bits| - 1]
  }

  function AllBits(bytes: seq<int>): (bits: seq<Bit>)
    requires Bytes(bytes)
    ensures |bits| == 8 * |bytes|
  {
    if bytes == [] then [] else AllBits(bytes[..|bytes| - 1]) + BitsOf(bytes[|bytes| - 1], 8)
  }

  function Padding(n: nat): (bits: seq<Bit>)
    ensures |bits| == n
  {
    if n == 0 then [] else Padding(n - 1) + [0]
  }

  /** Groups of five bits as numbers, the last one filled up with zeros. */
  function Quintets(bits: seq<Bit>): (q: seq<nat>)
    ensures forall i :: 0 <= i < |q| ==> q[i] < 32
    decreases |bits|
  {
    assert Pow2(5) == 32;
    if bits == [] then []
    else if |bits| < 5 then [NumberOf(bits + Padding(5 - |bits|))]
    else [NumberOf(bits[..5])] + Quintets(bits[5..])
  }

  function Letters(q: seq<nat>): (s: string)
    requires forall i :: 0 <= i < |q| ==> q[i] < 32
    ensures |s| == |q|
    ensures forall i :: 0 <= i < |q| ==> s[i] == Letter(q[i])
  {
    if q == [] then "" else [Letter(q[0])] + Letters(q[1..])
  }

  /** The unpadded encoding of section 6 of RFC 4648. */
  function Encoding(bytes: seq<int>): (s: string)
    requires Bytes(bytes)
  {
    Letters(Quintets(AllBits(bytes)))
  }

  // ---- Arithmetic of the accumulator ----

  /** The bits of a number are those above a position and those below it. */
  lemma {:induction false} BitsSplit(v: nat, high: nat, low: nat, m: nat, n: nat)
    requires v == high * Pow2(n) + low && low < Pow2(n)
    ensures BitsOf(v, m + n) == BitsOf(high, m) + BitsOf(low, n)
  {
    if n > 0 {
      Half(v, high, Pow2(n - 1), low);
      BitsSplit(v / 2, high, low / 2, m, n - 1);
      var a, b, c: seq<Bit> := BitsOf(high, m), BitsOf(low / 2, n - 1), [low % 2];
      assert a + b + c == a + (b + c);
    } else {
      assert BitsOf(v, m) + [] == BitsOf(v, m);
    }
  }

  lemma {:induction false} NumberOfBits(v: nat, width: nat)
    ensures NumberOf(BitsOf(v, width)) == v % Pow2(width)
  {
    if width > 0 {
      NumberOfBits(v / 2, width - 1);
      HalfRemainder(v, Pow2(width - 1));
      var bits := BitsOf(v, width);
      assert bits[..width - 1] == BitsOf(v / 2, width - 1);
    }
  }

  lemma {:induction false} BitsOfNumber(bits: seq<Bit>)
    ensures BitsOf(NumberOf(bits), |bits|) == bits
  {
    if bits != [] {
      BitsOfNumber(bits[..|bits| - 1]);
      assert bits == bits[..|bits| - 1] + [bits[|bits| - 1]];
    }
  }

  /** Wrapping at 32 bits loses no bit below. */
  lemma WrapKeepsLowBits(x: nat, n: nat)
    requires n <= 32
    ensures x % WORD % Pow2(n) == x % Pow2(n)
  {
    WordIsPow2();
    Pow2Add(32 - n, n);
    RemainderOfRemainder(x, Pow2(32 - n), Pow2(n), WORD);
  }

  lemma WordIsPow2()
    ensures Pow2(32) == WORD
  {
    Pow2Eight();
    Pow2Add(8, 8);
    Pow2Add(16, 16);
  }

  /** Only the low bits of a number show in its bits. */
  lemma LowBits(v: nat, width: nat)
    ensures BitsOf(v, width) == BitsOf(v % Pow2(width), width)
  {
    NumberOfBits(v, width);
    BitsOfNumber(BitsOf(v, width));
  }

  lemma RemainderOfRemainder(x: nat, k: nat, m: nat, w: nat)
    requires k >= 1 && m >= 1 && w == k * m
    ensures w >= 1 && x % w % m == x % m
  {
    assert k * m >= 1;
    var q, r := x / w, x % w;
    DivMod(x, w);
    DivMod(r, m);
    Regroup(q, k, r / m, m);
    UniqueRemainder(x, q * k + r / m, m, r % m);
  }

  lemma Doubled(a: int, p: int)
    ensures a * (2 * p) == 2 * (a * p)
  {
  }

  lemma {:induction false} OrOfDisjoint(a: nat, b: nat, n: nat)
    requires b < Pow2(n)
    ensures BitOr(a * Pow2(n), b) == a * Pow2(n) + b
  {
    NonNegativeProduct(a, Pow2(n));
    if n > 0 {
      OrOfDisjoint(a, b / 2, n - 1);
      Doubled(a, Pow2(n - 1));
    }
  }

  lemma ShiftIsMultiple(x: nat)
    ensures ShiftLeft(x, 8) == ShiftLeft(x, 8) / 256 * 256
  {
    Pow2Eight();
    WrapIsMultiple(x * 256);
  }

  lemma WrapIsMultiple(w: nat)
    requires w % 256 == 0
    ensures w % WORD % 256 == 0
  {
  }

  /** Pushing a byte appends its bits. */
  lemma PushByte(buffer: nat, bits: nat, byte: nat)
    requires bits <= 24 && byte < 256
    ensures BitsOf(BitOr(ShiftLeft(buffer, 8), byte), bits + 8) == BitsOf(buffer, bits) + BitsOf(byte, 8)
  {
    Pow2Eight();
    var high := ShiftLeft(buffer, 8) / 256;
    ShiftIsMultiple(buffer);
    DivMod(ShiftLeft(buffer, 8), 256);
    OrOfDisjoint(high, byte, 8);
    UniqueRemainder(high * 256 + byte, high, 256, byte);
    BitsSplit(high * 256 + byte, high, byte, bits, 8);
    // high is the buffer without the bits that wrapped away.
    WrapKeepsLowBits(buffer * 256, bits + 8);
    ByteAbove(buffer, high, bits);
    LowBits(high, bits);
    LowBits(buffer, bits);
  }

  lemma ByteAbove(x: nat, y: nat, bits: nat)
    requires y * 256 % Pow2(bits + 8) == x * 256 % Pow2(bits + 8)
    ensures y % Pow2(bits) == x % Pow2(bits)
  {
    TimesByte(x, bits);
    TimesByte(y, bits);
  }

  lemma TimesByte(x: nat, bits: nat)
    ensures x * 256 % Pow2(bits + 8) == 256 * (x % Pow2(bits))
  {
    RoundAboveByte(x, 0, bits);
    RoundDownIsMod(x * 256, bits + 8);
    RoundDownIsMod(x, bits);
  }

  /** Taking five bits off the top of those left. */
  lemma TakeQuintet(buffer: nat, bits: nat)
    requires bits >= 5
    ensures var q := BitAnd(ShiftRight(buffer, bits - 5), 31);
      q < 32 && BitsOf(buffer, bits) == BitsOf(q, 5) + BitsOf(buffer, bits - 5)
  {
    assert Pow2(5) == 32;
    OnesTakeRemainder(ShiftRight(buffer, bits - 5), 5);
    DivMod(buffer, Pow2(bits - 5));
    BitsSplit(buffer, buffer / Pow2(bits - 5), buffer % Pow2(bits - 5), 5, bits - 5);
    LowBits(ShiftRight(buffer, bits - 5), 5);
    LowBits(buffer, bits - 5);
  }

  lemma {:induction false} ShiftedBits(v: nat, width: nat, n: nat)
    ensures BitsOf(v * Pow2(n), width + n) == BitsOf(v, width) + Padding(n)
  {
    if n > 0 {
      ShiftedBits(v, width, n - 1);
      Doubled(v, Pow2(n - 1));
      assert BitsOf(v, width) + Padding(n - 1) + [0] == BitsOf(v, width) + Padding(n);
    } else {
      assert BitsOf(v, width) + [] == BitsOf(v, width);
    }
  }

  /** The last quintet is the bits left, filled up with zeros. */
  lemma TakeRest(buffer: nat, bits: nat)
    requires 0 < bits < 5
    ensures BitAnd(ShiftLeft(buffer, 5 - bits), 31) == NumberOf(BitsOf(buffer, bits) + Padding(5 - bits))
  {
    assert Pow2(5) == 32;
    var shifted := buffer * Pow2(5 - bits);
    OnesTakeRemainder(ShiftLeft(buffer, 5 - bits), 5);
    WrapKeepsLowBits(shifted, 5);
    ShiftedBits(buffer, bits, 5 - bits);
    NumberOfBits(shifted, 5);
  }

  // ---- Quintets of a growing bit string ----

  lemma FirstQuintet(bits: seq<Bit>)
    requires |bits| >= 5
    ensures NumberOf(bits[..5]) < 32
    ensures Quintets(bits) == [NumberOf(bits[..5])] + Quintets(bits[5..])
  {
    assert Pow2(5) == 32;
  }

  lemma {:induction false} QuintetsAppend(done: seq<Bit>, rest: seq<Bit>)
    requires |done| % 5 == 0
    ensures Quintets(done + rest) == Quintets(done) + Quintets(rest)
    decreases |done|
  {
    if done == [] {
      assert done + rest == rest;
    } else {
      var all, more := done + rest, done[5..];
      QuintetsAppend(more, rest);
      assert all[..5] == done[..5] && all[5..] == more + rest;
      FirstQuintet(done);
      FirstQuintet(all);
      ConsConcat(NumberOf(done[..5]), Quintets(more), Quintets(rest));
    }
  }

  lemma OneQuintet(bits: seq<Bit>)
    requires |bits| == 5
    ensures Quintets(bits) == [NumberOf(bits)]
  {
    FirstQuintet(bits);
    assert bits[..5] == bits && bits[5..] == [];
    assert Quintets([]) == [];
  }

  lemma {:induction false} LettersAppend(q: seq<nat>, x: nat)
    requires x < 32 && forall i :: 0 <= i < |q| ==> q[i] < 32
    ensures Letters(q + [x]) == Letters(q) + [Letter(x)]
  {
  }

  lemma NumberOfQuintet(q: nat)
    requires q < 32
    ensures NumberOf(BitsOf(q, 5)) == q
  {
    assert Pow2(5) == 32;
    NumberOfBits(q, 5);
  }

  lemma DoneGrows(done: seq<Bit>, bits: seq<Bit>, output: string)
    requires |done| % 5 == 0 && |bits| == 5 && output == Letters(Quintets(done))
    ensures NumberOf(bits) < 32 && output + [Letter(NumberOf(bits))] == Letters(Quintets(done + bits))
  {
    assert Pow2(5) == 32;
    QuintetsAppend(done, bits);
    OneQuintet(bits);
    LettersAppend(Quintets(done), NumberOf(bits));
  }

  /** The quintet of fewer than five bits. */
  lemma LastQuintet(bits: seq<Bit>)
    requires 0 < |bits| < 5
    ensures NumberOf(bits + Padding(5 - |bits|)) < 32
    ensures Quintets(bits) == [NumberOf(bits + Padding(5 - |bits|))]
  {
    assert Pow2(5) == 32;
  }

  lemma DoneAll(done: seq<Bit>, rest: seq<Bit>, output: string)
    requires |done| % 5 == 0 && |rest| < 5 && output == Letters(Quintets(done))
    ensures Letters(Quintets(done + rest)) ==
      if rest == [] then output else output + [Letter(Quintets(rest)[0])]
  {
    QuintetsAppend(done, rest);
    if rest == [] {
      assert Quintets(done) + [] == Quintets(done);
    } else {
      LastQuintet(rest);
      LettersAppend(Quintets(done), Quintets(rest)[0]);
    }
  }

  /** What the loops keep: the quintets of the bits done are printed, the other bits wait in the accumulator. */
  ghost predicate Holds(all: seq<Bit>, done: seq<Bit>, buffer: nat, bits: nat, output: string) {
    |done| % 5 == 0 && output == Letters(Quintets(done)) && all == done + BitsOf(buffer, bits)
  }

  lemma Regrouped(a: seq<Bit>, b: seq<Bit>, c: seq<Bit>, d: seq<Bit>)
    requires d == b + c
    ensures a + b + c == a + d
  {
  }

  lemma AfterPush(all: seq<Bit>, done: seq<Bit>, buffer: nat, bits: nat, byte: nat)
    requires all == done + BitsOf(buffer, bits) && bits <= 24 && byte < 256
    ensures all + BitsOf(byte, 8) == done + BitsOf(BitOr(ShiftLeft(buffer, 8), byte), bits + 8)
  {
    PushByte(buffer, bits, byte);
    Regrouped(done, BitsOf(buffer, bits), BitsOf(byte, 8), BitsOf(BitOr(ShiftLeft(buffer, 8), byte), bits + 8));
  }

  lemma AfterTake(all: seq<Bit>, done: seq<Bit>, buffer: nat, bits: nat, q: nat)
    requires all == done + BitsOf(buffer, bits) && bits >= 5 && q == BitAnd(ShiftRight(buffer, bits - 5), 31)
    ensures q < 32 && all == done + BitsOf(q, 5) + BitsOf(buffer, bits - 5)
  {
    TakeQuintet(buffer, bits);
    Regrouped(done, BitsOf(q, 5), BitsOf(buffer, bits - 5), BitsOf(buffer, bits));
  }

  lemma AfterPrint(done: seq<Bit>, output: string, q: nat)
    requires |done| % 5 == 0 && output == Letters(Quintets(done)) && q < 32
    ensures output + [Letter(q)] == Letters(Quintets(done + BitsOf(q, 5)))
  {
    NumberOfQuintet(q);
    DoneGrows(done, BitsOf(q, 5), output);
  }

  lemma AfterQuintet(all: seq<Bit>, done: seq<Bit>, buffer: nat, bits: nat, output: string, q: nat)
    returns (more: seq<Bit>)
    requires Holds(all, done, buffer, bits, output) && bits >= 5 && q == BitAnd(ShiftRight(buffer, bits - 5), 31)
    ensures q < 32 && Holds(all, more, buffer, bits - 5, output + [Letter(q)])
  {
    AfterTake(all, done, buffer, bits, q);
    AfterPrint(done, output, q);
    more := done + BitsOf(q, 5);
    FiveMore(|done|);
  }

  lemma FiveMore(n: nat)
    requires n % 5 == 0
    ensures (n + 5) % 5 == 0
  {
  }

  lemma AfterRest(all: seq<Bit>, done: seq<Bit>, buffer: nat, bits: nat, output: string)
    requires Holds(all, done, buffer, bits, output) && bits < 5
    ensures bits == 0 ==> output == Letters(Quintets(all))
    ensures bits > 0 ==>
      var q := BitAnd(ShiftLeft(buffer, 5 - bits), 31);
      q < 32 && output + [Letter(q)] == Letters(Quintets(all))
  {
    DoneAll(done, BitsOf(buffer, bits), output);
    if bits > 0 {
      TakeRest(buffer, bits);
      LastQuintet(BitsOf(buffer, bits));
    }
  }

  lemma AllBitsGrow(bytes: seq<int>, i: nat)
    requires Bytes(bytes) && i < |bytes|
    ensures AllBits(bytes[..i + 1]) == AllBits(bytes[..i]) + BitsOf(bytes[i], 8)
  {
    assert bytes[..i + 1][..i] == bytes[..i];
  }

  method Encode(bytes: seq<int>) returns (output: string)
    requires Bytes(bytes)
    ensures output == Encoding(bytes)
  {
    var bits: nat, buffer: nat := 0, 0;
    output := "";
    ghost var done: seq<Bit> := [];
    var i := 0;
    while i < |bytes|
      invariant 0 <= i <= |bytes| && bits < 5
      invariant Holds(AllBits(bytes[..i]), done, buffer, bits, output)
    {
      AfterPush(AllBits(bytes[..i]), done, buffer, bits, bytes[i]);
      AllBitsGrow(bytes, i);
      buffer := BitOr(ShiftLeft(buffer, 8), bytes[i]);
      bits := bits + 8;
      i := i + 1;
      while bits >= 5
        invariant bits < 13
        invariant Holds(AllBits(bytes[..i]), done, buffer, bits, output)
      {
        var q := BitAnd(ShiftRight(buffer, bits - 5), 31);
        done := AfterQuintet(AllBits(bytes[..i]), done, buffer, bits, output, q);
        var c := CharAt(q);
        output := output + [c];
        bits := bits - 5;
      }
    }
    assert bytes[..i] == bytes;
    AfterRest(AllBits(bytes), done, buffer, bits, output);
    if bits > 0 {
      var c := CharAt(BitAnd(ShiftLeft(buffer, 5 - bits), 31));
      output := output + [c];
    }
  }

  lemma {:induction false} QuintetCount(bits: seq<Bit>)
    ensures |Quintets(bits)| == (|bits| + 4) / 5
    decreases |bits|
  {
    if |bits| >= 5 {
      QuintetCount(bits[5..]);
    }
  }

  /** n bytes give ceil(8n / 5) letters. */
  lemma EncodingLength(bytes: seq<int>)
    requires Bytes(bytes)
    ensures |Encoding(bytes)| == (8 * |bytes| + 4) / 5
  {
    QuintetCount(AllBits(bytes));
  }

  // ---- Decoding ----

  function LetterIndex(c: char): nat {
    if 'A' <= c <= 'Z' then c as int - 'A' as int else if '2' <= c <= '7' then c as int - '2' as int + 26 else 0
  }

  function TextBits(s: string): seq<Bit> {
    if s == "" then [] else BitsOf(LetterIndex(s[0]), 5) + TextBits(s[1..])
  }

  /** Whole bytes; the bits left over are dropped. */
  function Octets(bits: seq<Bit>): seq<int>
    decreases |bits|
  {
    if |bits| < 8 then [] else [NumberOf(bits[..8])] + Octets(bits[8..])
  }

  function Decoding(s: string): seq<int> {
    Octets(TextBits(s))
  }

  lemma AlphabetIndex(i: nat)
    requires i < 32
    ensures LetterIndex(Letter(i)) == i
  {
  }

  lemma TextBitsOfLast(bits: seq<Bit>)
    requires 0 < |bits| < 5
    ensures TextBits(Letters(Quintets(bits))) == bits + Padding(5 - |bits|)
  {
    var filled := bits + Padding(5 - |bits|);
    LastQuintet(bits);
    BitsOfNumber(filled);
    AlphabetIndex(NumberOf(filled));
    assert Letters([NumberOf(filled)]) == [Letter(NumberOf(filled))];
    OneLetter(Letter(NumberOf(filled)));
  }

  lemma OneLetter(c: char)
    ensures TextBits([c]) == BitsOf(LetterIndex(c), 5)
  {
    assert [c][1..] == "";
    assert BitsOf(LetterIndex(c), 5) + [] == BitsOf(LetterIndex(c), 5);
  }

  lemma TextBitsOfFirst(bits: seq<Bit>)
    requires |bits| >= 5
    ensures TextBits(Letters(Quintets(bits))) == bits[..5] + TextBits(Letters(Quintets(bits[5..])))
  {
    FirstQuintet(bits);
    BitsOfNumber(bits[..5]);
    AlphabetIndex(NumberOf(bits[..5]));
    var q := Quintets(bits);
    assert q[0] == NumberOf(bits[..5]) && q[1..] == Quintets(bits[5..]);
    var s := Letters(q);
    assert s[0] == Letter(q[0]) && s[1..] == Letters(q[1..]);
  }

  /** How many zero bits fill the last quintet of n bits. */
  function Filling(n: nat): (f: nat)
    ensures f < 5
  {
    if n == 0 then 0 else if n < 5 then 5 - n else Filling(n - 5)
  }

  lemma RegroupedBits(a: seq<Bit>, b: seq<Bit>, bits: seq<Bit>, filling: seq<Bit>)
    requires bits == a + b
    ensures a + (b + filling) == bits + filling
  {
  }

  /** A text's bits are the bits that were encoded, and the filling. */
  lemma {:induction false} TextBitsOfLetters(bits: seq<Bit>)
    ensures TextBits(Letters(Quintets(bits))) == bits + Padding(Filling(|bits|))
    decreases |bits|
  {
    if bits == [] {
      assert Quintets(bits) == [];
    } else if |bits| < 5 {
      TextBitsOfLast(bits);
    } else {
      TextBitsOfFirst(bits);
      TextBitsOfLetters(bits[5..]);
      RegroupedBits(bits[..5], bits[5..], bits, Padding(Filling(|bits|)));
    }
  }

  lemma FirstOctet(first: seq<Bit>, more: seq<Bit>)
    requires |first| == 8
    ensures Octets(first + more) == [NumberOf(first)] + Octets(more)
  {
    assert (first + more)[..8] == first && (first + more)[8..] == more;
  }

  lemma {:induction false} OctetsOfBits(bytes: seq<int>, rest: seq<Bit>)
    requires Bytes(bytes) && |rest| < 8
    ensures Octets(AllBits(bytes) + rest) == bytes
    decreases |bytes|
  {
    if bytes == [] {
      assert AllBits(bytes) + rest == rest;
    } else {
      FirstByteBits(bytes);
      OctetsOfBits(bytes[1..], rest);
      NumberOfByte(bytes[0]);
      RegroupedBits(BitsOf(bytes[0], 8), AllBits(bytes[1..]), AllBits(bytes), rest);
      FirstOctet(BitsOf(bytes[0], 8), AllBits(bytes[1..]) + rest);
    }
  }

  lemma NumberOfByte(b: nat)
    requires b < 256
    ensures NumberOf(BitsOf(b, 8)) == b
  {
    Pow2Eight();
    NumberOfBits(b, 8);
  }

  lemma {:induction false} FirstByteBits(bytes: seq<int>)
    requires Bytes(bytes) && bytes != []
    ensures AllBits(bytes) == BitsOf(bytes[0], 8) + AllBits(bytes[1..])
    decreases |bytes|
  {
    var n := |bytes|;
    if n == 1 {
      assert bytes[..0] == [] && bytes[1..] == [];
    } else {
      FirstByteBits(bytes[..n - 1]);
      assert bytes[..n - 1][1..] == bytes[1..][..n - 2];
      var a, b, c := BitsOf(bytes[0], 8), AllBits(bytes[1..n - 1]), BitsOf(bytes[n - 1], 8);
      assert bytes[..n - 1][1..] == bytes[1..n - 1] && bytes[1..][..n - 2] == bytes[1..n - 1];
      assert a + b + c == a + (b + c);
    }
  }

  /** Decoding gives the bytes back. */
  lemma RoundTrip(bytes: seq<int>)
    requires Bytes(bytes)
    ensures Decoding(Encoding(bytes)) == bytes
  {
    var bits := AllBits(bytes);
    TextBitsOfLetters(bits);
    OctetsOfBits(bytes, Padding(Filling(|bits|)));
  }

  // ---- The letters, by arithmetic ----

  lemma {:induction false} NumberOfConcat(a: seq<Bit>, b: seq<Bit>)
    ensures NumberOf(a + b) == NumberOf(a) * Pow2(|b|) + NumberOf(b)
    decreases |b|
  {
    if b == [] {
      assert a + b == a && Pow2(0) == 1;
    } else {
      var n := |b| - 1;
      NumberOfConcat(a, b[..n]);
      assert (a + b)[..|a + b| - 1] == a + b[..n] && (a + b)[|a + b| - 1] == b[n];
      TwiceSum(NumberOf(a), Pow2(n), NumberOf(b[..n]));
    }
  }

  lemma TwiceSum(x: int, p: int, y: int)
    ensures 2 * (x * p + y) == x * (2 * p) + 2 * y
  {
  }

  lemma {:induction false} NumberOfAllBits(bytes: seq<int>)
    requires Bytes(bytes)
    ensures NumberOf(AllBits(bytes)) == ValueOf(bytes)
    decreases |bytes|
  {
    if bytes != [] {
      var n := |bytes| - 1;
      NumberOfAllBits(bytes[..n]);
      NumberOfByte(bytes[n]);
      ByteJoins(AllBits(bytes[..n]), BitsOf(bytes[n], 8), bytes[n]);
    }
  }

  lemma ByteJoins(front: seq<Bit>, bits: seq<Bit>, b: nat)
    requires |bits| == 8 && NumberOf(bits) == b
    ensures NumberOf(front + bits) == NumberOf(front) * 256 + b
  {
    Pow2Eight();
    NumberOfConcat(front, bits);
  }

  lemma {:induction false} PaddingIsZero(n: nat)
    ensures NumberOf(Padding(n)) == 0
  {
    if n > 0 {
      PaddingIsZero(n - 1);
      assert Padding(n)[..n - 1] == Padding(n - 1);
    }
  }

  /** The bits, filled up with zeros to n quintets. */
  function Filled(bits: seq<Bit>, n: nat): (filled: seq<Bit>)
    requires |bits| <= 5 * n
    ensures |filled| == 5 * n
  {
    bits + Padding(5 * n - |bits|)
  }

  lemma FilledTail(bits: seq<Bit>, n: nat, at: nat)
    requires 5 <= |bits| <= 5 * n && 5 <= at && at + 5 <= 5 * n
    ensures Filled(bits, n)[at..at + 5] == Filled(bits[5..], n - 1)[at - 5..at]
  {
    var filled, rest := Filled(bits, n), Filled(bits[5..], n - 1);
    assert filled == bits[..5] + rest;
    assert filled[5..] == rest && filled[at..at + 5] == filled[5..][at - 5..at];
  }

  /** Quintet i is the i-th five bits, the last ones filled up. */
  lemma {:induction false} QuintetAt(bits: seq<Bit>, i: nat, n: nat)
    requires i < n == |Quintets(bits)|
    ensures |bits| <= 5 * n < |bits| + 5 && Quintets(bits)[i] == NumberOf(Filled(bits, n)[5 * i..5 * i + 5])
    decreases |bits|
  {
    QuintetCount(bits);
    if |bits| < 5 {
      assert Filled(bits, n)[0..5] == Filled(bits, n) == bits + Padding(5 - |bits|);
    } else if i == 0 {
      assert Filled(bits, n)[0..5] == bits[..5];
    } else {
      QuintetAt(bits[5..], i - 1, n - 1);
      FilledTail(bits, n, 5 * i);
    }
  }

  /** Five bits of a number, with `low` bits after them. */
  lemma FiveBitsAt(w: seq<Bit>, at: nat, low: nat)
    requires at + 5 + low == |w|
    ensures NumberOf(w[at..at + 5]) == NumberOf(w) / Pow2(low) % 32
  {
    var a, q, c := w[..at], w[at..at + 5], w[at + 5..];
    assert w == a + q + c;
    NumberOfConcat(a + q, c);
    NumberOfConcat(a, q);
    assert Pow2(5) == 32;
    UniqueRemainder(NumberOf(w), NumberOf(a + q), Pow2(low), NumberOf(c));
    UniqueRemainder(NumberOf(a + q), NumberOf(a), 32, NumberOf(q));
  }

  lemma FilledNumber(bits: seq<Bit>, n: nat)
    requires |bits| <= 5 * n
    ensures NumberOf(Filled(bits, n)) == NumberOf(bits) * Pow2(5 * n - |bits|)
  {
    NumberOfConcat(bits, Padding(5 * n - |bits|));
    PaddingIsZero(5 * n - |bits|);
  }

  lemma QuintetNumber(bits: seq<Bit>, i: nat, n: nat, after: nat)
    requires i < n == |Quintets(bits)| && after == 5 * (n - 1 - i)
    ensures |bits| <= 5 * n < |bits| + 5
    ensures Quintets(bits)[i] == NumberOf(bits) * Pow2(5 * n - |bits|) / Pow2(after) % 32
  {
    QuintetAt(bits, i, n);
    FilledNumber(bits, n);
    FiveBitsAt(Filled(bits, n), 5 * i, after);
  }

  /**
   Letter i of an encoding, by arithmetic: the bytes are one number, filled up with zero bits to five for
   each letter, and the letter is the one that RFC 4648 gives for the i-th five bits of it.
   */
  lemma LetterExactly(bytes: seq<int>, i: nat, n: nat)
    requires Bytes(bytes) && i < n == |Encoding(bytes)|
    ensures 8 * |bytes| <= 5 * n < 8 * |bytes| + 5
    ensures var quintet := ValueOf(bytes) * Pow2(5 * n - 8 * |bytes|) / Pow2(5 * (n - 1 - i)) % 32;
      Encoding(bytes)[i] == "ABCDEFGHIJKLMNOPQRSTUVWXYZ234567"[quintet]
  {
    var bits := AllBits(bytes);
    QuintetNumber(bits, i, n, 5 * (n - 1 - i));
    NumberOfAllBits(bytes);
    LetterInAlphabet(Quintets(bits)[i]);
  }

  lemma LetterInAlphabet(q: nat)
    requires q < 32
    ensures Letter(q) == "ABCDEFGHIJKLMNOPQRSTUVWXYZ234567"[q]
  {
  }
}
