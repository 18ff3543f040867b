/**
 IP allowlist ranges (backend/src/auth/ip-allowlist.ts): reading a range into its canonical CIDR and
 matching addresses against it. The URL parser that canonicalises IPv6 is a parameter.
 */
module IpRanges {
  import opened Collections
  import opened Options
  import opened Text
  import opened Arith
  import opened ByteMasks

  datatype Family = Ipv4 | Ipv6

  function Bits(family: Family): nat {
    if family.Ipv4? then 32 else 128
  }

  // ---- Numbers in text ----

  predicate IsDigit(c: char) {
    '0' <= c <= '9'
  }

  predicate AllDigits(s: string) {
    forall i :: 0 <= i < |s| ==> IsDigit(s[i])
  }

  function Number(s: string): nat
    requires AllDigits(s)
  {
    if s == "" then 0 else Number(s[..|s| - 1]) * 10 + (s[|s| - 1] as int - '0' as int)
  }

  function Decimal(n: nat): string {
    var last := [('0' as int + n % 10) as char];
    if n < 10 then last else Decimal(n / 10) + last
  }

  lemma {:induction false} DecimalReadsBack(n: nat)
    ensures Decimal(n) != "" && AllDigits(Decimal(n)) && Number(Decimal(n)) == n
    ensures n > 0 ==> Decimal(n)[0] != '0'
    ensures n < 10 ==> |Decimal(n)| == 1
    ensures 10 <= n < 100 ==> |Decimal(n)| == 2
    ensures 100 <= n < 1000 ==> |Decimal(n)| == 3
  {
    var s := Decimal(n);
    if n < 10 {
      assert s[..0] == "";
    } else {
      DecimalReadsBack(n / 10);
      assert s[..|s| - 1] == Decimal(n / 10);
    }
  }

  predicate IsHex(c: char) {
    IsDigit(c) || 'a' <= c <= 'f'
  }

  predicate HexGroup(s: string) {
    1 <= |s| <= 4 && forall i :: 0 <= i < |s| ==> IsHex(s[i])
  }

  function HexDigit(c: char): nat {
    if IsDigit(c) then c as int - '0' as int else if 'a' <= c <= 'f' then c as int - 'a' as int + 10 else 0
  }

  /** parseInt(group, 16). */
  function HexValue(s: string): nat {
    if s == "" then 0 else HexValue(s[..|s| - 1]) * 16 + HexDigit(s[|s| - 1])
  }

  function Hex(n: nat): string {
    var last := [if n % 16 < 10 then ('0' as int + n % 16) as char else ('a' as int + n % 16 - 10) as char];
    if n < 16 then last else Hex(n / 16) + last
  }

  lemma {:induction false} HexValueBound(s: string, n: nat)
    requires |s| <= n
    ensures HexValue(s) < Pow2(4 * n)
  {
    if s != "" {
      HexValueBound(s[..|s| - 1], n - 1);
      assert Pow2(4 * n) == 16 * Pow2(4 * (n - 1)) by {
        assert Pow2(4) == 16;
        Pow2Add(4, 4 * (n - 1));
      }
    } else {
      Pow2Grows(0, 4 * n);
      assert Pow2(0) == 1;
    }
  }

  // ---- Addresses ----

  predicate OctetShape(s: string) {
    s == "0" || (1 <= |s| <= 3 && s[0] != '0' && AllDigits(s))
  }

  /** The IPV4 pattern: four numbers without leading zeros. */
  predicate Ipv4Shape(address: string) {
    var octets := Split(address, '.');
    |octets| == 4 && forall i :: 0 <= i < 4 ==> OctetShape(octets[i])
  }

  function Numbers(parts: seq<string>): (r: seq<int>)
    requires forall i :: 0 <= i < |parts| ==> AllDigits(parts[i])
    ensures |r| == |parts|
    ensures forall i :: 0 <= i < |parts| ==> r[i] == Number(parts[i])
  {
    if parts == [] then [] else [Number(parts[0])] + Numbers(parts[1..])
  }

  predicate IsF(c: char) {
    c == 'f' || c == 'F'
  }

  /** The MAPPED_V4 pattern, in either case. */
  predicate MappedShape(address: string) {
    && |address| >= 7 && address[..2] == "::" && address[6] == ':'
    && IsF(address[2]) && IsF(address[3]) && IsF(address[4]) && IsF(address[5])
    && var parts := Split(address[7..], '.');
       |parts| == 4 && forall i :: 0 <= i < 4 ==> 1 <= |parts[i]| <= 3 && AllDigits(parts[i])
  }

  function UnwrapMappedIpv4(address: string): string {
    if MappedShape(address) then address[7..] else address
  }

  type UrlParser = string -> Option<string>

  function CanonicalIpv6(url: UrlParser, address: string): Option<string> {
    if ':' !in address || '[' in address || ']' in address || '%' in address || '/' in address then None
    else url(address)
  }

  function IpFamily(url: UrlParser, address: string): Option<Family> {
    if Ipv4Shape(address) then
      var octets := Split(address, '.');
      if forall i :: 0 <= i < 4 ==> Number(octets[i]) <= 255 then Some(Ipv4) else None
    else if CanonicalIpv6(url, address).None? then None
    else Some(Ipv6)
  }

  function Filled(groups: seq<string>): seq<string> {
    if groups == [] then []
    else if groups[0] == "" then Filled(groups[1..])
    else [groups[0]] + Filled(groups[1..])
  }

  function FirstEmpty(groups: seq<string>): (i: nat)
    ensures i <= |groups|
    ensures i < |groups| ==> groups[i] == ""
  {
    if groups == [] || groups[0] == "" then 0 else 1 + FirstEmpty(groups[1..])
  }

  function Zeros(n: int): seq<string> {
    if n <= 0 then [] else ["0"] + Zeros(n - 1)
  }

  /** The eight groups of a canonical address, its gap filled. */
  function Expanded(groups: seq<string>): seq<string> {
    var gap := FirstEmpty(groups);
    if gap == |groups| then groups
    else FillGap(Filled(groups[..gap]), Filled(groups[gap..]), |Filled(groups)|)
  }

  function FillGap(left: seq<string>, right: seq<string>, present: nat): seq<string> {
    left + Zeros(8 - present) + right
  }

  function GroupBytes(groups: seq<string>): seq<int> {
    if groups == [] then []
    else [HexValue(groups[0]) / 256, BitAnd(HexValue(groups[0]), 0xff)] + GroupBytes(groups[1..])
  }

  function ToBytes(url: UrlParser, address: string, family: Family): seq<int>
    requires family.Ipv4? ==> Ipv4Shape(address)
  {
    if family.Ipv4? then Numbers(Split(address, '.'))
    else
      var canonical := CanonicalIpv6(url, address);
      GroupBytes(Expanded(Split(if canonical.Some? then canonical.value else "", ':')))
  }

  function Octets(bytes: seq<int>): (parts: seq<string>)
    requires Bytes(bytes)
    ensures |parts| == |bytes|
    ensures forall i :: 0 <= i < |bytes| ==> parts[i] == Decimal(bytes[i])
  {
    if bytes == [] then [] else [Decimal(bytes[0])] + Octets(bytes[1..])
  }

  function HexGroups(bytes: seq<int>): seq<string>
    requires Bytes(bytes)
  {
    if |bytes| < 2 then [] else [Hex(bytes[0] * 256 + bytes[1])] + HexGroups(bytes[2..])
  }

  function FromBytes(url: UrlParser, bytes: seq<int>, family: Family): string
    requires Bytes(bytes)
  {
    if family.Ipv4? then Join(Octets(bytes), '.')
    else
      var joined := Join(HexGroups(bytes), ':');
      var canonical := CanonicalIpv6(url, joined);
      if canonical.Some? then canonical.value else joined
  }

  // ---- What the URL parser is taken to do ----

  predicate AllHexGroups(groups: seq<string>) {
    forall i :: 0 <= i < |groups| ==> HexGroup(groups[i])
  }

  ghost predicate HasGap(groups: seq<string>, left: seq<string>, right: seq<string>) {
    && groups == OrEmpty(left) + ([""] + OrEmpty(right))
    && |left| + |right| <= 7
    && AllHexGroups(left) && AllHexGroups(right)
  }

  ghost predicate CanonicalGroups(groups: seq<string>) {
    (|groups| == 8 && AllHexGroups(groups)) || exists left, right :: HasGap(groups, left, right)
  }

  /** A canonical address: lower-case groups, eight of them or fewer around one gap. */
  ghost predicate Canonical(c: string) {
    && (forall i :: 0 <= i < |c| ==> IsHex(c[i]) || c[i] == ':')
    && CanonicalGroups(Split(c, ':'))
  }

  ghost predicate Lawful(url: UrlParser) {
    && (forall s :: CanonicalIpv6(url, s).Some? ==> Canonical(CanonicalIpv6(url, s).value))
    && (forall s :: CanonicalIpv6(url, s).Some? ==>
          CanonicalIpv6(url, CanonicalIpv6(url, s).value) == CanonicalIpv6(url, s))
    && (forall bytes :: Bytes(bytes) && |bytes| == 16 ==> Prints(url, bytes))
  }

  /** The eight groups fromBytes writes name the address they were made of. */
  ghost predicate Prints(url: UrlParser, bytes: seq<int>)
    requires Bytes(bytes)
  {
    CanonicalIpv6(url, Join(HexGroups(bytes), ':')).Some? &&
    ToBytes(url, Join(HexGroups(bytes), ':'), Ipv6) == bytes
  }

  // ---- Bytes of an address ----

  predicate Width(bytes: seq<int>, family: Family) {
    Bytes(bytes) && 8 * |bytes| == Bits(family)
  }

  lemma {:induction false} FilledOfFilled(groups: seq<string>)
    requires forall i :: 0 <= i < |groups| ==> HexGroup(groups[i])
    ensures Filled(groups) == groups && FirstEmpty(groups) == |groups|
  {
    if groups != [] {
      FilledOfFilled(groups[1..]);
    }
  }

  lemma {:induction false} FilledConcat(a: seq<string>, b: seq<string>)
    ensures Filled(a + b) == Filled(a) + Filled(b)
  {
    if a == [] {
      assert a + b == b;
    } else {
      FilledConcat(a[1..], b);
      assert (a + b)[0] == a[0] && (a + b)[1..] == a[1..] + b;
      ConsConcat(a[0], Filled(a[1..]), Filled(b));
    }
  }

  lemma {:induction false} FirstEmptyAfter(a: seq<string>, b: seq<string>)
    requires (forall i :: 0 <= i < |a| ==> HexGroup(a[i])) && b != [] && b[0] == ""
    ensures FirstEmpty(a + b) == |a|
  {
    if a == [] {
      assert a + b == b;
    } else {
      assert (a + b)[1..] == a[1..] + b;
      FirstEmptyAfter(a[1..], b);
    }
  }

  lemma {:induction false} ZerosAre(n: nat)
    ensures |Zeros(n)| == n && forall i :: 0 <= i < n ==> Zeros(n)[i] == "0"
  {
    if n > 0 {
      ZerosAre(n - 1);
    }
  }

  function OrEmpty(side: seq<string>): seq<string> {
    if side == [] then [""] else side
  }

  lemma FilledSide(side: seq<string>)
    requires forall i :: 0 <= i < |side| ==> HexGroup(side[i])
    ensures Filled(OrEmpty(side)) == side && Filled([""] + OrEmpty(side)) == side
  {
    FilledOfFilled(side);
    assert ([""] + OrEmpty(side))[1..] == OrEmpty(side);
    if side == [] {
      assert [""][1..] == [];
    }
  }

  /** The gap starts after the left side, or with it when that is empty. */
  lemma GapPosition(left: seq<string>, right: seq<string>)
    requires forall i :: 0 <= i < |left| ==> HexGroup(left[i])
    ensures var groups := OrEmpty(left) + ([""] + OrEmpty(right));
      && FirstEmpty(groups) == |left| < |groups|
      && groups[..|left|] == left
      && groups[|left|..] == (if left == [] then [""] else []) + ([""] + OrEmpty(right))
  {
    var tail := [""] + OrEmpty(right);
    if left == [] {
      assert (OrEmpty(left) + tail)[0] == "";
    } else {
      FirstEmptyAfter(left, tail);
    }
  }

  /** From the gap on, only the right side has groups. */
  lemma FilledFromGap(left: seq<string>, right: seq<string>)
    requires forall i :: 0 <= i < |right| ==> HexGroup(right[i])
    ensures Filled((if left == [] then [""] else []) + ([""] + OrEmpty(right))) == right
  {
    var tail := [""] + OrEmpty(right);
    FilledSide(right);
    if left == [] {
      assert ([""] + tail)[1..] == tail;
    } else {
      assert [] + tail == tail;
    }
  }

  lemma ExpandAtGap(groups: seq<string>, gap: nat, left: seq<string>, right: seq<string>)
    requires FirstEmpty(groups) == gap < |groups| && |Filled(groups)| == |left| + |right| <= 8
    requires Filled(groups[..gap]) == left && Filled(groups[gap..]) == right
    ensures Expanded(groups) == FillGap(left, right, |left| + |right|)
  {
  }

  lemma GapSlices(left: seq<string>, right: seq<string>)
    requires forall i :: 0 <= i < |left| ==> HexGroup(left[i])
    requires forall i :: 0 <= i < |right| ==> HexGroup(right[i])
    ensures var groups := OrEmpty(left) + ([""] + OrEmpty(right));
      && FirstEmpty(groups) == |left| < |groups| && |Filled(groups)| == |left| + |right|
      && Filled(groups[..|left|]) == left && Filled(groups[|left|..]) == right
  {
    GapPosition(left, right);
    FilledSide(left);
    FilledSide(right);
    FilledConcat(OrEmpty(left), [""] + OrEmpty(right));
    FilledOfFilled(left);
    FilledFromGap(left, right);
  }

  /**
   "::" stands for the zero groups that are missing from eight: the eight groups begin with those before
   it, end with those after it, and are zero in between.
   */
  lemma GapIsFilled(groups: seq<string>, left: seq<string>, right: seq<string>)
    requires HasGap(groups, left, right)
    ensures |Expanded(groups)| == 8 && AllHexGroups(Expanded(groups))
    ensures Expanded(groups)[..|left|] == left && Expanded(groups)[8 - |right|..] == right
    ensures forall i :: |left| <= i < 8 - |right| ==> Expanded(groups)[i] == "0"
  {
    GapSlices(left, right);
    ExpandAtGap(groups, |left|, left, right);
    FilledGap(left, right);
  }

  lemma {:induction false} GroupBytesAre(groups: seq<string>)
    requires forall i :: 0 <= i < |groups| ==> HexGroup(groups[i])
    ensures |GroupBytes(groups)| == 2 * |groups| && Bytes(GroupBytes(groups))
  {
    if groups != [] {
      var v := HexValue(groups[0]);
      GroupBytesAre(groups[1..]);
      HexValueBound(groups[0], 4);
      assert Pow2(8) == 256;
      Pow2Add(8, 8);
      OnesTakeRemainder(v, 8);
    }
  }

  lemma FilledGap(left: seq<string>, right: seq<string>)
    requires AllHexGroups(left) && AllHexGroups(right) && |left| + |right| <= 8
    ensures var eight := FillGap(left, right, |left| + |right|);
      && |eight| == 8 && AllHexGroups(eight) && eight[..|left|] == left && eight[8 - |right|..] == right
      && forall i :: |left| <= i < 8 - |right| ==> eight[i] == "0"
  {
    ZerosAre(8 - |left| - |right|);
  }

  lemma ExpandedIsEightGroups(groups: seq<string>)
    requires CanonicalGroups(groups)
    ensures |Expanded(groups)| == 8 && AllHexGroups(Expanded(groups))
  {
    if |groups| == 8 && AllHexGroups(groups) {
      FilledOfFilled(groups);
    } else {
      var left, right :| HasGap(groups, left, right);
      GapIsFilled(groups, left, right);
    }
  }

  /** Each group is two bytes, the high one first. */
  lemma {:induction false} GroupBytesAt(groups: seq<string>, i: nat)
    requires i < |groups| && forall k :: 0 <= k < |groups| ==> HexGroup(groups[k])
    ensures |GroupBytes(groups)| == 2 * |groups| && Bytes(GroupBytes(groups))
    ensures 256 * GroupBytes(groups)[2 * i] + GroupBytes(groups)[2 * i + 1] == HexValue(groups[i])
  {
    GroupBytesAre(groups);
    var v := HexValue(groups[0]);
    assert Pow2(8) == 256;
    OnesTakeRemainder(v, 8);
    if i > 0 {
      GroupBytesAt(groups[1..], i - 1);
      assert GroupBytes(groups)[2..] == GroupBytes(groups[1..]);
    }
  }

  /** Group i of the eight that an address with "::" stands for. */
  function WrittenOut(left: seq<string>, right: seq<string>, i: nat): string
    requires |left| + |right| <= 8 && i < 8
  {
    if i < |left| then left[i] else if i < 8 - |right| then "0" else right[i - (8 - |right|)]
  }

  /** The bytes of an address with "::" are those of the eight groups written out. */
  lemma GappedAddressIsWrittenOut(url: UrlParser, address: string, left: seq<string>, right: seq<string>)
    requires CanonicalIpv6(url, address).Some?
    requires HasGap(Split(CanonicalIpv6(url, address).value, ':'), left, right)
    ensures var bytes := ToBytes(url, address, Ipv6);
      && |bytes| == 16 && Bytes(bytes)
      && forall i :: 0 <= i < 8 ==> 256 * bytes[2 * i] + bytes[2 * i + 1] == HexValue(WrittenOut(left, right, i))
  {
    var groups := Split(CanonicalIpv6(url, address).value, ':');
    var eight := Expanded(groups);
    GapIsFilled(groups, left, right);
    GroupBytesAre(eight);
    forall i | 0 <= i < 8
      ensures 256 * GroupBytes(eight)[2 * i] + GroupBytes(eight)[2 * i + 1] == HexValue(WrittenOut(left, right, i))
    {
      GroupBytesAt(eight, i);
      assert i < |left| ==> eight[..|left|][i] == eight[i];
      assert i >= 8 - |right| ==> eight[8 - |right|..][i - (8 - |right|)] == eight[i];
    }
  }

  /** So it is the same address as one whose eight groups are all there. */
  lemma GappedAddressIsTheSame(url: UrlParser, address: string, whole: string, left: seq<string>, right: seq<string>)
    requires CanonicalIpv6(url, address).Some? && CanonicalIpv6(url, whole).Some?
    requires HasGap(Split(CanonicalIpv6(url, address).value, ':'), left, right)
    requires var groups := Split(CanonicalIpv6(url, whole).value, ':');
      |groups| == 8 && forall i :: 0 <= i < 8 ==> groups[i] == WrittenOut(left, right, i)
    ensures ToBytes(url, address, Ipv6) == ToBytes(url, whole, Ipv6)
  {
    var gapped, eight := Split(CanonicalIpv6(url, address).value, ':'), Split(CanonicalIpv6(url, whole).value, ':');
    GapIsFilled(gapped, left, right);
    forall i | 0 <= i < 8 ensures eight[i] == Expanded(gapped)[i] {
      assert i < |left| ==> Expanded(gapped)[..|left|][i] == Expanded(gapped)[i];
      assert i >= 8 - |right| ==> Expanded(gapped)[8 - |right|..][i - (8 - |right|)] == Expanded(gapped)[i];
    }
    assert eight == Expanded(gapped);
    FilledOfFilled(eight);
  }

  /** An address of a family is that family's number of bytes, "::" or not. */
  lemma AddressHasItsWidth(url: UrlParser, address: string, family: Family)
    requires Lawful(url) && IpFamily(url, address) == Some(family)
    ensures family.Ipv4? ==> Ipv4Shape(address)
    ensures Width(ToBytes(url, address, family), family)
  {
    if family.Ipv6? {
      var c := CanonicalIpv6(url, address).value;
      ExpandedIsEightGroups(Split(c, ':'));
      GroupBytesAre(Expanded(Split(c, ':')));
    }
  }

  // ---- Reading a range ----

  datatype RangeError =
    | NotARange
    | PrefixNotANumber
    | PastTheEnd(family: Family)
    | EveryAddress
    | NotTheStart(suggestion: string)

  function Cidr(url: UrlParser, bytes: seq<int>, family: Family, prefix: nat): string
    requires Bytes(bytes)
  {
    FromBytes(url, bytes, family) + ['/'] + Decimal(prefix)
  }

  function ParseIpRange(url: UrlParser, raw: string): Result<string, RangeError>
    requires Lawful(url)
  {
    ParsePieces(url, Split(Trim(raw), '/'))
  }

  /** What parseIpRange does with the pieces between slashes. */
  function ParsePieces(url: UrlParser, pieces: seq<string>): Result<string, RangeError>
    requires Lawful(url) && pieces != []
  {
    var address := UnwrapMappedIpv4(pieces[0]);
    var family := IpFamily(url, address);
    if family.None? || |pieces| > 2 then Err(NotARange)
    else if |pieces| == 2 && !(1 <= |pieces[1]| <= 3 && AllDigits(pieces[1])) then Err(PrefixNotANumber)
    else
      var prefix := if |pieces| == 2 then Number(pieces[1]) else Bits(family.value);
      if prefix > Bits(family.value) then Err(PastTheEnd(family.value))
      else if prefix == 0 then Err(EveryAddress)
      else RangeAt(url, address, family.value, prefix)
  }

  /** The end of parseIpRange, for an address and a prefix in bounds. */
  function RangeAt(url: UrlParser, address: string, family: Family, prefix: nat): Result<string, RangeError>
    requires Lawful(url) && IpFamily(url, address) == Some(family) && 1 <= prefix <= Bits(family)
  {
    AddressHasItsWidth(url, address, family);
    var bytes := ToBytes(url, address, family);
    var start := Network(bytes, prefix);
    StartIsStart(bytes, prefix);
    if start != bytes then Err(NotTheStart(Cidr(url, start, family, prefix)))
    else Ok(Cidr(url, start, family, prefix))
  }

  predicate CidrShape(cidr: string) {
    |Split(cidr, '/')| >= 2 && AllDigits(Split(cidr, '/')[1])
  }

  function InRange(url: UrlParser, address: string, family: Family, cidr: string): bool
    requires Lawful(url) && IpFamily(url, address) == Some(family)
    requires CidrShape(cidr)
  {
    var start, prefix := Split(cidr, '/')[0], Number(Split(cidr, '/')[1]);
    AddressHasItsWidth(url, address, family);
    if IpFamily(url, start) != Some(family) then false
    else
      AddressHasItsWidth(url, start, family);
      Network(ToBytes(url, address, family), prefix) == Network(ToBytes(url, start, family), prefix)
  }

  // ---- Printed ranges ----

  lemma TrimKeeps(s: string)
    requires s != "" && !IsSpace(s[0]) && !IsSpace(s[|s| - 1])
    ensures Trim(s) == s
  {
  }

  /** Text with neither dots nor slashes nor spaces is not rewritten before it reaches the URL parser. */
  lemma PlainText(c: string)
    requires '.' !in c
    ensures !Ipv4Shape(c) && UnwrapMappedIpv4(c) == c
  {
    SplitPlain(c, '.');
    if |c| >= 7 {
      SplitPlain(c[7..], '.');
    }
  }

  lemma {:induction false} JoinChars(parts: seq<string>, sep: char, c: char)
    requires c != sep && forall i :: 0 <= i < |parts| ==> c !in parts[i]
    ensures c !in Join(parts, sep)
  {
    if |parts| > 1 {
      JoinChars(parts[1..], sep, c);
    }
  }

  /** The text is an address of these bytes, fit to stand before a slash. */
  predicate Names(url: UrlParser, s: string, bytes: seq<int>, family: Family) {
    && IpFamily(url, s) == Some(family) && (family.Ipv4? ==> Ipv4Shape(s)) && ToBytes(url, s, family) == bytes
    && UnwrapMappedIpv4(s) == s && '/' !in s && s != "" && (IsHex(s[0]) || s[0] == ':')
  }

  /** A printed IPv4 address reads back as its bytes. */
  lemma PrintedIpv4(url: UrlParser, bytes: seq<int>)
    requires Width(bytes, Ipv4)
    ensures Names(url, FromBytes(url, bytes, Ipv4), bytes, Ipv4)
  {
    var parts := Octets(bytes);
    var s := Join(parts, '.');
    forall i | 0 <= i < 4
      ensures OctetShape(parts[i]) && Number(parts[i]) == bytes[i] && '.' !in parts[i] && '/' !in parts[i]
    {
      DecimalReadsBack(bytes[i]);
    }
    SplitJoin(parts, '.');
    JoinChars(parts, '.', '/');
    assert Numbers(Split(s, '.')) == bytes;
    assert s == parts[0] + ['.'] + Join(parts[1..], '.');
    assert s[0] == parts[0][0];
  }

  lemma PrintedIpv6(url: UrlParser, bytes: seq<int>)
    requires Lawful(url) && Width(bytes, Ipv6)
    ensures Names(url, FromBytes(url, bytes, Ipv6), bytes, Ipv6)
  {
    assert Prints(url, bytes);
    var s := FromBytes(url, bytes, Ipv6);
    assert Canonical(s) && CanonicalIpv6(url, s) == Some(s);
    PlainText(s);
  }

  lemma PrintedAddress(url: UrlParser, bytes: seq<int>, family: Family)
    requires Lawful(url) && Width(bytes, family)
    ensures Names(url, FromBytes(url, bytes, family), bytes, family)
  {
    if family.Ipv4? {
      PrintedIpv4(url, bytes);
    } else {
      PrintedIpv6(url, bytes);
    }
  }

  lemma PrintedPrefixTrims(s: string, digits: string)
    requires s != "" && (IsHex(s[0]) || s[0] == ':') && digits != "" && AllDigits(digits)
    ensures Trim(s + ['/'] + digits) == s + ['/'] + digits
  {
    var cidr := s + ['/'] + digits;
    assert cidr[0] == s[0] && cidr[|cidr| - 1] == digits[|digits| - 1];
    TrimKeeps(cidr);
  }

  /** A prefix behind a slash is split off whole. */
  lemma PrintedPrefix(s: string, digits: string)
    requires '/' !in s && AllDigits(digits)
    ensures Split(s + ['/'] + digits, '/') == [s, digits]
  {
    SplitHead(s, digits, '/');
    SplitPlain(digits, '/');
  }

  /** A printed range is read as the range it prints. */
  lemma PrintedRange(url: UrlParser, bytes: seq<int>, family: Family, prefix: nat)
    requires Lawful(url) && Width(bytes, family) && 1 <= prefix <= Bits(family)
    ensures var s := FromBytes(url, bytes, family);
      && Names(url, s, bytes, family)
      && Split(Cidr(url, bytes, family, prefix), '/') == [s, Decimal(prefix)]
      && AllDigits(Decimal(prefix)) && Number(Decimal(prefix)) == prefix
      && ParseIpRange(url, Cidr(url, bytes, family, prefix)) == RangeAt(url, s, family, prefix)
  {
    var s := FromBytes(url, bytes, family);
    PrintedAddress(url, bytes, family);
    DecimalReadsBack(prefix);
    PrintedPrefix(s, Decimal(prefix));
    PrintedPrefixTrims(s, Decimal(prefix));
    ParsedPieces(url, [s, Decimal(prefix)], family, prefix);
  }

  lemma ParsedPieces(url: UrlParser, pieces: seq<string>, family: Family, prefix: nat)
    requires Lawful(url) && |pieces| == 2 && UnwrapMappedIpv4(pieces[0]) == pieces[0]
    requires IpFamily(url, pieces[0]) == Some(family)
    requires 1 <= |pieces[1]| <= 3 && AllDigits(pieces[1]) && Number(pieces[1]) == prefix
    requires 1 <= prefix <= Bits(family)
    ensures ParsePieces(url, pieces) == RangeAt(url, pieces[0], family, prefix)
  {
  }

  // ---- Main results ----

  /** The text is an address of the family with a prefix, the whole address where none is given. */
  predicate Reads(url: UrlParser, raw: string, address: string, family: Family, prefix: nat) {
    var pieces := Split(Trim(raw), '/');
    && |pieces| <= 2 && address == UnwrapMappedIpv4(pieces[0]) && IpFamily(url, address) == Some(family)
    && (|pieces| == 1 ==> prefix == Bits(family))
    && (|pieces| == 2 ==> 1 <= |pieces[1]| <= 3 && AllDigits(pieces[1]) && prefix == Number(pieces[1]))
  }

  lemma RangeAtAccepts(url: UrlParser, address: string, family: Family, prefix: nat, bytes: seq<int>)
    requires Lawful(url) && IpFamily(url, address) == Some(family) && 1 <= prefix <= Bits(family)
    requires (family.Ipv4? ==> Ipv4Shape(address)) && ToBytes(url, address, family) == bytes && Width(bytes, family)
    ensures RangeAt(url, address, family, prefix).Ok? <==> Network(bytes, prefix) == bytes
  {
  }

  lemma HostBitsDecide(ok: bool, bytes: seq<int>, prefix: nat, low: nat)
    requires Bytes(bytes) && prefix + low == 8 * |bytes|
    requires ok <==> Network(bytes, prefix) == bytes
    ensures ok <==> ValueOf(bytes) % Pow2(low) == 0
  {
    StartHasNoHostBits(bytes, prefix, low);
  }

  lemma ParsesAt(url: UrlParser, raw: string, address: string, family: Family, prefix: nat)
    requires Lawful(url) && Reads(url, raw, address, family, prefix)
    ensures ParseIpRange(url, raw).Ok? <==> 1 <= prefix <= Bits(family) && RangeAt(url, address, family, prefix).Ok?
  {
    PiecesParseAt(url, Split(Trim(raw), '/'), address, family, prefix);
  }

  lemma PiecesParseAt(url: UrlParser, pieces: seq<string>, address: string, family: Family, prefix: nat)
    requires Lawful(url) && 1 <= |pieces| <= 2 && address == UnwrapMappedIpv4(pieces[0])
    requires IpFamily(url, address) == Some(family)
    requires |pieces| == 1 ==> prefix == Bits(family)
    requires |pieces| == 2 ==> 1 <= |pieces[1]| <= 3 && AllDigits(pieces[1]) && prefix == Number(pieces[1])
    ensures ParsePieces(url, pieces).Ok? <==> 1 <= prefix <= Bits(family) && RangeAt(url, address, family, prefix).Ok?
  {
  }

  /** A range with a prefix in bounds is accepted exactly when no host bit is set. */
  lemma AcceptedExactlyWithoutHostBits(url: UrlParser, raw: string, address: string, family: Family, prefix: nat)
    requires Lawful(url) && Reads(url, raw, address, family, prefix)
    ensures family.Ipv4? ==> Ipv4Shape(address)
    ensures ParseIpRange(url, raw).Ok? <==>
      1 <= prefix <= Bits(family) && ValueOf(ToBytes(url, address, family)) % Pow2(Bits(family) - prefix) == 0
  {
    AddressHasItsWidth(url, address, family);
    ParsesAt(url, raw, address, family, prefix);
    if 1 <= prefix <= Bits(family) {
      var bytes, ok := ToBytes(url, address, family), RangeAt(url, address, family, prefix).Ok?;
      RangeAtAccepts(url, address, family, prefix, bytes);
      HostBitsDecide(ok, bytes, prefix, Bits(family) - prefix);
    }
  }

  /** Whatever is accepted, or refused with a suggestion, reads as an address and a prefix in bounds. */
  lemma ParsedIsRead(url: UrlParser, raw: string) returns (address: string, family: Family, prefix: nat)
    requires Lawful(url) && (ParseIpRange(url, raw).Ok? || ParseIpRange(url, raw).error.NotTheStart?)
    ensures Reads(url, raw, address, family, prefix) && 1 <= prefix <= Bits(family)
    ensures ParseIpRange(url, raw) == RangeAt(url, address, family, prefix)
  {
    var pieces := Split(Trim(raw), '/');
    address := UnwrapMappedIpv4(pieces[0]);
    family := IpFamily(url, address).value;
    prefix := if |pieces| == 2 then Number(pieces[1]) else Bits(family);
  }

  /** What parseIpRange prints, accepting or suggesting, it accepts and prints again. */
  lemma PrintedRangeIsFixedPoint(url: UrlParser, raw: string)
    requires Lawful(url)
    ensures match ParseIpRange(url, raw)
      case Ok(cidr) => ParseIpRange(url, cidr) == Ok(cidr)
      case Err(NotTheStart(suggestion)) => ParseIpRange(url, suggestion) == Ok(suggestion)
      case Err(_) => true
  {
    if ParseIpRange(url, raw).Ok? || ParseIpRange(url, raw).error.NotTheStart? {
      var address, family, prefix := ParsedIsRead(url, raw);
      AddressHasItsWidth(url, address, family);
      var bytes := ToBytes(url, address, family);
      StartIsStart(bytes, prefix);
      PrintedStart(url, Network(bytes, prefix), family, prefix);
    }
  }

  lemma PrintedStart(url: UrlParser, start: seq<int>, family: Family, prefix: nat)
    requires Lawful(url) && Width(start, family) && 1 <= prefix <= Bits(family) && Network(start, prefix) == start
    ensures ParseIpRange(url, Cidr(url, start, family, prefix)) == Ok(Cidr(url, start, family, prefix))
  {
    PrintedRange(url, start, family, prefix);
  }

  /** A row of the allowlist, read. */
  datatype Entry = Entry(family: Family, bytes: seq<int>, prefix: nat)

  /** A stored range: one that parseIpRange printed. */
  ghost predicate Stored(url: UrlParser, cidr: string, entry: Entry)
    requires Lawful(url)
  {
    && Width(entry.bytes, entry.family) && 1 <= entry.prefix <= Bits(entry.family)
    && Network(entry.bytes, entry.prefix) == entry.bytes
    && cidr == Cidr(url, entry.bytes, entry.family, entry.prefix)
  }

  /** The addresses a range covers, as numbers: from its start, 2 ^ (bits - prefix) of them. */
  predicate Covers(entry: Entry, kind: Family, v: int) {
    && entry.family == kind && entry.prefix <= Bits(kind)
    && ValueOf(entry.bytes) <= v < ValueOf(entry.bytes) + Pow2(Bits(kind) - entry.prefix)
  }

  /** What parseIpRange accepts it stores as a range whose start has no host bits. */
  lemma AcceptedIsStored(url: UrlParser, raw: string) returns (address: string, entry: Entry)
    requires Lawful(url) && ParseIpRange(url, raw).Ok?
    ensures Reads(url, raw, address, entry.family, entry.prefix) && (entry.family.Ipv4? ==> Ipv4Shape(address))
    ensures Stored(url, ParseIpRange(url, raw).value, entry) && entry.bytes == ToBytes(url, address, entry.family)
  {
    var family, prefix;
    address, family, prefix := ParsedIsRead(url, raw);
    AddressHasItsWidth(url, address, family);
    entry := Entry(family, ToBytes(url, address, family), prefix);
  }

  /** The range suggested for an address with host bits is the one of its prefix that the address is in. */
  lemma SuggestionHoldsAddress(url: UrlParser, raw: string) returns (address: string, entry: Entry)
    requires Lawful(url) && ParseIpRange(url, raw).Err? && ParseIpRange(url, raw).error.NotTheStart?
    ensures Reads(url, raw, address, entry.family, entry.prefix) && (entry.family.Ipv4? ==> Ipv4Shape(address))
    ensures Stored(url, ParseIpRange(url, raw).error.suggestion, entry)
    ensures Covers(entry, entry.family, ValueOf(ToBytes(url, address, entry.family)))
  {
    var family, prefix, bytes, suggestion;
    address, family, prefix, bytes, suggestion := SuggestionParts(url, raw);
    entry := Entry(family, Network(bytes, prefix), prefix);
    CoversItsAddress(bytes, family, prefix, Bits(family) - prefix);
  }

  lemma CoversItsAddress(bytes: seq<int>, family: Family, prefix: nat, low: nat)
    requires Width(bytes, family) && prefix + low == Bits(family)
    ensures Width(Network(bytes, prefix), family) && Network(Network(bytes, prefix), prefix) == Network(bytes, prefix)
    ensures Covers(Entry(family, Network(bytes, prefix), prefix), family, ValueOf(bytes))
  {
    var start := Network(bytes, prefix);
    BlockAround(bytes, prefix, low);
    var inBlock := ValueOf(start) <= ValueOf(bytes) < ValueOf(start) + Pow2(low);
    CoversBlock(inBlock, Entry(family, start, prefix), ValueOf(bytes), low);
  }

  lemma SuggestionParts(url: UrlParser, raw: string)
    returns (address: string, family: Family, prefix: nat, bytes: seq<int>, suggestion: string)
    requires Lawful(url) && ParseIpRange(url, raw).Err? && ParseIpRange(url, raw).error.NotTheStart?
    ensures Reads(url, raw, address, family, prefix) && 1 <= prefix <= Bits(family)
    ensures (family.Ipv4? ==> Ipv4Shape(address)) && bytes == ToBytes(url, address, family) && Width(bytes, family)
    ensures Bytes(Network(bytes, prefix)) && suggestion == Cidr(url, Network(bytes, prefix), family, prefix)
    ensures suggestion == ParseIpRange(url, raw).error.suggestion
  {
    address, family, prefix := ParsedIsRead(url, raw);
    AddressHasItsWidth(url, address, family);
    bytes := ToBytes(url, address, family);
    StartIsStart(bytes, prefix);
    suggestion := Cidr(url, Network(bytes, prefix), family, prefix);
    SuggestedRange(url, address, family, prefix, bytes);
  }

  lemma SuggestedRange(url: UrlParser, address: string, family: Family, prefix: nat, bytes: seq<int>)
    requires Lawful(url) && IpFamily(url, address) == Some(family) && 1 <= prefix <= Bits(family)
    requires (family.Ipv4? ==> Ipv4Shape(address)) && ToBytes(url, address, family) == bytes && Width(bytes, family)
    requires Bytes(Network(bytes, prefix))
    ensures RangeAt(url, address, family, prefix) ==
      if Network(bytes, prefix) == bytes then Ok(Cidr(url, bytes, family, prefix))
      else Err(NotTheStart(Cidr(url, Network(bytes, prefix), family, prefix)))
  {
  }

  /** An address is in the block that it rounds down to. */
  lemma BlockAround(bytes: seq<int>, prefix: nat, low: nat)
    requires Bytes(bytes) && prefix + low == 8 * |bytes|
    ensures Bytes(Network(bytes, prefix)) && Network(Network(bytes, prefix), prefix) == Network(bytes, prefix)
    ensures ValueOf(Network(bytes, prefix)) <= ValueOf(bytes) < ValueOf(Network(bytes, prefix)) + Pow2(low)
  {
    StartIsStart(bytes, prefix);
    SameNetworkIsInterval(bytes, bytes, prefix, low);
  }

  lemma StoredShape(url: UrlParser, cidr: string, entry: Entry)
    requires Lawful(url) && Stored(url, cidr, entry)
    ensures CidrShape(cidr) && Number(Split(cidr, '/')[1]) == entry.prefix
    ensures Names(url, Split(cidr, '/')[0], entry.bytes, entry.family)
  {
    PrintedRange(url, entry.bytes, entry.family, entry.prefix);
  }

  lemma InRangeByBytes(url: UrlParser, address: string, kind: Family, cidr: string, bytes: seq<int>, start: seq<int>,
                       prefix: nat)
    requires Lawful(url) && IpFamily(url, address) == Some(kind) && CidrShape(cidr)
    requires IpFamily(url, Split(cidr, '/')[0]) == Some(kind) && Number(Split(cidr, '/')[1]) == prefix
    requires kind.Ipv4? ==> Ipv4Shape(address) && Ipv4Shape(Split(cidr, '/')[0])
    requires Width(bytes, kind) && ToBytes(url, address, kind) == bytes
    requires Width(start, kind) && ToBytes(url, Split(cidr, '/')[0], kind) == start
    ensures InRange(url, address, kind, cidr) <==> Network(bytes, prefix) == Network(start, prefix)
  {
  }

  lemma InRangeOfOtherFamily(url: UrlParser, address: string, kind: Family, cidr: string)
    requires Lawful(url) && IpFamily(url, address) == Some(kind) && CidrShape(cidr)
    requires IpFamily(url, Split(cidr, '/')[0]) != Some(kind)
    ensures !InRange(url, address, kind, cidr)
  {
  }

  lemma BytesCovered(bytes: seq<int>, entry: Entry, low: nat)
    requires Width(bytes, entry.family) && Width(entry.bytes, entry.family) && entry.prefix + low == Bits(entry.family)
    requires Network(entry.bytes, entry.prefix) == entry.bytes
    ensures Network(bytes, entry.prefix) == Network(entry.bytes, entry.prefix) <==>
      ValueOf(entry.bytes) <= ValueOf(bytes) < ValueOf(entry.bytes) + Pow2(low)
  {
    SameNetworkIsInterval(bytes, entry.bytes, entry.prefix, low);
  }

  lemma CoversBlock(inBlock: bool, entry: Entry, v: int, low: nat)
    requires entry.prefix + low == Bits(entry.family)
    requires inBlock <==> ValueOf(entry.bytes) <= v < ValueOf(entry.bytes) + Pow2(low)
    ensures inBlock <==> Covers(entry, entry.family, v)
  {
  }

  lemma InRangeOfOwnFamily(url: UrlParser, address: string, kind: Family, cidr: string, entry: Entry, bytes: seq<int>)
    requires Lawful(url) && IpFamily(url, address) == Some(kind) && CidrShape(cidr)
    requires (kind.Ipv4? ==> Ipv4Shape(address)) && ToBytes(url, address, kind) == bytes && Width(bytes, kind)
    requires Names(url, Split(cidr, '/')[0], entry.bytes, kind) &&
      Number(Split(cidr, '/')[1]) == entry.prefix <= Bits(kind)
    requires entry.family == kind && Width(entry.bytes, kind) && Network(entry.bytes, entry.prefix) == entry.bytes
    ensures InRange(url, address, kind, cidr) <==> Covers(entry, kind, ValueOf(bytes))
  {
    var low := Bits(kind) - entry.prefix;
    InRangeByBytes(url, address, kind, cidr, bytes, entry.bytes, entry.prefix);
    BytesCovered(bytes, entry, low);
    CoversBlock(InRange(url, address, kind, cidr), entry, ValueOf(bytes), low);
  }

  /** An address is in a stored range exactly when the range covers its number. */
  lemma InRangeIsInterval(url: UrlParser, cidr: string, entry: Entry, address: string, kind: Family)
    requires Lawful(url) && Stored(url, cidr, entry) && IpFamily(url, address) == Some(kind)
    ensures CidrShape(cidr)
    ensures kind.Ipv4? ==> Ipv4Shape(address)
    ensures InRange(url, address, kind, cidr) <==> Covers(entry, kind, ValueOf(ToBytes(url, address, kind)))
  {
    StoredShape(url, cidr, entry);
    AddressHasItsWidth(url, address, kind);
    if kind == entry.family {
      InRangeOfOwnFamily(url, address, kind, cidr, entry, ToBytes(url, address, kind));
    } else {
      InRangeOfOtherFamily(url, address, kind, cidr);
    }
  }

  // ---- Which text is which address ----

  lemma {:induction false} NumberPrintsBack(s: string)
    requires s != "" && AllDigits(s) && (s == "0" || s[0] != '0')
    ensures Decimal(Number(s)) == s
  {
    var n := |s| - 1;
    if n == 0 {
      assert s[..0] == "" && Number(s) == s[0] as int - '0' as int;
      assert s == [s[0]];
    } else {
      NumberPrintsBack(s[..n]);
      NumberIsPositive(s[..n]);
      var d := s[n] as int - '0' as int;
      assert Number(s) == Number(s[..n]) * 10 + d && Number(s) % 10 == d && Number(s) / 10 == Number(s[..n]);
      assert s == s[..n] + [s[n]];
    }
  }

  lemma {:induction false} NumberIsPositive(s: string)
    requires s != "" && AllDigits(s) && s[0] != '0'
    ensures Number(s) > 0
  {
    var n := |s| - 1;
    if n > 0 {
      NumberIsPositive(s[..n]);
    } else {
      assert s[..0] == "";
    }
  }

  /** An IPv4 address is four numbers from 0 to 255 with dots between them, and they are its bytes. */
  lemma Ipv4Exactly(url: UrlParser, bytes: seq<int>)
    requires Bytes(bytes) && |bytes| == 4
    ensures var s := Decimal(bytes[0]) + "." + Decimal(bytes[1]) + "." + Decimal(bytes[2]) + "." + Decimal(bytes[3]);
      IpFamily(url, s) == Some(Ipv4) && Ipv4Shape(s) && ToBytes(url, s, Ipv4) == bytes
  {
    PrintedIpv4(url, bytes);
    var parts := Octets(bytes);
    FourJoined(parts);
  }

  lemma FourJoined(parts: seq<string>)
    requires |parts| == 4
    ensures Join(parts, '.') == parts[0] + "." + parts[1] + "." + parts[2] + "." + parts[3]
  {
    assert parts[1..][1..][1..] == [parts[3]];
    assert Join(parts[1..][1..], '.') == parts[2] + "." + parts[3];
    assert Join(parts[1..], '.') == parts[1] + "." + (parts[2] + "." + parts[3]);
    assert Join(parts, '.') == parts[0] + "." + (parts[1] + "." + (parts[2] + "." + parts[3]));
  }

  /** And no other text is. */
  lemma Ipv4Only(url: UrlParser, s: string) returns (bytes: seq<int>)
    requires IpFamily(url, s) == Some(Ipv4)
    ensures Bytes(bytes) && |bytes| == 4
    ensures s == Decimal(bytes[0]) + "." + Decimal(bytes[1]) + "." + Decimal(bytes[2]) + "." + Decimal(bytes[3])
  {
    var parts := Split(s, '.');
    bytes := Numbers(parts);
    forall i | 0 <= i < 4 ensures Decimal(bytes[i]) == parts[i] {
      NumberPrintsBack(parts[i]);
    }
    JoinSplit(s, '.');
    FourJoined(parts);
  }

  /** An IPv4 address wrapped as "::ffff:", in either case, is the address it carries. */
  lemma MappedIsUnwrapped(f: string, parts: seq<string>)
    requires |f| == 4 && forall i :: 0 <= i < 4 ==> f[i] == 'f' || f[i] == 'F'
    requires |parts| == 4 && forall i :: 0 <= i < 4 ==> 1 <= |parts[i]| <= 3 && AllDigits(parts[i])
    ensures UnwrapMappedIpv4("::" + f + ":" + Join(parts, '.')) == Join(parts, '.')
  {
    var address := "::" + f + ":" + Join(parts, '.');
    forall i | 0 <= i < 4 ensures '.' !in parts[i] {}
    SplitJoin(parts, '.');
    assert address[7..] == Join(parts, '.') && address[..2] == "::" && address[6] == ':';
    assert forall i :: 0 <= i < 4 ==> address[2 + i] == f[i];
  }

  /** Nothing else is rewritten. */
  lemma OnlyMappedIsUnwrapped(address: string)
    requires UnwrapMappedIpv4(address) != address
    ensures |address| >= 7 && address[..2] == "::" && address[6] == ':' && UnwrapMappedIpv4(address) == address[7..]
    ensures forall i :: 2 <= i < 6 ==> address[i] == 'f' || address[i] == 'F'
    ensures var parts := Split(address[7..], '.');
      |parts| == 4 && forall i :: 0 <= i < 4 ==> 1 <= |parts[i]| <= 3 && AllDigits(parts[i])
  {
  }

  /** The URL parser is asked exactly about text with a colon and without brackets, percent sign or slash. */
  lemma AskedExactly(url: UrlParser, s: string)
    ensures CanonicalIpv6(url, s).Some? <==>
      ':' in s && (forall c :: c in s ==> c !in {'[', ']', '%', '/'}) && url(s).Some?
    ensures CanonicalIpv6(url, s).Some? ==> CanonicalIpv6(url, s) == url(s)
    ensures IpFamily(url, s) == Some(Ipv6) <==> !Ipv4Shape(s) && CanonicalIpv6(url, s).Some?
  {
  }

  /** Why a range is refused: the first of these that holds. */
  lemma RefusedBecause(url: UrlParser, raw: string)
    requires Lawful(url)
    ensures var pieces := Split(Trim(raw), '/');
      var address := UnwrapMappedIpv4(pieces[0]);
      var r := ParseIpRange(url, raw);
      if IpFamily(url, address).None? || |pieces| > 2 then r == Err(NotARange)
      else if |pieces| == 2 && !(1 <= |pieces[1]| <= 3 && AllDigits(pieces[1])) then r == Err(PrefixNotANumber)
      else
        var bits := if IpFamily(url, address).value.Ipv4? then 32 else 128;
        var prefix := if |pieces| == 2 then Number(pieces[1]) else bits;
        if prefix > bits then r == Err(PastTheEnd(IpFamily(url, address).value))
        else if prefix == 0 then r == Err(EveryAddress)
        else r.Ok? || r.error.NotTheStart?
  {
  }

  // ---- The guard ----

  ghost predicate StoredAs(url: UrlParser, cidrs: seq<string>, entries: seq<Entry>)
    requires Lawful(url)
  {
    |cidrs| == |entries| &&
    forall i :: 0 <= i < |cidrs| ==> Stored(url, cidrs[i], entries[i])
  }

  predicate IpAllowed(url: UrlParser, ip: string, cidrs: seq<string>)
    requires Lawful(url) && forall c :: c in cidrs ==> CidrShape(c)
  {
    var address := UnwrapMappedIpv4(ip);
    var kind := IpFamily(url, address);
    kind.Some? && exists c :: c in cidrs && InRange(url, address, kind.value, c)
  }

  predicate NetworkAllows(url: UrlParser, owner: bool, cidrs: seq<string>, ip: string)
    requires Lawful(url) && forall c :: c in cidrs ==> CidrShape(c)
  {
    owner || |cidrs| == 0 || IpAllowed(url, ip, cidrs)
  }

  lemma RangeGivesEntry(url: UrlParser, address: string, kind: Family, cidrs: seq<string>, entries: seq<Entry>,
                        c: string)
    requires Lawful(url) && IpFamily(url, address) == Some(kind) && StoredAs(url, cidrs, entries)
    requires c in cidrs && CidrShape(c) && InRange(url, address, kind, c)
    ensures kind.Ipv4? ==> Ipv4Shape(address)
    ensures exists e :: e in entries && Covers(e, kind, ValueOf(ToBytes(url, address, kind)))
  {
    var i :| 0 <= i < |cidrs| && cidrs[i] == c;
    InRangeIsInterval(url, c, entries[i], address, kind);
    assert entries[i] in entries;
  }

  lemma EntryGivesRange(url: UrlParser, address: string, kind: Family, cidrs: seq<string>, entries: seq<Entry>,
                        e: Entry)
    requires Lawful(url) && IpFamily(url, address) == Some(kind) && StoredAs(url, cidrs, entries)
    requires kind.Ipv4? ==> Ipv4Shape(address)
    requires e in entries && Covers(e, kind, ValueOf(ToBytes(url, address, kind)))
    ensures exists c :: c in cidrs && CidrShape(c) && InRange(url, address, kind, c)
  {
    var i :| 0 <= i < |entries| && entries[i] == e;
    InRangeIsInterval(url, cidrs[i], e, address, kind);
    assert cidrs[i] in cidrs;
  }

  lemma StoredShapes(url: UrlParser, cidrs: seq<string>, entries: seq<Entry>, c: string)
    requires Lawful(url) && StoredAs(url, cidrs, entries) && c in cidrs
    ensures CidrShape(c)
  {
    var i :| 0 <= i < |cidrs| && cidrs[i] == c;
    StoredShape(url, c, entries[i]);
  }

  lemma AnyRangeCovers(url: UrlParser, address: string, kind: Family, cidrs: seq<string>, entries: seq<Entry>)
    requires Lawful(url) && IpFamily(url, address) == Some(kind) && StoredAs(url, cidrs, entries)
    requires forall c :: c in cidrs ==> CidrShape(c)
    ensures kind.Ipv4? ==> Ipv4Shape(address)
    ensures (exists c :: c in cidrs && InRange(url, address, kind, c)) <==>
      exists e :: e in entries && Covers(e, kind, ValueOf(ToBytes(url, address, kind)))
  {
    if c :| c in cidrs && InRange(url, address, kind, c) {
      RangeGivesEntry(url, address, kind, cidrs, entries, c);
    }
    AddressHasItsWidth(url, address, kind);
    if e :| e in entries && Covers(e, kind, ValueOf(ToBytes(url, address, kind))) {
      EntryGivesRange(url, address, kind, cidrs, entries, e);
    }
  }

  /** A member may use the workspace exactly as owner, without ranges, or from an address some range covers. */
  lemma AllowedExactly(url: UrlParser, owner: bool, cidrs: seq<string>, entries: seq<Entry>, ip: string)
    requires Lawful(url) && StoredAs(url, cidrs, entries)
    ensures forall c :: c in cidrs ==> CidrShape(c)
    ensures var address := UnwrapMappedIpv4(ip);
      NetworkAllows(url, owner, cidrs, ip) <==>
        || owner || entries == []
        || (IpFamily(url, address).Some? &&
            var family := IpFamily(url, address).value;
            exists e :: e in entries && Covers(e, family, ValueOf(ToBytes(url, address, family))))
  {
    forall c | c in cidrs ensures CidrShape(c) {
      StoredShapes(url, cidrs, entries, c);
    }
    var address := UnwrapMappedIpv4(ip);
    if IpFamily(url, address).Some? {
      AnyRangeCovers(url, address, IpFamily(url, address).value, cidrs, entries);
    }
  }

  // ---- Some parser does what is asked ----

  lemma {:induction false} HexReadsBack(n: nat, digits: nat)
    requires n < Pow2(4 * digits) && digits >= 1
    ensures 1 <= |Hex(n)| <= digits && HexValue(Hex(n)) == n
    ensures forall i :: 0 <= i < |Hex(n)| ==> IsHex(Hex(n)[i])
  {
    var s := Hex(n);
    if n < 16 {
      assert s[..0] == "";
    } else {
      assert Pow2(4) == 16;
      if digits == 1 {
        assert false;
      }
      Pow2Add(4, 4 * (digits - 1));
      HexReadsBack(n / 16, digits - 1);
      assert s[..|s| - 1] == Hex(n / 16);
    }
  }

  lemma WordReadsBack(high: int, low: int)
    requires 0 <= high < 256 && 0 <= low < 256
    ensures var s := Hex(high * 256 + low);
      HexGroup(s) && HexValue(s) / 256 == high && BitAnd(HexValue(s), 0xff) == low
  {
    Pow2Eight();
    Pow2Add(8, 8);
    HexReadsBack(high * 256 + low, 4);
    OnesTakeRemainder(high * 256 + low, 8);
  }

  lemma GroupReadsBack(g: string, high: int, low: int, rest: seq<string>, tail: seq<int>)
    requires HexGroup(g) && HexValue(g) / 256 == high && BitAnd(HexValue(g), 0xff) == low
    requires AllHexGroups(rest) && GroupBytes(rest) == tail
    ensures AllHexGroups([g] + rest) && GroupBytes([g] + rest) == [high, low] + tail
  {
    assert ([g] + rest)[1..] == rest;
  }

  lemma {:induction false} GroupsReadBack(bytes: seq<int>)
    requires Bytes(bytes) && |bytes| % 2 == 0
    ensures 2 * |HexGroups(bytes)| == |bytes| && AllHexGroups(HexGroups(bytes)) && GroupBytes(HexGroups(bytes)) == bytes
    decreases |bytes|
  {
    if bytes != [] {
      WordReadsBack(bytes[0], bytes[1]);
      GroupsReadBack(bytes[2..]);
      GroupReadsBack(Hex(bytes[0] * 256 + bytes[1]), bytes[0], bytes[1], HexGroups(bytes[2..]), bytes[2..]);
      assert bytes == [bytes[0], bytes[1]] + bytes[2..];
    }
  }

  ghost predicate Printed(s: string, bytes: seq<int>) {
    Bytes(bytes) && |bytes| == 16 && s == Join(HexGroups(bytes), ':')
  }

  /** Reads eight hexadecimal groups without leading zeros, and compresses nothing. */
  ghost function Uncompressed(s: string): Option<string> {
    if exists bytes :: Printed(s, bytes) then Some(s) else None
  }

  lemma {:induction false} JoinedChars(groups: seq<string>)
    requires AllHexGroups(groups)
    ensures forall i :: 0 <= i < |Join(groups, ':')| ==> IsHex(Join(groups, ':')[i]) || Join(groups, ':')[i] == ':'
  {
    if |groups| > 1 {
      JoinedChars(groups[1..]);
    }
  }

  lemma PrintedIsCanonical(s: string, bytes: seq<int>)
    requires Printed(s, bytes)
    ensures Canonical(s) && Split(s, ':') == HexGroups(bytes) && GroupBytes(Expanded(Split(s, ':'))) == bytes
    ensures ':' in s && '[' !in s && ']' !in s && '%' !in s && '/' !in s
  {
    var groups := HexGroups(bytes);
    GroupsReadBack(bytes);
    JoinedChars(groups);
    forall p | p in groups ensures ':' !in p {
      var i :| 0 <= i < |groups| && groups[i] == p;
      assert HexGroup(groups[i]);
    }
    SplitJoin(groups, ':');
    FilledOfFilled(groups);
    if ':' !in s {
      SplitPlain(s, ':');
    }
  }

  /** What is asked of the URL parser can be met. */
  lemma LawfulIsConsistent()
    ensures Lawful(s => Uncompressed(s))
  {
    var url: UrlParser := s => Uncompressed(s);
    forall s | CanonicalIpv6(url, s).Some?
      ensures Canonical(CanonicalIpv6(url, s).value) &&
        CanonicalIpv6(url, CanonicalIpv6(url, s).value) == CanonicalIpv6(url, s)
    {
      var bytes :| Printed(s, bytes);
      PrintedIsCanonical(s, bytes);
    }
    forall bytes | Bytes(bytes) && |bytes| == 16 ensures Prints(url, bytes) {
      var s := Join(HexGroups(bytes), ':');
      assert Printed(s, bytes);
      PrintedIsCanonical(s, bytes);
      assert CanonicalIpv6(url, s) == Some(s);
    }
  }
}
