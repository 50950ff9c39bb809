/** Ranges, overlaps and sizes of IPv4 networks (`daemon/networkdriver/utils.go`). */
module Network {
  type Byte = x: int | 0 <= x < 0x100
  type Bytes = b: seq<Byte> | |b| == 4 witness [0, 0, 0, 0]

  datatype IPNet = IPNet(ip: Bytes, mask: Bytes)

  // ---------------------------------------------------------------- bits

  /** Bit by bit, the lowest first. */
  function And(a: nat, b: nat): (r: nat)
    ensures r <= a
  {
    if a == 0 then 0 else (if a % 2 == 1 && b % 2 == 1 then 1 else 0) + 2 * And(a / 2, b / 2)
  }

  function Or(a: nat, b: nat): (r: nat)
    decreases a + b
  {
    if a == 0 && b == 0 then 0 else (if a % 2 == 1 || b % 2 == 1 then 1 else 0) + 2 * Or(a / 2, b / 2)
  }

  /** The number with the lowest `n` bits set. */
  function Full(n: nat): nat {
    if n == 0 then 0 else 1 + 2 * Full(n - 1)
  }

  function Not(m: Byte): Byte {
    0xFF - m
  }

  lemma FullValues()
    ensures Full(8) == 0xFF && Full(30) == 0x3FFF_FFFF && Full(31) == 0x7FFF_FFFF && Full(32) == 0xFFFF_FFFF
  {
    assert Full(4) == 0xF && Full(8) == 0xFF && Full(12) == 0xFFF && Full(16) == 0xFFFF;
    assert Full(20) == 0xF_FFFF && Full(24) == 0xFF_FFFF && Full(28) == 0xFFF_FFFF;
  }

  lemma {:induction false} FullGrows(j: nat, k: nat)
    requires j <= k
    ensures Full(j) <= Full(k)
    decreases k
  {
    if j == k {
    } else {
      FullGrows(j, k - 1);
    }
  }

  lemma {:induction false} AndLeRight(a: nat, b: nat)
    ensures And(a, b) <= b
    decreases a
  {
    if a == 0 {
    } else {
      AndLeRight(a / 2, b / 2);
    }
  }

  lemma {:induction false} AndTwice(a: nat, m: nat)
    ensures And(And(a, m), m) == And(a, m)
    decreases a
  {
    if a == 0 {
    } else {
      AndTwice(a / 2, m / 2);
    }
  }

  lemma {:induction false} AndAssociates(a: nat, m: nat, k: nat)
    ensures And(And(a, m), k) == And(a, And(m, k))
    decreases a
  {
    if a == 0 {
    } else {
      AndAssociates(a / 2, m / 2, k / 2);
      if m == 0 {
        AndLeRight(a, 0);
      } else {
        assert And(m, k) % 2 == 1 <==> m % 2 == 1 && k % 2 == 1;
        assert And(m, k) / 2 == And(m / 2, k / 2);
      }
    }
  }

  lemma {:induction false} FullAnd(n: nat, x: nat)
    requires x <= Full(n)
    ensures And(Full(n), x) == x
    decreases n
  {
    if n == 0 {
    } else {
      FullAnd(n - 1, x / 2);
    }
  }

  /** The bits under a mask and those beside it. */
  lemma {:induction false} AndSplits(n: nat, a: nat, m: nat)
    requires a <= Full(n) && m <= Full(n)
    ensures a == And(a, m) + And(a, Full(n) - m)
    decreases n
  {
    if n == 0 {
    } else {
      Halves(n, m);
      AndSplits(n - 1, a / 2, m / 2);
    }
  }

  lemma Halves(n: nat, m: nat)
    requires n > 0 && m <= Full(n)
    ensures (Full(n) - m) % 2 == 1 - m % 2 && (Full(n) - m) / 2 == Full(n - 1) - m / 2 && m / 2 <= Full(n - 1)
  {
  }

  /** Setting all bits beside the mask adds exactly those. */
  lemma {:induction false} OrAdds(n: nat, a: nat, m: nat)
    requires a <= Full(n) && m <= Full(n)
    ensures Or(a, Full(n) - m) == And(a, m) + (Full(n) - m)
    decreases n
  {
    if n == 0 {
    } else {
      Halves(n, m);
      OrAdds(n - 1, a / 2, m / 2);
    }
  }

  lemma AndFull(n: nat, a: nat)
    requires a <= Full(n)
    ensures And(a, Full(n)) == a
  {
    AndSplits(n, a, Full(n));
    AndLeRight(a, 0);
  }

  /** The lowest bit, and the others. */
  lemma AndStep(x: nat, u: nat, y: nat, v: nat)
    requires u < 2 && v < 2
    ensures And(2 * x + u, 2 * y + v) == 2 * And(x, y) + (if u == v == 1 then 1 else 0)
  {
    assert (2 * x + u) / 2 == x && (2 * y + v) / 2 == y;
  }

  function Power(k: nat): (p: nat)
    ensures p > 0
  {
    if k == 0 then 1 else 2 * Power(k - 1)
  }

  /** Numbers put together from two parts are masked part by part. */
  lemma {:induction false} AndConcat(k: nat, x: nat, y: nat, u: nat, v: nat)
    requires y < Power(k) && v < Power(k)
    ensures x * Power(k) >= 0 && u * Power(k) >= 0
    ensures And(x * Power(k) + y, u * Power(k) + v) == And(x, u) * Power(k) + And(y, v)
    decreases k
  {
    if k == 0 {
    } else {
      var p := Power(k - 1);
      AndConcat(k - 1, x, y / 2, u, v / 2);
      Doubled(x, p);
      Doubled(u, p);
      Doubled(And(x, u), p);
      AndStep(x * p + y / 2, y % 2, u * p + v / 2, v % 2);
      AndStep(y / 2, y % 2, v / 2, v % 2);
    }
  }

  lemma Doubled(x: nat, p: nat)
    ensures x * (2 * p) == 2 * (x * p) >= 0
  {
  }

  // ---------------------------------------------------------------- addresses as numbers

  function Join(high: nat, low: Byte): nat {
    high * 0x100 + low
  }

  /** The address as a number, first byte first. */
  function Number(b: Bytes): nat {
    Join(Join(Join(b[0], b[1]), b[2]), b[3])
  }

  lemma NumberBounds(b: Bytes)
    ensures Number(b) <= Full(32)
  {
    FullValues();
  }

  lemma NumberIsOne(a: Bytes, b: Bytes)
    requires Number(a) == Number(b)
    ensures a == b
  {
    JoinIsOne(Join(Join(a[0], a[1]), a[2]), a[3], Join(Join(b[0], b[1]), b[2]), b[3]);
    JoinIsOne(Join(a[0], a[1]), a[2], Join(b[0], b[1]), b[2]);
    JoinIsOne(a[0], a[1], b[0], b[1]);
    assert a == [a[0], a[1], a[2], a[3]];
    assert b == [b[0], b[1], b[2], b[3]];
  }

  lemma JoinIsOne(x: nat, y: Byte, u: nat, v: Byte)
    requires Join(x, y) == Join(u, v)
    ensures x == u && y == v
  {
  }

  lemma AndJoin(x: nat, y: Byte, u: nat, v: Byte)
    ensures And(y, v) < 0x100 && And(Join(x, y), Join(u, v)) == Join(And(x, u), And(y, v))
  {
    assert Power(4) == 16;
    assert Power(8) == 0x100;
    AndConcat(8, x, y, u, v);
  }

  lemma AndNumber(a: Bytes, m: Bytes, r: Bytes)
    requires forall i :: 0 <= i < 4 ==> r[i] == And(a[i], m[i])
    ensures Number(r) == And(Number(a), Number(m))
  {
    AndJoin(a[0], a[1], m[0], m[1]);
    AndJoin(Join(a[0], a[1]), a[2], Join(m[0], m[1]), m[2]);
    AndJoin(Join(Join(a[0], a[1]), a[2]), a[3], Join(Join(m[0], m[1]), m[2]), m[3]);
  }

  /** The address agrees with the network wherever the mask has a one. */
  predicate Member(ip: nat, mask: nat, a: nat) {
    And(a, mask) == And(ip, mask)
  }

  predicate In(n: IPNet, a: Bytes) {
    Member(Number(n.ip), Number(n.mask), Number(a))
  }

  /** The mask of a prefix: ones, and then `host` zeros. */
  predicate IsPrefixMask(mask: Bytes, host: nat) {
    host <= 32 && Number(mask) + Full(host) == Full(32)
  }

  method Mask(ip: Bytes, mask: Bytes) returns (masked: Bytes)
    ensures forall i :: 0 <= i < 4 ==> masked[i] == And(ip[i], mask[i])
    ensures Number(masked) == And(Number(ip), Number(mask))
  {
    var a := new Byte[4](_ => 0);
    for i := 0 to 4
      invariant forall j :: 0 <= j < i ==> a[j] == And(ip[j], mask[j])
    {
      a[i] := And(ip[i], mask[i]);
    }
    masked := a[..];
    AndNumber(ip, mask, masked);
  }

  method Contains(n: IPNet, ip: Bytes) returns (yes: bool)
    ensures yes <==> In(n, ip)
  {
    var network := Mask(n.ip, n.mask);
    var masked := Mask(ip, n.mask);
    for i := 0 to 4
      invariant forall j :: 0 <= j < i ==> network[j] == masked[j]
    {
      if network[i] != masked[i] {
        if Number(network) == Number(masked) {
          NumberIsOne(network, masked);
        }
        return false;
      }
    }
    assert network == masked;
    return true;
  }

  // ---------------------------------------------------------------- the ends of a network

  /** The ends: all bits beside the mask off, or on. */
  predicate Ends(n: IPNet, first: Bytes, last: Bytes) {
    && Number(first) == And(Number(n.ip), Number(n.mask))
    && Number(last) == Number(first) + (Full(32) - Number(n.mask))
  }

  lemma FirstIsMember(ip: nat, mask: nat)
    ensures Member(ip, mask, And(ip, mask))
  {
    AndTwice(ip, mask);
  }

  lemma {:induction false} LastIsMember(n: nat, ip: nat, mask: nat)
    requires mask <= Full(n)
    ensures Member(ip, mask, And(ip, mask) + (Full(n) - mask))
    decreases n
  {
    if n == 0 {
      AndLeRight(ip, 0);
    } else {
      var i, p, m, q := ip / 2, ip % 2, mask / 2, mask % 2;
      LastIsMember(n - 1, i, m);
      AndStep(i, p, m, q);
      AndStep(And(i, m) + (Full(n - 1) - m), if q == 1 then p else 1, m, q);
    }
  }

  lemma MembersAreBetween(n: nat, ip: nat, mask: nat, a: nat)
    requires mask <= Full(n) && a <= Full(n) && Member(ip, mask, a)
    ensures And(ip, mask) <= a <= And(ip, mask) + (Full(n) - mask)
  {
    AndSplits(n, a, mask);
    AndLeRight(a, Full(n) - mask);
  }

  /** For the mask of a prefix, the network is the whole interval. */
  lemma {:induction false} MemberIffBetween(n: nat, q: nat, ip: nat, a: nat, mask: nat)
    requires q <= n && ip <= Full(n) && a <= Full(n) && mask + Full(q) == Full(n)
    ensures Member(ip, mask, a) <==> And(ip, mask) <= a <= And(ip, mask) + Full(q)
    decreases q
  {
    if q == 0 {
      AndFull(n, ip);
      AndFull(n, a);
    } else {
      var half := Full(n - 1) - Full(q - 1);
      MemberIffBetween(n - 1, q - 1, ip / 2, a / 2, half);
      AndDouble(ip, half);
      AndDouble(a, half);
      HalvesBetween(a, And(ip / 2, half), Full(q - 1));
    }
  }

  lemma AndDouble(a: nat, m: nat)
    ensures And(a, 2 * m) == 2 * And(a / 2, m)
  {
    AndStep(a / 2, a % 2, m, 0);
  }

  lemma HalvesBetween(a: nat, x: nat, f: nat)
    ensures 2 * x <= a <= 2 * x + 1 + 2 * f <==> x <= a / 2 <= x + f
  {
  }

  function LastByte(ip: Byte, mask: Byte): (last: Byte)
    ensures last == And(ip, mask) + Not(mask)
  {
    FullValues();
    OrAdds(8, ip, mask);
    AndLeRight(ip, mask);
    Or(ip, Not(mask))
  }

  predicate Between(first: Bytes, a: Bytes, last: Bytes) {
    Number(first) <= Number(a) <= Number(last)
  }

  /** `NetworkRange`: the least and the greatest address of the network, whatever its mask; for the mask of a
      prefix the network is all that lies between. */
  method NetworkRange(n: IPNet) returns (first: Bytes, last: Bytes)
    ensures Ends(n, first, last)
    ensures In(n, first) && In(n, last)
    ensures forall a: Bytes :: In(n, a) ==> Between(first, a, last)
    ensures forall host: nat :: IsPrefixMask(n.mask, host) ==>
              forall a: Bytes :: In(n, a) <==> Between(first, a, last)
  {
    first := Mask(n.ip, n.mask);
    var l := new Byte[4](_ => 0);
    for i := 0 to 4
      invariant forall j :: 0 <= j < i ==> l[j] == LastByte(n.ip[j], n.mask[j])
    {
      l[i] := LastByte(n.ip[i], n.mask[i]);
    }
    last := l[..];
    EndsNumber(n, first, last);
    EndsAreIn(n, first, last);
    MembersFill(n, first, last);
  }

  lemma MembersFill(n: IPNet, first: Bytes, last: Bytes)
    requires Ends(n, first, last)
    ensures forall a: Bytes :: In(n, a) ==> Between(first, a, last)
    ensures forall host: nat :: IsPrefixMask(n.mask, host) ==>
              forall a: Bytes :: In(n, a) <==> Between(first, a, last)
  {
    forall a: Bytes
      ensures In(n, a) ==> Between(first, a, last)
    {
      InIsBetween(n, first, last, a);
    }
    forall host: nat, a: Bytes | IsPrefixMask(n.mask, host)
      ensures In(n, a) <==> Between(first, a, last)
    {
      PrefixIsBetween(n, first, last, host, a);
    }
  }

  lemma EndsNumber(n: IPNet, first: Bytes, last: Bytes)
    requires Number(first) == And(Number(n.ip), Number(n.mask))
    requires forall i :: 0 <= i < 4 ==> first[i] == And(n.ip[i], n.mask[i])
    requires forall i :: 0 <= i < 4 ==> last[i] == LastByte(n.ip[i], n.mask[i])
    ensures Ends(n, first, last)
  {
    FullValues();
  }

  lemma EndsAreIn(n: IPNet, first: Bytes, last: Bytes)
    requires Ends(n, first, last)
    ensures In(n, first) && In(n, last)
  {
    NumberBounds(n.ip);
    NumberBounds(n.mask);
    EndsAreMembers(Number(n.ip), Number(n.mask), Number(first), Number(last));
  }

  lemma EndsAreMembers(ip: nat, mask: nat, first: nat, last: nat)
    requires ip <= Full(32) && mask <= Full(32)
    requires first == And(ip, mask) && last == first + (Full(32) - mask)
    ensures Member(ip, mask, first) && Member(ip, mask, last)
  {
    FirstIsMember(ip, mask);
    LastIsMember(32, ip, mask);
  }

  lemma InIsBetween(n: IPNet, first: Bytes, last: Bytes, a: Bytes)
    requires Ends(n, first, last)
    ensures In(n, a) ==> Between(first, a, last)
  {
    NumberBounds(n.mask);
    NumberBounds(a);
    if In(n, a) {
      MembersAreBetween(32, Number(n.ip), Number(n.mask), Number(a));
    }
  }

  lemma PrefixIsBetween(n: IPNet, first: Bytes, last: Bytes, host: nat, a: Bytes)
    requires Ends(n, first, last) && IsPrefixMask(n.mask, host)
    ensures In(n, a) <==> Between(first, a, last)
  {
    NumberBounds(n.ip);
    NumberBounds(a);
    MemberIffBetween(32, host, Number(n.ip), Number(a), Number(n.mask));
  }

  // ---------------------------------------------------------------- overlaps

  /** Every one of the mask `k` is in `m`. */
  predicate Covers(m: nat, k: nat) {
    And(m, k) == k
  }

  predicate Nested(m: nat, k: nat) {
    Covers(m, k) || Covers(k, m)
  }

  /** The longer of two prefixes has the mask that covers the other. */
  lemma {:induction false} PrefixCovers(n: nat, q: nat, r: nat, m: nat, k: nat)
    requires q <= r <= n && m + Full(q) == Full(n) && k + Full(r) == Full(n)
    ensures Covers(m, k)
    decreases q
  {
    if q == 0 {
      FullAnd(n, k);
    } else {
      FullGrows(q - 1, n - 1);
      FullGrows(r - 1, n - 1);
      PrefixCovers(n - 1, q - 1, r - 1, Full(n - 1) - Full(q - 1), Full(n - 1) - Full(r - 1));
      AndDouble(m, Full(n - 1) - Full(r - 1));
    }
  }

  /** The masks of prefixes are nested. */
  lemma PrefixesAreNested(x: Bytes, y: Bytes, p: nat, q: nat)
    requires IsPrefixMask(x, p) && IsPrefixMask(y, q)
    ensures Nested(Number(x), Number(y))
  {
    if p <= q {
      PrefixCovers(32, p, q, Number(x), Number(y));
    } else {
      PrefixCovers(32, q, p, Number(y), Number(x));
    }
  }

  /** If the mask of `x` covers that of `y`, and some address is in both, then so is the first of `x`. */
  lemma FirstIsCommon(x: nat, m: nat, y: nat, k: nat, a: nat)
    requires Covers(m, k) && Member(x, m, a) && Member(y, k, a)
    ensures Member(y, k, And(x, m))
  {
    AndAssociates(a, m, k);
  }

  /** For networks of the last address, that is so only if the mask covers the other. */
  lemma OnlyIfCovers(m: nat, k: nat)
    requires m <= Full(32) && k <= Full(32)
    ensures Member(Full(32), k, And(Full(32), m)) ==> Covers(m, k)
  {
    FullAnd(32, m);
    FullAnd(32, k);
  }

  /** `NetworkOverlaps`: for nested masks, as those of prefixes are, true exactly when some address is in
      both networks. For any two other masks it misses that the last address is in the networks of both. */
  method NetworkOverlaps(x: IPNet, y: IPNet) returns (overlap: bool)
    ensures overlap ==> exists a :: In(x, a) && In(y, a)
    ensures Nested(Number(x.mask), Number(y.mask)) ==> (overlap <==> exists a :: In(x, a) && In(y, a))
    ensures Number(x.ip) == Number(y.ip) == Full(32) && !Nested(Number(x.mask), Number(y.mask)) ==>
              !overlap && In(x, x.ip) && In(y, x.ip)
  {
    var firstX, _ := NetworkRange(x);
    var firstY, _ := NetworkRange(y);
    overlap := Contains(y, firstX);
    if !overlap {
      overlap := Contains(x, firstY);
    }
    forall a | In(x, a) && In(y, a)
      ensures Nested(Number(x.mask), Number(y.mask)) ==> In(y, firstX) || In(x, firstY)
    {
      if Covers(Number(x.mask), Number(y.mask)) {
        FirstIsCommon(Number(x.ip), Number(x.mask), Number(y.ip), Number(y.mask), Number(a));
      } else if Covers(Number(y.mask), Number(x.mask)) {
        FirstIsCommon(Number(y.ip), Number(y.mask), Number(x.ip), Number(x.mask), Number(a));
      }
    }
    if Number(x.ip) == Number(y.ip) == Full(32) {
      NumberBounds(x.mask);
      NumberBounds(y.mask);
      OnlyIfCovers(Number(x.mask), Number(y.mask));
      OnlyIfCovers(Number(y.mask), Number(x.mask));
    }
  }

  // ---------------------------------------------------------------- sizes

  /** A 32-bit signed integer after an overflow. */
  function Wrap32(x: int): (w: int)
    ensures -0x8000_0000 <= w < 0x8000_0000 && (-0x8000_0000 <= x < 0x8000_0000 ==> w == x)
  {
    (x + 0x8000_0000) % 0x1_0000_0000 - 0x8000_0000
  }

  /** What the machine computes from the complement of a mask. */
  function Size(mask: nat): int
    requires mask <= Full(32)
  {
    Wrap32(Wrap32(Full(32) - mask) + 1)
  }

  predicate Counts(size: int, first: Bytes, last: Bytes) {
    size == Number(last) - Number(first) + 1
  }

  /** The size is the number of addresses from the first to the last, exactly for prefixes of two bits or more:
      no more fit the signed result. */
  lemma SizeIsRight(n: IPNet, first: Bytes, last: Bytes, host: nat)
    requires IsPrefixMask(n.mask, host) && Ends(n, first, last)
    ensures Counts(Size(Number(n.mask)), first, last) <==> host <= 30
  {
    FullValues();
    if host <= 30 {
      FullGrows(host, 30);
    } else {
      FullGrows(31, host);
      FullGrows(host, 32);
    }
  }

  /** `NetworkSize`: the complement of the mask as a 32-bit signed number, and one more. For a prefix it counts
      the addresses between the ends that `NetworkRange` gives, exactly from two bits on. */
  method NetworkSize(mask: Bytes) returns (size: int)
    ensures Number(mask) <= Full(32) && size == Size(Number(mask))
    ensures forall n: IPNet, first: Bytes, last: Bytes, host: nat ::
              n.mask == mask && IsPrefixMask(mask, host) && Ends(n, first, last) ==>
                (Counts(size, first, last) <==> host <= 30)
  {
    var m := new Byte[4](_ => 0);
    for i := 0 to 4
      invariant forall j :: 0 <= j < i ==> m[j] == Not(mask[j])
    {
      m[i] := Not(mask[i]);
    }
    NumberBounds(mask);
    Complement(mask, m[..]);
    size := Wrap32(Wrap32(Number(m[..])) + 1);
    SizesAreRight(mask);
  }

  lemma SizesAreRight(mask: Bytes)
    requires Number(mask) <= Full(32)
    ensures forall n: IPNet, first: Bytes, last: Bytes, host: nat ::
              n.mask == mask && IsPrefixMask(mask, host) && Ends(n, first, last) ==>
                (Counts(Size(Number(mask)), first, last) <==> host <= 30)
  {
    forall n: IPNet, first: Bytes, last: Bytes, host: nat
      | n.mask == mask && IsPrefixMask(mask, host) && Ends(n, first, last)
      ensures Counts(Size(Number(mask)), first, last) <==> host <= 30
    {
      SizeIsRight(n, first, last, host);
    }
  }

  lemma Complement(mask: Bytes, m: Bytes)
    requires forall i :: 0 <= i < 4 ==> m[i] == Not(mask[i])
    ensures Number(m) + Number(mask) == Full(32)
  {
    FullValues();
  }
}
