/** IP addresses and prefixes as net/netip has them, and the canonical form of trusted prefixes (clientid.go). */
module Addresses {

  /** Two to the 32 and to the 128: one more than the largest IPv4 and IPv6 address. */
  const WORD: nat := 0x1_0000_0000
  const LIMIT6: nat := 0x1_0000_0000_0000_0000_0000_0000_0000_0000

  function Pow2(n: nat): (r: nat)
    ensures r > 0
  {
    if n == 0 then 1 else 2 * Pow2(n - 1)
  }

  /** netip.Addr: the zero value, an IPv4 address, or an IPv6 address with a zone. */
  datatype Addr = Invalid | V4(value: nat) | V6(value: nat, zone: string)
  {
    predicate Valid() {
      match this
      case Invalid => true
      case V4(x) => x < WORD
      case V6(x, _) => x < LIMIT6
    }

    function BitLen(): nat {
      match this
      case Invalid => 0
      case V4(_) => 32
      case V6(_, _) => 128
    }

    /** The address lies in ::ffff:0:0/96 (section 2.5.5.2 of RFC 4291). */
    predicate Is4In6() {
      V6? && value / WORD == 0xffff
    }

    function Unmap(): Addr {
      if Is4In6() then V4(value % WORD) else this
    }
  }

  function Mapped(x: nat): Addr {
    V6(0xffff * WORD + x, "")
  }

  function Quotient(x: nat, m: nat): nat
    requires m > 0
  {
    x / m
  }

  /** x with everything below the power of two m set to zero. */
  function ClearLow(x: nat, m: nat): nat
    requires m > 0
  {
    assert x < m ==> x % m == x;
    x - x % m
  }

  datatype Prefix = Prefix(addr: Addr, bits: nat)
  {
    predicate Valid() {
      !addr.Invalid? && addr.Valid() && bits <= addr.BitLen() && (addr.V6? ==> addr.zone == "")
    }

    /** The size of the address range below the prefix bits. */
    function Block(): (r: nat)
      requires Valid()
      ensures r > 0
    {
      Pow2(addr.BitLen() - bits)
    }

    function Masked(): Prefix
      requires Valid()
    {
      this.(addr := addr.(value := ClearLow(addr.value, Block())))
    }

    /** Containment compares the bits above the block. */
    predicate Contains(a: Addr)
      requires Valid()
    {
      && !a.Invalid? && (a.V6? ==> a.zone == "") && a.BitLen() == addr.BitLen()
      && Quotient(a.value, Block()) == Quotient(addr.value, Block())
    }
  }

  type ValidPrefix = p: Prefix | p.Valid() witness Prefix(V4(0), 0)

  /** canonicalizeTrustedPrefix, with both clamps. */
  function Canonicalize(p: Prefix): (r: Prefix)
    requires p.Valid()
    ensures r.Valid()
  {
    var masked := p.Masked();
    MaskedValid(p);
    if !masked.addr.Is4In6() then masked
    else
      MappedIsLong(p);
      var ipv4 := masked.addr.Unmap();
      var bits := masked.bits - (masked.addr.BitLen() - ipv4.BitLen());
      Prefix(ipv4, if bits < 0 then 0 else if bits > ipv4.BitLen() then ipv4.BitLen() else bits)
  }

  // ---- Arithmetic ----

  lemma {:induction false} Pow2Adds(a: nat, b: nat)
    ensures Pow2(a + b) == Pow2(a) * Pow2(b)
    decreases a
  {
    if a > 0 {
      Pow2Adds(a - 1, b);
      var x, y := Pow2(a - 1), Pow2(b);
      assert Pow2(a) == 2 * x && Pow2(a + b) == 2 * Pow2(a - 1 + b);
      hide Pow2;
      DoubleFirst(x, y);
    }
  }

  lemma DoubleFirst(x: nat, y: nat)
    ensures 2 * (x * y) == (2 * x) * y
  {}

  lemma WordIsPow2()
    ensures Pow2(32) == WORD
  {
    assert Pow2(8) == 256;
    Pow2Adds(8, 8);
    assert Pow2(16) == 65536;
    Pow2Adds(16, 16);
  }

  lemma MulGrows(d: int, m: nat)
    ensures d >= 1 ==> d * m >= m
    ensures d <= -1 ==> d * m <= -(m as int)
  {}

  lemma DivMod(x: nat, m: nat)
    requires m > 0
    ensures x == (x / m) * m + x % m && 0 <= x % m < m && 0 <= x / m
  {}

  lemma QuotientIsUnique(x: nat, m: nat, q: nat, r: nat)
    requires m > 0 && x == q * m + r && r < m
    ensures x / m == q && x % m == r
  {
    DivMod(x, m);
    var d := x / m - q;
    assert d * m == (x / m) * m - q * m;
    MulGrows(d, m);
  }

  lemma Compose(x: nat, a: nat, b: nat, y: nat, low: nat, q: nat, r: nat)
    requires x == y * a + low && low < a && y == q * b + r && r < b
    ensures x == q * (a * b) + (r * a + low) && r * a + low < a * b
  {
    assert y * a == (q * b) * a + r * a;
    assert (q * b) * a == q * (a * b);
    assert r * a <= (b - 1) * a by { MulMonotone(r, b - 1, a); }
    assert (b - 1) * a == a * b - a;
  }

  lemma MulMonotone(r: nat, s: nat, a: nat)
    requires r <= s
    ensures r * a <= s * a
  {}

  /** Dividing twice is dividing by the product. */
  lemma DivTwice(x: nat, a: nat, b: nat)
    requires a > 0 && b > 0
    ensures a * b > 0 && Quotient(x, a * b) == Quotient(Quotient(x, a), b)
  {
    var y, low := x / a, x % a;
    DivMod(x, a);
    var q, r := y / b, y % b;
    DivMod(y, b);
    Compose(x, a, b, y, low, q, r);
    var m, rest := a * b, r * a + low;
    QuotientIsUnique(x, m, q, rest);
  }

  /** Clearing the low part keeps the high part. */
  lemma MaskKeeps(x: nat, m: nat)
    requires m > 0
    ensures ClearLow(x, m) / m == x / m && ClearLow(x, m) % m == 0 && ClearLow(x, m) == (x / m) * m
  {
    DivMod(x, m);
    QuotientIsUnique(ClearLow(x, m), m, x / m, 0);
  }

  /** A number whose low n bits are zero is even above its low w bits, for w below n. */
  lemma ClearedIsEven(x: nat, n: nat, w: nat)
    requires w < n && x % Pow2(n) == 0
    ensures x / Pow2(w) % 2 == 0
  {
    var k: nat := n - w - 1;
    Pow2Adds(w, k + 1);
    ExactQuotient(x, Pow2(n));
    EvenQuotient(x, Pow2(w), Pow2(k), x / Pow2(n));
  }

  lemma ExactQuotient(x: nat, m: nat)
    requires m > 0 && x % m == 0
    ensures x == (x / m) * m
  {}

  lemma EvenQuotient(x: nat, a: nat, c: nat, y: nat)
    requires a > 0 && x == y * (a * (2 * c))
    ensures x / a % 2 == 0
  {
    var half := y * c;
    Halve(y, a, c, half);
    QuotientIsUnique(x, a, 2 * half, 0);
  }

  lemma Halve(y: nat, a: nat, c: nat, half: nat)
    requires half == y * c
    ensures y * (a * (2 * c)) == (2 * half) * a
  {}

  // ---- Canonical prefixes ----

  lemma MaskedValid(p: Prefix)
    requires p.Valid()
    ensures p.Masked().Valid() && p.Masked().bits == p.bits && p.Masked().Block() == p.Block()
    ensures p.Masked().addr.value % p.Block() == 0
            && Quotient(p.Masked().addr.value, p.Block()) == Quotient(p.addr.value, p.Block())
  {
    MaskKeeps(p.addr.value, p.Block());
  }

  /**
   * A masked prefix whose address is IPv4-mapped has at least 96 bits: 0xffff is odd, a shorter mask leaves it even.
   */
  lemma MappedIsLong(p: Prefix)
    requires p.Valid() && p.Masked().addr.Is4In6()
    ensures p.bits >= 96
  {
    if p.bits < 96 {
      MaskedValid(p);
      WordIsPow2();
      ClearedIsEven(p.Masked().addr.value, 128 - p.bits, 32);
    }
  }

  /** The clamps of canonicalizeTrustedPrefix never fire. */
  lemma ClampsNeverFire(p: Prefix)
    requires p.Valid()
    ensures p.Masked().addr.Is4In6() ==>
              96 <= p.bits <= 128 && Canonicalize(p) == Prefix(p.Masked().addr.Unmap(), p.bits - 96)
  {
    MaskedValid(p);
    if p.Masked().addr.Is4In6() {
      MappedIsLong(p);
    }
  }

  lemma AddMultiple(n: nat, m: nat, x: nat)
    requires m > 0
    ensures Quotient(n * m + x, m) == n + Quotient(x, m)
  {
    DivMod(x, m);
    assert (n + x / m) * m == n * m + (x / m) * m;
    QuotientIsUnique(n * m + x, m, n + x / m, x % m);
  }

  /** For blocks within the last 32 bits, the mapped form only adds a constant above the block. */
  lemma MappedQuotient(x: nat, k: nat)
    requires k <= 32
    ensures Quotient(0xffff * WORD + x, Pow2(k)) == 0xffff * Pow2(32 - k) + Quotient(x, Pow2(k))
  {
    WordIsPow2();
    Pow2Adds(k, 32 - k);
    ScaledQuotient(0xffff, Pow2(k), Pow2(32 - k), x);
    hide Quotient, Pow2;
  }

  lemma ScaledQuotient(n: nat, m: nat, c: nat, x: nat)
    requires m > 0
    ensures n * (m * c) >= 0 && Quotient(n * (m * c) + x, m) == n * c + Quotient(x, m)
  {
    Exchange(n, m, c);
    AddMultiple(n * c, m, x);
  }

  lemma Exchange(n: nat, m: nat, c: nat)
    ensures n * (m * c) == (n * c) * m
  {}

  lemma MappedParts(a: Addr)
    requires a.Is4In6() && a.Valid()
    ensures a.value == 0xffff * WORD + a.Unmap().value && a.Unmap() == V4(a.value % WORD) && a.Unmap().Valid()
  {}

  /** An IPv4 address lies in the canonical form of a mapped prefix exactly when its mapped form lies in the prefix. */
  lemma MappedMembership(p: Prefix, x: nat)
    requires p.Valid() && p.Masked().addr.Is4In6()
    ensures Canonicalize(p).Contains(V4(x)) <==> p.Contains(Mapped(x))
  {
    ClampsNeverFire(p);
    MaskedValid(p);
    var k, a := 128 - p.bits, p.Masked().addr;
    MappedParts(a);
    MappedQuotient(x, k);
    MappedQuotient(a.Unmap().value, k);
    hide Quotient, Pow2;
  }

  /**
   * Where the canonical form of an IPv6 prefix speaks for IPv4: exactly unless it is short and covers the mapped range.
   */
  lemma FaithfulExactlyWhen(p: Prefix)
    requires p.Valid() && p.addr.V6?
    ensures (forall x: nat :: x < WORD ==> (Canonicalize(p).Contains(V4(x)) <==> p.Contains(Mapped(x))))
            <==> !(p.bits < 96 && p.Contains(Mapped(0)))
  {
    ClampsNeverFire(p);
    if p.Masked().addr.Is4In6() {
      MappedIsLong(p);
      forall x: nat | x < WORD ensures Canonicalize(p).Contains(V4(x)) <==> p.Contains(Mapped(x)) {
        MappedMembership(p, x);
      }
    } else {
      forall x: nat | x < WORD && p.Contains(Mapped(x)) ensures p.bits < 96 && p.Contains(Mapped(0)) {
        MappedInUnmapped(p, x);
      }
      assert 0 < WORD;
      assert !Canonicalize(p).Contains(V4(0));
    }
  }

  /** Every short prefix over the mapped range loses all IPv4 addresses: their mapped forms lie in it, they do not. */
  lemma ShortPrefixLosesIPv4(p: ValidPrefix, x: nat)
    requires p.addr.V6? && p.bits < 96 && p.Contains(Mapped(0)) && x < WORD
    ensures p.Contains(Mapped(x)) && !AddrIsTrusted(V4(x), [p]) && !AddrIsTrusted(Mapped(x), [p])
  {
    ClampsNeverFire(p);
    MaskedValid(p);
    var n := 128 - p.bits;
    Pow2Adds(32, n - 32);
    WordIsPow2();
    QuotientIsUnique(0xffff * WORD + x, WORD, 0xffff, x);
    QuotientIsUnique(0xffff * WORD, WORD, 0xffff, 0);
    DivTwice(0xffff * WORD + x, WORD, Pow2(n - 32));
    DivTwice(0xffff * WORD, WORD, Pow2(n - 32));
    TrustIgnoresMapping(x, [p]);
    hide Pow2;
  }

  const EVERYTHING: Prefix := Prefix(V6(0, ""), 0)

  /** ::/0 is such a prefix: it contains every mapped address and trusts no IPv4 peer. */
  lemma EverythingTrustsNoIPv4(x: nat)
    requires x < WORD
    ensures EVERYTHING.Valid() && EVERYTHING.Contains(Mapped(x)) && !AddrIsTrusted(V4(x), [EVERYTHING])
  {
    Pow2Of128();
    QuotientIsUnique(0xffff * WORD, LIMIT6, 0, 0xffff * WORD);
    QuotientIsUnique(0, LIMIT6, 0, 0);
    assert EVERYTHING.Block() == LIMIT6;
    hide Pow2;
    ShortPrefixLosesIPv4(EVERYTHING, x);
  }

  lemma Pow2Of128()
    ensures Pow2(128) == LIMIT6
  {
    WordIsPow2();
    Pow2Adds(32, 32);
    Pow2Adds(64, 64);
  }

  /** A prefix that is not mapped but contains a mapped address is short and contains the whole mapped range. */
  lemma MappedInUnmapped(p: Prefix, x: nat)
    requires p.Valid() && p.addr.V6? && !p.Masked().addr.Is4In6() && x < WORD && p.Contains(Mapped(x))
    ensures p.bits < 96 && p.Contains(Mapped(0))
  {
    MaskedValid(p);
    WordIsPow2();
    var n, a := 128 - p.bits, p.Masked().addr.value;
    QuotientIsUnique(0xffff * WORD + x, WORD, 0xffff, x);
    QuotientIsUnique(0xffff * WORD, WORD, 0xffff, 0);
    if n <= 32 {
      Pow2Adds(n, 32 - n);
      DivTwice(a, Pow2(n), Pow2(32 - n));
      DivTwice(0xffff * WORD + x, Pow2(n), Pow2(32 - n));
      hide Pow2;
    } else {
      Pow2Adds(32, n - 32);
      DivTwice(0xffff * WORD + x, WORD, Pow2(n - 32));
      DivTwice(0xffff * WORD, WORD, Pow2(n - 32));
      hide Pow2;
    }
  }

  lemma ClearedTwice(x: nat, m: nat)
    requires m > 0 && x % m == 0
    ensures ClearLow(x, m) == x
  {}

  /** The IPv4 part of a masked mapped address is masked itself. */
  lemma LowPartCleared(a: Addr, k: nat)
    requires a.Is4In6() && a.Valid() && k <= 32 && a.value % Pow2(k) == 0
    ensures a.Unmap().value % Pow2(k) == 0
  {
    WordIsPow2();
    MappedParts(a);
    Pow2Adds(k, 32 - k);
    ExactQuotient(a.value, Pow2(k));
    var m, c, y, w := Pow2(k), Pow2(32 - k), a.value / Pow2(k), a.Unmap().value;
    DifferenceIsMultiple(w, m, c, y);
  }

  lemma DifferenceIsMultiple(w: nat, m: nat, c: nat, y: nat)
    requires m > 0 && y * m == 0xffff * (m * c) + w
    ensures w % m == 0
  {
    assert 0xffff * (m * c) == (0xffff * c) * m;
    var d := y - 0xffff * c;
    assert d * m == y * m - (0xffff * c) * m;
    MulGrows(d, m);
    QuotientIsUnique(w, m, d, 0);
  }

  /** Canonicalising twice is canonicalising once. */
  lemma CanonicalizeIdempotent(p: Prefix)
    requires p.Valid()
    ensures Canonicalize(Canonicalize(p)) == Canonicalize(p)
  {
    ClampsNeverFire(p);
    MaskedValid(p);
    var q := Canonicalize(p);
    if p.Masked().addr.Is4In6() {
      LowPartCleared(p.Masked().addr, 128 - p.bits);
    }
    ClearedTwice(q.addr.value, q.Block());
    assert q.Masked() == q;
  }

  /** addrIsTrusted */
  predicate AddrIsTrusted(a: Addr, trusted: seq<ValidPrefix>) {
    && !a.Invalid? && |trusted| > 0
    && exists i :: 0 <= i < |trusted| && Canonicalize(trusted[i]).Contains(a.Unmap())
  }

  function CanonicalizeAll(trusted: seq<ValidPrefix>): (r: seq<ValidPrefix>)
    ensures |r| == |trusted| && forall i :: 0 <= i < |r| ==> r[i] == Canonicalize(trusted[i])
  {
    seq(|trusted|, i requires 0 <= i < |trusted| => Canonicalize(trusted[i]))
  }

  /** Canonicalising the configured list in advance does not change which addresses are trusted. */
  lemma TrustUnchanged(a: Addr, trusted: seq<ValidPrefix>)
    ensures AddrIsTrusted(a, CanonicalizeAll(trusted)) == AddrIsTrusted(a, trusted)
  {
    hide Canonicalize;
    forall i | 0 <= i < |trusted| ensures Canonicalize(CanonicalizeAll(trusted)[i]) == Canonicalize(trusted[i]) {
      CanonicalizeIdempotent(trusted[i]);
    }
  }

  /** An IPv4-mapped IPv6 address is trusted exactly when its IPv4 form is. */
  lemma TrustIgnoresMapping(x: nat, trusted: seq<ValidPrefix>)
    requires x < WORD
    ensures AddrIsTrusted(Mapped(x), trusted) == AddrIsTrusted(V4(x), trusted)
  {}

  // ---- Trust as ranges of addresses ----

  /** The address is of the prefix's family, has no zone, and lies in the block that the prefix address lies in. */
  predicate InRange(p: Prefix, a: Addr)
    requires p.Valid()
  {
    var size := Pow2(p.addr.BitLen() - p.bits);
    var low := p.addr.value - p.addr.value % size;
    a.BitLen() == p.addr.BitLen() && (a.V6? ==> a.zone == "") && low <= a.value < low + size
  }

  lemma SameQuotient(x: nat, y: nat, m: nat)
    requires m > 0
    ensures x / m == y / m <==> y - y % m <= x < y - y % m + m
  {
    DivMod(x, m);
    DivMod(y, m);
    var d := x / m - y / m;
    assert d * m == (x / m) * m - (y / m) * m;
    MulGrows(d, m);
  }

  lemma ContainsIsRange(p: Prefix, a: Addr)
    requires p.Valid()
    ensures p.Contains(a) <==> InRange(p, a)
  {
    if a.BitLen() == p.addr.BitLen() {
      SameQuotient(a.value, p.addr.value, p.Block());
    }
    hide Pow2;
  }

  /** A masked prefix covers the same range. */
  lemma MaskedContains(p: Prefix, a: Addr)
    requires p.Valid()
    ensures p.Masked().Valid() && (p.Masked().Contains(a) <==> p.Contains(a))
  {
    MaskedValid(p);
    hide Pow2, Quotient, ClearLow;
  }

  /** Canonicalising keeps the range of every prefix that is not mapped. */
  lemma UnmappedKeepsRange(p: Prefix, a: Addr)
    requires p.Valid() && !p.Masked().addr.Is4In6()
    ensures Canonicalize(p).Contains(a) <==> InRange(p, a)
  {
    MaskedContains(p, a);
    ContainsIsRange(p, a);
  }

  /** What a trusted prefix says about an unmapped address, in terms of ranges alone. */
  predicate Covers(p: ValidPrefix, a: Addr) {
    match a
    case Invalid => false
    case V4(x) => if p.addr.V4? then InRange(p, a) else p.bits >= 96 && InRange(p, Mapped(x))
    case V6(_, _) => InRange(p, a)
  }

  lemma CanonicalCovers(p: ValidPrefix, a: Addr)
    requires a.Valid() && !a.Is4In6()
    ensures Canonicalize(p).Contains(a) <==> Covers(p, a)
  {
    ClampsNeverFire(p);
    if !p.Masked().addr.Is4In6() {
      UnmappedKeepsRange(p, a);
      if a.V4? && p.addr.V6? && p.bits >= 96 && InRange(p, Mapped(a.value)) {
        ContainsIsRange(p, Mapped(a.value));
        MappedInUnmapped(p, a.value);
      }
    } else if a.V4? {
      MappedMembership(p, a.value);
      ContainsIsRange(p, Mapped(a.value));
    } else if a.V6? {
      OnlyMappedInMapped(p, a);
    }
  }

  /** A mapped prefix holds mapped addresses only. */
  lemma OnlyMappedInMapped(p: ValidPrefix, a: Addr)
    requires p.Masked().addr.Is4In6() && a.Valid() && a.V6? && !a.Is4In6()
    ensures !InRange(p, a) && !Canonicalize(p).Contains(a)
  {
    ClampsNeverFire(p);
    MaskedContains(p, a);
    ContainsIsRange(p, a);
    if p.Contains(a) {
      var k := 128 - p.bits;
      WordIsPow2();
      Pow2Adds(k, 32 - k);
      DivTwice(a.value, Pow2(k), Pow2(32 - k));
      DivTwice(p.Masked().addr.value, Pow2(k), Pow2(32 - k));
      hide Pow2;
    }
  }

  /** An address is trusted exactly when its unmapped form lies in the range of a listed prefix. */
  lemma TrustedExactlyWhen(a: Addr, trusted: seq<ValidPrefix>)
    requires a.Valid()
    ensures AddrIsTrusted(a, trusted) <==> exists i :: 0 <= i < |trusted| && Covers(trusted[i], a.Unmap())
  {
    if !a.Invalid? {
      UnmapIsUnmapped(a);
      forall i | 0 <= i < |trusted|
        ensures Canonicalize(trusted[i]).Contains(a.Unmap()) == Covers(trusted[i], a.Unmap())
      {
        CanonicalCovers(trusted[i], a.Unmap());
      }
    }
    hide Canonicalize, InRange;
  }

  lemma UnmapIsUnmapped(a: Addr)
    requires a.Valid()
    ensures a.Unmap().Valid() && !a.Unmap().Is4In6() && (!a.Invalid? ==> !a.Unmap().Invalid?)
    ensures a.Unmap() == a || (exists x: nat :: x < WORD && a.V6? && a.value == 0xffff * WORD + x && a.Unmap() == V4(x))
  {
    if a.Is4In6() {
      MappedParts(a);
      assert a.value % WORD < WORD;
    }
  }
}
