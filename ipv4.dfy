/** IPv4 addresses as the core sees them: the dotted-quad recogniser that
    stands in for Go's `net.ParseIP` and Python's `ipaddress.IPv4Address`,
    CIDR networks as produced by `net.ParseCIDR` with `Contains`, and
    Python's `is_global`. */
module IPv4 {
  import opened Common
  import opened Text

  /** 2^32: one past the largest IPv4 address. */
  const Two32: nat := 0x1_0000_0000

  function Pow2(n: nat): (r: nat)
    ensures r >= 1
  {
    if n == 0 then 1 else 2 * Pow2(n - 1)
  }

  predicate IsDigit(c: char)
  {
    '0' <= c <= '9'
  }

  predicate AllDigits(s: string)
  {
    forall i :: 0 <= i < |s| ==> IsDigit(s[i])
  }

  function DigitValue(c: char): nat
    requires IsDigit(c)
  {
    (c as int) - ('0' as int)
  }

  function Digit(d: nat): (c: char)
    requires d < 10
    ensures IsDigit(c) && DigitValue(c) == d
  {
    (('0' as int) + d) as char
  }

  /** The decimal value of a string of digits, most significant first. */
  function Decimal(s: string): nat
    requires AllDigits(s)
    decreases |s|
  {
    if |s| == 0 then 0 else 10 * Decimal(s[..|s| - 1]) + DigitValue(s[|s| - 1])
  }

  /** The canonical decimal spelling of an octet: no leading zeros. */
  function FormatOctet(n: nat): (r: string)
    requires n < 256
  {
    if n < 10 then [Digit(n)]
    else if n < 100 then [Digit(n / 10), Digit(n % 10)]
    else [Digit(n / 100), Digit(n / 10 % 10), Digit(n % 10)]
  }

  /** One field of a dotted quad: one to three digits, no leading zero unless
      the field is "0", value at most 255. Exactly the canonical spellings
      are accepted (see also `ParseFormatOctet`). */
  function ParseOctet(f: string): (r: Option<nat>)
    ensures r.Some? ==> r.value < 256 && FormatOctet(r.value) == f
  {
    if 1 <= |f| <= 3 && AllDigits(f) && (|f| == 1 || f[0] != '0') && Decimal(f) < 256
    then OctetCanonical(f); Some(Decimal(f))
    else None
  }

  lemma DigitRoundTrip(c: char)
    requires IsDigit(c)
    ensures Digit(DigitValue(c)) == c
  {
  }

  lemma Decimal1(f: string)
    requires |f| == 1 && AllDigits(f)
    ensures Decimal(f) == DigitValue(f[0])
  {
    assert f[..0] == [];
  }

  lemma Decimal2(f: string)
    requires |f| == 2 && AllDigits(f)
    ensures Decimal(f) == 10 * DigitValue(f[0]) + DigitValue(f[1])
  {
    Decimal1(f[..1]);
  }

  lemma Decimal3(f: string)
    requires |f| == 3 && AllDigits(f)
    ensures Decimal(f) == 100 * DigitValue(f[0]) + 10 * DigitValue(f[1]) + DigitValue(f[2])
  {
    Decimal2(f[..2]);
  }

  lemma OctetCanonical(f: string)
    requires 1 <= |f| <= 3 && AllDigits(f) && (|f| == 1 || f[0] != '0') && Decimal(f) < 256
    ensures FormatOctet(Decimal(f)) == f
  {
    var n := Decimal(f);
    DigitRoundTrip(f[0]);
    if |f| == 1 {
      Decimal1(f);
    } else if |f| == 2 {
      Decimal2(f);
      DigitRoundTrip(f[1]);
      Split10(n, DigitValue(f[0]), DigitValue(f[1]));
    } else {
      Decimal3(f);
      DigitRoundTrip(f[1]);
      DigitRoundTrip(f[2]);
      Split100(n, DigitValue(f[0]), DigitValue(f[1]), DigitValue(f[2]));
    }
  }

  lemma Split10(n: nat, a: nat, b: nat)
    requires 1 <= a < 10 && b < 10 && n == 10 * a + b
    ensures 10 <= n < 100 && n / 10 == a && n % 10 == b
  {
  }

  lemma Split100(n: nat, a: nat, b: nat, c: nat)
    requires 1 <= a < 10 && b < 10 && c < 10 && n == 100 * a + 10 * b + c
    ensures 100 <= n && n / 100 == a && n / 10 % 10 == b && n % 10 == c
  {
    assert n / 10 == 10 * a + b;
  }

  /** Every octet's canonical spelling is accepted and read back as that octet. */
  lemma ParseFormatOctet(n: nat)
    requires n < 256
    ensures ParseOctet(FormatOctet(n)) == Some(n)
  {
    var f := FormatOctet(n);
    assert AllDigits(f);
    if n < 10 {
      Decimal1(f);
    } else if n < 100 {
      Decimal2(f);
      assert n == 10 * (n / 10) + n % 10;
    } else {
      Decimal3(f);
      assert n / 10 == 10 * (n / 100) + n / 10 % 10;
      assert n == 100 * (n / 100) + 10 * (n / 10 % 10) + n % 10;
    }
  }

  /** The 32-bit value of the address a.b.c.d. */
  function Quad(a: nat, b: nat, c: nat, d: nat): nat
  {
    ((a * 256 + b) * 256 + c) * 256 + d
  }

  /** The dotted-quad spelling of a 32-bit address. */
  function FormatIPv4(v: nat): (r: string)
    requires v < Two32
  {
    Join([FormatOctet(v / 0x100_0000), FormatOctet(v / 0x1_0000 % 256),
          FormatOctet(v / 0x100 % 256), FormatOctet(v % 256)], '.')
  }

  lemma QuadSplit(a: nat, b: nat, c: nat, d: nat)
    requires a < 256 && b < 256 && c < 256 && d < 256
    ensures Quad(a, b, c, d) < Two32
    ensures Quad(a, b, c, d) / 0x100_0000 == a
    ensures Quad(a, b, c, d) / 0x1_0000 % 256 == b
    ensures Quad(a, b, c, d) / 0x100 % 256 == c
    ensures Quad(a, b, c, d) % 256 == d
  {
    var v := Quad(a, b, c, d);
    assert v == a * 0x100_0000 + b * 0x1_0000 + c * 0x100 + d;
    assert v / 0x100 == a * 0x1_0000 + b * 0x100 + c;
    assert v / 0x1_0000 == a * 0x100 + b;
  }

  lemma QuadJoin(v: nat)
    requires v < Two32
    ensures Quad(v / 0x100_0000, v / 0x1_0000 % 256, v / 0x100 % 256, v % 256) == v
    ensures v / 0x100_0000 < 256
  {
    var q1 := v / 0x100;
    var q2 := q1 / 0x100;
    assert v / 0x1_0000 == q2;
    assert v / 0x100_0000 == q2 / 0x100;
  }

  /** `net.ParseIP` / `ipaddress.IPv4Address` restricted to IPv4: exactly four
      dot-separated canonical octets. The value read is an address whose
      canonical spelling is the input itself. */
  function ParseIPv4(s: string): (r: Option<nat>)
    ensures r.Some? ==> r.value < Two32
  {
    var fields := Split(s, '.');
    if |fields| != 4 then None
    else match (ParseOctet(fields[0]), ParseOctet(fields[1]), ParseOctet(fields[2]), ParseOctet(fields[3]))
      case (Some(a), Some(b), Some(c), Some(d)) =>
        QuadSplit(a, b, c, d);
        Some(Quad(a, b, c, d))
      case _ => None
  }

  /** An accepted address is spelled canonically: formatting the value read
      gives the input back, and the input has exactly four labels. */
  lemma FormatParseIPv4(s: string)
    requires ParseIPv4(s).Some?
    ensures FormatIPv4(ParseIPv4(s).value) == s
    ensures |Split(s, '.')| == 4
  {
    var fields := Split(s, '.');
    var a, b, c, d := ParseOctet(fields[0]).value, ParseOctet(fields[1]).value,
                      ParseOctet(fields[2]).value, ParseOctet(fields[3]).value;
    QuadSplit(a, b, c, d);
    JoinSplit(s, '.');
    assert fields == [fields[0], fields[1], fields[2], fields[3]];
  }

  /** Every address's dotted-quad spelling is accepted and read back as that address. */
  lemma ParseFormatIPv4(v: nat)
    requires v < Two32
    ensures ParseIPv4(FormatIPv4(v)) == Some(v)
  {
    QuadJoin(v);
    var a, b, c, d := v / 0x100_0000, v / 0x1_0000 % 256, v / 0x100 % 256, v % 256;
    var fields := [FormatOctet(a), FormatOctet(b), FormatOctet(c), FormatOctet(d)];
    forall i | 0 <= i < 4 ensures '.' !in fields[i] {
    }
    SplitJoin(fields, '.');
    ParseFormatOctet(a);
    ParseFormatOctet(b);
    ParseFormatOctet(c);
    ParseFormatOctet(d);
  }

  /** `net.ParseIP(ip) != nil`, restricted to IPv4. */
  predicate ValidIP(s: string)
  {
    ParseIPv4(s).Some?
  }

  /** An IPv4 network as `net.ParseCIDR` returns it: the base address with its
      host bits cleared, and the prefix length. */
  datatype Cidr = Cidr(base: nat, prefix: Prefix)

  /** A prefix length of an IPv4 network. */
  type Prefix = p: nat | p <= 32

  predicate ValidCidr(c: Cidr)
  {
    c.base < Two32 && c.base % Pow2(32 - c.prefix) == 0
  }

  /** `(*net.IPNet).Contains` for an IPv4 network and address: the address
      agrees with the base on the first `prefix` bits. */
  predicate Contains(c: Cidr, v: nat)
  {
    v < Two32 && v / Pow2(32 - c.prefix) == c.base / Pow2(32 - c.prefix)
  }

  lemma MulMono(a: nat, b: nat, m: nat)
    requires a <= b
    ensures a * m <= b * m
  {
  }

  lemma DivRange(v: nat, m: nat, q: nat)
    requires m > 0
    ensures v / m == q <==> q * m <= v < q * m + m
  {
    var k := v / m;
    assert v == k * m + v % m;
    if k < q {
      MulMono(k + 1, q, m);
    } else if k > q {
      MulMono(q + 1, k, m);
    }
  }

  /** A network holds exactly the `2^(32 - prefix)` addresses from its base up. */
  lemma ContainsRange(c: Cidr, v: nat)
    requires ValidCidr(c) && v < Two32
    ensures Contains(c, v) <==> c.base <= v < c.base + Pow2(32 - c.prefix)
  {
    var m := Pow2(32 - c.prefix);
    var q := c.base / m;
    assert c.base == q * m;
    DivRange(v, m, q);
  }

  /** Python's `IPv4Address.is_private` table as it stood from Python 3.9.5
      up to, but not including, 3.12.4. */
  const PrivateNetworks: seq<Cidr> := [
    Cidr(Quad(0, 0, 0, 0), 8),
    Cidr(Quad(10, 0, 0, 0), 8),
    Cidr(Quad(127, 0, 0, 0), 8),
    Cidr(Quad(169, 254, 0, 0), 16),
    Cidr(Quad(172, 16, 0, 0), 12),
    Cidr(Quad(192, 0, 0, 0), 29),
    Cidr(Quad(192, 0, 0, 170), 31),
    Cidr(Quad(192, 0, 2, 0), 24),
    Cidr(Quad(192, 168, 0, 0), 16),
    Cidr(Quad(198, 18, 0, 0), 15),
    Cidr(Quad(198, 51, 100, 0), 24),
    Cidr(Quad(203, 0, 113, 0), 24),
    Cidr(Quad(240, 0, 0, 0), 4),
    Cidr(Quad(255, 255, 255, 255), 32)
  ]

  /** The shared address space 100.64.0.0/10, which `is_global` also excludes. */
  const SharedAddressSpace: Cidr := Cidr(Quad(100, 64, 0, 0), 10)

  /** Python's `IPv4Address.is_global`: outside 100.64.0.0/10 and outside every
      private network. */
  predicate IsGlobal(v: nat)
  {
    && !Contains(SharedAddressSpace, v)
    && forall i :: 0 <= i < |PrivateNetworks| ==> !Contains(PrivateNetworks[i], v)
  }
}
