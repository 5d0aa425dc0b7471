// IPv4 addresses: four octets, their 32-bit value, the signed 32-bit value the
// agent computes with, and the dotted-decimal text used as a map key.
module Ipv4 {
  import opened Base

  const TWO32: int := 0x1_0000_0000

  type byte = x: int | 0 <= x < 256
  type u32 = x: int | 0 <= x < 0x1_0000_0000
  type i32 = x: int | -0x8000_0000 <= x < 0x8000_0000

  /** net.IP in its four-byte form. */
  type IP = s: seq<byte> | |s| == 4 witness [0, 0, 0, 0]

  // ---- octets and machine integers ----

  /** Big-endian reading of octets. */
  function Value(s: seq<byte>): nat {
    if s == [] then 0 else 256 * Value(s[..|s| - 1]) + s[|s| - 1]
  }

  function Octets(u: nat, k: nat): (s: seq<byte>)
    ensures |s| == k
  {
    if k == 0 then [] else Octets(u / 256, k - 1) + [u % 256]
  }

  lemma {:induction false} ValueBound(s: seq<byte>)
    ensures Value(s) < Pow2(8 * |s|)
  {
    if s != [] {
      ValueBound(s[..|s| - 1]);
      Pow2Values();
      Pow2Add(8, 8 * (|s| - 1));
    }
  }

  lemma {:induction false} OctetsOfValue(s: seq<byte>)
    ensures Octets(Value(s), |s|) == s
  {
    if s != [] {
      DivModUnique(Value(s), 256, Value(s[..|s| - 1]), s[|s| - 1]);
      OctetsOfValue(s[..|s| - 1]);
    }
  }

  lemma {:induction false} ValueOfOctets(u: nat, k: nat)
    requires u < Pow2(8 * k)
    ensures Value(Octets(u, k)) == u
  {
    if k != 0 {
      Pow2Values();
      Pow2Add(8, 8 * (k - 1));
      ValueOfOctets(u / 256, k - 1);
      assert Octets(u, k)[..k - 1] == Octets(u / 256, k - 1);
    }
  }

  function ToU32(ip: IP): u32 {
    ValueBound(ip);
    Pow2Values();
    Value(ip)
  }

  function FromU32(u: u32): IP {
    Octets(u, 4)
  }

  /** Go's conversion to int32: keep the low 32 bits, read them as two's complement. */
  function WrapI32(x: int): i32 {
    var low := x % TWO32;
    if low < 0x8000_0000 then low else low - TWO32
  }

  function IpToInt(ip: IP): i32 {
    WrapI32(ToU32(ip))
  }

  /** The address a number stands for, keeping its low 32 bits. */
  function AddrIP(a: int): IP {
    FromU32(a % TWO32)
  }

  function IntToIp(n: i32): IP {
    AddrIP(n)
  }

  /** Network byte order: the first octet counts most. */
  lemma OctetsSpelled(ip: IP)
    ensures ToU32(ip) == 0x100_0000 * (ip[0] as int) + 0x1_0000 * (ip[1] as int) + 0x100 * (ip[2] as int) + ip[3] as int
  {
    var three, two, one := ip[..3], ip[..3][..2], ip[..3][..2][..1];
    assert Value(one) == ip[0];
    assert Value(two) == 256 * Value(one) + ip[1];
    assert Value(three) == 256 * Value(two) + ip[2];
  }

  lemma U32RoundTrip(u: u32, ip: IP)
    ensures ToU32(FromU32(u)) == u
    ensures FromU32(ToU32(ip)) == ip
  {
    Pow2Values();
    ValueOfOctets(u, 4);
    OctetsOfValue(ip);
  }

  lemma WrapKeepsResidue(x: int)
    ensures WrapI32(x) % TWO32 == x % TWO32
  {
    var low := x % TWO32;
    if low < 0x8000_0000 {
      DivModUnique(low, TWO32, 0, low);
    } else {
      DivModUnique(low - TWO32, TWO32, -1, low);
    }
  }

  lemma ResidueOfU32(u: u32)
    ensures u % TWO32 == u
  {
    DivModUnique(u, TWO32, 0, u);
  }

  /** The two conversions undo each other, on every address and on every int32. */
  lemma IntRoundTrip(ip: IP, n: i32)
    ensures IntToIp(IpToInt(ip)) == ip
    ensures IpToInt(IntToIp(n)) == n
  {
    WrapKeepsResidue(ToU32(ip));
    ResidueOfU32(ToU32(ip));
    U32RoundTrip(n % TWO32, ip);
    ResidueOfU32(n % TWO32);
    if n >= 0 {
      DivModUnique(n, TWO32, 0, n);
    } else {
      DivModUnique(n, TWO32, -1, n + TWO32);
    }
  }

  lemma ResidueOfSum(x: int, y: int)
    ensures (WrapI32(x) + WrapI32(y)) % TWO32 == (x + y) % TWO32
  {
    var wx, wy := WrapI32(x), WrapI32(y);
    WrapKeepsResidue(x);
    WrapKeepsResidue(y);
    var q := x / TWO32 - wx / TWO32 + y / TWO32 - wy / TWO32;
    assert x + y == TWO32 * q + (wx + wy);
    var r := (wx + wy) % TWO32;
    DivModUnique(x + y, TWO32, q + (wx + wy) / TWO32, r);
  }

  /** Adding in wrapping int32 arithmetic agrees with unbounded arithmetic on addresses,
      also where the int32 values are negative, as they are from 128.0.0.0 up. */
  lemma WrappingAdditionIsExact(ip: IP, u: u32, offset: int)
    requires u == ToU32(ip)
    ensures IntToIp(WrapI32(IpToInt(ip) + WrapI32(offset))) == AddrIP(u + offset)
    ensures 0 <= u + offset < TWO32 ==> AddrIP(u + offset) == FromU32(u + offset)
  {
    ResidueOfSum(u, offset);
    WrapKeepsResidue(IpToInt(ip) + WrapI32(offset));
    if 0 <= u + offset < TWO32 {
      ResidueOfU32(u + offset);
    }
  }

  // ---- dotted decimal ----

  function Digit(n: int): char
    requires 0 <= n < 10
  {
    ('0' as int + n) as char
  }

  predicate IsDigit(c: char) {
    '0' <= c <= '9'
  }

  function Decimal(n: byte): string {
    if n < 10 then [Digit(n)]
    else if n < 100 then [Digit(n / 10), Digit(n % 10)]
    else [Digit(n / 100), Digit(n / 10 % 10), Digit(n % 10)]
  }

  /** The octets in decimal, separated by dots. */
  function Dotted(s: seq<byte>): string {
    if s == [] then ""
    else if |s| == 1 then Decimal(s[0])
    else Decimal(s[0]) + "." + Dotted(s[1..])
  }

  /** Reads a decimal number off the front of s, continuing from n; yields it and the rest. */
  function ReadNumber(s: string, n: nat): (nat, string)
    decreases |s|
  {
    if s != "" && IsDigit(s[0]) then ReadNumber(s[1..], 10 * n + (s[0] as int - '0' as int))
    else (n, s)
  }

  /** One octet: at least one digit, value at most 255. */
  function ReadOctet(s: string): Option<(byte, string)> {
    if s == "" || !IsDigit(s[0]) then None
    else
      var (n, rest) := ReadNumber(s, 0);
      if n > 255 then None else Some((n, rest))
  }

  /** Exactly k octets separated by dots, and nothing after them. */
  function ReadOctets(s: string, k: nat): (r: Option<seq<byte>>)
    requires k > 0
    ensures r.Some? ==> |r.value| == k
    decreases k
  {
    match ReadOctet(s)
    case None => None
    case Some((n, rest)) =>
      if k == 1 then if rest == "" then Some([n]) else None
      else if rest == "" || rest[0] != '.' then None
      else
        match ReadOctets(rest[1..], k - 1)
        case None => None
        case Some(more) => Some([n] + more)
  }

  /** net.ParseIP on IPv4 text. */
  function ParseIP(s: string): Option<IP> {
    match ReadOctets(s, 4)
    case None => None
    case Some(octets) => Some(octets)
  }

  lemma {:induction false} ReadBackOctet(n: byte, rest: string)
    requires rest == "" || !IsDigit(rest[0])
    ensures ReadOctet(Decimal(n) + rest) == Some((n, rest))
  {
    var s := Decimal(n) + rest;
    assert ReadNumber(rest, n) == (n, rest);
    if n < 10 {
      assert s[1..] == rest;
    } else if n < 100 {
      assert s[1..] == [Digit(n % 10)] + rest;
      assert s[1..][1..] == rest;
      assert ReadNumber(s[1..], n / 10) == (n, rest);
    } else {
      assert s[1..] == [Digit(n / 10 % 10), Digit(n % 10)] + rest;
      assert s[1..][1..] == [Digit(n % 10)] + rest;
      assert s[1..][1..][1..] == rest;
      assert ReadNumber(s[1..][1..], n / 10) == (n, rest);
      assert ReadNumber(s[1..], n / 100) == (n, rest);
    }
  }

  lemma {:induction false} ReadBack(s: seq<byte>)
    requires s != []
    ensures ReadOctets(Dotted(s), |s|) == Some(s)
  {
    if |s| == 1 {
      ReadBackOctet(s[0], "");
      assert Decimal(s[0]) + "" == Dotted(s);
      assert s == [s[0]];
    } else {
      var rest := "." + Dotted(s[1..]);
      ReadBackOctet(s[0], rest);
      assert Dotted(s) == Decimal(s[0]) + rest;
      assert rest[1..] == Dotted(s[1..]);
      ReadBack(s[1..]);
      assert [s[0]] + s[1..] == s;
    }
  }

  /** Printing an address or a netmask and parsing the text gives it back. */
  lemma PrintParse(ip: IP)
    ensures ParseIP(Dotted(ip)) == Some(ip)
  {
    ReadBack(ip);
  }

  lemma {:induction false} NumberEnds(s: string, n: nat) returns (digits: string)
    ensures s == digits + ReadNumber(s, n).1 && forall c :: c in digits ==> '0' <= c <= '9'
  {
    digits := "";
    if s != "" && IsDigit(s[0]) {
      var more := NumberEnds(s[1..], 10 * n + (s[0] as int - '0' as int));
      digits := [s[0]] + more;
    }
  }

  lemma {:induction false} OctetsHold(s: string, k: nat)
    requires k > 0 && ReadOctets(s, k).Some?
    ensures (forall c :: c in s ==> c == '.' || '0' <= c <= '9') && multiset(s)['.'] == k - 1
    decreases k
  {
    var digits := NumberEnds(s, 0);
    var rest := ReadNumber(s, 0).1;
    assert s == digits + rest && '.' !in digits;
    assert multiset(digits)['.'] == 0 && multiset(s) == multiset(digits) + multiset(rest);
    if k > 1 {
      OctetsHold(rest[1..], k - 1);
      assert rest == ['.'] + rest[1..];
      assert multiset(rest) == multiset{'.'} + multiset(rest[1..]);
    } else {
      assert rest == "";
    }
  }

  /** Text with anything but digits and three dots in it is no address. */
  lemma OnlyDigitsAndDots(s: string)
    ensures ParseIP(s).Some? ==> (forall c :: c in s ==> c == '.' || '0' <= c <= '9') && multiset(s)['.'] == 3
  {
    if ParseIP(s).Some? {
      OctetsHold(s, 4);
    }
  }

  /** The text itself: four decimal numbers without leading zeros, with dots between them. */
  lemma TextSpelled(ip: IP)
    ensures Dotted(ip) == Decimal(ip[0]) + "." + Decimal(ip[1]) + "." + Decimal(ip[2]) + "." + Decimal(ip[3])
  {
    assert ip[1..][0] == ip[1] && ip[1..][1..][0] == ip[2] && ip[1..][1..][1..] == [ip[3]];
    assert Dotted(ip[1..][1..]) == Decimal(ip[2]) + "." + Decimal(ip[3]);
    assert Dotted(ip[1..]) == Decimal(ip[1]) + "." + (Decimal(ip[2]) + "." + Decimal(ip[3]));
    assert Dotted(ip) == Decimal(ip[0]) + "." + (Decimal(ip[1]) + "." + (Decimal(ip[2]) + "." + Decimal(ip[3])));
  }

  lemma DecimalSpelled(n: byte)
    ensures |Decimal(n)| == if n < 10 then 1 else if n < 100 then 2 else 3
    ensures forall i :: 0 <= i < |Decimal(n)| ==> '0' <= Decimal(n)[i] <= '9'
    ensures var d := Decimal(n);
            n == if n < 10 then d[0] as int - 48
                 else if n < 100 then 10 * (d[0] as int - 48) + (d[1] as int - 48)
                 else 100 * (d[0] as int - 48) + 10 * (d[1] as int - 48) + (d[2] as int - 48)
  {
  }

  lemma TextOfTen()
    ensures Dotted([10, 0, 0, 1]) == "10.0.0.1"
  {
    TextSpelled([10, 0, 0, 1]);
  }

  lemma TenZeroZeroOne()
    ensures ParseIP("10.0.0.1") == Some([10, 0, 0, 1]) && ToU32([10, 0, 0, 1]) == 0x0a00_0001
  {
    TextOfTen();
    PrintParse([10, 0, 0, 1]);
    OctetsSpelled([10, 0, 0, 1]);
  }

  /** Comparing printed addresses is comparing addresses. */
  lemma DottedInjective(p: IP, q: IP)
    ensures Dotted(p) == Dotted(q) <==> p == q
  {
    PrintParse(p);
    PrintParse(q);
  }

  /** The map key of an address: injective on 32-bit addresses. */
  function Key(a: int): string {
    Dotted(AddrIP(a))
  }

  lemma KeyInjective(a: u32, b: u32)
    ensures Key(a) == Key(b) <==> a == b
  {
    DottedInjective(AddrIP(a), AddrIP(b));
    ResidueOfU32(a);
    ResidueOfU32(b);
    U32RoundTrip(a, AddrIP(a));
    U32RoundTrip(b, AddrIP(b));
  }

  // ---- netmasks ----

  /** The netmask with the given number of leading ones. */
  function MaskValue(ones: nat): u32
    requires ones <= 32
  {
    Pow2Values();
    if ones == 0 then 0 else Pow2Increases(32 - ones, 32); TWO32 - Pow2(32 - ones)
  }

  function MaskIP(ones: nat): IP
    requires ones <= 32
  {
    FromU32(MaskValue(ones))
  }

  lemma MaskValueIncreases(m: nat, n: nat)
    requires m < n <= 32
    ensures MaskValue(m) < MaskValue(n)
  {
    Pow2Values();
    Pow2Increases(32 - n, 32 - m);
  }

  /** Netmask text determines the prefix length, and parsing it recovers the mask. */
  lemma NetmaskText(m: nat, n: nat)
    requires m <= 32 && n <= 32
    ensures ParseIP(Dotted(MaskIP(m))) == Some(MaskIP(m))
    ensures Dotted(MaskIP(m)) == Dotted(MaskIP(n)) <==> m == n
  {
    PrintParse(MaskIP(m));
    DottedInjective(MaskIP(m), MaskIP(n));
    U32RoundTrip(MaskValue(m), MaskIP(m));
    U32RoundTrip(MaskValue(n), MaskIP(n));
    if m < n {
      MaskValueIncreases(m, n);
    } else if n < m {
      MaskValueIncreases(n, m);
    }
  }

  /** Bitwise AND of the low w bits. */
  function And(x: nat, y: nat, w: nat): nat {
    if w == 0 then 0
    else 2 * And(x / 2, y / 2, w - 1) + (if x % 2 == 1 && y % 2 == 1 then 1 else 0)
  }

  lemma {:induction false} AndHighOnes(x: nat, y: nat, w: nat, h: nat)
    requires h <= w && x < Pow2(w) && y + Pow2(h) == Pow2(w)
    ensures And(x, y, w) == x - x % Pow2(h)
  {
    if w != 0 && h == 0 {
      assert y == 2 * (Pow2(w - 1) - 1) + 1;
      AndHighOnes(x / 2, y / 2, w - 1, 0);
    } else if w != 0 {
      assert y == 2 * (Pow2(w - 1) - Pow2(h - 1));
      AndHighOnes(x / 2, y / 2, w - 1, h - 1);
      HalveMod(x, Pow2(h - 1));
    }
  }

  /** Masking an address clears its host bits. */
  lemma MaskClearsHostBits(u: u32, ones: nat)
    requires ones <= 32
    ensures And(u, MaskValue(ones), 32) == u - u % Pow2(32 - ones)
  {
    Pow2Values();
    AndHighOnes(u, MaskValue(ones), 32, 32 - ones);
    assert ones == 32 ==> Pow2(32 - ones) == 1;
  }
}
