/** IPv4 addresses and networks the way CPython's `ipaddress` module reads
    and writes them: dotted quads of decimal octets without leading zeros,
    and networks "address/prefix" (RFC 4632, section 3.1) whose prefix is a
    decimal length 0..32 or a dotted netmask or hostmask.  Parsing and
    printing are proved to be inverse to each other. */
module IPv4 {
  import opened Common
  import opened Strings

  const TWO_32: nat := 0x1_0000_0000

  type Address = a: nat | a < TWO_32

  function Pow2(n: nat): (r: nat)
    ensures r >= 1
  {
    if n == 0 then 1 else 2 * Pow2(n - 1)
  }

  // ---------------------------------------------------------------------
  // Decimal numbers
  // ---------------------------------------------------------------------

  predicate IsDigit(c: char) { '0' <= c <= '9' }

  /** `s.isascii() and s.isdigit()`. */
  predicate AllDigits(s: string) { forall i :: 0 <= i < |s| ==> IsDigit(s[i]) }

  function DigitValue(c: char): nat requires IsDigit(c) { (c as int - '0' as int) as nat }

  function DigitChar(d: nat): (c: char)
    requires d < 10
    ensures IsDigit(c) && DigitValue(c) == d
  {
    ('0' as int + d) as char
  }

  /** `int(s)` of a string of ASCII digits. */
  function DigitsValue(s: string): nat
    requires AllDigits(s)
  {
    if |s| == 0 then 0 else DigitsValue(s[..|s| - 1]) * 10 + DigitValue(s[|s| - 1])
  }

  /** `str(n)` of a natural number. */
  function Decimal(n: nat): (s: string)
    ensures |s| >= 1 && AllDigits(s)
  {
    if n < 10 then [DigitChar(n)] else Decimal(n / 10) + [DigitChar(n % 10)]
  }

  /** No leading zero, unless the number is zero itself. */
  predicate Canonical(s: string) { s == "0" || (|s| >= 1 && s[0] != '0') }

  lemma {:induction false} DecimalIsCanonical(n: nat)
    ensures Canonical(Decimal(n))
    ensures '.' !in Decimal(n) && '/' !in Decimal(n)
    ensures n < 10 ==> |Decimal(n)| == 1
    ensures 10 <= n < 100 ==> |Decimal(n)| == 2
    ensures 100 <= n < 1000 ==> |Decimal(n)| == 3
  {
    if n >= 10 {
      DecimalIsCanonical(n / 10);
      var s := Decimal(n);
      assert s[0] == Decimal(n / 10)[0];
      assert forall i :: 0 <= i < |s| ==> IsDigit(s[i]);
    }
  }

  /** `int(str(n)) == n`. */
  lemma {:induction false} DigitsValueOfDecimal(n: nat)
    ensures DigitsValue(Decimal(n)) == n
  {
    if n >= 10 {
      DigitsValueOfDecimal(n / 10);
      var s := Decimal(n);
      assert s[..|s| - 1] == Decimal(n / 10);
    }
  }

  lemma {:induction false} LeadingDigitPositive(s: string)
    requires AllDigits(s) && |s| >= 1 && s[0] != '0'
    ensures DigitsValue(s) >= 1
  {
    if |s| > 1 {
      LeadingDigitPositive(s[..|s| - 1]);
    }
  }

  /** `str(int(s)) == s` for a canonical digit string. */
  lemma {:induction false} DecimalOfDigitsValue(s: string)
    requires AllDigits(s) && Canonical(s)
    ensures Decimal(DigitsValue(s)) == s
  {
    if |s| > 1 {
      var t, d := s[..|s| - 1], s[|s| - 1];
      assert t[0] == s[0];
      DecimalOfDigitsValue(t);
      LeadingDigitPositive(t);
      var v := DigitsValue(s);
      assert v == DigitsValue(t) * 10 + DigitValue(d);
      assert v / 10 == DigitsValue(t) && v % 10 == DigitValue(d);
      assert DigitChar(DigitValue(d)) == d;
      assert s == t + [d];
    } else {
      assert DigitChar(DigitValue(s[0])) == s[0];
    }
  }

  lemma {:induction false} DigitsValueBound(s: string)
    requires AllDigits(s)
    ensures |s| <= 1 ==> DigitsValue(s) < 10
    ensures |s| <= 2 ==> DigitsValue(s) < 100
    ensures |s| <= 3 ==> DigitsValue(s) < 1000
  {
    if |s| > 0 {
      DigitsValueBound(s[..|s| - 1]);
    }
  }

  // ---------------------------------------------------------------------
  // Addresses
  // ---------------------------------------------------------------------

  /** `_parse_octet`: ASCII digits, at most three, no leading zero, at most 255. */
  function ParseOctet(s: string): (r: Option<nat>)
    ensures r.Some? ==> r.value < 256
  {
    if |s| == 0 || !AllDigits(s) || |s| > 3 then None
    else if s != "0" && s[0] == '0' then None
    else if DigitsValue(s) > 255 then None
    else Some(DigitsValue(s))
  }

  function FromOctets(o0: nat, o1: nat, o2: nat, o3: nat): (a: Address)
    requires o0 < 256 && o1 < 256 && o2 < 256 && o3 < 256
  {
    ((o0 * 256 + o1) * 256 + o2) * 256 + o3
  }

  /** Octet `k` of `a`, most significant first. */
  function Octet(a: Address, k: nat): (o: nat)
    requires k < 4
    ensures o < 256
  {
    if k == 0 then a / 256 / 256 / 256 else if k == 1 then a / 256 / 256 % 256
    else if k == 2 then a / 256 % 256 else a % 256
  }

  /** `IPv4Address(s)`: four dot-separated octets. */
  function ParseAddress(s: string): Option<Address> {
    var parts := Split(s, '.');
    if |parts| != 4 then None
    else match (ParseOctet(parts[0]), ParseOctet(parts[1]), ParseOctet(parts[2]), ParseOctet(parts[3]))
      case (Some(o0), Some(o1), Some(o2), Some(o3)) => Some(FromOctets(o0, o1, o2, o3))
      case _ => None
  }

  /** `str(IPv4Address(a))`. */
  function FormatAddress(a: Address): string {
    Join([Decimal(Octet(a, 0)), Decimal(Octet(a, 1)), Decimal(Octet(a, 2)), Decimal(Octet(a, 3))], '.')
  }

  lemma OctetsOfFromOctets(o0: nat, o1: nat, o2: nat, o3: nat)
    requires o0 < 256 && o1 < 256 && o2 < 256 && o3 < 256
    ensures Octet(FromOctets(o0, o1, o2, o3), 0) == o0
    ensures Octet(FromOctets(o0, o1, o2, o3), 1) == o1
    ensures Octet(FromOctets(o0, o1, o2, o3), 2) == o2
    ensures Octet(FromOctets(o0, o1, o2, o3), 3) == o3
  {
    var a := FromOctets(o0, o1, o2, o3);
    var b := (o0 * 256 + o1) * 256 + o2;
    var c := o0 * 256 + o1;
    assert a % 256 == o3 && a / 256 == b;
    assert b % 256 == o2 && b / 256 == c;
    assert c % 256 == o1 && c / 256 == o0;
  }

  lemma FromOctetsOfOctets(a: Address)
    ensures FromOctets(Octet(a, 0), Octet(a, 1), Octet(a, 2), Octet(a, 3)) == a
  {
    var b := a / 256;
    var c := b / 256;
    var d := c / 256;
    assert a == b * 256 + a % 256;
    assert b == c * 256 + b % 256;
    assert c == d * 256 + c % 256;
  }

  /** A multiple of `b` leaves no remainder. */
  lemma ModOfMultiple(q: nat, b: nat)
    requires b > 0
    ensures (q * b) % b == 0
  {
    var x := q * b;
    var k := q - x / b;
    assert b * k == x % b;
  }

  lemma {:induction false} ParseOctetOfDecimal(n: nat)
    requires n < 256
    ensures ParseOctet(Decimal(n)) == Some(n)
  {
    DecimalIsCanonical(n);
    DigitsValueOfDecimal(n);
  }

  lemma ParseOctetCanonical(s: string)
    requires ParseOctet(s).Some?
    ensures Decimal(ParseOctet(s).value) == s
  {
    DecimalOfDigitsValue(s);
  }

  /** Printing an address and reading it back gives the address. */
  lemma ParseFormatAddress(a: Address)
    ensures ParseAddress(FormatAddress(a)) == Some(a)
  {
    var parts := [Decimal(Octet(a, 0)), Decimal(Octet(a, 1)), Decimal(Octet(a, 2)), Decimal(Octet(a, 3))];
    forall k | 0 <= k < 4 ensures '.' !in parts[k] && ParseOctet(parts[k]) == Some(Octet(a, k)) {
      DecimalIsCanonical(Octet(a, k));
      ParseOctetOfDecimal(Octet(a, k));
    }
    SplitJoin(parts, '.');
    FromOctetsOfOctets(a);
  }

  /** A string the parser accepts is already in printed form: `str(ip_address(s)) == s`. */
  lemma FormatParseAddress(s: string)
    requires ParseAddress(s).Some?
    ensures FormatAddress(ParseAddress(s).value) == s
  {
    var parts := Split(s, '.');
    var o0, o1, o2, o3 := ParseOctet(parts[0]).value, ParseOctet(parts[1]).value,
                          ParseOctet(parts[2]).value, ParseOctet(parts[3]).value;
    OctetsOfFromOctets(o0, o1, o2, o3);
    ParseOctetCanonical(parts[0]);
    ParseOctetCanonical(parts[1]);
    ParseOctetCanonical(parts[2]);
    ParseOctetCanonical(parts[3]);
    assert [parts[0], parts[1], parts[2], parts[3]] == parts;
    JoinSplit(s, '.');
  }

  /** A printed address never contains '/'. */
  lemma FormatAddressHasNoSlash(a: Address)
    ensures '/' !in FormatAddress(a)
  {
    var parts := [Decimal(Octet(a, 0)), Decimal(Octet(a, 1)), Decimal(Octet(a, 2)), Decimal(Octet(a, 3))];
    DecimalIsCanonical(Octet(a, 0));
    DecimalIsCanonical(Octet(a, 1));
    DecimalIsCanonical(Octet(a, 2));
    DecimalIsCanonical(Octet(a, 3));
    JoinAvoids(parts, '.', '/');
  }

  lemma {:induction false} JoinAvoids(parts: seq<string>, sep: char, c: char)
    requires c != sep
    requires forall k :: 0 <= k < |parts| ==> c !in parts[k]
    ensures c !in Join(parts, sep)
  {
    if |parts| > 1 {
      JoinAvoids(parts[1..], sep, c);
    }
  }

  // ---------------------------------------------------------------------
  // Networks
  // ---------------------------------------------------------------------

  /** An IPv4 network: a prefix length and an address whose host bits are 0. */
  datatype Network = Network(address: Address, prefix: nat)

  predicate ValidNetwork(n: Network) {
    n.prefix <= 32 && Masked(n.address, n.prefix) == n.address
  }

  /** `a` with its last `32 - prefix` bits cleared. */
  function Masked(a: Address, prefix: nat): (m: Address)
    requires prefix <= 32
    ensures m <= a
  {
    var p := Pow2(32 - prefix);
    RemainderBelow(a, p);
    a - a % p
  }

  lemma RemainderBelow(a: nat, p: nat)
    requires p >= 1
    ensures 0 <= a % p <= a
  {
  }

  /** `address in network`. */
  predicate Contains(n: Network, a: Address)
    requires n.prefix <= 32
  {
    Masked(a, n.prefix) == n.address
  }

  /** The netmask of a prefix length: `prefix` one bits, then zeros. */
  function Netmask(prefix: nat): Address
    requires prefix <= 32
  {
    Pow2Bound(32 - prefix);
    TWO_32 - Pow2(32 - prefix)
  }

  lemma {:induction false} Pow2Bound(n: nat)
    requires n <= 32
    ensures 1 <= Pow2(n) <= TWO_32
    ensures Pow2(32) == TWO_32
  {
    Pow2Monotone(n, 32);
    Pow2Of32();
  }

  lemma Pow2Of32()
    ensures Pow2(32) == TWO_32
  {
    assert Pow2(8) == 256;
    assert Pow2(16) == 0x1_0000 by { Pow2Add(8, 8); }
    Pow2Add(16, 16);
  }

  lemma {:induction false} Pow2Add(x: nat, y: nat)
    ensures Pow2(x + y) == Pow2(x) * Pow2(y)
  {
    if x > 0 {
      Pow2Add(x - 1, y);
    }
  }

  lemma {:induction false} Pow2Monotone(x: nat, y: nat)
    requires x <= y
    ensures Pow2(x) <= Pow2(y)
  {
    if x < y {
      Pow2Monotone(x, y - 1);
    }
  }

  /** `_prefix_from_ip_int`: the prefix length whose netmask is `m`, if any. */
  function PrefixOfNetmask(m: Address): (r: Option<nat>)
    ensures r.Some? ==> r.value <= 32 && Netmask(r.value) == m
  {
    PrefixSearch(m, 0)
  }

  function PrefixSearch(m: Address, from: nat): (r: Option<nat>)
    requires from <= 33
    ensures r.Some? ==> from <= r.value <= 32 && Netmask(r.value) == m
    decreases 33 - from
  {
    if from > 32 then None
    else if Netmask(from) == m then Some(from)
    else PrefixSearch(m, from + 1)
  }

  /** `_prefix_from_ip_string`: a dotted netmask, else a dotted hostmask. */
  function PrefixOfMaskString(s: string): Option<nat> {
    match ParseAddress(s)
    case None => None
    case Some(m) =>
      match PrefixOfNetmask(m)
      case Some(p) => Some(p)
      case None => PrefixOfNetmask(TWO_32 - 1 - m)
  }

  /** `_make_netmask` of a string: a decimal length 0..32, otherwise a mask. */
  function ParsePrefix(s: string): (r: Option<nat>)
    ensures r.Some? ==> r.value <= 32
  {
    if |s| > 0 && AllDigits(s) && DigitsValue(s) <= 32 then Some(DigitsValue(s))
    else match PrefixOfMaskString(s)
      case None => None
      case Some(p) => Some(p)
  }

  /** `ip_network(s, strict=False)` for IPv4: split off the prefix (at most
      one '/'), read the address and the prefix, clear the host bits. */
  function ParseNetwork(s: string): (r: Option<Network>)
    ensures r.Some? ==> ValidNetwork(r.value)
  {
    var parts := Split(s, '/');
    if |parts| > 2 then None
    else
      var prefix := if |parts| == 2 then ParsePrefix(parts[1]) else Some(32);
      match (ParseAddress(parts[0]), prefix)
      case (Some(a), Some(p)) =>
        MaskedIdempotent(a, p);
        Some(Network(Masked(a, p), p))
      case _ => None
  }

  /** `str(network)`: the address, '/', the prefix length. */
  function FormatNetwork(n: Network): string {
    FormatAddress(n.address) + "/" + Decimal(n.prefix)
  }

  lemma MaskedIdempotent(a: Address, prefix: nat)
    requires prefix <= 32
    ensures Masked(Masked(a, prefix), prefix) == Masked(a, prefix)
  {
    var b := Pow2(32 - prefix);
    var q := a / b;
    var m := Masked(a, prefix);
    DivMod(a, b);
    assert m == q * b;
    ModOfMultiple(q, b);
    assert m % b == 0;
  }

  lemma DivMod(a: nat, b: nat)
    requires b >= 1
    ensures a == (a / b) * b + a % b
  {
  }

  /** Reading a printed network gives the network back. */
  lemma ParseFormatNetwork(n: Network)
    requires ValidNetwork(n)
    ensures ParseNetwork(FormatNetwork(n)) == Some(n)
  {
    var x, y := FormatAddress(n.address), Decimal(n.prefix);
    FormatAddressHasNoSlash(n.address);
    DecimalIsCanonical(n.prefix);
    assert FormatNetwork(n) == Join([x, y], '/');
    SplitJoin([x, y], '/');
    ParseFormatAddress(n.address);
    DigitsValueOfDecimal(n.prefix);
  }

  /** A printed network contains '/'. */
  lemma FormatNetworkHasSlash(n: Network)
    ensures '/' in FormatNetwork(n)
  {
    assert FormatNetwork(n)[|FormatAddress(n.address)|] == '/';
  }

  /** Every address of a network lies in it; the network address does. */
  lemma NetworkContainsItsAddress(n: Network)
    requires ValidNetwork(n)
    ensures Contains(n, n.address)
  {
  }

  /** "10.0.0.5/24" is read, with its host bits cleared, as 10.0.0.0/24. */
  lemma NormalisationExample()
    ensures ParseNetwork("10.0.0.5/24") == Some(Network(FromOctets(10, 0, 0, 0), 24))
  {
    ExampleSplit();
    ExampleAddress();
    ExamplePrefix();
    ExampleMask();
  }

  lemma ExampleSplit()
    ensures Split("10.0.0.5/24", '/') == ["10.0.0.5", "24"]
  {
    SplitJoin(["10.0.0.5", "24"], '/');
    assert Join(["10.0.0.5", "24"], '/') == "10.0.0.5/24";
  }

  lemma ExampleAddress()
    ensures ParseAddress("10.0.0.5") == Some(FromOctets(10, 0, 0, 5))
  {
    SplitJoin(["10", "0", "0", "5"], '.');
    assert Join(["10", "0", "0", "5"], '.') == "10.0.0.5";
    ExampleOctets();
  }

  lemma ExampleOctets()
    ensures ParseOctet("10") == Some(10) && ParseOctet("0") == Some(0) && ParseOctet("5") == Some(5)
  {
    assert DigitsValue("10") == 10 by {
      assert "10"[..1] == "1";
    }
  }

  lemma ExamplePrefix()
    ensures ParsePrefix("24") == Some(24)
  {
    assert DigitsValue("24") == 24 by {
      assert "24"[..1] == "2";
    }
  }

  lemma ExampleMask()
    ensures Masked(FromOctets(10, 0, 0, 5), 24) == FromOctets(10, 0, 0, 0)
  {
    assert Pow2(8) == 256;
  }

  /** ... and printed as "10.0.0.0/24". */
  lemma NormalisedFormExample()
    ensures FormatNetwork(Network(FromOctets(10, 0, 0, 0), 24)) == "10.0.0.0/24"
  {
    var a := FromOctets(10, 0, 0, 0);
    OctetsOfFromOctets(10, 0, 0, 0);
    assert Decimal(10) == "10";
    assert Decimal(0) == "0";
    assert Decimal(24) == "24";
    assert FormatAddress(a) == Join(["10", "0", "0", "0"], '.');
    assert Join(["10", "0", "0", "0"], '.') == "10.0.0.0";
  }
}
