/** Digits, and the URL-safe base64 alphabet of RFC 4648 section 5 without padding. */
module Text {
  import opened Core

  // ----------------------------------------------------------------------- positional digits

  datatype Radix = Decimal | Hexadecimal {
    function Base(): nat {
      if Decimal? then 10 else 16
    }

    function Times(n: int): int {
      if Decimal? then 10 * n else 16 * n
    }

    function Shifted(n: nat): nat {
      if Decimal? then n / 10 else n / 16
    }

    function Last(n: nat): (d: nat)
      ensures d < Base()
    {
      if Decimal? then n % 10 else n % 16
    }

    /** How many numbers have at most this many digits. */
    function Reach(width: nat): nat {
      if width == 0 then 1 else Times(Reach(width - 1))
    }
  }

  function DigitChar(d: nat): char
    requires d < 16
  {
    if d < 10 then (d + '0' as int) as char else (d - 10 + 'a' as int) as char
  }

  /** A decimal digit's value, or a hexadecimal one's in either case. */
  function DigitValue(c: char, r: Radix): Option<nat> {
    if '0' <= c <= '9' then Some(c as int - '0' as int)
    else if r.Hexadecimal? && 'a' <= c <= 'f' then Some(c as int - 'a' as int + 10)
    else if r.Hexadecimal? && 'A' <= c <= 'F' then Some(c as int - 'A' as int + 10)
    else None
  }

  /** The lowest `width` digits of n, most significant first. */
  function DigitText(n: nat, r: Radix, width: nat): (s: string)
    ensures |s| == width
    ensures forall i :: 0 <= i < width ==> DigitValue(s[i], r).Some?
  {
    if width == 0 then "" else DigitText(r.Shifted(n), r, width - 1) + [DigitChar(r.Last(n))]
  }

  /** Reading a string of digits; anything else in it is refused. */
  function ReadDigits(s: string, r: Radix): Option<nat> {
    if |s| == 0 then Some(0)
    else
      var front, last := ReadDigits(s[..|s| - 1], r), DigitValue(s[|s| - 1], r);
      if front.Some? && last.Some? then Some(r.Times(front.value) + last.value) else None
  }

  /** Writing a number in enough digits and reading it back gives the number. */
  lemma {:induction false} DigitsRoundTrip(n: nat, r: Radix, width: nat)
    requires n < r.Reach(width)
    ensures ReadDigits(DigitText(n, r, width), r) == Some(n)
  {
    if width > 0 {
      DigitsRoundTrip(r.Shifted(n), r, width - 1);
      assert DigitText(n, r, width)[..width - 1] == DigitText(r.Shifted(n), r, width - 1);
    }
  }

  lemma {:induction false} ReadDigitsConcat(s: string, t: string, r: Radix)
    requires ReadDigits(s, r).Some? && forall i :: 0 <= i < |t| ==> t[i] == '0'
    ensures ReadDigits(s + t, r) == Some(Scaled(ReadDigits(s, r).value, r, |t|))
  {
    if |t| == 0 {
      assert s + t == s;
    } else {
      ReadDigitsConcat(s, t[..|t| - 1], r);
      assert (s + t)[..|s + t| - 1] == s + t[..|t| - 1];
    }
  }

  /** n with k more zero digits. */
  function Scaled(n: nat, r: Radix, k: nat): nat {
    if k == 0 then n else r.Times(Scaled(n, r, k - 1))
  }

  function WithoutTrailingZeros(s: string): (t: string)
    ensures t <= s
    ensures forall i :: |t| <= i < |s| ==> s[i] == '0'
    ensures |t| > 0 ==> t[|t| - 1] != '0'
  {
    if |s| > 0 && s[|s| - 1] == '0' then WithoutTrailingZeros(s[..|s| - 1]) else s
  }

  lemma {:induction false} ReachDecimal()
    ensures Decimal.Reach(2) == 100 && Decimal.Reach(4) == 10_000 && Decimal.Reach(9) == 1_000_000_000
  {
    assert Decimal.Reach(2) == 100;
    assert Decimal.Reach(4) == 10_000;
    assert Decimal.Reach(6) == 1_000_000;
    assert Decimal.Reach(8) == 100_000_000;
  }

  lemma {:induction false} ReachAdd(r: Radix, m: nat, n: nat)
    ensures r.Reach(m + n) == r.Reach(m) * r.Reach(n)
  {
    if m > 0 {
      ReachAdd(r, m - 1, n);
      assert r.Times(r.Reach(m - 1) * r.Reach(n)) == r.Times(r.Reach(m - 1)) * r.Reach(n);
    }
  }

  lemma ReachHexadecimal()
    ensures Hexadecimal.Reach(4) == 0x1_0000
    ensures Hexadecimal.Reach(8) == 0x1_0000_0000
    ensures Hexadecimal.Reach(32) == ID_LIMIT
  {
    assert Hexadecimal.Reach(2) == 0x100;
    ReachAdd(Hexadecimal, 2, 2);
    ReachAdd(Hexadecimal, 4, 4);
    ReachAdd(Hexadecimal, 8, 8);
    ReachAdd(Hexadecimal, 16, 16);
  }

  // ------------------------------------------------------------------------------ base64url

  type Sextet = n: int | 0 <= n < 64 witness 0
  type Octet = n: int | 0 <= n < 256 witness 0

  function SextetChar(s: Sextet): char {
    if s < 26 then (s + 'A' as int) as char
    else if s < 52 then (s - 26 + 'a' as int) as char
    else if s < 62 then (s - 52 + '0' as int) as char
    else if s == 62 then '-' else '_'
  }

  function CharSextet(c: char): Option<Sextet> {
    if 'A' <= c <= 'Z' then Some(c as int - 'A' as int)
    else if 'a' <= c <= 'z' then Some(c as int - 'a' as int + 26)
    else if '0' <= c <= '9' then Some(c as int - '0' as int + 52)
    else if c == '-' then Some(62)
    else if c == '_' then Some(63)
    else None
  }

  lemma SextetRoundTrip(s: Sextet)
    ensures CharSextet(SextetChar(s)) == Some(s)
    ensures SextetChar(s) != '\n' && SextetChar(s) != '\r'
  {
  }

  function High(a: Octet): Sextet { a / 4 }
  function Straddle(a: Octet, b: Octet): Sextet { a % 4 * 16 + b / 16 }
  function Overlap(b: Octet, c: Octet): Sextet { b % 16 * 4 + c / 64 }
  function Low(c: Octet): Sextet { c % 64 }
  function Spill(a: Octet): Sextet { a % 4 * 16 }
  function Trail(b: Octet): Sextet { b % 16 * 4 }

  function First(p: Sextet, q: Sextet): Octet { p * 4 + q / 16 }
  function Second(q: Sextet, r: Sextet): Octet { q % 16 * 16 + r / 4 }
  function Third(r: Sextet, s: Sextet): Octet { r % 4 * 64 + s }

  lemma OctetsRoundTrip(a: Octet, b: Octet, c: Octet)
    ensures First(High(a), Straddle(a, b)) == a
    ensures Second(Straddle(a, b), Overlap(b, c)) == b
    ensures Third(Overlap(b, c), Low(c)) == c
  {
  }

  /** Three octets are four sextets; one or two left over are two or three. */
  function ToSextets(bs: seq<Octet>): seq<Sextet> {
    if |bs| == 0 then []
    else if |bs| == 1 then [High(bs[0]), Spill(bs[0])]
    else if |bs| == 2 then [High(bs[0]), Straddle(bs[0], bs[1]), Trail(bs[1])]
    else [High(bs[0]), Straddle(bs[0], bs[1]), Overlap(bs[1], bs[2]), Low(bs[2])] + ToSextets(bs[3..])
  }

  /** The other way; a single sextet left over is an error, spare bits are dropped. */
  function FromSextets(ss: seq<Sextet>): Option<seq<Octet>> {
    if |ss| == 0 then Some([])
    else if |ss| == 1 then None
    else if |ss| == 2 then Some([First(ss[0], ss[1])])
    else if |ss| == 3 then Some([First(ss[0], ss[1]), Second(ss[1], ss[2])])
    else
      var rest := FromSextets(ss[4..]);
      if rest.None? then None
      else Some([First(ss[0], ss[1]), Second(ss[1], ss[2]), Third(ss[2], ss[3])] + rest.value)
  }

  lemma FromFour(p: Sextet, q: Sextet, r: Sextet, s: Sextet, rest: seq<Sextet>)
    requires FromSextets(rest).Some?
    ensures FromSextets([p, q, r, s] + rest)
         == Some([First(p, q), Second(q, r), Third(r, s)] + FromSextets(rest).value)
  {
    assert ([p, q, r, s] + rest)[4..] == rest;
  }

  lemma OneRoundTrip(a: Octet)
    ensures FromSextets([High(a), Spill(a)]) == Some([a])
  {
    assert First(High(a), Spill(a)) == a;
  }

  lemma TwoRoundTrip(a: Octet, b: Octet)
    ensures FromSextets([High(a), Straddle(a, b), Trail(b)]) == Some([a, b])
  {
    assert First(High(a), Straddle(a, b)) == a;
    assert Second(Straddle(a, b), Trail(b)) == b;
  }

  lemma {:induction false} SextetsRoundTrip(bs: seq<Octet>)
    ensures FromSextets(ToSextets(bs)) == Some(bs)
  {
    if |bs| == 0 {
    } else if |bs| == 1 {
      assert bs == [bs[0]];
      OneRoundTrip(bs[0]);
    } else if |bs| == 2 {
      assert bs == [bs[0], bs[1]];
      TwoRoundTrip(bs[0], bs[1]);
    } else {
      var a, b, c := bs[0], bs[1], bs[2];
      SextetsRoundTrip(bs[3..]);
      OctetsRoundTrip(a, b, c);
      FromFour(High(a), Straddle(a, b), Overlap(b, c), Low(c), ToSextets(bs[3..]));
      assert bs == [a, b, c] + bs[3..];
    }
  }

  /** Strings hold bytes. */
  predicate IsBytes(s: string) {
    forall i :: 0 <= i < |s| ==> s[i] as int < 256
  }

  function Octets(s: string): seq<Octet>
    requires IsBytes(s)
  {
    seq(|s|, i requires 0 <= i < |s| => s[i] as int)
  }

  function FromOctets(bs: seq<Octet>): string {
    seq(|bs|, i requires 0 <= i < |bs| => bs[i] as char)
  }

  function SextetText(ss: seq<Sextet>): (r: string)
    ensures |r| == |ss|
  {
    seq(|ss|, i requires 0 <= i < |ss| => SextetChar(ss[i]))
  }

  /** Reading sextets back; line breaks are skipped, any other stray character is an error. */
  function ReadSextets(s: string): Option<seq<Sextet>> {
    if |s| == 0 then Some([])
    else
      var front, last := ReadSextets(s[..|s| - 1]), s[|s| - 1];
      if last == '\n' || last == '\r' then front
      else if front.Some? && CharSextet(last).Some? then Some(front.value + [CharSextet(last).value])
      else None
  }

  lemma {:induction false} ReadSextetText(ss: seq<Sextet>)
    ensures ReadSextets(SextetText(ss)) == Some(ss)
  {
    if |ss| > 0 {
      ReadSextetText(ss[..|ss| - 1]);
      var last := ss[|ss| - 1];
      assert SextetText(ss)[..|ss| - 1] == SextetText(ss[..|ss| - 1]);
      assert SextetText(ss)[|ss| - 1] == SextetChar(last);
      SextetRoundTrip(last);
      assert ss[..|ss| - 1] + [last] == ss;
    }
  }

  function Base64Encode(s: string): string
    requires IsBytes(s)
  {
    SextetText(ToSextets(Octets(s)))
  }

  function Base64Decode(s: string): Option<string> {
    var ss := ReadSextets(s);
    if ss.None? then None
    else
      var bs := FromSextets(ss.value);
      if bs.None? then None else Some(FromOctets(bs.value))
  }

  lemma Base64RoundTrip(s: string)
    requires IsBytes(s)
    ensures Base64Decode(Base64Encode(s)) == Some(s)
    ensures s != "" ==> Base64Encode(s) != ""
  {
    ReadSextetText(ToSextets(Octets(s)));
    SextetsRoundTrip(Octets(s));
    assert FromOctets(Octets(s)) == s;
  }

  /** Vectors of RFC 4648 section 10, without padding, and one for the two characters in which the
      URL-safe alphabet differs. */
  lemma Base64Vectors()
    ensures Base64Encode("f") == "Zg" && Base64Encode("fo") == "Zm8" && Base64Encode("foobar") == "Zm9vYmFy"
    ensures forall s :: IsBytes(s) && Octets(s) == [0xfb, 0xff] ==> Base64Encode(s) == "-_8"
  {
    assert Octets("f") == [0x66] && Octets("fo") == [0x66, 0x6f];
    assert ToSextets([0x66]) == [25, 32] && ToSextets([0x66, 0x6f]) == [25, 38, 60];
    var foobar: seq<Octet> := [0x66, 0x6f, 0x6f, 0x62, 0x61, 0x72];
    assert Octets("foobar") == foobar;
    assert foobar[3..] == [0x62, 0x61, 0x72] && foobar[3..][3..] == [];
    assert ToSextets(foobar[3..]) == [24, 38, 5, 50];
    assert ToSextets(foobar) == [25, 38, 61, 47, 24, 38, 5, 50];
    assert ToSextets([0xfb, 0xff]) == [62, 63, 60];
  }
}
