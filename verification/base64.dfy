/**
 Base64 with padding (RFC 4648, section 4), as the mail nodes use it: octets
 are characters below 256, and a decoder that refuses anything but whole
 quanta of the alphabet with padding only at the end.
 */
module Base64 {
  import opened Wrappers

  /** Every character stands for one octet. */
  predicate IsOctets(s: string) { forall k :: 0 <= k < |s| ==> s[k] < '\U{100}' }

  predicate IsDigit(c: char) {
    'A' <= c <= 'Z' || 'a' <= c <= 'z' || '0' <= c <= '9' || c == '+' || c == '/'
  }

  function Digit(v: nat): (c: char)
    requires v < 64
    ensures IsDigit(c) && DigitValue(c) == v
  {
    if v < 26 then 'A' + v as char
    else if v < 52 then 'a' + (v - 26) as char
    else if v < 62 then '0' + (v - 52) as char
    else if v == 62 then '+'
    else '/'
  }

  function DigitValue(c: char): (v: nat)
    requires IsDigit(c)
    ensures v < 64
  {
    if 'A' <= c <= 'Z' then (c - 'A') as nat
    else if 'a' <= c <= 'z' then (c - 'a') as nat + 26
    else if '0' <= c <= '9' then (c - '0') as nat + 52
    else if c == '+' then 62
    else 63
  }

  /** Three octets as four values of six bits, and back. */
  function Sextets(x: nat, y: nat, z: nat): (q: (nat, nat, nat, nat))
    requires x < 256 && y < 256 && z < 256
    ensures q.0 < 64 && q.1 < 64 && q.2 < 64 && q.3 < 64
  {
    (x / 4, x % 4 * 16 + y / 16, y % 16 * 4 + z / 64, z % 64)
  }

  function Triple(v: nat, w: nat, x: nat, y: nat): (t: (nat, nat, nat))
    requires v < 64 && w < 64 && x < 64 && y < 64
    ensures t.0 < 256 && t.1 < 256 && t.2 < 256
  {
    (v * 4 + w / 16, w % 16 * 16 + x / 4, x % 4 * 64 + y)
  }

  lemma TripleOfSextets(x: nat, y: nat, z: nat)
    requires x < 256 && y < 256 && z < 256
    ensures var q := Sextets(x, y, z); Triple(q.0, q.1, q.2, q.3) == (x, y, z)
  {
    Halves(x % 4, y / 16, 16);
    Halves(y % 16, z / 64, 4);
    assert x / 4 * 4 + x % 4 == x && y / 16 * 16 + y % 16 == y && z / 64 * 64 + z % 64 == z;
  }

  lemma Halves(high: nat, low: nat, n: nat)
    requires low < n && (n == 4 || n == 16)
    ensures (high * n + low) / n == high && (high * n + low) % n == low
  {
  }

  /** The four digits of three octets. */
  function Quantum(a: char, b: char, c: char): (q: string)
    requires a < '\U{100}' && b < '\U{100}' && c < '\U{100}'
    ensures |q| == 4 && IsDigit(q[0]) && IsDigit(q[1]) && IsDigit(q[2]) && IsDigit(q[3])
  {
    var v := Sextets(a as nat, b as nat, c as nat);
    [Digit(v.0), Digit(v.1), Digit(v.2), Digit(v.3)]
  }

  function Encode(s: string): (r: string)
    requires IsOctets(s)
  {
    if |s| == 0 then ""
    else if |s| == 1 then Quantum(s[0], 0 as char, 0 as char)[..2] + "=="
    else if |s| == 2 then Quantum(s[0], s[1], 0 as char)[..3] + "="
    else Quantum(s[0], s[1], s[2]) + Encode(s[3..])
  }

  predicate IsEncodingChar(c: char) { IsDigit(c) || c == '=' }

  /** An encoding is made of digits and padding only. */
  lemma {:induction false} EncodeAlphabet(s: string)
    requires IsOctets(s)
    ensures forall k :: 0 <= k < |Encode(s)| ==> IsEncodingChar(Encode(s)[k])
  {
    if |s| >= 3 {
      EncodeAlphabet(s[3..]);
      QuantumAlphabet(s[0], s[1], s[2]);
    } else if |s| == 2 {
      QuantumAlphabet(s[0], s[1], 0 as char);
    } else if |s| == 1 {
      QuantumAlphabet(s[0], 0 as char, 0 as char);
    }
  }

  lemma QuantumAlphabet(a: char, b: char, c: char)
    requires a < '\U{100}' && b < '\U{100}' && c < '\U{100}'
    ensures forall k :: 0 <= k < 4 ==> IsDigit(Quantum(a, b, c)[k])
  {
  }

  /** The three octets of four digits. */
  function Octets(p: char, q: char, r: char, t: char): (s: string)
    requires IsDigit(p) && IsDigit(q) && IsDigit(r) && IsDigit(t)
    ensures |s| == 3 && s[0] < '\U{100}' && s[1] < '\U{100}' && s[2] < '\U{100}'
  {
    var o := Triple(DigitValue(p), DigitValue(q), DigitValue(r), DigitValue(t));
    [o.0 as char, o.1 as char, o.2 as char]
  }

  function Decode(r: string): (s: Option<string>)
  {
    if r == "" then Some("")
    else if |r| < 4 || !IsDigit(r[0]) || !IsDigit(r[1]) then None
    else if |r| == 4 && r[2] == '=' && r[3] == '=' then Some(Octets(r[0], r[1], 'A', 'A')[..1])
    else if !IsDigit(r[2]) then None
    else if |r| == 4 && r[3] == '=' then Some(Octets(r[0], r[1], r[2], 'A')[..2])
    else if !IsDigit(r[3]) then None
    else
      var rest := Decode(r[4..]);
      if rest.None? then None else Some(Octets(r[0], r[1], r[2], r[3]) + rest.value)
  }

  lemma OctetsOfQuantum(a: char, b: char, c: char)
    requires a < '\U{100}' && b < '\U{100}' && c < '\U{100}'
    ensures var q := Quantum(a, b, c); Octets(q[0], q[1], q[2], q[3]) == [a, b, c]
  {
    TripleOfSextets(a as nat, b as nat, c as nat);
  }

  /** The digit of zero stands for the bits that padding leaves out. */
  lemma PaddingIsZero(a: char, b: char)
    requires a < '\U{100}' && b < '\U{100}'
    ensures Quantum(a, b, 0 as char)[3] == 'A'
    ensures Quantum(a, 0 as char, 0 as char)[2] == 'A' && Quantum(a, 0 as char, 0 as char)[3] == 'A'
  {
  }

  /** Decoding what was encoded gives every octet back. */
  lemma {:induction false} DecodeEncode(s: string)
    requires IsOctets(s)
    ensures Decode(Encode(s)) == Some(s)
  {
    hide Quantum, Octets;
    var r := Encode(s);
    if |s| == 1 {
      PaddingIsZero(s[0], s[0]);
      OctetsOfQuantum(s[0], 0 as char, 0 as char);
      assert s == [s[0], 0 as char, 0 as char][..1];
    } else if |s| == 2 {
      PaddingIsZero(s[0], s[1]);
      OctetsOfQuantum(s[0], s[1], 0 as char);
      assert s == [s[0], s[1], 0 as char][..2];
    } else if |s| >= 3 {
      DecodeEncode(s[3..]);
      OctetsOfQuantum(s[0], s[1], s[2]);
      var q := Quantum(s[0], s[1], s[2]);
      assert r == q + Encode(s[3..]) && r[4..] == Encode(s[3..]);
      assert r[0] == q[0] && r[1] == q[1] && r[2] == q[2] && r[3] == q[3];
      assert s == [s[0], s[1], s[2]] + s[3..];
    }
  }

  /** The alphabet of RFC 4648, table 1. */
  lemma DigitsAreTheAlphabet(v: nat)
    requires v < 64
    ensures v < 26 ==> Digit(v) == "ABCDEFGHIJKLMNOPQRSTUVWXYZ"[v]
    ensures 26 <= v < 52 ==> Digit(v) == "abcdefghijklmnopqrstuvwxyz"[v - 26]
    ensures 52 <= v < 64 ==> Digit(v) == "0123456789+/"[v - 52]
  {
  }

  /** A whole quantum holds the 24 bits of its three octets, the first octet's in front. */
  lemma QuantumHoldsBits(a: char, b: char, c: char)
    requires a < '\U{100}' && b < '\U{100}' && c < '\U{100}'
    ensures var q := Quantum(a, b, c);
      DigitValue(q[0]) * 262144 + DigitValue(q[1]) * 4096 + DigitValue(q[2]) * 64 + DigitValue(q[3]) ==
      a as nat * 65536 + b as nat * 256 + c as nat
  {
    var x, y, z := a as nat, b as nat, c as nat;
    assert x == x / 4 * 4 + x % 4 && y == y / 16 * 16 + y % 16 && z == z / 64 * 64 + z % 64;
  }

  lemma QuantumIs(a: char, b: char, c: char, q: (nat, nat, nat, nat))
    requires a < '\U{100}' && b < '\U{100}' && c < '\U{100}'
    requires q.0 < 64 && q.1 < 64 && q.2 < 64 && q.3 < 64
    requires Sextets(a as nat, b as nat, c as nat) == q
    ensures Quantum(a, b, c) == [Digit(q.0), Digit(q.1), Digit(q.2), Digit(q.3)]
  {
    hide Sextets, Digit;
  }

  lemma SomeQuanta()
    ensures Quantum('f', 'o', 'o') == "Zm9v" && Quantum('b', 'a', 'r') == "YmFy"
  {
    hide Quantum;
    QuantumIs('f', 'o', 'o', (25, 38, 61, 47));
    QuantumIs('b', 'a', 'r', (24, 38, 5, 50));
  }

  lemma HalfQuanta()
    ensures Quantum('f', 'o', 0 as char) == "Zm8A" && Quantum('b', 'a', 0 as char) == "YmEA"
  {
    hide Quantum;
    QuantumIs('f', 'o', 0 as char, (25, 38, 60, 0));
    QuantumIs('b', 'a', 0 as char, (24, 38, 4, 0));
  }

  lemma ThirdQuanta()
    ensures Quantum('f', 0 as char, 0 as char) == "ZgAA" && Quantum('b', 0 as char, 0 as char) == "YgAA"
  {
    hide Quantum;
    QuantumIs('f', 0 as char, 0 as char, (25, 32, 0, 0));
    QuantumIs('b', 0 as char, 0 as char, (24, 32, 0, 0));
  }

  lemma OneOctet()
    ensures Encode("f") == "Zg==" && Encode("b") == "Yg=="
  {
    hide Quantum;
    ThirdQuanta();
  }

  lemma TwoOctets()
    ensures Encode("fo") == "Zm8=" && Encode("ba") == "YmE="
  {
    hide Quantum;
    HalfQuanta();
  }

  lemma ThreeOctets()
    ensures Encode("foo") == "Zm9v" && Encode("bar") == "YmFy"
  {
    hide Quantum;
    SomeQuanta();
    EmptyEncoding();
    assert "foo"[3..] == "" && "bar"[3..] == "";
  }

  lemma EncodeAfterFoo(s: string)
    requires IsOctets(s)
    ensures IsOctets("foo" + s) && Encode("foo" + s) == Quantum('f', 'o', 'o') + Encode(s)
  {
    hide Quantum;
    assert ("foo" + s)[3..] == s;
  }

  lemma EmptyEncoding()
    ensures Encode("") == ""
  {
  }

  /** The test vectors of RFC 4648, section 10. */
  lemma TestVectors()
    ensures Encode("") == "" && Encode("f") == "Zg==" && Encode("fo") == "Zm8=" && Encode("foo") == "Zm9v"
    ensures Encode("foob") == "Zm9vYg==" && Encode("fooba") == "Zm9vYmE=" && Encode("foobar") == "Zm9vYmFy"
  {
    hide Quantum, Encode;
    EmptyEncoding();
    OneOctet();
    TwoOctets();
    ThreeOctets();
    SomeQuanta();
    EncodeAfterFoo("b");
    EncodeAfterFoo("ba");
    EncodeAfterFoo("bar");
    assert "foo" + "b" == "foob" && "foo" + "ba" == "fooba" && "foo" + "bar" == "foobar";
  }

  /** A digit, or one of at most two signs of padding at the end. */
  predicate FitsAt(r: string, k: nat)
    requires k < |r|
  {
    IsDigit(r[k]) || (r[k] == '=' && (k == |r| - 1 || (k == |r| - 2 && r[k + 1] == '=')))
  }

  predicate IsEncoding(r: string) { |r| % 4 == 0 && forall k :: 0 <= k < |r| ==> FitsAt(r, k) }

  lemma QuantumFits(r: string)
    requires |r| > 4
    ensures IsEncoding(r) <==>
      IsDigit(r[0]) && IsDigit(r[1]) && IsDigit(r[2]) && IsDigit(r[3]) && IsEncoding(r[4..])
  {
    hide IsDigit;
    var rest := r[4..];
    forall k | 4 <= k < |r| ensures FitsAt(r, k) <==> FitsAt(rest, k - 4) {
    }
    if |r| % 4 == 0 {
      assert forall k :: 0 <= k < 4 ==> (FitsAt(r, k) <==> IsDigit(r[k]));
      if IsEncoding(r) {
        forall k | 0 <= k < |rest| ensures FitsAt(rest, k) {
          assert FitsAt(r, k + 4);
        }
      }
    }
  }

  lemma LastQuantumFits(r: string)
    requires |r| <= 4
    ensures IsEncoding(r) <==> Decode(r).Some?
  {
    hide IsDigit, Octets;
    PaddingIsNoDigit();
    if |r| == 4 {
      assert r[4..] == "";
      assert IsEncoding(r) <==> FitsAt(r, 0) && FitsAt(r, 1) && FitsAt(r, 2) && FitsAt(r, 3);
    }
  }

  /** The texts that decode are whole quanta of digits, padded at the end if at all. */
  lemma {:induction false} DecodesIff(r: string)
    ensures Decode(r).Some? <==> IsEncoding(r)
    decreases |r|
  {
    hide IsDigit, Octets, IsEncoding;
    if |r| > 4 {
      QuantumFits(r);
      DecodesIff(r[4..]);
    } else {
      LastQuantumFits(r);
    }
  }

  lemma PaddingIsNoDigit()
    ensures !IsDigit('=')
  {
  }

  /** The octets of a quantum hold the bits of its digits; padding leaves the last bits out. */
  lemma OctetsHoldBits(p: char, q: char, r: char, t: char, rest: string)
    requires IsDigit(p) && IsDigit(q) && IsDigit(r) && IsDigit(t) && Decode(rest).Some?
    ensures var bits := DigitValue(p) * 262144 + DigitValue(q) * 4096 + DigitValue(r) * 64 + DigitValue(t);
            var o := Octets(p, q, r, t);
      && o[0] as nat * 65536 + o[1] as nat * 256 + o[2] as nat == bits
      && Decode([p, q, r, t] + rest) == Some(o + Decode(rest).value)
    ensures var o := Octets(p, q, 'A', 'A'); Decode([p, q, '=', '=']) == Some([o[0]])
    ensures var o := Octets(p, q, r, 'A'); Decode([p, q, r, '=']) == Some([o[0], o[1]])
  {
    var v, w, x, y := DigitValue(p), DigitValue(q), DigitValue(r), DigitValue(t);
    BitsOfTriple(v, w, x, y);
    DecodeStep(p, q, r, t, rest);
    PaddedDecode(p, q, r);
  }

  lemma BitsOfTriple(v: nat, w: nat, x: nat, y: nat)
    requires v < 64 && w < 64 && x < 64 && y < 64
    ensures var o := Triple(v, w, x, y);
      o.0 * 65536 + o.1 * 256 + o.2 == v * 262144 + w * 4096 + x * 64 + y
  {
    assert w == w / 16 * 16 + w % 16 && x == x / 4 * 4 + x % 4;
  }

  lemma DecodeStep(p: char, q: char, r: char, t: char, rest: string)
    requires IsDigit(p) && IsDigit(q) && IsDigit(r) && IsDigit(t) && Decode(rest).Some?
    ensures Decode([p, q, r, t] + rest) == Some(Octets(p, q, r, t) + Decode(rest).value)
  {
    hide Octets;
    assert ([p, q, r, t] + rest)[4..] == rest;
  }

  lemma PaddedDecode(p: char, q: char, r: char)
    requires IsDigit(p) && IsDigit(q) && IsDigit(r)
    ensures var o := Octets(p, q, 'A', 'A'); Decode([p, q, '=', '=']) == Some([o[0]])
    ensures var o := Octets(p, q, r, 'A'); Decode([p, q, r, '=']) == Some([o[0], o[1]])
  {
    hide Octets;
    PaddingIsNoDigit();
    assert Octets(p, q, 'A', 'A')[..1] == [Octets(p, q, 'A', 'A')[0]];
    assert Octets(p, q, r, 'A')[..2] == [Octets(p, q, r, 'A')[0], Octets(p, q, r, 'A')[1]];
  }
}
