/** Escaping a URL query without escaping what is escaped already (nodes/http.go; RFC 3986, sections 2.1 and 2.4). */
module Escaper {

  newtype byte = x: int | 0 <= x < 256

  const PERCENT: byte := 37

  predicate IsHexDigit(b: byte) { 48 <= b <= 57 || 97 <= b <= 102 || 65 <= b <= 70 }

  predicate IsHexPair(s: seq<byte>) { |s| >= 2 && IsHexDigit(s[0]) && IsHexDigit(s[1]) }

  /** - _ . ~ ! $ & ( ) * + , ; = : @ / ? [ ] ' */
  const MARKS: set<byte> := {45, 95, 46, 126, 33, 36, 38, 40, 41, 42, 43, 44, 59, 61, 58, 64, 47, 63, 91, 93, 39}

  /** The bytes that escaping leaves alone: letters, digits and the marks. */
  predicate AllowedInQuery(b: byte) { 97 <= b <= 122 || 65 <= b <= 90 || 48 <= b <= 57 || b in MARKS }

  function HexValue(b: byte): (v: int)
    requires IsHexDigit(b)
    ensures 0 <= v < 16
  {
    if b <= 57 then b as int - 48 else if b <= 70 then b as int - 55 else b as int - 87
  }

  /** The digit for a value, with upper-case letters. */
  function UpperHex(v: int): (b: byte)
    requires 0 <= v < 16
    ensures IsHexDigit(b) && HexValue(b) == v && b <= 70
  {
    if v < 10 then (v + 48) as byte else (v + 55) as byte
  }

  /** An escape stands at the start of a string. */
  predicate StartsEscape(s: seq<byte>) { |s| >= 3 && s[0] == PERCENT && IsHexPair(s[1..]) }

  /** The escape of a byte: a percent sign and two digits, upper-case where they are letters. */
  function EscapeOf(b: byte): (s: seq<byte>)
    ensures |s| == 3 && s[0] == PERCENT && IsHexDigit(s[1]) && IsHexDigit(s[2])
    ensures HexValue(s[1]) * 16 + HexValue(s[2]) == b as int && s[1] <= 70 && s[2] <= 70
  {
    [PERCENT, UpperHex(b as int / 16), UpperHex(b as int % 16)]
  }

  function Escape(s: seq<byte>): seq<byte> {
    if s == [] then []
    else if StartsEscape(s) then s[..3] + Escape(s[3..])
    else if AllowedInQuery(s[0]) then [s[0]] + Escape(s[1..])
    else EscapeOf(s[0]) + Escape(s[1..])
  }

  method EscapeKeepingEscapes(value: seq<byte>) returns (built: seq<byte>)
    ensures built == Escape(value)
  {
    hide AllowedInQuery, EscapeOf, Escape, IsHexPair;
    built := [];
    var index := 0;
    EscapeEnds(value);
    while index < |value|
      invariant index <= |value| && built + Escape(value[index..]) == Escape(value)
    {
      EscapeStep(value, index);
      var letter := value[index];
      if letter == PERCENT && index + 3 <= |value| && IsHexPair(value[index + 1..]) {
        built := built + value[index..index + 3];
        index := index + 3;
        continue;
      }
      if AllowedInQuery(letter) {
        built := built + [letter];
        index := index + 1;
        continue;
      }
      built := built + EscapeOf(letter);
      index := index + 1;
    }
  }

  lemma EscapeEnds(value: seq<byte>)
    ensures value[0..] == value && Escape(value[|value|..]) == []
  {
  }

  lemma EscapeStep(value: seq<byte>, index: nat)
    requires index < |value|
    ensures Escape(value[index..]) ==
      if value[index] == PERCENT && index + 3 <= |value| && IsHexPair(value[index + 1..])
      then value[index..index + 3] + Escape(value[index + 3..])
      else if AllowedInQuery(value[index]) then [value[index]] + Escape(value[index + 1..])
      else EscapeOf(value[index]) + Escape(value[index + 1..])
  {
    hide AllowedInQuery, EscapeOf;
    var rest := value[index..];
    assert rest[1..] == value[index + 1..];
    if StartsEscape(rest) {
      assert rest[..3] == value[index..index + 3] && rest[3..] == value[index + 3..];
    }
  }

  /** Allowed bytes and well-formed escapes, and nothing else. */
  predicate WellFormed(s: seq<byte>) {
    s == [] || (if StartsEscape(s) then WellFormed(s[3..]) else AllowedInQuery(s[0]) && WellFormed(s[1..]))
  }

  lemma StartsAfterEscape(e: seq<byte>, rest: seq<byte>)
    requires |e| == 3 && e[0] == PERCENT && IsHexDigit(e[1]) && IsHexDigit(e[2])
    ensures StartsEscape(e + rest) && (e + rest)[..3] == e && (e + rest)[3..] == rest
  {
    var s := e + rest;
    assert s[1..][0] == e[1] && s[1..][1] == e[2];
  }

  /** Whatever bytes go in, the output is well formed. */
  lemma {:induction false} EscapedIsWellFormed(s: seq<byte>)
    ensures WellFormed(Escape(s))
    decreases |s|
  {
    hide AllowedInQuery, EscapeOf;
    if s != [] {
      if StartsEscape(s) {
        EscapedIsWellFormed(s[3..]);
        StartsAfterEscape(s[..3], Escape(s[3..]));
      } else {
        EscapedIsWellFormed(s[1..]);
        if AllowedInQuery(s[0]) {
          PercentIsNotAllowed();
          var out := [s[0]] + Escape(s[1..]);
          assert out[1..] == Escape(s[1..]);
        } else {
          StartsAfterEscape(EscapeOf(s[0]), Escape(s[1..]));
        }
      }
    }
  }

  lemma PercentIsNotAllowed()
    ensures !AllowedInQuery(PERCENT)
  {
  }

  /** Escaping leaves exactly the well-formed strings alone. */
  lemma {:induction false} UnchangedIffWellFormed(s: seq<byte>)
    ensures Escape(s) == s <==> WellFormed(s)
    decreases |s|
  {
    hide AllowedInQuery, EscapeOf;
    if s != [] {
      if StartsEscape(s) {
        UnchangedIffWellFormed(s[3..]);
        assert s == s[..3] + s[3..];
        assert Escape(s)[3..] == Escape(s[3..]);
      } else {
        UnchangedIffWellFormed(s[1..]);
        assert s == [s[0]] + s[1..];
        if AllowedInQuery(s[0]) {
          assert Escape(s)[1..] == Escape(s[1..]);
        } else {
          StartsAfterEscape(EscapeOf(s[0]), Escape(s[1..]));
          assert StartsEscape(Escape(s)) && !StartsEscape(s);
        }
      }
    }
  }

  /** So escaping twice is escaping once. */
  lemma Idempotent(s: seq<byte>)
    ensures Escape(Escape(s)) == Escape(s)
  {
    hide Escape, WellFormed;
    EscapedIsWellFormed(s);
    UnchangedIffWellFormed(Escape(s));
  }

  /** Percent-decoding that leaves a percent sign alone when no two hex digits follow. */
  function Decode(s: seq<byte>): seq<byte> {
    if s == [] then []
    else if StartsEscape(s) then [Pair(s[1], s[2])] + Decode(s[3..])
    else [s[0]] + Decode(s[1..])
  }

  function Pair(a: byte, b: byte): byte
    requires IsHexDigit(a) && IsHexDigit(b)
  {
    (HexValue(a) * 16 + HexValue(b)) as byte
  }

  /** Escaping does not change what the string decodes to. */
  lemma {:induction false} DecodesTheSame(s: seq<byte>)
    ensures Decode(Escape(s)) == Decode(s)
    decreases |s|
  {
    hide AllowedInQuery, EscapeOf, HexValue;
    if s != [] {
      if StartsEscape(s) {
        DecodesTheSame(s[3..]);
        StartsAfterEscape(s[..3], Escape(s[3..]));
      } else {
        DecodesTheSame(s[1..]);
        if AllowedInQuery(s[0]) {
          PercentIsNotAllowed();
          var out := [s[0]] + Escape(s[1..]);
          assert out[1..] == Escape(s[1..]);
        } else {
          StartsAfterEscape(EscapeOf(s[0]), Escape(s[1..]));
          assert Pair(EscapeOf(s[0])[1], EscapeOf(s[0])[2]) == s[0];
        }
      }
    }
  }

  /** The unreserved and reserved characters of RFC 3986, sections 2.2 and 2.3, but for the number sign. */
  lemma AllowedAreTheUrlCharacters(b: byte)
    ensures AllowedInQuery(b) <==>
      var c := b as char;
      || 'A' <= c <= 'Z' || 'a' <= c <= 'z' || '0' <= c <= '9' || c in {'-', '.', '_', '~'}
      || c in {':', '/', '?', '[', ']', '@', '!', '$', '&', '\'', '(', ')', '*', '+', ',', ';', '='}
  {
  }

  /** A hexadecimal digit of either case stands for its value. */
  lemma HexDigitStandsFor(b: byte, v: nat)
    requires v < 16 && ("0123456789abcdef"[v] == b as char || "0123456789ABCDEF"[v] == b as char)
    ensures IsHexDigit(b) && HexValue(b) == v
  {
  }

  /** The hexadecimal digits are these. */
  lemma HexDigitIff(b: byte)
    ensures IsHexDigit(b) <==> b as char in "0123456789abcdefABCDEF"
  {
    assert forall v :: 0 <= v < 10 ==> "0123456789abcdefABCDEF"[v] == (v + 48) as char;
    assert forall v :: 10 <= v < 16 ==> "0123456789abcdefABCDEF"[v] == (v + 87) as char;
    assert forall v :: 16 <= v < 22 ==> "0123456789abcdefABCDEF"[v] == (v + 49) as char;
    if 48 <= b <= 57 {
      assert "0123456789abcdefABCDEF"[b as int - 48] == b as char;
    } else if 97 <= b <= 102 {
      assert "0123456789abcdefABCDEF"[b as int - 87] == b as char;
    } else if 65 <= b <= 70 {
      assert "0123456789abcdefABCDEF"[b as int - 49] == b as char;
    }
  }

  /** The digits of an escape, and two escapes as they are written. */
  lemma EscapesAreWritten(v: int)
    requires 0 <= v < 16
    ensures UpperHex(v) as char == "0123456789ABCDEF"[v]
    ensures EscapeOf(32) == [37, 50, 48] && EscapeOf(175) == [37, 65, 70]
  {
  }
}
