/** The unpadded URL-safe base64 of section 5 of RFC 4648. */
module Base64Url {
  import opened Domain

  type Byte = b: int | 0 <= b < 256

  type Sextet = v: int | 0 <= v < 64

  function Symbol(v: Sextet): char {
    if v < 26 then ('A' as int + v) as char
    else if v < 52 then ('a' as int + v - 26) as char
    else if v < 62 then ('0' as int + v - 52) as char
    else if v == 62 then '-'
    else '_'
  }

  function SextetOf(c: char): Option<Sextet> {
    if 'A' <= c <= 'Z' then Some(c as int - 'A' as int)
    else if 'a' <= c <= 'z' then Some(c as int - 'a' as int + 26)
    else if '0' <= c <= '9' then Some(c as int - '0' as int + 52)
    else if c == '-' then Some(62)
    else if c == '_' then Some(63)
    else None
  }

  /** Table 2 of section 5 of RFC 4648: letters, small letters and digits in order, and then two more symbols. */
  lemma SymbolExactly(v: Sextet)
    ensures Symbol(0) == 'A' && Symbol(25) == 'Z' && Symbol(26) == 'a' && Symbol(51) == 'z'
    ensures Symbol(52) == '0' && Symbol(61) == '9' && Symbol(62) == '-' && Symbol(63) == '_'
    ensures v !in {25, 51, 61, 62, 63} ==> Symbol(v + 1) as int == Symbol(v) as int + 1
  {
  }

  lemma SextetExactly(c: char)
    ensures SextetOf(c).Some? <==>
            'A' <= c <= 'Z' || 'a' <= c <= 'z' || '0' <= c <= '9' || c == '-' || c == '_'
    ensures SextetOf(c).Some? ==> Symbol(SextetOf(c).value) == c
  {
  }

  lemma SymbolRoundTrip(v: Sextet)
    ensures SextetOf(Symbol(v)) == Some(v)
  {
  }

  /** Three bytes make four symbols; one or two bytes at the end make two or three. */
  function Encode(bytes: seq<Byte>): string {
    if |bytes| == 0 then ""
    else if |bytes| == 1 then
      [Symbol(bytes[0] / 4), Symbol(bytes[0] % 4 * 16)]
    else if |bytes| == 2 then
      [Symbol(bytes[0] / 4), Symbol(bytes[0] % 4 * 16 + bytes[1] / 16), Symbol(bytes[1] % 16 * 4)]
    else
      [Symbol(bytes[0] / 4), Symbol(bytes[0] % 4 * 16 + bytes[1] / 16),
       Symbol(bytes[1] % 16 * 4 + bytes[2] / 64), Symbol(bytes[2] % 64)] + Encode(bytes[3..])
  }

  /** The symbols of three bytes carry their 24 bits, in order; what follows is encoded on its own. */
  lemma GroupExactly(x: Byte, y: Byte, z: Byte, rest: seq<Byte>)
    ensures var s := Encode([x, y, z] + rest);
            && 4 <= |s| && s[4..] == Encode(rest)
            && SextetOf(s[0]).Some? && SextetOf(s[1]).Some? && SextetOf(s[2]).Some? && SextetOf(s[3]).Some?
            && SextetOf(s[0]).value * 262_144 + SextetOf(s[1]).value * 4_096 + SextetOf(s[2]).value * 64
               + SextetOf(s[3]).value == x * 65_536 + y * 256 + z
  {
    var bytes := [x, y, z] + rest;
    assert bytes[3..] == rest && bytes[0] == x && bytes[1] == y && bytes[2] == z;
    var a, b, c, d := x / 4, x % 4 * 16 + y / 16, y % 16 * 4 + z / 64, z % 64;
    SymbolRoundTrip(a);
    SymbolRoundTrip(b);
    SymbolRoundTrip(c);
    SymbolRoundTrip(d);
    assert Encode(bytes)[4..] == Encode(rest);
  }

  /** One or two bytes at the end are followed by zero bits up to a whole number of symbols, and by no padding. */
  lemma TailExactly(x: Byte, y: Byte)
    ensures var s, t := Encode([x]), Encode([x, y]);
            && |s| == 2 && SextetOf(s[0]).Some? && SextetOf(s[1]).Some?
            && SextetOf(s[0]).value * 64 + SextetOf(s[1]).value == x * 16
            && |t| == 3 && SextetOf(t[0]).Some? && SextetOf(t[1]).Some? && SextetOf(t[2]).Some?
            && SextetOf(t[0]).value * 4_096 + SextetOf(t[1]).value * 64 + SextetOf(t[2]).value == (x * 256 + y) * 4
  {
    SymbolRoundTrip(x / 4);
    SymbolRoundTrip(x % 4 * 16);
    SymbolRoundTrip(x % 4 * 16 + y / 16);
    SymbolRoundTrip(y % 16 * 4);
  }

  /** Line ends in the input are skipped. */
  function WithoutLineEnds(s: string): string {
    if s == "" then ""
    else (if s[0] == '\r' || s[0] == '\n' then "" else [s[0]]) + WithoutLineEnds(s[1..])
  }

  function Sextets(s: string): Option<seq<Sextet>> {
    if s == "" then Some([])
    else
      var first, rest := SextetOf(s[0]), Sextets(s[1..]);
      if first.Some? && rest.Some? then Some([first.value] + rest.value) else None
  }

  function First(a: int, b: int): Byte
    requires 0 <= a < 64 && 0 <= b < 64
  {
    a * 4 + b / 16
  }

  function Second(b: int, c: int): Byte
    requires 0 <= b < 64 && 0 <= c < 64
  {
    b % 16 * 16 + c / 4
  }

  function Third(c: int, d: int): Byte
    requires 0 <= c < 64 && 0 <= d < 64
  {
    c % 4 * 64 + d
  }

  /** Bits left over at the end are not looked at; a single symbol left over is an error. */
  function Regroup(v: seq<Sextet>): Option<seq<Byte>> {
    if |v| == 0 then Some([])
    else if |v| == 1 then None
    else if |v| == 2 then Some([First(v[0], v[1])])
    else if |v| == 3 then Some([First(v[0], v[1]), Second(v[1], v[2])])
    else
      var rest := Regroup(v[4..]);
      if rest.None? then None
      else Some([First(v[0], v[1]), Second(v[1], v[2]), Third(v[2], v[3])] + rest.value)
  }

  function Decode(s: string): Option<seq<Byte>> {
    var v := Sextets(WithoutLineEnds(s));
    if v.None? then None else Regroup(v.value)
  }

  predicate InAlphabet(s: string) {
    forall i | 0 <= i < |s| :: SextetOf(s[i]).Some?
  }

  /** The values behind the symbols of an encoding. */
  function Values(bytes: seq<Byte>): seq<Sextet> {
    if |bytes| == 0 then []
    else if |bytes| == 1 then [bytes[0] / 4, bytes[0] % 4 * 16]
    else if |bytes| == 2 then [bytes[0] / 4, bytes[0] % 4 * 16 + bytes[1] / 16, bytes[1] % 16 * 4]
    else
      [bytes[0] / 4, bytes[0] % 4 * 16 + bytes[1] / 16, bytes[1] % 16 * 4 + bytes[2] / 64, bytes[2] % 64]
      + Values(bytes[3..])
  }

  function Spell(v: seq<Sextet>): string {
    seq(|v|, i requires 0 <= i < |v| => Symbol(v[i]))
  }

  lemma {:induction false} EncodeSpells(bytes: seq<Byte>)
    ensures Encode(bytes) == Spell(Values(bytes))
    decreases |bytes|
  {
    if 3 <= |bytes| {
      EncodeSpells(bytes[3..]);
    }
  }

  lemma {:induction false} SpellRoundTrip(v: seq<Sextet>)
    ensures Sextets(WithoutLineEnds(Spell(v))) == Some(v) && InAlphabet(Spell(v))
    decreases |v|
  {
    if v != [] {
      SymbolRoundTrip(v[0]);
      SpellRoundTrip(v[1..]);
      assert Spell(v) == [Symbol(v[0])] + Spell(v[1..]);
      assert Spell(v)[1..] == Spell(v[1..]);
      assert [v[0]] + v[1..] == v;
      var w := WithoutLineEnds(Spell(v));
      assert w == [Symbol(v[0])] + WithoutLineEnds(Spell(v[1..]));
      assert w[1..] == WithoutLineEnds(Spell(v[1..]));
    }
  }

  /** Three bytes come back from their four sextets. */
  lemma GroupRoundTrip(x: Byte, y: Byte, z: Byte)
    ensures First(x / 4, x % 4 * 16 + y / 16) == x
    ensures Second(x % 4 * 16 + y / 16, y % 16 * 4 + z / 64) == y
    ensures Third(y % 16 * 4 + z / 64, z % 64) == z
  {
  }

  lemma {:induction false} RegroupRoundTrip(bytes: seq<Byte>)
    ensures Regroup(Values(bytes)) == Some(bytes)
    decreases |bytes|
  {
    if |bytes| == 1 {
      assert bytes == [bytes[0]];
    } else if |bytes| == 2 {
      assert bytes == [bytes[0], bytes[1]];
    } else if 3 <= |bytes| {
      RegroupRoundTrip(bytes[3..]);
      assert Values(bytes)[4..] == Values(bytes[3..]);
      GroupRoundTrip(bytes[0], bytes[1], bytes[2]);
      assert bytes == [bytes[0], bytes[1], bytes[2]] + bytes[3..];
    }
  }

  /** Decoding undoes encoding, and an encoding needs no quoting in a URL. */
  lemma RoundTrip(bytes: seq<Byte>)
    ensures Decode(Encode(bytes)) == Some(bytes) && InAlphabet(Encode(bytes))
    ensures bytes != [] ==> Encode(bytes) != ""
  {
    EncodeSpells(bytes);
    SpellRoundTrip(Values(bytes));
    RegroupRoundTrip(bytes);
  }
}
