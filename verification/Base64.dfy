/** Base64 as in section 4 of RFC 4648, with the strict decoding of the `STANDARD` engine. */
module Base64 {
  import opened Wrappers
  import opened LengthPrefix

  type Sextet = n: nat | n < 64

  function Symbol(v: Sextet): char
  {
    if v < 26 then ('A' as int + v) as char
    else if v < 52 then ('a' as int + (v - 26)) as char
    else if v < 62 then ('0' as int + (v - 52)) as char
    else if v == 62 then '+'
    else '/'
  }

  function Value(c: char): Option<Sextet>
  {
    if 'A' <= c <= 'Z' then Some(c as int - 'A' as int)
    else if 'a' <= c <= 'z' then Some(c as int - 'a' as int + 26)
    else if '0' <= c <= '9' then Some(c as int - '0' as int + 52)
    else if c == '+' then Some(62)
    else if c == '/' then Some(63)
    else None
  }

  lemma ValueOfSymbol(v: Sextet)
    ensures Value(Symbol(v)) == Some(v) && Symbol(v) != '='
  {
  }

  lemma SymbolOfValue(c: char)
    ensures Value(c).Some? ==> Symbol(Value(c).value) == c
  {
  }

  // ----- three bytes and four sextets

  function S0(a: Byte): Sextet { a / 4 }

  function S1(a: Byte, b: Byte): Sextet { a % 4 * 16 + b / 16 }

  function S2(b: Byte, c: Byte): Sextet { b % 16 * 4 + c / 64 }

  function S3(c: Byte): Sextet { c % 64 }

  function B0(w: Sextet, x: Sextet): Byte { w as int * 4 + x / 16 }

  function B1(x: Sextet, y: Sextet): Byte { x as int % 16 * 16 + y / 4 }

  function B2(y: Sextet, z: Sextet): Byte { y as int % 4 * 64 + z }

  lemma BytesBack(a: Byte, b: Byte, c: Byte)
    ensures B0(S0(a), S1(a, b)) == a && B1(S1(a, b), S2(b, c)) == b && B2(S2(b, c), S3(c)) == c
  {
  }

  lemma OneByteBack(a: Byte)
    ensures B0(S0(a), S1(a, 0)) == a && B1(S1(a, 0), 0) == 0
  {
  }

  lemma SextetBack0(w: Sextet, x: Sextet, y: Sextet)
    ensures S0(B0(w, x)) == w
    ensures S1(B0(w, x), B1(x, y)) == x
  {
    assert B0(w, x) / 4 == w && B0(w, x) % 4 == x / 16;
    assert B1(x, y) / 16 == x % 16;
  }

  lemma SextetBack2(x: Sextet, y: Sextet, z: Sextet)
    ensures S2(B1(x, y), B2(y, z)) == y
    ensures S3(B2(y, z)) == z
  {
    assert B1(x, y) % 16 == y / 4;
    assert B2(y, z) / 64 == y % 4 && B2(y, z) % 64 == z;
  }

  // ----- the encoding

  /** A final group fills the missing bits with zero and the missing symbols with padding. */
  function Encode(b: Bytes): string
  {
    if b == [] then ""
    else if |b| == 1 then [Symbol(S0(b[0])), Symbol(S1(b[0], 0)), '=', '=']
    else if |b| == 2 then [Symbol(S0(b[0])), Symbol(S1(b[0], b[1])), Symbol(S2(b[1], 0)), '=']
    else
      [Symbol(S0(b[0])), Symbol(S1(b[0], b[1])), Symbol(S2(b[1], b[2])), Symbol(S3(b[2]))] + Encode(b[3..])
  }

  /** A final group of one byte: the four unused bits must be zero. */
  function One(x: char, y: char): Option<Bytes>
  {
    if Value(x).None? || Value(y).None? || B1(Value(y).value, 0) != 0 then None
    else Some([B0(Value(x).value, Value(y).value)])
  }

  /** A final group of two bytes: the two unused bits must be zero. */
  function Two(x: char, y: char, z: char): Option<Bytes>
  {
    if Value(x).None? || Value(y).None? || Value(z).None? || B2(Value(z).value, 0) != 0 then None
    else Some([B0(Value(x).value, Value(y).value), B1(Value(y).value, Value(z).value)])
  }

  function Three(x: char, y: char, z: char, u: char): Option<Bytes>
  {
    if Value(x).None? || Value(y).None? || Value(z).None? || Value(u).None? then None
    else
      Some([B0(Value(x).value, Value(y).value), B1(Value(y).value, Value(z).value), B2(Value(z).value, Value(u).value)])
  }

  /** Padding is required, only at the end, and unused bits must be zero. */
  function Decode(s: string): Option<Bytes>
  {
    if s == [] then Some([])
    else if |s| < 4 then None
    else if |s| == 4 && s[3] == '=' then
      if s[2] == '=' then One(s[0], s[1]) else Two(s[0], s[1], s[2])
    else
      match Three(s[0], s[1], s[2], s[3])
      case None => None
      case Some(group) =>
        match Decode(s[4..])
        case None => None
        case Some(rest) => Some(group + rest)
  }

  lemma ThreeBack(a: Byte, b: Byte, c: Byte)
    ensures Three(Symbol(S0(a)), Symbol(S1(a, b)), Symbol(S2(b, c)), Symbol(S3(c))) == Some([a, b, c])
  {
    ValueOfSymbol(S0(a));
    ValueOfSymbol(S1(a, b));
    ValueOfSymbol(S2(b, c));
    ValueOfSymbol(S3(c));
    BytesBack(a, b, c);
  }

  lemma TwoBack(a: Byte, b: Byte)
    ensures Two(Symbol(S0(a)), Symbol(S1(a, b)), Symbol(S2(b, 0))) == Some([a, b])
  {
    ValueOfSymbol(S0(a));
    ValueOfSymbol(S1(a, b));
    ValueOfSymbol(S2(b, 0));
    BytesBack(a, b, 0);
    assert S3(0) == 0;
  }

  lemma OneBack(a: Byte)
    ensures One(Symbol(S0(a)), Symbol(S1(a, 0))) == Some([a])
  {
    ValueOfSymbol(S0(a));
    ValueOfSymbol(S1(a, 0));
    OneByteBack(a);
  }

  lemma DecodeGroup(a: Byte, b: Byte, c: Byte, rest: string)
    ensures var s := Group(a, b, c) + rest;
            Decode(rest).Some? ==> Decode(s) == Some([a, b, c] + Decode(rest).value)
  {
    var s := Group(a, b, c) + rest;
    ValueOfSymbol(S3(c));
    ThreeBack(a, b, c);
    assert s[4..] == rest;
  }

  lemma DecodePair(a: Byte, b: Byte)
    ensures Decode([Symbol(S0(a)), Symbol(S1(a, b)), Symbol(S2(b, 0)), '=']) == Some([a, b])
  {
    ValueOfSymbol(S2(b, 0));
    TwoBack(a, b);
  }

  lemma DecodeSingle(a: Byte)
    ensures Decode([Symbol(S0(a)), Symbol(S1(a, 0)), '=', '=']) == Some([a])
  {
    OneBack(a);
  }

  lemma DecodeShort(b: Bytes)
    requires |b| <= 2
    ensures Decode(Encode(b)) == Some(b)
  {
    if |b| == 1 {
      DecodeSingle(b[0]);
      assert Encode(b) == [Symbol(S0(b[0])), Symbol(S1(b[0], 0)), '=', '='];
      assert b == [b[0]];
    } else if |b| == 2 {
      DecodePair(b[0], b[1]);
      assert Encode(b) == [Symbol(S0(b[0])), Symbol(S1(b[0], b[1])), Symbol(S2(b[1], 0)), '='];
      assert b == [b[0], b[1]];
    }
  }

  lemma DecodeLong(b: Bytes)
    requires |b| > 2 && Decode(Encode(b[3..])) == Some(b[3..])
    ensures Decode(Encode(b)) == Some(b)
  {
    EncodeGroup(b);
    DecodeGroup(b[0], b[1], b[2], Encode(b[3..]));
    Regroup(b);
  }

  /** The four symbols of three bytes. */
  function Group(a: Byte, b: Byte, c: Byte): string
  {
    [Symbol(S0(a)), Symbol(S1(a, b)), Symbol(S2(b, c)), Symbol(S3(c))]
  }

  lemma EncodeGroup(b: Bytes)
    requires |b| > 2
    ensures Encode(b) == Group(b[0], b[1], b[2]) + Encode(b[3..])
  {
  }

  lemma Regroup(b: Bytes)
    requires |b| > 2
    ensures [b[0], b[1], b[2]] + b[3..] == b
  {
  }

  lemma {:induction false} DecodeEncode(b: Bytes)
    ensures Decode(Encode(b)) == Some(b)
    decreases |b|
  {
    if |b| <= 2 {
      DecodeShort(b);
    } else {
      DecodeEncode(b[3..]);
      DecodeLong(b);
    }
  }

  lemma OneInverse(x: char, y: char)
    requires One(x, y).Some?
    ensures Encode(One(x, y).value) == [x, y, '=', '=']
  {
    SymbolOfValue(x);
    SymbolOfValue(y);
    SextetBack0(Value(x).value, Value(y).value, 0);
  }

  lemma TwoInverse(x: char, y: char, z: char)
    requires Two(x, y, z).Some?
    ensures Encode(Two(x, y, z).value) == [x, y, z, '=']
  {
    SymbolOfValue(x);
    SymbolOfValue(y);
    SymbolOfValue(z);
    SextetBack0(Value(x).value, Value(y).value, Value(z).value);
    SextetBack2(Value(y).value, Value(z).value, 0);
  }

  lemma ThreeInverse(x: char, y: char, z: char, u: char, rest: Bytes)
    requires Three(x, y, z, u).Some?
    ensures Encode(Three(x, y, z, u).value + rest) == [x, y, z, u] + Encode(rest)
  {
    SymbolOfValue(x);
    SymbolOfValue(y);
    SymbolOfValue(z);
    SymbolOfValue(u);
    SextetBack0(Value(x).value, Value(y).value, Value(z).value);
    SextetBack2(Value(y).value, Value(z).value, Value(u).value);
    assert (Three(x, y, z, u).value + rest)[3..] == rest;
  }

  /** Strictness: a string decodes only when it is the encoding of what it decodes to. */
  lemma {:induction false} EncodeDecode(s: string)
    ensures Decode(s).Some? ==> Encode(Decode(s).value) == s
    decreases |s|
  {
    if |s| >= 4 && Decode(s).Some? {
      if |s| == 4 && s[3] == '=' {
        if s[2] == '=' { OneInverse(s[0], s[1]); } else { TwoInverse(s[0], s[1], s[2]); }
      } else {
        EncodeDecode(s[4..]);
        ThreeInverse(s[0], s[1], s[2], s[3], Decode(s[4..]).value);
        assert s == [s[0], s[1], s[2], s[3]] + s[4..];
      }
    }
  }

  lemma ThreeMore(n: nat)
    ensures (n + 3 + 2) / 3 * 4 == 4 + (n + 2) / 3 * 4
  {
  }

  lemma {:induction false} EncodedLength(b: Bytes)
    ensures |Encode(b)| == (|b| + 2) / 3 * 4
    decreases |b|
  {
    if |b| > 2 {
      EncodedLength(b[3..]);
      ThreeMore(|b| - 3);
    }
  }

  /** The symbols of table 1 of RFC 4648: A to Z, a to z, 0 to 9, plus and slash, in that order. */
  lemma AlphabetIsStandard(v: Sextet)
    ensures Symbol(0) == 'A' && Symbol(25) == 'Z' && Symbol(26) == 'a' && Symbol(51) == 'z'
    ensures Symbol(52) == '0' && Symbol(61) == '9' && Symbol(62) == '+' && Symbol(63) == '/'
    ensures v < 61 && v != 25 && v != 51 ==> Symbol(v + 1) as int == Symbol(v) as int + 1
  {
  }

  /** Three bytes and their four sextets write the same 24-bit number, most significant first. */
  lemma GroupsAreBigEndian(a: Byte, b: Byte, c: Byte)
    ensures a as int * 0x1_0000 + b as int * 0x100 + c
         == S0(a) as int * 0x4_0000 + S1(a, b) as int * 0x1000 + S2(b, c) as int * 0x40 + S3(c)
  {
  }

  /** Test vectors of section 10 of RFC 4648: "f", "fo", "foo" and "foob". */
  lemma TestVectors()
    ensures Encode([102]) == "Zg=="
    ensures Encode([102, 111]) == "Zm8="
    ensures Encode([102, 111, 111]) == "Zm9v"
    ensures Encode([102, 111, 111, 98]) == "Zm9vYg=="
  {
    var foo: Bytes := [102, 111, 111];
    var foob: Bytes := [102, 111, 111, 98];
    assert foo[3..] == [] && foob[3..] == [98];
    assert Encode(foo) == "Zm9v" + Encode([]);
    assert Encode([98]) == "Yg==";
    assert Encode(foob) == "Zm9v" + Encode([98]);
  }
}
