/** Base 64 with padding: section 4 of RFC 4648. */
module Base64 {
  import opened Common
  import opened Texts

  type Sextet = v: int | 0 <= v < 64

  function Symbol(v: Sextet): Char {
    if v < 26 then ('A' as int + v) as char
    else if v < 52 then ('a' as int + v - 26) as char
    else if v < 62 then ('0' as int + v - 52) as char
    else if v == 62 then '+'
    else '/'
  }

  function Value(c: Char): Sextet {
    if 'A' <= c <= 'Z' then c as int - 'A' as int
    else if 'a' <= c <= 'z' then c as int - 'a' as int + 26
    else if '0' <= c <= '9' then c as int - '0' as int + 52
    else if c == '+' then 62
    else 63
  }

  lemma {:induction false} SymbolRoundTrip(v: Sextet)
    ensures Value(Symbol(v)) == v
    ensures Symbol(v) != '='
  {
  }

  const CAPITALS := "ABCDEFGHIJKLMNOPQRSTUVWXYZ"
  const LETTERS := "abcdefghijklmnopqrstuvwxyz"
  const DIGITS := "0123456789"

  /** The alphabet: table 1 of RFC 4648. */
  lemma {:induction false} Alphabet(v: Sextet)
    ensures Symbol(v) == (CAPITALS + LETTERS + DIGITS + "+/")[v]
    ensures Value((CAPITALS + LETTERS + DIGITS + "+/")[v]) == v
  {
    assert forall i :: 0 <= i < 26 ==> CAPITALS[i] as int == 65 + i;
    assert forall i :: 0 <= i < 26 ==> LETTERS[i] as int == 97 + i;
    assert forall i :: 0 <= i < 10 ==> DIGITS[i] as int == 48 + i;
  }

  function Encode(b: seq<byte>): Text {
    if |b| == 0 then []
    else if |b| == 1 then [Symbol(b[0] / 4), Symbol(b[0] % 4 * 16), '=', '=']
    else if |b| == 2 then [Symbol(b[0] / 4), Symbol(b[0] % 4 * 16 + b[1] / 16), Symbol(b[1] % 16 * 4), '=']
    else
      [Symbol(b[0] / 4), Symbol(b[0] % 4 * 16 + b[1] / 16), Symbol(b[1] % 16 * 4 + b[2] / 64), Symbol(b[2] % 64)]
      + Encode(b[3..])
  }

  function Decode(t: Text): seq<byte> {
    if |t| < 4 then []
    else
      var b0 := Value(t[0]) * 4 + Value(t[1]) / 16;
      var b1 := Value(t[1]) % 16 * 16 + Value(t[2]) / 4;
      var b2 := Value(t[2]) % 4 * 64 + Value(t[3]);
      if t[2] == '=' then [b0]
      else if t[3] == '=' then [b0, b1]
      else [b0, b1, b2] + Decode(t[4..])
  }

  /** Three bytes, spread over four symbols and put together again. */
  lemma {:induction false} GroupRoundTrip(x: byte, y: byte, z: byte)
    ensures Value(Symbol(x / 4)) * 4 + Value(Symbol(x % 4 * 16 + y / 16)) / 16 == x
    ensures Value(Symbol(x % 4 * 16 + y / 16)) % 16 * 16 + Value(Symbol(y % 16 * 4 + z / 64)) / 4 == y
    ensures Value(Symbol(y % 16 * 4 + z / 64)) % 4 * 64 + Value(Symbol(z % 64)) == z
    ensures Symbol(y % 16 * 4 + z / 64) != '=' && Symbol(z % 64) != '='
  {
    hide Value, Symbol;
    SymbolRoundTrip(x / 4);
    SymbolRoundTrip(x % 4 * 16 + y / 16);
    SymbolRoundTrip(y % 16 * 4 + z / 64);
    SymbolRoundTrip(z % 64);
  }

  lemma {:induction false} DecodeEncode(b: seq<byte>)
    ensures Decode(Encode(b)) == b
  {
    hide Value, Symbol;
    if |b| == 1 {
      GroupRoundTrip(b[0], 0, 0);
    } else if |b| == 2 {
      GroupRoundTrip(b[0], b[1], 0);
    } else if |b| > 2 {
      GroupRoundTrip(b[0], b[1], b[2]);
      assert Encode(b)[4..] == Encode(b[3..]);
      DecodeEncode(b[3..]);
      assert b == [b[0], b[1], b[2]] + b[3..];
    }
  }

  /** Test vectors of section 10 of RFC 4648. */
  lemma {:induction false} TestVectors()
    ensures Encode([]) == "" && Encode(Bytes("f")) == "Zg==" && Encode(Bytes("fo")) == "Zm8="
    ensures Encode(Bytes("foobar")) == "Zm9vYmFy"
  {
    assert Bytes("f") == [102];
    assert Bytes("fo") == [102, 111];
    assert Bytes("foobar") == [102, 111, 111] + [98, 97, 114];
    hide Bytes;
    TestGroups();
    hide Encode;
    assert [98, 97, 114] + [] == [98, 97, 114];
  }

  lemma {:induction false} TestGroups()
    ensures Encode([]) == "" && Encode([102]) == "Zg==" && Encode([102, 111]) == "Zm8="
    ensures forall rest :: Encode([102, 111, 111] + rest) == "Zm9v" + Encode(rest)
    ensures forall rest :: Encode([98, 97, 114] + rest) == "YmFy" + Encode(rest)
  {
    ShortGroups();
    hide Encode;
    forall rest: seq<byte>
      ensures Encode([102, 111, 111] + rest) == "Zm9v" + Encode(rest) && Encode([98, 97, 114] + rest) == "YmFy" + Encode(rest)
    {
      FullGroup(102, 111, 111, rest);
      FullGroup(98, 97, 114, rest);
    }
  }

  lemma {:induction false} ShortGroups()
    ensures Encode([]) == "" && Encode([102]) == "Zg==" && Encode([102, 111]) == "Zm8="
  {
  }

  /** Three bytes give four symbols. */
  lemma {:induction false} FullGroup(x: byte, y: byte, z: byte, rest: seq<byte>)
    ensures Encode([x, y, z] + rest)
         == [Symbol(x / 4), Symbol(x % 4 * 16 + y / 16), Symbol(y % 16 * 4 + z / 64), Symbol(z % 64)] + Encode(rest)
  {
    hide Symbol;
    assert ([x, y, z] + rest)[3..] == rest;
  }

  /** Letters, digits, '+', '/' and '=' only. */
  predicate IsSymbol(c: Char) {
    'A' <= c <= 'Z' || 'a' <= c <= 'z' || '0' <= c <= '9' || c == '+' || c == '/' || c == '='
  }

  lemma {:induction false} EncodeUsesSymbols(b: seq<byte>)
    ensures forall c <- Encode(b) :: IsSymbol(c)
  {
    if |b| > 2 {
      EncodeUsesSymbols(b[3..]);
    }
  }

  function Bytes(s: Text): seq<byte> {
    seq(|s|, i requires 0 <= i < |s| => s[i] as int)
  }

  lemma {:induction false} BytesInjective(s: Text, t: Text)
    requires Bytes(s) == Bytes(t)
    ensures s == t
  {
    assert |s| == |Bytes(s)| == |t|;
    forall i | 0 <= i < |s| ensures s[i] == t[i] {
      assert s[i] as int == Bytes(s)[i] == Bytes(t)[i] == t[i] as int;
    }
  }
}
