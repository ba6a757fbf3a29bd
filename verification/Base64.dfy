/**
  `base64.RawStdEncoding`: the standard alphabet without padding (section 4 of RFC 4648). The decoder
  skips line breaks anywhere and ignores the unused low bits of a last, incomplete group.
 */
module Base64 {
  import opened Base


  type Sextet = v: int | 0 <= v < 64

  function Symbol(v: Sextet): char {
    if v < 26 then 'A' + v as char
    else if v < 52 then 'a' + (v - 26) as char
    else if v < 62 then '0' + (v - 52) as char
    else if v == 62 then '+'
    else '/'
  }

  function SymbolValue(c: char): Option<Sextet> {
    if 'A' <= c <= 'Z' then Some(c as int - 'A' as int)
    else if 'a' <= c <= 'z' then Some(c as int - 'a' as int + 26)
    else if '0' <= c <= '9' then Some(c as int - '0' as int + 52)
    else if c == '+' then Some(62)
    else if c == '/' then Some(63)
    else None
  }

  predicate IsSymbol(c: char) {
    SymbolValue(c).Some?
  }

  function Encode(b: seq<Byte>): (s: string)
    ensures forall i :: 0 <= i < |s| ==> IsSymbol(s[i])
  {
    if |b| == 0 then ""
    else if |b| == 1 then [Symbol(b[0] / 4), Symbol(b[0] % 4 * 16)]
    else if |b| == 2 then [Symbol(b[0] / 4), Symbol(b[0] % 4 * 16 + b[1] / 16), Symbol(b[1] % 16 * 4)]
    else
      [Symbol(b[0] / 4), Symbol(b[0] % 4 * 16 + b[1] / 16), Symbol(b[1] % 16 * 4 + b[2] / 64), Symbol(b[2] % 64)]
      + Encode(b[3..])
  }

  function WithoutLineBreaks(s: string): string {
    if s == "" then ""
    else if s[0] == '\r' || s[0] == '\n' then WithoutLineBreaks(s[1..])
    else [s[0]] + WithoutLineBreaks(s[1..])
  }

  function DecodeGroups(s: string): Option<seq<Byte>> {
    if s == "" then Some([])
    else if |s| == 1 || !IsSymbol(s[0]) || !IsSymbol(s[1]) then None
    else
      var v0, v1 := SymbolValue(s[0]).value, SymbolValue(s[1]).value;
      if |s| == 2 then Some([v0 * 4 + v1 / 16])
      else if !IsSymbol(s[2]) then None
      else
        var v2 := SymbolValue(s[2]).value;
        if |s| == 3 then Some([v0 * 4 + v1 / 16, v1 % 16 * 16 + v2 / 4])
        else if !IsSymbol(s[3]) then None
        else
          var v3 := SymbolValue(s[3]).value;
          match DecodeGroups(s[4..])
          case None => None
          case Some(rest) => Some([v0 * 4 + v1 / 16, v1 % 16 * 16 + v2 / 4, v2 % 4 * 64 + v3] + rest)
  }

  function Decode(s: string): Option<seq<Byte>> {
    DecodeGroups(WithoutLineBreaks(s))
  }

  lemma SymbolRoundTrip(v: Sextet)
    ensures SymbolValue(Symbol(v)) == Some(v)
  {
  }

  lemma {:induction false} SymbolsStay(s: string)
    requires forall i :: 0 <= i < |s| ==> IsSymbol(s[i])
    ensures WithoutLineBreaks(s) == s
  {
    if s != "" {
      SymbolsStay(s[1..]);
      assert [s[0]] + s[1..] == s;
    }
  }

  lemma BytesOfSextets(b0: Byte, b1: Byte, b2: Byte)
    ensures b0 / 4 * 4 + (b0 % 4 * 16 + b1 / 16) / 16 == b0
    ensures (b0 % 4 * 16 + b1 / 16) % 16 * 16 + (b1 % 16 * 4 + b2 / 64) / 4 == b1
    ensures (b1 % 16 * 4 + b2 / 64) % 4 * 64 + b2 % 64 == b2
  {
  }

  lemma FullGroup(v0: Sextet, v1: Sextet, v2: Sextet, v3: Sextet, rest: string)
    ensures
      DecodeGroups([Symbol(v0), Symbol(v1), Symbol(v2), Symbol(v3)] + rest)
      == match DecodeGroups(rest)
         case None => None
         case Some(bytes) => Some([v0 * 4 + v1 / 16, v1 % 16 * 16 + v2 / 4, v2 % 4 * 64 + v3] + bytes)
  {
    SymbolRoundTrip(v0);
    SymbolRoundTrip(v1);
    SymbolRoundTrip(v2);
    SymbolRoundTrip(v3);
    hide Symbol, SymbolValue;
    var s := [Symbol(v0), Symbol(v1), Symbol(v2), Symbol(v3)] + rest;
    assert s[4..] == rest;
  }

  lemma LastGroup(v0: Sextet, v1: Sextet, v2: Sextet)
    ensures DecodeGroups([Symbol(v0), Symbol(v1)]) == Some([v0 * 4 + v1 / 16])
    ensures DecodeGroups([Symbol(v0), Symbol(v1), Symbol(v2)]) == Some([v0 * 4 + v1 / 16, v1 % 16 * 16 + v2 / 4])
  {
    SymbolRoundTrip(v0);
    SymbolRoundTrip(v1);
    SymbolRoundTrip(v2);
    hide Symbol, SymbolValue;
  }

  lemma {:induction false} GroupsRoundTrip(b: seq<Byte>)
    ensures DecodeGroups(Encode(b)) == Some(b)
  {
    hide DecodeGroups, Symbol;
    if |b| == 0 {
      NothingToDecode();
    } else if |b| == 1 {
      LastGroup(b[0] / 4, b[0] % 4 * 16, 0);
      assert b[0] % 4 * 16 / 16 == b[0] % 4;
      assert b == [b[0] / 4 * 4 + b[0] % 4];
    } else if |b| == 2 {
      LastGroup(b[0] / 4, b[0] % 4 * 16 + b[1] / 16, b[1] % 16 * 4);
      BytesOfSextets(b[0], b[1], 0);
      assert b == [b[0], b[1]];
    } else {
      GroupsRoundTrip(b[3..]);
      FullGroup(b[0] / 4, b[0] % 4 * 16 + b[1] / 16, b[1] % 16 * 4 + b[2] / 64, b[2] % 64, Encode(b[3..]));
      BytesOfSextets(b[0], b[1], b[2]);
      assert b == [b[0], b[1], b[2]] + b[3..];
    }
  }

  lemma NothingToDecode()
    ensures DecodeGroups("") == Some([])
  {
  }

  /** Decoding undoes encoding, for all bytes. */
  lemma RoundTrip(b: seq<Byte>)
    ensures Decode(Encode(b)) == Some(b)
  {
    SymbolsStay(Encode(b));
    GroupsRoundTrip(b);
  }

  // ----- What the texts are -----

  /** The alphabet of table 1 in section 4 of RFC 4648: A to Z, a to z, 0 to 9, plus and slash. */
  lemma SymbolsInOrder()
    ensures Symbol(0) == 'A' && Symbol(25) == 'Z' && Symbol(26) == 'a' && Symbol(51) == 'z'
    ensures Symbol(52) == '0' && Symbol(61) == '9' && Symbol(62) == '+' && Symbol(63) == '/'
    ensures forall v: Sextet :: v < 61 && v != 25 && v != 51 ==> Symbol(v + 1) as int == Symbol(v) as int + 1
  {
  }

  /** Symbols for one to three bytes: the same number, with zero bits added to a last byte or two. */
  ghost predicate GroupSpells(s: string, g: seq<Byte>)
    requires 1 <= |g| <= 3
  {
    if |g| == 1 then
      exists v0: Sextet, v1: Sextet :: s == [Symbol(v0), Symbol(v1)] && v0 as int * 64 + v1 as int == g[0] as int * 16
    else if |g| == 2 then
      exists v0: Sextet, v1: Sextet, v2: Sextet ::
        && s == [Symbol(v0), Symbol(v1), Symbol(v2)]
        && v0 as int * 4096 + v1 as int * 64 + v2 as int == (g[0] as int * 256 + g[1] as int) * 4
    else
      exists v0: Sextet, v1: Sextet, v2: Sextet, v3: Sextet ::
        && s == [Symbol(v0), Symbol(v1), Symbol(v2), Symbol(v3)]
        && v0 as int * 262144 + v1 as int * 4096 + v2 as int * 64 + v3 as int
           == g[0] as int * 65536 + g[1] as int * 256 + g[2] as int
  }

  lemma GroupEncoded(g: seq<Byte>)
    requires 1 <= |g| <= 3
    ensures GroupSpells(Encode(g), g) && |Encode(g)| == |g| + 1
  {
    hide Symbol;
    if |g| == 1 {
      var v0: Sextet, v1: Sextet := g[0] / 4, g[0] % 4 * 16;
      SextetsOfBytes(g[0], 0, 0);
      assert Encode(g) == [Symbol(v0), Symbol(v1)];
    } else if |g| == 2 {
      var v0: Sextet, v1: Sextet, v2: Sextet := g[0] / 4, g[0] % 4 * 16 + g[1] / 16, g[1] % 16 * 4;
      SextetsOfBytes(g[0], g[1], 0);
      assert Encode(g) == [Symbol(v0), Symbol(v1), Symbol(v2)];
    } else {
      ThreeEncoded(g);
    }
  }

  lemma ThreeEncoded(g: seq<Byte>)
    requires |g| == 3
    ensures GroupSpells(Encode(g), g) && |Encode(g)| == 4
  {
    hide Symbol, Encode;
    var v0: Sextet, v1: Sextet := g[0] / 4, g[0] % 4 * 16 + g[1] / 16;
    var v2: Sextet, v3: Sextet := g[1] % 16 * 4 + g[2] / 64, g[2] % 64;
    SextetsOfBytes(g[0], g[1], g[2]);
    EncodesThree(g);
    assert Encode(g) == [Symbol(v0), Symbol(v1), Symbol(v2), Symbol(v3)];
  }

  lemma EncodesThree(g: seq<Byte>)
    requires |g| == 3
    ensures
      Encode(g)
      == [Symbol(g[0] / 4), Symbol(g[0] % 4 * 16 + g[1] / 16), Symbol(g[1] % 16 * 4 + g[2] / 64), Symbol(g[2] % 64)]
  {
    hide Symbol;
    assert g[3..] == [];
  }

  lemma SextetsOfBytes(b0: Byte, b1: Byte, b2: Byte)
    ensures b0 as int / 4 * 64 + b0 as int % 4 * 16 == b0 as int * 16
    ensures b0 as int / 4 * 4096 + (b0 as int % 4 * 16 + b1 as int / 16) * 64 + b1 as int % 16 * 4
            == (b0 as int * 256 + b1 as int) * 4
    ensures b0 as int / 4 * 262144 + (b0 as int % 4 * 16 + b1 as int / 16) * 4096
            + (b1 as int % 16 * 4 + b2 as int / 64) * 64 + b2 as int % 64
            == b0 as int * 65536 + b1 as int * 256 + b2 as int
  {
  }

  lemma EncodeSplits(b: seq<Byte>)
    requires |b| > 3
    ensures Encode(b) == Encode(b[..3]) + Encode(b[3..]) && |Encode(b[..3])| == 4
  {
    var g := b[..3];
    assert g[3..] == [];
    assert Encode(g[3..]) == "";
  }

  /** Each group of three bytes, and what is left of one, is spelled by its own symbols. */
  lemma {:induction false} EncodesNumbers(b: seq<Byte>, k: nat)
    requires 3 * k < |b|
    ensures |Encode(b)| == (|b| * 4 + 2) / 3
    ensures
      if 3 * k + 3 <= |b| then GroupSpells(Encode(b)[4 * k..4 * k + 4], b[3 * k..3 * k + 3])
      else GroupSpells(Encode(b)[4 * k..], b[3 * k..])
  {
    hide GroupSpells, Encode;
    if |b| <= 3 {
      GroupEncoded(b);
      assert Encode(b)[0..] == Encode(b) && b[0..] == b;
      assert |b| == 3 ==> Encode(b)[0..4] == Encode(b) && b[0..3] == b;
    } else {
      EncodeSplits(b);
      var s, rest := Encode(b), Encode(b[3..]);
      if k == 0 {
        GroupEncoded(b[..3]);
        EncodesNumbers(b[3..], 0);
        assert s[0..4] == Encode(b[..3]) && b[0..3] == b[..3];
      } else {
        EncodesNumbers(b[3..], k - 1);
        assert s[4 * k..] == rest[4 * (k - 1)..] && b[3 * k..] == b[3..][3 * (k - 1)..];
        if 3 * k + 3 <= |b| {
          assert s[4 * k..4 * k + 4] == rest[4 * (k - 1)..4 * (k - 1) + 4];
          assert b[3 * k..3 * k + 3] == b[3..][3 * (k - 1)..3 * (k - 1) + 3];
        }
      }
    }
  }

  /** Apart from line breaks exactly the texts over the alphabet are decoded whose length leaves no single symbol. */
  lemma {:induction false} DecodesAlphabet(s: string)
    ensures DecodeGroups(s).Some? <==> |s| % 4 != 1 && forall c :: c in s ==> IsSymbol(c)
  {
    hide SymbolValue;
    if |s| >= 4 {
      DecodesAlphabet(s[4..]);
      assert s == [s[0], s[1], s[2], s[3]] + s[4..];
    } else if |s| == 3 {
      assert s == [s[0], s[1], s[2]];
    } else if |s| == 2 {
      assert s == [s[0], s[1]];
    }
  }

  lemma {:induction false} LineBreaksDropped(s: string)
    ensures forall c :: c in WithoutLineBreaks(s) <==> c in s && c != '\r' && c != '\n'
  {
    if s != "" {
      LineBreaksDropped(s[1..]);
      assert s == [s[0]] + s[1..];
    }
  }
}
