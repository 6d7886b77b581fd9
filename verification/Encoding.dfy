/**
 Bytes and their two text forms: lower-case hex (RFC 4648 section 8) and base64url without padding
 (sections 5 and 3.2), the latter strict about stray trailing bits.
 */
module Encoding {
  import opened OrderedMap

  type Byte = x: int | 0 <= x < 256
  type Bytes = seq<Byte>

  // ---- Hex --------------------------------------------------------------------------------------

  type Nibble = x: int | 0 <= x < 16

  function HexDigit(n: Nibble): char {
    if n < 10 then ('0' as int + n) as char else ('a' as int + n - 10) as char
  }

  function HexValue(c: char): Option<Nibble> {
    if '0' <= c <= '9' then Some(c as int - '0' as int)
    else if 'a' <= c <= 'f' then Some(c as int - 'a' as int + 10)
    else None
  }

  function ToHex(b: Bytes): string {
    if b == [] then "" else [HexDigit(b[0] / 16), HexDigit(b[0] % 16)] + ToHex(b[1..])
  }

  function FromHex(s: string): Option<Bytes> {
    if s == "" then Some([])
    else if |s| < 2 then None
    else
      match (HexValue(s[0]), HexValue(s[1]), FromHex(s[2..]))
      case (Some(hi), Some(lo), Some(rest)) =>
        var b: Byte := 16 * (hi as int) + lo;
        Some([b] + rest)
      case _ => None
  }

  /** The digits are those of RFC 4648 section 8, in their order: there are only sixteen to choose from. */
  lemma HexDigitsInOrder(m: Nibble, n: Nibble)
    ensures '0' <= HexDigit(n) <= '9' || 'a' <= HexDigit(n) <= 'f'
    ensures m < n ==> HexDigit(m) < HexDigit(n)
  {
  }

  /** Two digits a byte, the higher half first. */
  lemma {:induction false} HexOfEachByte(b: Bytes, i: nat)
    requires i < |b|
    ensures |ToHex(b)| == 2 * |b|
    ensures ToHex(b)[2 * i] == HexDigit(b[i] / 16) && ToHex(b)[2 * i + 1] == HexDigit(b[i] % 16)
  {
    if |b| > 1 {
      HexOfEachByte(b[1..], if i > 0 then i - 1 else 0);
      assert ToHex(b)[2..] == ToHex(b[1..]);
      if i > 0 {
        assert ToHex(b)[2 * i] == ToHex(b[1..])[2 * (i - 1)];
        assert ToHex(b)[2 * i + 1] == ToHex(b[1..])[2 * (i - 1) + 1];
      }
    }
  }

  lemma HexPair(x: Byte, s: string, rest: Bytes)
    requires FromHex(s) == Some(rest)
    ensures FromHex([HexDigit(x / 16), HexDigit(x % 16)] + s) == Some([x] + rest)
  {
    assert ([HexDigit(x / 16), HexDigit(x % 16)] + s)[2..] == s;
  }

  lemma {:induction false} HexRoundTrip(b: Bytes)
    ensures FromHex(ToHex(b)) == Some(b)
  {
    if b != [] {
      HexRoundTrip(b[1..]);
      HexPair(b[0], ToHex(b[1..]), b[1..]);
      assert b == [b[0]] + b[1..];
    }
  }

  lemma HexIsInjective(a: Bytes, b: Bytes)
    ensures ToHex(a) == ToHex(b) <==> a == b
  {
    HexRoundTrip(a);
    HexRoundTrip(b);
  }

  // ---- Base64url, no padding --------------------------------------------------------------------

  type Sextet = x: int | 0 <= x < 64

  function Symbol(n: Sextet): char {
    if n < 26 then ('A' as int + n) as char
    else if n < 52 then ('a' as int + n - 26) as char
    else if n < 62 then ('0' as int + n - 52) as char
    else if n == 62 then '-' else '_'
  }

  function SymbolValue(c: char): Option<Sextet> {
    if 'A' <= c <= 'Z' then Some(c as int - 'A' as int)
    else if 'a' <= c <= 'z' then Some(c as int - 'a' as int + 26)
    else if '0' <= c <= '9' then Some(c as int - '0' as int + 52)
    else if c == '-' then Some(62)
    else if c == '_' then Some(63)
    else None
  }

  lemma SymbolRoundTrip(n: Sextet, c: char)
    ensures SymbolValue(Symbol(n)) == Some(n)
    ensures SymbolValue(c).Some? ==> Symbol(SymbolValue(c).value) == c
  {
  }

  /** The symbols are those of RFC 4648 section 5, in their order: each range is as long as its sextets. */
  lemma SymbolsInOrder(m: Sextet, n: Sextet)
    ensures 'A' <= Symbol(n) <= 'Z' <==> n < 26
    ensures 'a' <= Symbol(n) <= 'z' <==> 26 <= n < 52
    ensures '0' <= Symbol(n) <= '9' <==> 52 <= n < 62
    ensures Symbol(62) == '-' && Symbol(63) == '_'
    ensures m < n < 26 || 26 <= m < n < 52 || 52 <= m < n < 62 ==> Symbol(m) < Symbol(n)
  {
  }

  /** Three bytes to four sextets, spare bits zero. */
  function Pack(b: Bytes): seq<Sextet> {
    if b == [] then []
    else if |b| == 1 then [b[0] / 4, b[0] % 4 * 16]
    else if |b| == 2 then [b[0] / 4, b[0] % 4 * 16 + b[1] / 16, b[1] % 16 * 4]
    else [b[0] / 4, b[0] % 4 * 16 + b[1] / 16, b[1] % 16 * 4 + b[2] / 64, b[2] % 64] + Pack(b[3..])
  }

  function Spell(v: seq<Sextet>): string {
    if v == [] then "" else [Symbol(v[0])] + Spell(v[1..])
  }

  function ToBase64(b: Bytes): string {
    Spell(Pack(b))
  }

  /** The values of a run of symbols, if every one is in the alphabet. */
  function Values(s: string): Option<seq<Sextet>> {
    if s == "" then Some([])
    else
      match (SymbolValue(s[0]), Values(s[1..]))
      case (Some(v), Some(rest)) => Some([v] + rest)
      case _ => None
  }

  /** Four sextets to three bytes; a short last group must leave its spare bits zero. */
  function Unpack(v: seq<Sextet>): Option<Bytes> {
    if v == [] then Some([])
    else if |v| == 1 then None
    else if |v| == 2 then (if v[1] % 16 == 0 then Some([First(v[0], v[1])]) else None)
    else if |v| == 3 then (if v[2] % 4 == 0 then Some([First(v[0], v[1]), Second(v[1], v[2])]) else None)
    else
      match Unpack(v[4..])
      case Some(rest) => Some([First(v[0], v[1]), Second(v[1], v[2]), Third(v[2], v[3])] + rest)
      case None => None
  }

  function First(p: Sextet, q: Sextet): Byte {
    (p as int) * 4 + q / 16
  }

  function Second(q: Sextet, r: Sextet): Byte {
    (q as int) % 16 * 16 + r / 4
  }

  function Third(r: Sextet, t: Sextet): Byte {
    (r as int) % 4 * 64 + t
  }

  function FromBase64(s: string): Option<Bytes> {
    match Values(s)
    case Some(v) => Unpack(v)
    case None => None
  }

  lemma {:induction false} SpellRoundTrip(v: seq<Sextet>)
    ensures Values(Spell(v)) == Some(v)
  {
    if v != [] {
      SymbolRoundTrip(v[0], 'A');
      SpellRoundTrip(v[1..]);
      assert Spell(v)[1..] == Spell(v[1..]);
      assert v == [v[0]] + v[1..];
    }
  }

  lemma {:induction false} ValuesSpellBack(s: string)
    requires Values(s).Some?
    ensures Spell(Values(s).value) == s
  {
    if s != "" {
      SymbolRoundTrip(0, s[0]);
      ValuesSpellBack(s[1..]);
      var v := Values(s).value;
      assert v[1..] == Values(s[1..]).value;
    }
  }

  lemma Regroup(x: Byte, y: Byte, z: Byte)
    ensures First(x / 4, x % 4 * 16 + y / 16) == x
    ensures Second(x % 4 * 16 + y / 16, y % 16 * 4 + z / 64) == y
    ensures Third(y % 16 * 4 + z / 64, z % 64) == z
  {
    assert (x % 4 * 16 + y / 16) / 16 == x % 4 && (x % 4 * 16 + y / 16) % 16 == y / 16;
    assert (y % 16 * 4 + z / 64) / 4 == y % 16 && (y % 16 * 4 + z / 64) % 4 == z / 64;
  }

  lemma LastOne(x: Byte)
    ensures Unpack([x / 4, x % 4 * 16]) == Some([x])
  {
    Regroup(x, 0, 0);
  }

  lemma LastTwo(x: Byte, y: Byte)
    ensures Unpack([x / 4, x % 4 * 16 + y / 16, y % 16 * 4]) == Some([x, y])
  {
    Regroup(x, y, 0);
    var v: seq<Sextet> := [x / 4, x % 4 * 16 + y / 16, y % 16 * 4];
    assert |v| == 3 && v[2] % 4 == 0;
  }

  lemma UnpackFour(p: Sextet, q: Sextet, r: Sextet, t: Sextet, v: seq<Sextet>, rest: Bytes)
    requires Unpack(v) == Some(rest)
    ensures Unpack([p, q, r, t] + v) == Some([First(p, q), Second(q, r), Third(r, t)] + rest)
  {
    assert ([p, q, r, t] + v)[4..] == v;
  }

  lemma NextThree(x: Byte, y: Byte, z: Byte, v: seq<Sextet>, rest: Bytes)
    requires Unpack(v) == Some(rest)
    ensures Unpack([x / 4, x % 4 * 16 + y / 16, y % 16 * 4 + z / 64, z % 64] + v) == Some([x, y, z] + rest)
  {
    Regroup(x, y, z);
    UnpackFour(x / 4, x % 4 * 16 + y / 16, y % 16 * 4 + z / 64, z % 64, v, rest);
  }

  lemma {:induction false} PackRoundTrip(b: Bytes)
    ensures Unpack(Pack(b)) == Some(b)
  {
    if |b| == 1 {
      LastOne(b[0]);
      assert b == [b[0]];
    } else if |b| == 2 {
      LastTwo(b[0], b[1]);
      assert b == [b[0], b[1]];
    } else if |b| >= 3 {
      PackRoundTrip(b[3..]);
      NextThree(b[0], b[1], b[2], Pack(b[3..]), b[3..]);
      assert b == [b[0], b[1], b[2]] + b[3..];
    }
  }

  /** Cutting the assembled bytes gives the four sextets back. */
  lemma Parts(p: Sextet, q: Sextet, r: Sextet, t: Sextet)
    ensures First(p, q) / 4 == p
    ensures First(p, q) % 4 * 16 + Second(q, r) / 16 == q
    ensures Second(q, r) % 16 * 4 + Third(r, t) / 64 == r
    ensures Third(r, t) % 64 == t
    ensures q % 16 == 0 ==> First(p, q) % 4 * 16 == q
    ensures r % 4 == 0 ==> Second(q, r) % 16 * 4 == r
  {
    assert First(p, q) % 4 == q / 16;
    assert Second(q, r) / 16 == q % 16 && Second(q, r) % 16 == r / 4;
    assert Third(r, t) / 64 == r % 4;
  }

  lemma PackOne(x: Byte)
    ensures Pack([x]) == [x / 4, x % 4 * 16]
  {
  }

  lemma PackTwo(x: Byte, y: Byte)
    ensures Pack([x, y]) == [x / 4, x % 4 * 16 + y / 16, y % 16 * 4]
  {
  }

  lemma PackThree(x: Byte, y: Byte, z: Byte, rest: Bytes)
    ensures Pack([x, y, z] + rest) ==
            [x / 4, x % 4 * 16 + y / 16, y % 16 * 4 + z / 64, z % 64] + Pack(rest)
  {
    assert ([x, y, z] + rest)[3..] == rest;
  }

  lemma StrictOne(p: Sextet, q: Sextet)
    requires q % 16 == 0
    ensures Pack([First(p, q)]) == [p, q]
  {
    Parts(p, q, 0, 0);
    PackOne(First(p, q));
  }

  lemma StrictTwo(p: Sextet, q: Sextet, r: Sextet)
    requires r % 4 == 0
    ensures Pack([First(p, q), Second(q, r)]) == [p, q, r]
  {
    Parts(p, q, r, 0);
    PackTwo(First(p, q), Second(q, r));
  }

  lemma StrictThree(p: Sextet, q: Sextet, r: Sextet, t: Sextet, rest: Bytes)
    ensures Pack([First(p, q), Second(q, r), Third(r, t)] + rest) == [p, q, r, t] + Pack(rest)
  {
    Parts(p, q, r, t);
    PackThree(First(p, q), Second(q, r), Third(r, t), rest);
  }

  lemma {:induction false} UnpackIsStrict(v: seq<Sextet>)
    requires Unpack(v).Some?
    ensures Pack(Unpack(v).value) == v
  {
    if |v| == 2 {
      StrictOne(v[0], v[1]);
      assert v == [v[0], v[1]];
    } else if |v| == 3 {
      StrictTwo(v[0], v[1], v[2]);
      assert v == [v[0], v[1], v[2]];
    } else if |v| >= 4 {
      UnpackIsStrict(v[4..]);
      StrictThree(v[0], v[1], v[2], v[3], Unpack(v[4..]).value);
      assert v == [v[0], v[1], v[2], v[3]] + v[4..];
    }
  }

  lemma Base64RoundTrip(b: Bytes)
    ensures FromBase64(ToBase64(b)) == Some(b)
  {
    SpellRoundTrip(Pack(b));
    PackRoundTrip(b);
  }

  /** The decoder accepts only canonical text, so a text has one meaning and a meaning one text. */
  lemma Base64IsCanonical(s: string)
    requires FromBase64(s).Some?
    ensures ToBase64(FromBase64(s).value) == s
  {
    var v := Values(s).value;
    ValuesSpellBack(s);
    UnpackIsStrict(v);
  }

  /** Most significant bits first, group by group, and no padding after a short last group. */
  lemma Base64Groups(b: Bytes)
    ensures |b| == 0 ==> ToBase64(b) == ""
    ensures |b| == 1 ==> ToBase64(b) == [Symbol(b[0] / 4), Symbol(b[0] % 4 * 16)]
    ensures |b| == 2 ==>
              ToBase64(b) == [Symbol(b[0] / 4), Symbol(b[0] % 4 * 16 + b[1] / 16), Symbol(b[1] % 16 * 4)]
    ensures |b| >= 3 ==>
              ToBase64(b) == [Symbol(b[0] / 4), Symbol(b[0] % 4 * 16 + b[1] / 16),
                              Symbol(b[1] % 16 * 4 + b[2] / 64), Symbol(b[2] % 64)] + ToBase64(b[3..])
  {
    if |b| >= 3 {
      SpellFour(b[0] / 4, b[0] % 4 * 16 + b[1] / 16, b[1] % 16 * 4 + b[2] / 64, b[2] % 64, Pack(b[3..]));
    } else if |b| == 2 {
      SpellThree(b[0] / 4, b[0] % 4 * 16 + b[1] / 16, b[1] % 16 * 4, []);
    } else if |b| == 1 {
      SpellTwo(b[0] / 4, b[0] % 4 * 16, []);
    }
  }

  lemma SpellOne(p: Sextet, v: seq<Sextet>)
    ensures Spell([p] + v) == [Symbol(p)] + Spell(v)
  {
    assert ([p] + v)[1..] == v;
  }

  lemma SpellTwo(p: Sextet, q: Sextet, v: seq<Sextet>)
    ensures Spell([p, q] + v) == [Symbol(p), Symbol(q)] + Spell(v)
    ensures v == [] ==> Spell([p, q]) == [Symbol(p), Symbol(q)]
  {
    SpellOne(p, [q] + v);
    SpellOne(q, v);
    assert [p] + ([q] + v) == [p, q] + v;
    assert v == [] ==> [p, q] + v == [p, q];
  }

  lemma SpellThree(p: Sextet, q: Sextet, r: Sextet, v: seq<Sextet>)
    ensures Spell([p, q, r] + v) == [Symbol(p), Symbol(q), Symbol(r)] + Spell(v)
    ensures v == [] ==> Spell([p, q, r]) == [Symbol(p), Symbol(q), Symbol(r)]
  {
    SpellOne(p, [q, r] + v);
    SpellTwo(q, r, v);
    assert [p] + ([q, r] + v) == [p, q, r] + v;
    assert v == [] ==> [p, q, r] + v == [p, q, r];
  }

  lemma SpellFour(p: Sextet, q: Sextet, r: Sextet, t: Sextet, v: seq<Sextet>)
    ensures Spell([p, q, r, t] + v) == [Symbol(p), Symbol(q), Symbol(r), Symbol(t)] + Spell(v)
  {
    SpellOne(p, [q, r, t] + v);
    SpellThree(q, r, t, v);
    assert [p] + ([q, r, t] + v) == [p, q, r, t] + v;
  }

  /** `encode(decode(id, 'base64urlnopad'), 'hex')`. */
  function Reencode(id: string): Option<string> {
    match FromBase64(id)
    case Some(b) => Some(ToHex(b))
    case None => None
  }

  /** Re-encoding the base64url form of some bytes gives their hex form, and different ids different keys. */
  lemma ReencodeIsFaithful(b: Bytes, id: string)
    ensures Reencode(ToBase64(b)) == Some(ToHex(b))
    ensures Reencode(id) == Some(ToHex(b)) <==> id == ToBase64(b)
  {
    Base64RoundTrip(b);
    if FromBase64(id).Some? {
      Base64IsCanonical(id);
      HexIsInjective(FromBase64(id).value, b);
    }
  }
}
