/**
 * Base64 as `btoa` produces it from a string of byte-valued characters:
 * the alphabet and padding of section 4 of RFC 4648, and a decoder proved
 * to invert it.
 */
module Base64 {

  predicate IsByte(b: int)
  {
    0 <= b < 256
  }

  predicate Bytes(bs: seq<int>)
  {
    forall i :: 0 <= i < |bs| ==> IsByte(bs[i])
  }

  /** The character for a 6-bit value: `A`–`Z`, `a`–`z`, `0`–`9`, `+`, `/`. */
  function Sextet(v: int): (c: char)
    requires 0 <= v < 64
    ensures SextetValue(c) == v
  {
    if v < 26 then ('A' as int + v) as char
    else if v < 52 then ('a' as int + (v - 26)) as char
    else if v < 62 then ('0' as int + (v - 52)) as char
    else if v == 62 then '+'
    else '/'
  }

  /** The 6-bit value of an alphabet character; -1 for any other character. */
  function SextetValue(c: char): (v: int)
    ensures -1 <= v < 64
  {
    if 'A' <= c <= 'Z' then c as int - 'A' as int
    else if 'a' <= c <= 'z' then c as int - 'a' as int + 26
    else if '0' <= c <= '9' then c as int - '0' as int + 52
    else if c == '+' then 62
    else if c == '/' then 63
    else -1
  }

  predicate InAlphabet(c: char)
  {
    SextetValue(c) >= 0 || c == '='
  }

  /**
   * One group of one to three bytes as four characters: the bytes' bits
   * cut into 6-bit values, with `=` for each missing byte.
   */
  function EncodeGroup(g: seq<int>): (r: string)
    requires 1 <= |g| <= 3 && Bytes(g)
    ensures |r| == 4
    ensures forall i :: 0 <= i < 4 ==> InAlphabet(r[i])
    ensures r[2] == '=' <==> |g| == 1
    ensures r[3] == '=' <==> |g| < 3
  {
    var b0 := g[0];
    var b1 := if |g| > 1 then g[1] else 0;
    var b2 := if |g| > 2 then g[2] else 0;
    var c0 := Sextet(b0 / 4);
    var c1 := Sextet((b0 % 4) * 16 + b1 / 16);
    var c2 := if |g| > 1 then Sextet((b1 % 16) * 4 + b2 / 64) else '=';
    var c3 := if |g| > 2 then Sextet(b2 % 64) else '=';
    [c0, c1, c2, c3]
  }

  /** `btoa`: the bytes three at a time, the last group padded. */
  function Encode(bs: seq<int>): (r: string)
    requires Bytes(bs)
    ensures |r| == 4 * ((|bs| + 2) / 3) && |r| % 4 == 0
    ensures forall i :: 0 <= i < |r| ==> InAlphabet(r[i])
  {
    if bs == [] then ""
    else if |bs| <= 3 then EncodeGroup(bs)
    else EncodeGroup(bs[..3]) + Encode(bs[3..])
  }

  /** Four characters back to the bytes they carry; padding says how many. */
  function DecodeGroup(q: string): (g: seq<int>)
    requires |q| == 4
  {
    var v0 := SextetValue(q[0]);
    var v1 := SextetValue(q[1]);
    var v2 := if q[2] == '=' then 0 else SextetValue(q[2]);
    var v3 := if q[3] == '=' then 0 else SextetValue(q[3]);
    var b0 := v0 * 4 + v1 / 16;
    var b1 := (v1 % 16) * 16 + v2 / 4;
    var b2 := (v2 % 4) * 64 + v3;
    if q[2] == '=' then [b0]
    else if q[3] == '=' then [b0, b1]
    else [b0, b1, b2]
  }

  function Decode(s: string): seq<int>
    requires |s| % 4 == 0
  {
    if s == [] then [] else DecodeGroup(s[..4]) + Decode(s[4..])
  }

  /** Each group decodes to the bytes it was made from. */
  lemma GroupRoundTrip(g: seq<int>)
    requires 1 <= |g| <= 3 && Bytes(g)
    ensures DecodeGroup(EncodeGroup(g)) == g
  {
    var b0 := g[0];
    var b1 := if |g| > 1 then g[1] else 0;
    var b2 := if |g| > 2 then g[2] else 0;
    assert ((b0 % 4) * 16 + b1 / 16) / 16 == b0 % 4;
    assert ((b0 % 4) * 16 + b1 / 16) % 16 == b1 / 16;
    assert ((b1 % 16) * 4 + b2 / 64) / 4 == b1 % 16;
    assert ((b1 % 16) * 4 + b2 / 64) % 4 == b2 / 64;
  }

  /** Decoding what `btoa` produced gives back the bytes. */
  lemma {:induction false} RoundTrip(bs: seq<int>)
    requires Bytes(bs)
    ensures Decode(Encode(bs)) == bs
  {
    if bs != [] {
      if |bs| <= 3 {
        GroupRoundTrip(bs);
        assert Encode(bs)[..4] == Encode(bs);
        assert Encode(bs)[4..] == [];
      } else {
        var e := Encode(bs);
        assert e[..4] == EncodeGroup(bs[..3]);
        assert e[4..] == Encode(bs[3..]);
        GroupRoundTrip(bs[..3]);
        RoundTrip(bs[3..]);
        assert bs == bs[..3] + bs[3..];
      }
    }
  }

  /** The example of section 10 of RFC 4648: "foob" encodes as "Zm9vYg==". */
  lemma Rfc4648Example()
    ensures Encode(['f' as int, 'o' as int, 'o' as int, 'b' as int]) == "Zm9vYg=="
  {
  }
}
