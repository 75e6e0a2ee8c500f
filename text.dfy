/**
 * String helpers standing in for the JavaScript string built-ins the
 * storefront uses: `trim`, `toLowerCase`, `includes`, the template-literal
 * rendering of an integer, and the default ordering of `Array.prototype.sort`.
 */
module Text {

  /** The characters JavaScript's `\s` class and `String.prototype.trim` treat as white space. */
  predicate IsSpace(c: char)
  {
    || c == ' ' || c == '\t' || c == '\n' || c == '\r' || c == '\U{000B}' || c == '\U{000C}'
    || c == '\U{00A0}' || c == '\U{1680}' || ('\U{2000}' <= c <= '\U{200A}')
    || c == '\U{2028}' || c == '\U{2029}' || c == '\U{202F}' || c == '\U{205F}'
    || c == '\U{3000}' || c == '\U{FEFF}'
  }

  predicate NoSpace(s: string)
  {
    forall i :: 0 <= i < |s| ==> !IsSpace(s[i])
  }

  function TrimStart(s: string): (r: string)
    ensures |r| <= |s| && r == s[|s| - |r|..]
    ensures r == [] || !IsSpace(r[0])
    ensures forall i :: 0 <= i < |s| - |r| ==> IsSpace(s[i])
  {
    if s != [] && IsSpace(s[0]) then TrimStart(s[1..]) else s
  }

  function TrimEnd(s: string): (r: string)
    ensures |r| <= |s| && r == s[..|r|]
    ensures r == [] || !IsSpace(r[|r| - 1])
    ensures forall i :: |r| <= i < |s| ==> IsSpace(s[i])
  {
    if s != [] && IsSpace(s[|s| - 1]) then TrimEnd(s[..|s| - 1]) else s
  }

  /** `r` sits at offset `i` of `s`, and everything of `s` before and after it is white space. */
  predicate Stripped(s: string, r: string, i: int)
  {
    && OccursAt(s, r, i)
    && (forall k :: 0 <= k < i ==> IsSpace(s[k]))
    && (forall k :: i + |r| <= k < |s| ==> IsSpace(s[k]))
  }

  /** `s.trim()`: drops white space at both ends and nothing else. */
  function Trim(s: string): (r: string)
    ensures exists i :: Stripped(s, r, i)
    ensures Contains(s, r)
    ensures r == [] || (!IsSpace(r[0]) && !IsSpace(r[|r| - 1]))
  {
    var t := TrimStart(s);
    var r := TrimEnd(t);
    assert Stripped(s, r, |s| - |t|);
    r
  }

  /** `s.trim()` is empty, so falsy, exactly when every character of `s` is white space. */
  lemma TrimEmptyIffBlank(s: string)
    ensures Trim(s) == [] <==> forall i :: 0 <= i < |s| ==> IsSpace(s[i])
  {
    var t := TrimStart(s);
  }

  lemma TrimOfSpaceless(s: string)
    requires NoSpace(s)
    ensures Trim(s) == s
  {
    assert TrimStart(s) == s by {
      if s != [] { assert !IsSpace(s[0]); }
    }
    if s != [] { assert !IsSpace(s[|s| - 1]); }
  }

  /** `c.toLowerCase()` for the ASCII letters; other characters are kept. */
  function LowerChar(c: char): char
  {
    if 'A' <= c <= 'Z' then (c as int + 32) as char else c
  }

  function ToLower(s: string): (r: string)
    ensures |r| == |s|
    ensures forall i :: 0 <= i < |s| ==> r[i] == LowerChar(s[i])
  {
    if s == [] then [] else [LowerChar(s[0])] + ToLower(s[1..])
  }

  /** Lowering twice is lowering once. */
  lemma ToLowerIdempotent(s: string)
    ensures ToLower(ToLower(s)) == ToLower(s)
  {
    assert forall i :: 0 <= i < |s| ==> LowerChar(LowerChar(s[i])) == LowerChar(s[i]);
  }

  lemma ToLowerSlice(s: string, a: nat, b: nat)
    requires a <= b <= |s|
    ensures ToLower(s[a..b]) == ToLower(s)[a..b]
  {
  }

  lemma LowerKeepsSpace(c: char)
    ensures IsSpace(LowerChar(c)) <==> IsSpace(c)
  {
  }

  /** Lowering never turns a character into white space or back, so it commutes with `trim`. */
  lemma {:induction false} TrimStartToLower(s: string)
    ensures TrimStart(ToLower(s)) == ToLower(TrimStart(s))
  {
    if s != [] {
      LowerKeepsSpace(s[0]);
      if IsSpace(s[0]) {
        ToLowerSlice(s, 1, |s|);
        TrimStartToLower(s[1..]);
      }
    }
  }

  lemma {:induction false} TrimEndToLower(s: string)
    ensures TrimEnd(ToLower(s)) == ToLower(TrimEnd(s))
  {
    if s != [] {
      var n := |s| - 1;
      var lowered := ToLower(s);
      assert lowered[n] == LowerChar(s[n]);
      LowerKeepsSpace(s[n]);
      if IsSpace(s[n]) {
        ToLowerSlice(s, 0, n);
        assert lowered[..n] == ToLower(s[..n]);
        assert TrimEnd(lowered) == TrimEnd(lowered[..n]);
        TrimEndToLower(s[..n]);
      }
    }
  }

  lemma TrimToLower(s: string)
    ensures Trim(ToLower(s)) == ToLower(Trim(s))
  {
    TrimStartToLower(s);
    TrimEndToLower(TrimStart(s));
  }

  /** The characters `encodeURIComponent` leaves as they are. */
  predicate Unreserved(c: char)
  {
    || ('A' <= c <= 'Z') || ('a' <= c <= 'z') || ('0' <= c <= '9')
    || c == '-' || c == '_' || c == '.' || c == '!' || c == '~' || c == '*' || c == '\'' || c == '(' || c == ')'
  }

  /** An octet. */
  type Byte = b: int | 0 <= b < 256

  /** The UTF-8 encoding of one character (RFC 3629). */
  function Utf8(c: char): (r: seq<Byte>)
    ensures 1 <= |r| <= 4
    ensures c as int < 0x80 ==> r == [c as int]
  {
    var n := c as int;
    if n < 0x80 then [n]
    else if n < 0x800 then [0xC0 + n / 64, 0x80 + n % 64]
    else if n < 0x10000 then [0xE0 + n / 4096, 0x80 + (n / 64) % 64, 0x80 + n % 64]
    else [0xF0 + n / 262144, 0x80 + (n / 4096) % 64, 0x80 + (n / 64) % 64, 0x80 + n % 64]
  }

  const HexDigits: string := "0123456789ABCDEF"

  /** `%XY` for one byte. */
  function PercentByte(b: Byte): (r: string)
    ensures |r| == 3 && r[0] == '%' && r[1] in HexDigits && r[2] in HexDigits
  {
    ['%', HexDigits[b / 16], HexDigits[b % 16]]
  }

  function PercentBytes(bytes: seq<Byte>): (r: string)
    ensures |r| == 3 * |bytes|
  {
    if bytes == [] then [] else PercentByte(bytes[0]) + PercentBytes(bytes[1..])
  }

  /** Percent-encoded bytes use only `%` and hexadecimal digits. */
  lemma {:induction false} PercentBytesUriSafe(bytes: seq<Byte>)
    ensures forall i :: 0 <= i < |PercentBytes(bytes)| ==> UriSafe(PercentBytes(bytes)[i])
  {
    if bytes != [] {
      PercentBytesUriSafe(bytes[1..]);
    }
  }

  /** A character that can appear in the output of `encodeURIComponent`. */
  predicate UriSafe(c: char)
  {
    Unreserved(c) || c == '%' || c in HexDigits
  }

  /** What `encodeURIComponent` writes for one character. */
  function EncodeChar(c: char): (r: string)
    ensures Unreserved(c) ==> r == [c]
    ensures !Unreserved(c) ==> r == PercentBytes(Utf8(c)) && 3 <= |r| <= 12 && r[0] == '%'
    ensures forall i :: 0 <= i < |r| ==> UriSafe(r[i])
  {
    if Unreserved(c) then [c]
    else
      PercentBytesUriSafe(Utf8(c));
      PercentBytes(Utf8(c))
  }

  /** `encodeURIComponent(s)`: unreserved characters kept, every other character percent-encoded as UTF-8. */
  function EncodeURIComponent(s: string): (r: string)
    ensures |r| >= |s|
    ensures forall i :: 0 <= i < |r| ==> UriSafe(r[i])
    ensures |s| == 1 ==> r == EncodeChar(s[0])
  {
    if s == [] then []
    else EncodeChar(s[0]) + EncodeURIComponent(s[1..])
  }

  /** The text is encoded character by character: encoding a concatenation concatenates the encodings. */
  lemma {:induction false} EncodeURIComponentAppend(a: string, b: string)
    ensures EncodeURIComponent(a + b) == EncodeURIComponent(a) + EncodeURIComponent(b)
  {
    if a == [] {
      assert a + b == b;
    } else {
      assert (a + b)[0] == a[0];
      assert (a + b)[1..] == a[1..] + b;
      EncodeURIComponentAppend(a[1..], b);
    }
  }

  /** The UTF-8 bytes of a whole string. */
  function Utf8Bytes(s: string): (r: seq<Byte>)
    ensures |s| <= |r| <= 4 * |s|
  {
    if s == [] then [] else Utf8(s[0]) + Utf8Bytes(s[1..])
  }

  /** The value of one hexadecimal digit as `decodeURIComponent` reads it (upper case, as written here). */
  function HexValue(c: char): (v: int)
    ensures 0 <= v < 16
  {
    if '0' <= c <= '9' then c as int - '0' as int
    else if 'A' <= c <= 'F' then c as int - 'A' as int + 10
    else 0
  }

  lemma HexDigitValue(d: int)
    requires 0 <= d < 16
    ensures HexValue(HexDigits[d]) == d
  {
  }

  /**
   * The bytes `decodeURIComponent` recovers from an encoded text: `%XY` is the
   * byte `XY`, any other character stands for itself.
   */
  function PercentDecode(r: string): seq<int>
  {
    if r == [] then []
    else if r[0] == '%' && |r| >= 3 then [16 * HexValue(r[1]) + HexValue(r[2])] + PercentDecode(r[3..])
    else [r[0] as int] + PercentDecode(r[1..])
  }

  lemma DecodeOneByte(b: Byte, t: string)
    ensures PercentDecode(PercentByte(b) + t) == [b] + PercentDecode(t)
  {
    var x := PercentByte(b) + t;
    assert x[0] == '%' && |x| >= 3;
    assert x[1] == HexDigits[b / 16] && x[2] == HexDigits[b % 16];
    HexDigitValue(b / 16);
    HexDigitValue(b % 16);
    assert x[3..] == t;
  }

  lemma AppendAssociative(a: string, b: string, c: string)
    ensures (a + b) + c == a + (b + c)
  {
  }

  lemma PercentBytesCons(bytes: seq<Byte>, rest: string)
    requires bytes != []
    ensures PercentBytes(bytes) + rest == PercentByte(bytes[0]) + (PercentBytes(bytes[1..]) + rest)
  {
    AppendAssociative(PercentByte(bytes[0]), PercentBytes(bytes[1..]), rest);
  }

  lemma {:induction false} DecodePercentBytes(bytes: seq<Byte>, rest: string)
    ensures PercentDecode(PercentBytes(bytes) + rest) == bytes + PercentDecode(rest)
  {
    if bytes == [] {
      assert PercentBytes(bytes) + rest == rest;
    } else {
      var t := PercentBytes(bytes[1..]) + rest;
      calc {
        PercentDecode(PercentBytes(bytes) + rest);
        { PercentBytesCons(bytes, rest); }
        PercentDecode(PercentByte(bytes[0]) + t);
        { DecodeOneByte(bytes[0], t); }
        [bytes[0]] + PercentDecode(t);
        { DecodePercentBytes(bytes[1..], rest); }
        [bytes[0]] + (bytes[1..] + PercentDecode(rest));
        { assert [bytes[0]] + bytes[1..] == bytes; }
        bytes + PercentDecode(rest);
      }
    }
  }

  /**
   * Decoding undoes `encodeURIComponent`: the encoded text carries exactly the
   * UTF-8 bytes of the original.
   */
  lemma {:induction false} DecodeEncode(s: string)
    ensures PercentDecode(EncodeURIComponent(s)) == Utf8Bytes(s)
  {
    if s != [] {
      var c := s[0];
      var rest := EncodeURIComponent(s[1..]);
      if Unreserved(c) {
        assert ([c] + rest)[1..] == rest;
      } else {
        DecodePercentBytes(Utf8(c), rest);
      }
      DecodeEncode(s[1..]);
    }
  }

  /** Text made of unreserved characters only is passed through unchanged. */
  lemma {:induction false} EncodeUnreserved(s: string)
    requires forall i :: 0 <= i < |s| ==> Unreserved(s[i])
    ensures EncodeURIComponent(s) == s
  {
    if s != [] {
      EncodeUnreserved(s[1..]);
    }
  }

  /** A space is sent as `%20`. */
  lemma EncodeSpace()
    ensures EncodeURIComponent(" ") == "%20"
  {
    assert Utf8(' ') == [32];
  }

  /**
   * `s.length`: JavaScript counts UTF-16 code units, so a character beyond
   * U+FFFF counts twice.
   */
  function Utf16Length(s: string): (n: nat)
    ensures |s| <= n <= 2 * |s|
    ensures (forall i :: 0 <= i < |s| ==> s[i] as int <= 0xFFFF) ==> n == |s|
    ensures |s| == 1 ==> (n == 2 <==> s[0] as int > 0xFFFF)
  {
    if s == [] then 0
    else Utf16Length(s[..|s| - 1]) + (if s[|s| - 1] as int > 0xFFFF then 2 else 1)
  }

  /** Lengths add up: the length of a concatenation is the sum of the lengths. */
  lemma {:induction false} Utf16LengthAppend(a: string, b: string)
    ensures Utf16Length(a + b) == Utf16Length(a) + Utf16Length(b)
    decreases |b|
  {
    if b == [] {
      assert a + b == a;
    } else {
      var b' := b[..|b| - 1];
      assert (a + b)[|a + b| - 1] == b[|b| - 1];
      assert (a + b)[..|a + b| - 1] == a + b';
      Utf16LengthAppend(a, b');
    }
  }

  /** `s.startsWith(p)`. */
  predicate StartsWith(s: string, p: string)
  {
    |p| <= |s| && s[..|p|] == p
  }

  /** `s.substring(0, n)`. */
  function Prefix(s: string, n: nat): (r: string)
    ensures |r| <= n && |r| <= |s| && r == s[..|r|]
    ensures |s| <= n ==> r == s
  {
    if |s| <= n then s else s[..n]
  }

  /** `s.includes(t)`: `t` occurs in `s` as a contiguous block. */
  predicate Contains(s: string, t: string)
  {
    exists i :: 0 <= i <= |s| - |t| && OccursAt(s, t, i)
  }

  predicate OccursAt(s: string, t: string, i: int)
  {
    0 <= i <= |s| - |t| && s[i..i + |t|] == t
  }

  /** The decimal text of a natural number, as JavaScript renders it. */
  function NatToString(n: nat): (r: string)
    ensures r != []
    ensures forall i :: 0 <= i < |r| ==> '0' <= r[i] <= '9'
    decreases n
  {
    var d := ['0' + (n % 10) as char];
    if n < 10 then d else NatToString(n / 10) + d
  }

  /** The number a string of decimal digits denotes. */
  function DigitsValue(s: string): (v: int)
  {
    if s == [] then 0 else 10 * DigitsValue(s[..|s| - 1]) + (s[|s| - 1] as int - '0' as int)
  }

  /** Reading the rendered digits gives the number back. */
  lemma {:induction false} NatToStringValue(n: nat)
    ensures DigitsValue(NatToString(n)) == n
    decreases n
  {
    var d := ['0' + (n % 10) as char];
    if n >= 10 {
      var r := NatToString(n / 10) + d;
      assert r[..|r| - 1] == NatToString(n / 10);
      NatToStringValue(n / 10);
    }
  }

  /** `${i}` for an integer `i`. */
  function IntToString(i: int): (r: string)
    ensures r != []
    ensures (r[0] == '-') <==> i < 0
  {
    if i < 0 then "-" + NatToString(-i) else NatToString(i)
  }

  /**
   * The comparison behind `Array.prototype.sort` with no comparator, on
   * strings: character by character, a proper prefix first.
   */
  predicate Below(a: string, b: string)
  {
    if a == [] then b != []
    else if b == [] then false
    else a[0] < b[0] || (a[0] == b[0] && Below(a[1..], b[1..]))
  }

  lemma {:induction false} BelowIrreflexive(a: string)
    ensures !Below(a, a)
  {
    if a != [] { BelowIrreflexive(a[1..]); }
  }

  lemma {:induction false} BelowTransitive(a: string, b: string, c: string)
    requires Below(a, b) && Below(b, c)
    ensures Below(a, c)
  {
    if a != [] && b != [] && c != [] && a[0] == b[0] == c[0] {
      BelowTransitive(a[1..], b[1..], c[1..]);
    }
  }

  lemma {:induction false} BelowTotal(a: string, b: string)
    ensures a == b || Below(a, b) || Below(b, a)
  {
    if a != [] && b != [] && a[0] == b[0] {
      BelowTotal(a[1..], b[1..]);
      if a[1..] == b[1..] {
        assert a == [a[0]] + a[1..] && b == [b[0]] + b[1..];
      }
    }
  }

  predicate StrictlySorted(s: seq<string>)
  {
    forall i, j :: 0 <= i < j < |s| ==> Below(s[i], s[j])
  }
}
