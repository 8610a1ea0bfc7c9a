/**
 * Base 64 with the standard alphabet and `=` padding (section 4 of RFC 4648),
 * as Python's `base64.b64decode(s, validate=True)` reads it: the input must be
 * alphabet characters followed by at most two `=`, padded to a multiple of four
 * characters. Like Python, the decoder ignores the unused low bits of the last
 * character before the padding, so it accepts some strings that no encoder
 * produces.
 */
module Base64 {
  import opened Wrappers

  type Byte = b: int | 0 <= b < 256
  type Sextet = v: int | 0 <= v < 64

  predicate IsAlphabet(c: char) {
    ('A' <= c <= 'Z') || ('a' <= c <= 'z') || ('0' <= c <= '9') || c == '+' || c == '/'
  }

  predicate AllAlphabet(s: string) {
    forall k :: 0 <= k < |s| ==> IsAlphabet(s[k])
  }

  /** The value of one alphabet character (Table 1 of RFC 4648). */
  function ValueOf(c: char): (v: Sextet)
    requires IsAlphabet(c)
  {
    if 'A' <= c <= 'Z' then c as int - 'A' as int
    else if 'a' <= c <= 'z' then c as int - 'a' as int + 26
    else if '0' <= c <= '9' then c as int - '0' as int + 52
    else if c == '+' then 62
    else 63
  }

  /** The alphabet character of one value. */
  function CharOf(v: Sextet): (c: char)
    ensures IsAlphabet(c)
  {
    if v < 26 then ('A' as int + v) as char
    else if v < 52 then ('a' as int + v - 26) as char
    else if v < 62 then ('0' as int + v - 52) as char
    else if v == 62 then '+'
    else '/'
  }

  lemma ValueOfCharOf(v: Sextet)
    ensures ValueOf(CharOf(v)) == v
  {
  }

  lemma CharOfValueOf(c: char)
    requires IsAlphabet(c)
    ensures CharOf(ValueOf(c)) == c
  {
  }

  /** The three bytes four sextets carry. */
  function Bytes3(a: Sextet, b: Sextet, c: Sextet, d: Sextet): seq<Byte> {
    [a * 4 + b / 16, (b % 16) * 16 + c / 4, (c % 4) * 64 + d]
  }

  /** The four characters that carry three bytes. */
  function Chars4(x: Byte, y: Byte, z: Byte): (r: string)
    ensures |r| == 4 && AllAlphabet(r)
  {
    [CharOf(x / 4), CharOf((x % 4) * 16 + y / 16), CharOf((y % 16) * 4 + z / 64), CharOf(z % 64)]
  }

  /** The number of `=` at the end of `s`, counting at most two. */
  function Pads(s: string): (n: nat)
    ensures n <= 2 && n <= |s|
  {
    if |s| >= 2 && s[|s| - 2] == '=' && s[|s| - 1] == '=' then 2
    else if |s| >= 1 && s[|s| - 1] == '=' then 1
    else 0
  }

  /**
   * The strings the decoder accepts: a multiple of four characters, every one an
   * alphabet character except the trailing (at most two) `=`.
   */
  predicate WellFormed(s: string) {
    |s| % 4 == 0 && AllAlphabet(s[..|s| - Pads(s)])
  }

  /** The three bytes of a group of four alphabet characters. */
  function GroupBytes(q: string): seq<Byte>
    requires |q| == 4 && AllAlphabet(q)
  {
    Bytes3(ValueOf(q[0]), ValueOf(q[1]), ValueOf(q[2]), ValueOf(q[3]))
  }

  /** The last group of four: full, or with one or two `=` of padding. */
  function DecodeLast(q: string): (r: Option<seq<Byte>>)
    requires |q| == 4
  {
    if AllAlphabet(q) then Some(GroupBytes(q))
    else if IsAlphabet(q[0]) && IsAlphabet(q[1]) && q[2] == '=' && q[3] == '=' then
      Some(Bytes3(ValueOf(q[0]), ValueOf(q[1]), 0, 0)[..1])
    else if IsAlphabet(q[0]) && IsAlphabet(q[1]) && IsAlphabet(q[2]) && q[3] == '=' then
      Some(Bytes3(ValueOf(q[0]), ValueOf(q[1]), ValueOf(q[2]), 0)[..2])
    else None
  }

  /** `base64.b64decode(s, validate=True)`: `None` where Python raises. */
  function Decode(s: string): (r: Option<seq<Byte>>)
    ensures r.Some? ==> |s| % 4 == 0 && |r.value| == 3 * (|s| / 4) - Pads(s)
    decreases |s|
  {
    if s == [] then Some([])
    else if |s| < 4 then None
    else if |s| == 4 then DecodeLast(s)
    else if AllAlphabet(s[..4]) then
      match Decode(s[4..])
      case None => None
      case Some(t) =>
        assert Pads(s) == Pads(s[4..]) by {
          assert s[|s| - 2] == s[4..][|s| - 6] && s[|s| - 1] == s[4..][|s| - 5];
        }
        Some(GroupBytes(s[..4]) + t)
    else None
  }

  /** The last group when one byte is left over. */
  function Chars2(x: Byte): (r: string)
    ensures |r| == 4 && IsAlphabet(r[0]) && IsAlphabet(r[1]) && r[2] == '=' && r[3] == '='
  {
    [CharOf(x / 4), CharOf((x % 4) * 16), '=', '=']
  }

  /** The last group when two bytes are left over. */
  function Chars3(x: Byte, y: Byte): (r: string)
    ensures |r| == 4 && IsAlphabet(r[0]) && IsAlphabet(r[1]) && IsAlphabet(r[2]) && r[3] == '='
  {
    [CharOf(x / 4), CharOf((x % 4) * 16 + y / 16), CharOf((y % 16) * 4), '=']
  }

  /** A full group in front of a well-formed string leaves it well-formed. */
  lemma WellFormedPrepend(q: string, rest: string)
    requires |q| == 4 && AllAlphabet(q) && WellFormed(rest)
    ensures Pads(q + rest) == Pads(rest)
    ensures WellFormed(q + rest)
  {
    var r := q + rest;
    if |rest| > 0 {
      assert r[|r| - 2] == rest[|rest| - 2] && r[|r| - 1] == rest[|rest| - 1];
    }
    forall k | 0 <= k < |r| - Pads(r) ensures IsAlphabet(r[k]) {
      if k >= 4 { assert r[k] == rest[..|rest| - Pads(rest)][k - 4]; }
    }
  }

  /** Three more bytes take one more group and leave the same remainder. */
  lemma GroupCount(n: nat)
    requires n >= 3
    ensures (n + 2) / 3 == (n - 3 + 2) / 3 + 1
    ensures n % 3 == (n - 3) % 3
  {
  }

  /** Encoding with `=` padding (section 4 of RFC 4648). */
  function Encode(b: seq<Byte>): (r: string)
    ensures |r| == 4 * ((|b| + 2) / 3)
    ensures WellFormed(r)
    ensures Pads(r) == (3 - |b| % 3) % 3
  {
    if |b| == 0 then []
    else if |b| == 1 then
      var r := Chars2(b[0]);
      assert r[..2] == [r[0], r[1]];
      r
    else if |b| == 2 then
      var r := Chars3(b[0], b[1]);
      assert r[..3] == [r[0], r[1], r[2]];
      r
    else
      var rest := Encode(b[3..]);
      GroupCount(|b|);
      WellFormedPrepend(Chars4(b[0], b[1], b[2]), rest);
      Chars4(b[0], b[1], b[2]) + rest
  }

  /**
   * The strings an encoder produces: well-formed, with the unused low bits of
   * the character before the padding all zero.
   */
  predicate Canonical(s: string) {
    && WellFormed(s)
    && (Pads(s) == 2 ==> IsAlphabet(s[|s| - 3]) && ValueOf(s[|s| - 3]) % 16 == 0)
    && (Pads(s) == 1 ==> IsAlphabet(s[|s| - 2]) && ValueOf(s[|s| - 2]) % 4 == 0)
  }

  /** Division by `m` recovers the two digits of `hi * m + lo`. */
  lemma Digits(hi: int, lo: int, m: int)
    requires 0 <= lo < m
    ensures (hi * m + lo) / m == hi && (hi * m + lo) % m == lo
  {
    var n := hi * m + lo;
    var q := n / m;
    assert n == q * m + n % m;
    if q > hi {
      MulMonotone(hi + 1, q, m);
    } else if q < hi {
      MulMonotone(q + 1, hi, m);
    }
  }

  lemma MulMonotone(x: int, y: int, m: nat)
    requires x <= y
    ensures x * m <= y * m
  {
  }

  lemma BytesOfChars4(x: Byte, y: Byte, z: Byte)
    ensures Bytes3(x / 4, (x % 4) * 16 + y / 16, (y % 16) * 4 + z / 64, z % 64) == [x, y, z]
  {
    Digits(x % 4, y / 16, 16);
    Digits(y % 16, z / 64, 4);
  }

  lemma BytesOfChars3(x: Byte, y: Byte)
    ensures Bytes3(x / 4, (x % 4) * 16 + y / 16, (y % 16) * 4, 0)[..2] == [x, y]
  {
    Digits(x % 4, y / 16, 16);
    Digits(y % 16, 0, 4);
  }

  lemma BytesOfChars2(x: Byte)
    ensures Bytes3(x / 4, (x % 4) * 16, 0, 0)[..1] == [x]
  {
    Digits(x % 4, 0, 16);
  }

  lemma CharsOfBytes4(a: Sextet, b: Sextet, c: Sextet, d: Sextet)
    ensures var g := Bytes3(a, b, c, d);
      Chars4(g[0], g[1], g[2]) == [CharOf(a), CharOf(b), CharOf(c), CharOf(d)]
  {
    var g := Bytes3(a, b, c, d);
    Digits(a, b / 16, 4);
    Digits(b % 16, c / 4, 16);
    Digits(c % 4, d, 64);
    assert g[0] / 4 == a && g[0] % 4 == b / 16;
    assert g[1] / 16 == b % 16 && g[1] % 16 == c / 4;
    assert g[2] / 64 == c % 4 && g[2] % 64 == d;
    assert (g[0] % 4) * 16 + g[1] / 16 == b;
    assert (g[1] % 16) * 4 + g[2] / 64 == c;
  }

  lemma CharsOfBytes3(a: Sextet, b: Sextet, c: Sextet)
    requires c % 4 == 0
    ensures var g := Bytes3(a, b, c, 0);
      Chars3(g[0], g[1]) == [CharOf(a), CharOf(b), CharOf(c), '=']
  {
    var g := Bytes3(a, b, c, 0);
    Digits(a, b / 16, 4);
    Digits(b % 16, c / 4, 16);
    assert g[0] / 4 == a && g[0] % 4 == b / 16;
    assert g[1] / 16 == b % 16 && g[1] % 16 == c / 4;
    assert (g[0] % 4) * 16 + g[1] / 16 == b;
    assert (g[1] % 16) * 4 == c;
  }

  lemma CharsOfBytes2(a: Sextet, b: Sextet)
    requires b % 16 == 0
    ensures var g := Bytes3(a, b, 0, 0);
      Chars2(g[0]) == [CharOf(a), CharOf(b), '=', '=']
  {
    var g := Bytes3(a, b, 0, 0);
    Digits(a, b / 16, 4);
    assert g[0] / 4 == a && g[0] % 4 == b / 16;
    assert (g[0] % 4) * 16 == b;
  }

  /** Decoding a full group in front of the rest. */
  lemma DecodeGroupThen(q: string, rest: string)
    requires |q| == 4 && AllAlphabet(q)
    ensures Decode(q + rest) == if Decode(rest).None? then None else Some(GroupBytes(q) + Decode(rest).value)
  {
    var s := q + rest;
    assert s[..4] == q && s[4..] == rest;
    if rest == [] {
      assert s == q;
      assert GroupBytes(q) + [] == GroupBytes(q);
    }
  }

  lemma GroupBytesOfChars4(x: Byte, y: Byte, z: Byte)
    ensures GroupBytes(Chars4(x, y, z)) == [x, y, z]
  {
    ValueOfCharOf(x / 4);
    ValueOfCharOf((x % 4) * 16 + y / 16);
    ValueOfCharOf((y % 16) * 4 + z / 64);
    ValueOfCharOf(z % 64);
    BytesOfChars4(x, y, z);
  }

  lemma DecodeChars2(x: Byte)
    ensures Decode(Chars2(x)) == Some([x])
  {
    var q := Chars2(x);
    ValueOfCharOf(x / 4);
    ValueOfCharOf((x % 4) * 16);
    BytesOfChars2(x);
    assert !IsAlphabet(q[3]);
  }

  lemma DecodeChars3(x: Byte, y: Byte)
    ensures Decode(Chars3(x, y)) == Some([x, y])
  {
    var q := Chars3(x, y);
    ValueOfCharOf(x / 4);
    ValueOfCharOf((x % 4) * 16 + y / 16);
    ValueOfCharOf((y % 16) * 4);
    BytesOfChars3(x, y);
    assert !IsAlphabet(q[3]) && q[2] != '=';
    assert DecodeLast(q) == Some(Bytes3(ValueOf(q[0]), ValueOf(q[1]), ValueOf(q[2]), 0)[..2]);
  }

  /** One full group of three bytes in front of a tail that decodes. */
  lemma DecodeGroupStep(x: Byte, y: Byte, z: Byte, rest: string, t: seq<Byte>)
    requires Decode(rest) == Some(t)
    ensures Decode(Chars4(x, y, z) + rest) == Some([x, y, z] + t)
  {
    DecodeGroupThen(Chars4(x, y, z), rest);
    GroupBytesOfChars4(x, y, z);
  }

  /** Decoding undoes encoding. */
  lemma {:induction false} DecodeEncode(b: seq<Byte>)
    ensures Decode(Encode(b)) == Some(b)
  {
    if |b| == 1 {
      DecodeChars2(b[0]);
      assert b == [b[0]];
    } else if |b| == 2 {
      DecodeChars3(b[0], b[1]);
      assert b == [b[0], b[1]];
    } else if |b| >= 3 {
      assert b == [b[0], b[1], b[2]] + b[3..];
      DecodeEncode(b[3..]);
      DecodeGroupStep(b[0], b[1], b[2], Encode(b[3..]), b[3..]);
    }
  }

  /** A string of eight or more characters is well-formed iff its first group is full and the rest is well-formed. */
  lemma WellFormedSplit(s: string)
    requires |s| >= 8
    ensures WellFormed(s) <==> AllAlphabet(s[..4]) && WellFormed(s[4..])
  {
    var rest := s[4..];
    assert s[|s| - 2] == rest[|rest| - 2] && s[|s| - 1] == rest[|rest| - 1];
    assert Pads(s) == Pads(rest);
    var p := Pads(s);
    var body := s[..|s| - p];
    var restBody := rest[..|rest| - p];
    assert |body| == |restBody| + 4;
    assert forall k :: 0 <= k < 4 ==> s[..4][k] == body[k];
    assert forall k :: 0 <= k < |restBody| ==> restBody[k] == body[k + 4];
    if WellFormed(s) {
      assert AllAlphabet(body);
      assert AllAlphabet(s[..4]);
      assert AllAlphabet(restBody);
    }
    if AllAlphabet(s[..4]) && WellFormed(rest) {
      assert AllAlphabet(restBody);
      forall k | 0 <= k < |body| ensures IsAlphabet(body[k]) {
        if k < 4 { assert body[k] == s[..4][k]; } else { assert body[k] == restBody[k - 4]; }
      }
    }
  }

  lemma WellFormedLast(q: string)
    requires |q| == 4
    ensures DecodeLast(q).Some? <==> WellFormed(q)
  {
    if Pads(q) == 0 {
      assert q[..4] == q;
    } else if Pads(q) == 1 {
      assert q[..3] == [q[0], q[1], q[2]];
      assert !AllAlphabet(q) by { assert !IsAlphabet(q[3]); }
    } else {
      assert q[..2] == [q[0], q[1]];
      assert !AllAlphabet(q) by { assert !IsAlphabet(q[3]); }
    }
  }

  /** The decoder succeeds exactly on the well-formed strings. */
  lemma {:induction false} DecodeIffWellFormed(s: string)
    ensures Decode(s).Some? <==> WellFormed(s)
    decreases |s|
  {
    if |s| == 4 {
      WellFormedLast(s);
    } else if |s| >= 8 {
      DecodeIffWellFormed(s[4..]);
      WellFormedSplit(s);
    }
  }

  /** Every encoder output is canonical. */
  lemma {:induction false} EncodeCanonical(b: seq<Byte>)
    ensures Canonical(Encode(b))
  {
    if |b| == 1 {
      ValueOfCharOf((b[0] % 4) * 16);
    } else if |b| == 2 {
      ValueOfCharOf((b[1] % 16) * 4);
    } else if |b| >= 3 {
      EncodeCanonical(b[3..]);
      var q := Chars4(b[0], b[1], b[2]);
      var rest := Encode(b[3..]);
      var s := q + rest;
      assert Encode(b) == s;
      WellFormedPrepend(q, rest);
      if |rest| > 0 {
        assert s[|s| - 3] == rest[|rest| - 3] && s[|s| - 2] == rest[|rest| - 2];
      } else {
        assert s == q && !(q[3] == '=');
      }
    }
  }

  /** The last group re-encodes to itself when its unused bits are zero. */
  lemma ReEncodeLast(q: string)
    requires |q| == 4 && Canonical(q)
    ensures DecodeLast(q).Some? && Encode(DecodeLast(q).value) == q
  {
    WellFormedLast(q);
    if AllAlphabet(q) {
      var a, b, c, d := ValueOf(q[0]), ValueOf(q[1]), ValueOf(q[2]), ValueOf(q[3]);
      var g := Bytes3(a, b, c, d);
      CharsOfBytes4(a, b, c, d);
      CharOfValueOf(q[0]); CharOfValueOf(q[1]); CharOfValueOf(q[2]); CharOfValueOf(q[3]);
      assert g[3..] == [];
      assert Encode(g) == Chars4(g[0], g[1], g[2]) + [];
    } else if q[2] == '=' {
      assert !IsAlphabet(q[2]);
      var a, b := ValueOf(q[0]), ValueOf(q[1]);
      CharsOfBytes2(a, b);
      CharOfValueOf(q[0]); CharOfValueOf(q[1]);
    } else {
      var a, b, c := ValueOf(q[0]), ValueOf(q[1]), ValueOf(q[2]);
      CharsOfBytes3(a, b, c);
      CharOfValueOf(q[0]); CharOfValueOf(q[1]); CharOfValueOf(q[2]);
    }
  }

  lemma EncodeGroupThen(g: seq<Byte>, t: seq<Byte>)
    requires |g| == 3
    ensures Encode(g + t) == Chars4(g[0], g[1], g[2]) + Encode(t)
  {
    assert (g + t)[3..] == t;
  }

  lemma CharsOfGroup(q: string)
    requires |q| == 4 && AllAlphabet(q)
    ensures var g := GroupBytes(q); Chars4(g[0], g[1], g[2]) == q
  {
    var a, b, c, d := ValueOf(q[0]), ValueOf(q[1]), ValueOf(q[2]), ValueOf(q[3]);
    CharsOfBytes4(a, b, c, d);
    CharOfValueOf(q[0]); CharOfValueOf(q[1]); CharOfValueOf(q[2]); CharOfValueOf(q[3]);
  }

  /** A canonical string re-encodes to itself. */
  lemma {:induction false} ReEncodeCanonical(s: string)
    requires Canonical(s)
    ensures Decode(s).Some? && Encode(Decode(s).value) == s
    decreases |s|
  {
    DecodeIffWellFormed(s);
    if |s| == 4 {
      ReEncodeLast(s);
    } else if |s| >= 8 {
      var q, rest := s[..4], s[4..];
      assert s == q + rest;
      WellFormedSplit(s);
      assert s[|s| - 3] == rest[|rest| - 3] && s[|s| - 2] == rest[|rest| - 2];
      ReEncodeCanonical(rest);
      DecodeGroupThen(q, rest);
      CharsOfGroup(q);
      EncodeGroupThen(GroupBytes(q), Decode(rest).value);
    }
  }

  /**
   * A well-formed string decodes, and encoding the bytes gives the string back
   * exactly when its unused bits are zero.
   */
  lemma ReEncodeIffCanonical(s: string)
    requires WellFormed(s)
    ensures Decode(s).Some?
    ensures Encode(Decode(s).value) == s <==> Canonical(s)
  {
    DecodeIffWellFormed(s);
    if Canonical(s) {
      ReEncodeCanonical(s);
    }
    EncodeCanonical(Decode(s).value);
  }
}
