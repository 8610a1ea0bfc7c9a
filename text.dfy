/**
 * String helpers shared by the page modules: JavaScript's `String.prototype.trim`,
 * `toLowerCase` (restricted to the characters the model knows how to fold),
 * `includes`, `startsWith`, and the code-unit order that `<` and `localeCompare`
 * give on the ISO `YYYY-MM-DD` date strings the app stores.
 */
module Text {

  /** JavaScript truthiness of a string: only the empty string is falsy. */
  predicate Truthy(s: string) {
    s != []
  }

  /** The JavaScript WhiteSpace and LineTerminator code points: what `trim` removes. */
  predicate IsSpace(c: char) {
    var o := c as int;
    (9 <= o <= 13) || o == 32 || o == 0xA0 || o == 0x1680 || (0x2000 <= o <= 0x200A)
    || o == 0x2028 || o == 0x2029 || o == 0x202F || o == 0x205F || o == 0x3000 || o == 0xFEFF
  }

  predicate AllSpace(s: string) {
    forall k :: 0 <= k < |s| ==> IsSpace(s[k])
  }

  /** `trimStart`: the suffix left after dropping the leading white space. */
  function TrimStart(s: string): (r: string)
    ensures |r| <= |s| && r == s[|s| - |r|..]
    ensures AllSpace(s[..|s| - |r|])
    ensures r == [] || !IsSpace(r[0])
  {
    if s != [] && IsSpace(s[0]) then
      var r := TrimStart(s[1..]);
      assert s[..|s| - |r|] == [s[0]] + s[1..][..|s| - 1 - |r|];
      r
    else s
  }

  /** `trimEnd`: the prefix left after dropping the trailing white space. */
  function TrimEnd(s: string): (r: string)
    ensures |r| <= |s| && r == s[..|r|]
    ensures AllSpace(s[|r|..])
    ensures r == [] || !IsSpace(r[|r| - 1])
  {
    if s != [] && IsSpace(s[|s| - 1]) then
      var r := TrimEnd(s[..|s| - 1]);
      assert s[|r|..] == s[..|s| - 1][|r|..] + [s[|s| - 1]];
      r
    else s
  }

  /** The number of leading white-space characters `trim` drops. */
  function Lead(s: string): (n: nat)
    ensures n <= |s|
  {
    |s| - |TrimStart(s)|
  }

  /** `String.prototype.trim`. */
  function Trim(s: string): (r: string)
    ensures Lead(s) + |r| <= |s|
    ensures r == s[Lead(s)..Lead(s) + |r|]
    ensures r != [] ==> !IsSpace(r[0]) && !IsSpace(r[|r| - 1])
    ensures r == [] <==> AllSpace(s)
  {
    var t := TrimStart(s);
    TrimSlice(s, t, TrimEnd(t));
    TrimEmpty(s, t, TrimEnd(t));
    TrimEnd(t)
  }

  lemma TrimSlice(s: string, t: string, r: string)
    requires |t| <= |s| && t == s[|s| - |t|..]
    requires |r| <= |t| && r == t[..|r|]
    ensures r == s[|s| - |t|..|s| - |t| + |r|]
    ensures r != [] ==> r[0] == t[0]
  {
  }

  lemma TrimEmpty(s: string, t: string, r: string)
    requires |t| <= |s| && t == s[|s| - |t|..] && AllSpace(s[..|s| - |t|])
    requires t == [] || !IsSpace(t[0])
    requires |r| <= |t| && AllSpace(t[|r|..])
    ensures r == [] <==> AllSpace(s)
  {
    if r == [] {
      assert s[..|s| - |t|] == s;
    }
  }

  /** Trimming a string that is already trimmed changes nothing. */
  lemma {:induction false} TrimIdempotent(s: string)
    ensures Trim(Trim(s)) == Trim(s)
  {
    var r := Trim(s);
    if r != [] {
      assert TrimStart(r) == r;
      assert TrimEnd(r) == r;
    }
  }

  /** Case folding of one character: ASCII `A`-`Z` and the Latin-1 capitals `À`-`Þ` (but `×`). */
  function LowerChar(c: char): char {
    var o := c as int;
    if 65 <= o <= 90 || (0xC0 <= o <= 0xDE && o != 0xD7) then (o + 32) as char else c
  }

  /** `toLowerCase`, character by character. */
  function ToLower(s: string): (r: string)
    ensures |r| == |s|
    ensures forall k :: 0 <= k < |s| ==> r[k] == LowerChar(s[k])
  {
    seq(|s|, k requires 0 <= k < |s| => LowerChar(s[k]))
  }

  predicate OccursAt(s: string, sub: string, i: int) {
    0 <= i && i + |sub| <= |s| && s[i..i + |sub|] == sub
  }

  /** `s.includes(sub)`. */
  predicate Contains(s: string, sub: string) {
    exists i :: 0 <= i <= |s| - |sub| && OccursAt(s, sub, i)
  }

  /** `s.startsWith(prefix)`. */
  predicate StartsWith(s: string, prefix: string) {
    |prefix| <= |s| && s[..|prefix|] == prefix
  }

  /**
   * Code-unit lexicographic order: JavaScript's `a < b` on strings, and the order
   * `localeCompare` gives on strings made of digits and `-`.
   */
  predicate StrLt(a: string, b: string) {
    if a == [] then b != []
    else if b == [] then false
    else if a[0] != b[0] then a[0] < b[0]
    else StrLt(a[1..], b[1..])
  }

  predicate StrLe(a: string, b: string) {
    !StrLt(b, a)
  }

  lemma {:induction false} StrLtIrreflexive(a: string)
    ensures !StrLt(a, a)
  {
    if a != [] { StrLtIrreflexive(a[1..]); }
  }

  lemma {:induction false} StrLtAsymmetric(a: string, b: string)
    ensures !(StrLt(a, b) && StrLt(b, a))
  {
    if a != [] && b != [] && a[0] == b[0] { StrLtAsymmetric(a[1..], b[1..]); }
  }

  lemma {:induction false} StrLtTransitive(a: string, b: string, c: string)
    requires StrLt(a, b) && StrLt(b, c)
    ensures StrLt(a, c)
  {
    if a != [] && a[0] == b[0] && b[0] == c[0] {
      StrLtTransitive(a[1..], b[1..], c[1..]);
    }
  }

  lemma {:induction false} StrLtTrichotomy(a: string, b: string)
    ensures a == b || StrLt(a, b) || StrLt(b, a)
  {
    if a != [] && b != [] && a[0] == b[0] {
      StrLtTrichotomy(a[1..], b[1..]);
      if a[1..] == b[1..] {
        assert a == [a[0]] + a[1..] && b == [b[0]] + b[1..];
      }
    }
  }

  /** `StrLe` is a total preorder: total ... */
  lemma StrLeTotal(a: string, b: string)
    ensures StrLe(a, b) || StrLe(b, a)
  {
    StrLtAsymmetric(a, b);
  }

  /** ... and transitive. */
  lemma StrLeTransitive(a: string, b: string, c: string)
    requires StrLe(a, b) && StrLe(b, c)
    ensures StrLe(a, c)
  {
    StrLtTrichotomy(a, b);
    StrLtTrichotomy(b, c);
    if a != b && b != c {
      StrLtTransitive(a, b, c);
      StrLtAsymmetric(a, c);
    }
  }
}
