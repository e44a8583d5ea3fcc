/** The parts of Rust's `str` that the greeting core relies on: `char::is_whitespace`,
    `str::trim` and `str::len`, which counts UTF-8 bytes rather than characters.
    A `string` is a sequence of Unicode scalar values, exactly what a Rust `String` holds. */
module Text {

  /** Rust's `char::is_whitespace`: the Unicode White_Space property. */
  predicate IsWhitespace(c: char) {
    var u := c as int;
    || (0x09 <= u <= 0x0D) || u == 0x20 || u == 0x85 || u == 0xA0 || u == 0x1680
    || (0x2000 <= u <= 0x200A) || u == 0x2028 || u == 0x2029 || u == 0x202F
    || u == 0x205F || u == 0x3000
  }

  /** Every character of `s` is whitespace (vacuously so for the empty string). */
  predicate AllWhitespace(s: string) {
    forall i :: 0 <= i < |s| ==> IsWhitespace(s[i])
  }

  /** `str::trim_start`: drops the leading whitespace; the result is a suffix of `s`. */
  function TrimStart(s: string): (r: string)
    ensures |r| <= |s| && r == s[|s| - |r|..]
    ensures forall i :: 0 <= i < |s| - |r| ==> IsWhitespace(s[i])
    ensures r == [] || !IsWhitespace(r[0])
  {
    if |s| > 0 && IsWhitespace(s[0]) then TrimStart(s[1..]) else s
  }

  /** `str::trim_end`: drops the trailing whitespace; the result is a prefix of `s`. */
  function TrimEnd(s: string): (r: string)
    ensures |r| <= |s| && r == s[..|r|]
    ensures forall i :: |r| <= i < |s| ==> IsWhitespace(s[i])
    ensures r == [] || !IsWhitespace(r[|r| - 1])
  {
    if |s| > 0 && IsWhitespace(s[|s| - 1]) then TrimEnd(s[..|s| - 1]) else s
  }

  /** `str::trim`: the part of `s` between its leading and its trailing whitespace.
      It is empty exactly when `s` is all whitespace; otherwise it starts and ends with
      a non-whitespace character and is a contiguous piece of `s`. */
  function Trim(s: string): (r: string)
    ensures r == [] <==> AllWhitespace(s)
    ensures r != [] ==> !IsWhitespace(r[0]) && !IsWhitespace(r[|r| - 1])
    ensures var k := |s| - |TrimStart(s)|; k + |r| <= |s| && r == s[k..k + |r|]
    ensures var k := |s| - |TrimStart(s)|; forall i :: 0 <= i < k ==> IsWhitespace(s[i])
    ensures var k := |s| - |TrimStart(s)|;
      forall i :: k + |r| <= i < |s| ==> IsWhitespace(s[i])
  {
    TrimBothEnds(s, TrimStart(s), TrimEnd(TrimStart(s)));
    TrimEnd(TrimStart(s))
  }

  /** The facts behind `Trim`, stated for the two intermediate strings. */
  lemma TrimBothEnds(s: string, t: string, r: string)
    requires t == TrimStart(s) && r == TrimEnd(t)
    ensures r == [] <==> AllWhitespace(s)
    ensures r != [] ==> !IsWhitespace(r[0]) && !IsWhitespace(r[|r| - 1])
    ensures var k := |s| - |t|; k + |r| <= |s| && r == s[k..k + |r|]
    ensures var k := |s| - |t|; forall i :: 0 <= i < k ==> IsWhitespace(s[i])
    ensures var k := |s| - |t|; forall i :: k + |r| <= i < |s| ==> IsWhitespace(s[i])
  {
    PrefixOfSuffix(s, t, r);
    if r != [] {
      assert r[0] == t[0];
    } else {
      assert t == [];
    }
  }

  /** A prefix `r` of a suffix `t` of `s` is a slice of `s`; whatever `TrimEnd` dropped
      from `t` is also what lies after that slice in `s`. */
  lemma PrefixOfSuffix(s: string, t: string, r: string)
    requires |t| <= |s| && t == s[|s| - |t|..]
    requires |r| <= |t| && r == t[..|r|]
    requires forall i :: |r| <= i < |t| ==> IsWhitespace(t[i])
    ensures var k := |s| - |t|; r == s[k..k + |r|]
    ensures var k := |s| - |t|; forall i :: k + |r| <= i < |s| ==> IsWhitespace(s[i])
  {
  }

  /** Number of bytes Rust's UTF-8 encoding spends on `c`. */
  function Utf8Width(c: char): (w: nat)
    ensures 1 <= w <= 4
    ensures w == 1 <==> (c as int) < 0x80
  {
    var u := c as int;
    if u < 0x80 then 1
    else if u < 0x800 then 2
    else if u < 0x1_0000 then 3
    else 4
  }

  /** Rust's `str::len`: the length of `s` in UTF-8 bytes. */
  function ByteLen(s: string): (n: nat)
    ensures |s| <= n <= 4 * |s|
    ensures n == 0 <==> s == []
  {
    if s == [] then 0 else Utf8Width(s[0]) + ByteLen(s[1..])
  }

  /** Every character of `s` is ASCII. */
  predicate IsAscii(s: string) {
    forall i :: 0 <= i < |s| ==> (s[i] as int) < 0x80
  }

  /** The byte length of a concatenation is the sum of the byte lengths. */
  lemma {:induction false} ByteLenAppend(a: string, b: string)
    ensures ByteLen(a + b) == ByteLen(a) + ByteLen(b)
    decreases |a|
  {
    if a == [] {
      assert a + b == b;
    } else {
      assert (a + b)[1..] == a[1..] + b;
      ByteLenAppend(a[1..], b);
    }
  }

  /** Bytes and characters agree exactly on ASCII text. */
  lemma {:induction false} ByteLenAscii(s: string)
    ensures ByteLen(s) == |s| <==> IsAscii(s)
    decreases |s|
  {
    if s != [] {
      ByteLenAscii(s[1..]);
      assert IsAscii(s) <==> (s[0] as int) < 0x80 && IsAscii(s[1..]) by {
        if (s[0] as int) < 0x80 && IsAscii(s[1..]) {
          forall i | 0 <= i < |s| ensures (s[i] as int) < 0x80 {
            if i > 0 { assert s[i] == s[1..][i - 1]; }
          }
        }
      }
    }
  }

  /** `n` copies of `c`, Rust's `c.to_string().repeat(n)`. */
  function Repeat(c: char, n: nat): (s: string)
    ensures |s| == n
    ensures forall i :: 0 <= i < n ==> s[i] == c
  {
    if n == 0 then [] else [c] + Repeat(c, n - 1)
  }

  /** A run of one character takes that character's width once per copy. */
  lemma {:induction false} ByteLenRepeat(c: char, n: nat)
    ensures ByteLen(Repeat(c, n)) == n * Utf8Width(c)
  {
    if n > 0 {
      var s := Repeat(c, n);
      assert s[1..] == Repeat(c, n - 1);
      ByteLenRepeat(c, n - 1);
    }
  }
}
