/** The string operations of Swift and Foundation that the control-plane client is built from,
    over strings as sequences of Unicode scalar values. */
module Text {

  // ---------------------------------------------------------------------------------------------
  // Occurrences of a separator
  // ---------------------------------------------------------------------------------------------

  /** `sep` occurs in `s` starting at index `i`. */
  predicate OccursAt(s: string, sep: string, i: nat)
  {
    i + |sep| <= |s| && s[i..i + |sep|] == sep
  }

  /** No occurrence of `sep` in `s` starts before index `k`. */
  predicate NoOccurrenceBefore(s: string, sep: string, k: nat)
  {
    forall i: nat :: i < k ==> !OccursAt(s, sep, i)
  }

  predicate Contains(s: string, sep: string)
  {
    exists i: nat :: i <= |s| && OccursAt(s, sep, i)
  }

  /** Every occurrence of `sep` starts with `sep[0]`, so none starts inside a stretch free of it. */
  lemma NoOccurrenceInFree(a: string, rest: string, sep: string)
    requires sep != [] && sep[0] !in a
    ensures NoOccurrenceBefore(a + rest, sep, |a|)
  {
    forall i: nat | i < |a|
      ensures !OccursAt(a + rest, sep, i)
    {
      assert i + |sep| <= |a + rest| ==> (a + rest)[i..i + |sep|][0] == a[i];
    }
  }

  /** Freedom from occurrences composes along a concatenation. */
  lemma NoOccurrenceConcat(x: string, y: string, sep: string, k: nat)
    requires NoOccurrenceBefore(x + y, sep, |x|) && NoOccurrenceBefore(y, sep, k)
    ensures NoOccurrenceBefore(x + y, sep, |x| + k)
  {
    forall i: nat | |x| <= i < |x| + k
      ensures !OccursAt(x + y, sep, i)
    {
      assert i + |sep| <= |x + y| ==> (x + y)[i..i + |sep|] == y[i - |x|..i - |x| + |sep|];
      assert !OccursAt(y, sep, i - |x|);
    }
  }

  // ---------------------------------------------------------------------------------------------
  // components(separatedBy:) and joined(separator:)
  // ---------------------------------------------------------------------------------------------

  /** `s.components(separatedBy: sep)`: the pieces between the occurrences of `sep`, found from
      left to right without overlap. Empty pieces are kept, so there is one piece more than there
      are occurrences. */
  function Components(s: string, sep: string): (parts: seq<string>)
    requires sep != []
    ensures |parts| >= 1
    decreases |s|
  {
    if |s| < |sep| then [s]
    else if s[..|sep|] == sep then [[]] + Components(s[|sep|..], sep)
    else
      var rest := Components(s[1..], sep);
      [[s[0]] + rest[0]] + rest[1..]
  }

  /** `parts.joined(separator: sep)`. */
  function Join(parts: seq<string>, sep: string): string
  {
    if parts == [] then []
    else if |parts| == 1 then parts[0]
    else parts[0] + sep + Join(parts[1..], sep)
  }

  /** Joining the components again gives back the string: no occurrence of the separator is
      lost or invented. */
  lemma {:induction false} JoinComponents(s: string, sep: string)
    requires sep != []
    ensures Join(Components(s, sep), sep) == s
    decreases |s|
  {
    if |s| < |sep| {
    } else if s[..|sep|] == sep {
      var rest := Components(s[|sep|..], sep);
      JoinComponents(s[|sep|..], sep);
      assert Components(s, sep) == [[]] + rest;
      assert Join([[]] + rest, sep) == [] + sep + Join(rest, sep);
      assert s == sep + s[|sep|..];
    } else {
      var rest := Components(s[1..], sep);
      JoinComponents(s[1..], sep);
      JoinPrepended(s[0], rest, sep);
      assert Components(s, sep) == [[s[0]] + rest[0]] + rest[1..];
      assert s == [s[0]] + s[1..];
    }
  }

  /** A character put in front of the first piece stays in front of the joined text. */
  lemma JoinPrepended(c: char, rest: seq<string>, sep: string)
    requires |rest| >= 1
    ensures Join([[c] + rest[0]] + rest[1..], sep) == [c] + Join(rest, sep)
  {
    var parts := [[c] + rest[0]] + rest[1..];
    if |rest| > 1 {
      assert parts[1..] == rest[1..];
      assert Join(parts, sep) == [c] + rest[0] + sep + Join(rest[1..], sep);
    }
  }

  /** When the first occurrence of `sep` is right after `a`, the first component is `a` and
      the others are the components of what follows the separator. */
  lemma {:induction false} ComponentsAtFirst(s: string, sep: string, a: string, t: string)
    requires sep != [] && s == a + sep + t && NoOccurrenceBefore(s, sep, |a|)
    ensures Components(s, sep) == [a] + Components(t, sep)
    decreases |a|
  {
    if a == [] {
      assert s[..|sep|] == sep;
      assert s[|sep|..] == t;
    } else {
      assert !OccursAt(s, sep, 0);
      assert s[..|sep|] != sep;
      var s' := s[1..];
      assert s' == a[1..] + sep + t;
      forall i: nat | i < |a| - 1
        ensures !OccursAt(s', sep, i)
      {
        assert !OccursAt(s, sep, i + 1);
        assert i + |sep| <= |s'| ==> s'[i..i + |sep|] == s[i + 1..i + 1 + |sep|];
      }
      ComponentsAtFirst(s', sep, a[1..], t);
      assert [s[0]] + a[1..] == a;
    }
  }

  /** A string without the separator is its own single component. */
  lemma {:induction false} ComponentsWithout(s: string, sep: string)
    requires sep != [] && NoOccurrenceBefore(s, sep, |s|)
    ensures Components(s, sep) == [s]
    decreases |s|
  {
    if |s| >= |sep| {
      assert !OccursAt(s, sep, 0);
      assert s[..|sep|] != sep;
      forall i: nat | i < |s| - 1
        ensures !OccursAt(s[1..], sep, i)
      {
        assert !OccursAt(s, sep, i + 1);
        assert i + |sep| <= |s| - 1 ==> s[1..][i..i + |sep|] == s[i + 1..i + 1 + |sep|];
      }
      ComponentsWithout(s[1..], sep);
      assert [s[0]] + s[1..] == s;
    }
  }

  // ---------------------------------------------------------------------------------------------
  // split(separator:) on one character
  // ---------------------------------------------------------------------------------------------

  /** Every character of `s` is `c`. */
  predicate AllChar(s: string, c: char)
  {
    forall k :: 0 <= k < |s| ==> s[k] == c
  }

  /** The length of the longest prefix of `s` that is free of `c`. */
  function TokenLength(s: string, c: char): (n: nat)
    ensures n <= |s| && c !in s[..n] && (n < |s| ==> s[n] == c)
  {
    if s == [] || s[0] == c then 0
    else
      var n := 1 + TokenLength(s[1..], c);
      assert s[..n] == [s[0]] + s[1..][..n - 1];
      n
  }

  /** `s.split(separator: c)` with Swift's defaults: the maximal stretches free of `c`, in order;
      empty pieces are omitted. */
  function Split(s: string, c: char): (tokens: seq<string>)
    ensures forall k :: 0 <= k < |tokens| ==> tokens[k] != [] && c !in tokens[k]
    decreases |s|
  {
    if s == [] then []
    else if s[0] == c then Split(s[1..], c)
    else
      var n := TokenLength(s, c);
      [s[..n]] + Split(s[n..], c)
  }

  /** Leading separators produce no token. */
  lemma {:induction false} SplitSkipsSeparators(p: string, s: string, c: char)
    requires AllChar(p, c)
    ensures Split(p + s, c) == Split(s, c)
    decreases |p|
  {
    if p != [] {
      assert (p + s)[0] == p[0] == c;
      assert (p + s)[1..] == p[1..] + s;
      SplitSkipsSeparators(p[1..], s, c);
    } else {
      assert p + s == s;
    }
  }

  /** The token length is the length of any prefix free of `c` that ends at a separator or at
      the end. */
  lemma {:induction false} TokenLengthIs(s: string, c: char, m: nat)
    requires m <= |s| && c !in s[..m] && (m < |s| ==> s[m] == c)
    ensures TokenLength(s, c) == m
    decreases m
  {
    if m > 0 {
      assert s[..m][0] == s[0];
      assert s[1..][..m - 1] == s[..m][1..];
      TokenLengthIs(s[1..], c, m - 1);
    }
  }

  /** A stretch free of `c` that ends at a separator, or at the end, is the next token. */
  lemma SplitToken(a: string, s: string, c: char)
    requires a != [] && c !in a && (s == [] || s[0] == c)
    ensures Split(a + s, c) == [a] + Split(s, c)
  {
    assert (a + s)[..|a|] == a;
    assert (a + s)[|a|..] == s;
    assert (a + s)[0] == a[0];
    TokenLengthIs(a + s, c, |a|);
  }

  /** There are no tokens exactly when every character is a separator. */
  lemma {:induction false} SplitEmpty(s: string, c: char)
    ensures Split(s, c) == [] <==> AllChar(s, c)
    decreases |s|
  {
    if s != [] {
      SplitEmpty(s[1..], c);
      if s[0] == c {
        assert AllChar(s, c) <==> AllChar(s[1..], c);
      }
    }
  }

  /** The characters of the tokens come from `s`. */
  lemma {:induction false} SplitAvoids(s: string, c: char, d: char)
    requires d !in s
    ensures forall k :: 0 <= k < |Split(s, c)| ==> d !in Split(s, c)[k]
    decreases |s|
  {
    if s != [] {
      if s[0] == c {
        SplitAvoids(s[1..], c, d);
      } else {
        var n := TokenLength(s, c);
        assert d !in s[..n] by {
          forall k | 0 <= k < n ensures s[..n][k] != d { assert s[..n][k] == s[k]; }
        }
        assert d !in s[n..] by {
          forall k | 0 <= k < |s| - n ensures s[n..][k] != d { assert s[n..][k] == s[n + k]; }
        }
        SplitAvoids(s[n..], c, d);
      }
    }
  }

  /** A split into at least two tokens: `s` is separators, the first token, at least one
      separator, the second token, and a rest that starts at a separator. */
  lemma SplitFirstTwo(s: string, c: char) returns (p: string, m: string, r: string)
    requires |Split(s, c)| >= 2
    ensures AllChar(p, c) && AllChar(m, c) && m != []
    ensures s == p + Split(s, c)[0] + m + Split(s, c)[1] + r
    ensures (r == [] || r[0] == c) && Split(r, c) == Split(s, c)[2..]
  {
    var tokens := Split(s, c);
    var r0;
    p, r0 := SplitFirst(s, c);
    var rest := Split(r0, c);
    assert rest == tokens[1..];
    assert r0 != [] && r0[0] == c;
    SplitDropsSeparator(r0, c);
    var m1;
    m1, r := SplitFirst(r0[1..], c);
    m := [c] + m1;
    AllCharCons(c, m1);
    assert rest[0] == tokens[1];
    Regroup5(p, tokens[0], r0, c, m1, tokens[1], r);
  }

  /** A leading separator produces no token. */
  lemma SplitDropsSeparator(s: string, c: char)
    requires s != [] && s[0] == c
    ensures Split(s, c) == Split(s[1..], c)
  {
  }

  lemma AllCharCons(c: char, m: string)
    requires AllChar(m, c)
    ensures AllChar([c] + m, c)
  {
    forall k | 0 <= k < |[c] + m| ensures ([c] + m)[k] == c {
      if k > 0 { assert ([c] + m)[k] == m[k - 1]; }
    }
  }

  lemma Regroup5(p: string, a: string, r0: string, c: char, m1: string, b: string, r: string)
    requires r0 != [] && r0[0] == c && r0[1..] == m1 + b + r
    ensures p + a + r0 == p + a + ([c] + m1) + b + r
  {
    assert r0 == [c] + r0[1..];
  }

  /** The first token of a non-empty split, between leading separators and a rest that starts at
      a separator. */
  lemma {:induction false} SplitFirst(s: string, c: char) returns (m: string, r: string)
    requires |Split(s, c)| >= 1
    ensures AllChar(m, c) && s == m + Split(s, c)[0] + r
    ensures (r == [] || r[0] == c) && Split(r, c) == Split(s, c)[1..]
    decreases |s|
  {
    if s[0] == c {
      var m', r' := SplitFirst(s[1..], c);
      m, r := [c] + m', r';
      assert s == [s[0]] + s[1..];
    } else {
      var n := TokenLength(s, c);
      m, r := [], s[n..];
      assert s == s[..n] + s[n..];
    }
  }

  /** Separators, a token and a rest starting at a separator split into that token followed by
      the rest's tokens. */
  lemma SplitOfOne(m: string, b: string, r: string, c: char)
    requires AllChar(m, c) && b != [] && c !in b && (r == [] || r[0] == c)
    ensures Split(m + (b + r), c) == [b] + Split(r, c)
  {
    SplitToken(b, r, c);
    SplitSkipsSeparators(m, b + r, c);
  }

  /** The converse: separators, two tokens, at least one separator between them and a rest
      starting at a separator split into those two tokens followed by the rest's tokens. */
  lemma SplitOfTwo(p: string, a: string, m: string, b: string, r: string, c: char)
    requires AllChar(p, c) && AllChar(m, c) && m != []
    requires a != [] && c !in a && b != [] && c !in b && (r == [] || r[0] == c)
    ensures Split(p + a + m + b + r, c) == [a, b] + Split(r, c)
  {
    var y := m + (b + r);
    var tail := Split(r, c);
    SplitOfOne(m, b, r, c);
    assert Split(y, c) == [b] + tail;
    assert y[0] == m[0] == c;
    SplitOfOne(p, a, y, c);
    assert Split(p + (a + y), c) == [a] + ([b] + tail);
    assert [a] + ([b] + tail) == [a, b] + tail;
    Associate(p, a, m, b, r);
  }

  lemma Associate(p: string, a: string, m: string, b: string, r: string)
    ensures p + a + m + b + r == p + (a + (m + (b + r)))
  {
  }

  // ---------------------------------------------------------------------------------------------
  // Trimming and lower-casing
  // ---------------------------------------------------------------------------------------------

  /** Membership in Foundation's `CharacterSet.whitespaces`: the horizontal tab and the Unicode
      space separators (general category Zs). */
  predicate IsWhitespace(c: char)
  {
    || c == '\t' || c == ' ' || c == '\U{A0}' || c == '\U{1680}'
    || ('\U{2000}' <= c <= '\U{200A}') || c == '\U{202F}' || c == '\U{205F}' || c == '\U{3000}'
  }

  predicate AllWhitespace(s: string)
  {
    forall k :: 0 <= k < |s| ==> IsWhitespace(s[k])
  }

  /** Drops the whitespace at the front: what is left is a suffix with no whitespace in front. */
  function TrimFront(s: string): (r: string)
    ensures |r| <= |s| && r == s[|s| - |r|..] && AllWhitespace(s[..|s| - |r|])
    ensures r == [] || !IsWhitespace(r[0])
    decreases |s|
  {
    if s != [] && IsWhitespace(s[0]) then
      var r := TrimFront(s[1..]);
      assert s[..|s| - |r|] == [s[0]] + s[1..][..|s| - 1 - |r|];
      r
    else s
  }

  /** Drops the whitespace at the back: what is left is a prefix with no whitespace at its end. */
  function TrimBack(s: string): (r: string)
    ensures |r| <= |s| && r == s[..|r|] && AllWhitespace(s[|r|..])
    ensures r == [] || !IsWhitespace(r[|r| - 1])
    decreases |s|
  {
    if s != [] && IsWhitespace(s[|s| - 1]) then
      var r := TrimBack(s[..|s| - 1]);
      assert s[|r|..] == s[..|s| - 1][|r|..] + [s[|s| - 1]];
      r
    else s
  }

  /** `s.trimmingCharacters(in: .whitespaces)`. */
  function Trim(s: string): string
  {
    TrimBack(TrimFront(s))
  }

  /** Trimming the front drops exactly a whitespace prefix that is followed by a character that
      is not whitespace, or by the end. */
  lemma {:induction false} TrimFrontIs(s: string, d: nat)
    requires d <= |s| && AllWhitespace(s[..d]) && (d < |s| ==> !IsWhitespace(s[d]))
    ensures TrimFront(s) == s[d..]
    decreases d
  {
    if d > 0 {
      assert s[..d][0] == s[0];
      assert s[1..][..d - 1] == s[..d][1..];
      assert s[1..][d - 1..] == s[d..];
      TrimFrontIs(s[1..], d - 1);
    }
  }

  /** Trimming the back drops exactly a whitespace suffix that follows a character that is not
      whitespace, or the start. */
  lemma {:induction false} TrimBackIs(s: string, e: nat)
    requires e <= |s| && AllWhitespace(s[e..]) && (0 < e ==> !IsWhitespace(s[e - 1]))
    ensures TrimBack(s) == s[..e]
    decreases |s| - e
  {
    if e < |s| {
      var s' := s[..|s| - 1];
      assert s[e..][|s| - 1 - e] == s[|s| - 1];
      assert s'[e..] == s[e..][..|s| - 1 - e];
      assert s'[..e] == s[..e];
      TrimBackIs(s', e);
    }
  }

  /** Trimming a word with whitespace around it, the word neither starting nor ending with
      whitespace, gives back the word. */
  lemma TrimAround(p: string, w: string, q: string)
    requires AllWhitespace(p) && AllWhitespace(q)
    requires w == [] || (!IsWhitespace(w[0]) && !IsWhitespace(w[|w| - 1]))
    ensures Trim(p + w + q) == w
  {
    var s := p + w + q;
    if w == [] {
      assert s == p + q;
      assert AllWhitespace(s[..|s|]) by {
        forall k | 0 <= k < |s| ensures IsWhitespace(s[..|s|][k]) {
          if k < |p| { assert s[k] == p[k]; } else { assert s[k] == q[k - |p|]; }
        }
      }
      TrimFrontIs(s, |s|);
    } else {
      assert s[..|p|] == p;
      assert s[|p|] == w[0];
      TrimFrontIs(s, |p|);
      assert s[|p|..] == w + q;
      assert (w + q)[|w|..] == q;
      assert (w + q)[|w| - 1] == w[|w| - 1];
      TrimBackIs(w + q, |w|);
      assert (w + q)[..|w|] == w;
    }
  }

  /** Lower-cases the ASCII letters and leaves every other character as it is. */
  function AsciiLower(c: char): char
  {
    if 'A' <= c <= 'Z' then (c as int + 32) as char else c
  }

  function Lower(s: string): (r: string)
    ensures |r| == |s|
  {
    seq(|s|, k requires 0 <= k < |s| => AsciiLower(s[k]))
  }

  // ---------------------------------------------------------------------------------------------
  // Decimal numerals
  // ---------------------------------------------------------------------------------------------

  predicate IsDigits(s: string)
  {
    forall k :: 0 <= k < |s| ==> '0' <= s[k] <= '9'
  }

  function DigitChar(d: nat): (c: char)
    requires d < 10
    ensures '0' <= c <= '9' && c as int - '0' as int == d
  {
    ('0' as int + d) as char
  }

  /** `String(n)` for a non-negative `Int`: its decimal digits, most significant first, with no
      leading zero. */
  function Decimal(n: nat): (r: string)
    ensures r != [] && IsDigits(r)
    ensures r[0] == '0' ==> n == 0
    decreases n
  {
    if n < 10 then [DigitChar(n)] else Decimal(n / 10) + [DigitChar(n % 10)]
  }

  function ParseDecimal(s: string): nat
    requires IsDigits(s)
    decreases |s|
  {
    if s == [] then 0 else 10 * ParseDecimal(s[..|s| - 1]) + (s[|s| - 1] as int - '0' as int)
  }

  /** Reading the numeral back gives the number. */
  lemma {:induction false} DecimalRoundTrip(n: nat)
    ensures ParseDecimal(Decimal(n)) == n
    decreases n
  {
    if n >= 10 {
      DecimalRoundTrip(n / 10);
      var r := Decimal(n);
      assert r[..|r| - 1] == Decimal(n / 10);
    }
  }

  // ---------------------------------------------------------------------------------------------
  // UTF-8 (RFC 3629)
  // ---------------------------------------------------------------------------------------------

  newtype byte = x: int | 0 <= x < 256

  /** The UTF-8 encoding of one Unicode scalar value, as in section 3 of RFC 3629. */
  function Utf8Char(c: char): (bytes: seq<byte>)
    ensures 1 <= |bytes| <= 4
    ensures |bytes| == 1 <==> c as int < 0x80
  {
    var v := c as int;
    if v < 0x80 then [v as byte]
    else if v < 0x800 then [(0xC0 + v / 0x40) as byte, (0x80 + v % 0x40) as byte]
    else if v < 0x1_0000 then
      [(0xE0 + v / 0x1000) as byte, (0x80 + v / 0x40 % 0x40) as byte, (0x80 + v % 0x40) as byte]
    else
      [(0xF0 + v / 0x4_0000) as byte, (0x80 + v / 0x1000 % 0x40) as byte,
       (0x80 + v / 0x40 % 0x40) as byte, (0x80 + v % 0x40) as byte]
  }

  /** `s.utf8`: the UTF-8 encoding of the whole string, one to four bytes per character. */
  function Utf8(s: string): (bytes: seq<byte>)
    ensures |s| <= |bytes| <= 4 * |s|
    decreases |s|
  {
    if s == [] then [] else Utf8Char(s[0]) + Utf8(s[1..])
  }

  predicate IsAscii(s: string)
  {
    forall k :: 0 <= k < |s| ==> s[k] as int < 0x80
  }

  lemma Utf8Cons(c: char, s: string)
    ensures Utf8([c] + s) == Utf8Char(c) + Utf8(s)
  {
    assert ([c] + s)[0] == c && ([c] + s)[1..] == s;
  }

  /** The encoding of a concatenation is the concatenation of the encodings. */
  lemma {:induction false} Utf8Concat(a: string, b: string)
    ensures Utf8(a + b) == Utf8(a) + Utf8(b)
    decreases |a|
  {
    if a != [] {
      var t := a[1..];
      assert a == [a[0]] + t && a + b == [a[0]] + (t + b);
      Utf8Cons(a[0], t + b);
      Utf8Cons(a[0], t);
      Utf8Concat(t, b);
    } else {
      assert a + b == b;
    }
  }

  /** An ASCII string takes one byte per character. */
  lemma {:induction false} Utf8Ascii(s: string)
    requires IsAscii(s)
    ensures |Utf8(s)| == |s|
    decreases |s|
  {
    if s != [] {
      Utf8Ascii(s[1..]);
    }
  }
}
