/** The .NET string operations the bot relies on: Char.IsWhiteSpace, Trim,
    ToLowerInvariant, Split, IndexOf, Contains, StartsWith and Int32.ToString. */
module Text {

  /** Char.IsWhiteSpace: the Unicode separators plus the C0/C1 control
      characters U+0009..U+000D and U+0085. */
  predicate IsWhiteSpace(c: char) {
    var n := c as int;
    (9 <= n <= 13) || n == 0x20 || n == 0x85 || n == 0xA0 || n == 0x1680
    || (0x2000 <= n <= 0x200A) || n == 0x2028 || n == 0x2029
    || n == 0x202F || n == 0x205F || n == 0x3000
  }

  /** Every character of `s` is white space (string.IsNullOrWhiteSpace). */
  predicate Blank(s: string) {
    forall i :: 0 <= i < |s| ==> IsWhiteSpace(s[i])
  }

  /** Every character of `a` also occurs in `b`. */
  predicate CharsWithin(a: string, b: string) {
    forall c :: c in a ==> c in b
  }

  /** string.TrimStart(): drops the leading white space. */
  function TrimStart(s: string): (r: string)
    ensures |r| <= |s|
    ensures r == [] || !IsWhiteSpace(r[0])
    decreases |s|
  {
    if |s| > 0 && IsWhiteSpace(s[0]) then TrimStart(s[1..]) else s
  }

  /** TrimStart removes exactly a blank prefix. */
  lemma {:induction false} TrimStartShape(s: string)
    ensures TrimStart(s) == s[|s| - |TrimStart(s)|..]
    ensures Blank(s[..|s| - |TrimStart(s)|])
    decreases |s|
  {
    if |s| > 0 && IsWhiteSpace(s[0]) {
      TrimStartShape(s[1..]);
      var k := |s| - |TrimStart(s)|;
      assert s[1..][k - 1..] == s[k..];
      assert forall i :: 1 <= i < k ==> s[..k][i] == s[1..][..k - 1][i - 1];
    }
  }

  /** string.TrimEnd(): drops the trailing white space. */
  function TrimEnd(s: string): (r: string)
    ensures |r| <= |s|
    ensures r == [] || !IsWhiteSpace(r[|r| - 1])
    decreases |s|
  {
    if |s| > 0 && IsWhiteSpace(s[|s| - 1]) then TrimEnd(s[..|s| - 1]) else s
  }

  /** TrimEnd removes exactly a blank suffix. */
  lemma {:induction false} TrimEndShape(s: string)
    ensures TrimEnd(s) == s[..|TrimEnd(s)|]
    ensures Blank(s[|TrimEnd(s)|..])
    decreases |s|
  {
    if |s| > 0 && IsWhiteSpace(s[|s| - 1]) {
      TrimEndShape(s[..|s| - 1]);
      var k := |TrimEnd(s)|;
      assert s[..|s| - 1][..k] == s[..k];
      assert forall i :: 0 <= i < |s| - 1 - k ==> s[k..][i] == s[..|s| - 1][k..][i];
    }
  }

  /** string.Trim(): drops white space at both ends. */
  function Trim(s: string): (r: string)
    ensures |r| <= |s|
    ensures r == [] || (!IsWhiteSpace(r[0]) && !IsWhiteSpace(r[|r| - 1]))
  {
    var t := TrimStart(s);
    TrimEndShape(t);
    TrimEnd(t)
  }

  /** Trimming keeps only characters of the original. */
  lemma TrimWithin(s: string)
    ensures CharsWithin(Trim(s), s)
  {
    var t := TrimStart(s);
    TrimStartShape(s);
    TrimEndShape(t);
    SliceCharsWithin(s, |s| - |t|, |s|);
    SliceCharsWithin(t, 0, |TrimEnd(t)|);
  }

  lemma SliceCharsWithin(s: string, i: nat, j: nat)
    requires i <= j <= |s|
    ensures CharsWithin(s[i..j], s)
  {
    forall c | c in s[i..j]
      ensures c in s
    {
      var k :| 0 <= k < j - i && s[i..j][k] == c;
      assert s[i + k] == c;
    }
  }

  lemma CharsWithinTrans(a: string, b: string, c: string)
    requires CharsWithin(a, b) && CharsWithin(b, c)
    ensures CharsWithin(a, c)
  {
  }

  /** Char.ToLowerInvariant restricted to ASCII letters. */
  function Lower(c: char): char {
    if 'A' <= c <= 'Z' then (c as int + 32) as char else c
  }

  /** string.ToLowerInvariant() (ASCII letters only); it never changes the length. */
  function LowerStr(s: string): (r: string)
    ensures |r| == |s|
    ensures forall i :: 0 <= i < |s| ==> r[i] == Lower(s[i])
  {
    seq(|s|, i requires 0 <= i < |s| => Lower(s[i]))
  }

  /** string.IndexOf(char): the first position of `c`, or -1. */
  function IndexOf(s: string, c: char): (r: int)
    ensures -1 <= r < |s|
    ensures r == -1 <==> c !in s
    ensures r >= 0 ==> s[r] == c && c !in s[..r]
    decreases |s|
  {
    if |s| == 0 then -1
    else if s[0] == c then 0
    else
      var k := IndexOf(s[1..], c);
      assert s[1..][..k + 1] == s[1..k + 2] by { assert k >= 0 ==> k + 2 <= |s|; }
      if k < 0 then -1 else k + 1
  }

  /** The first `c` is at position `k` when it is there and not before. */
  lemma IndexOfIs(s: string, c: char, k: nat)
    requires k < |s| && s[k] == c && c !in s[..k]
    ensures IndexOf(s, c) == k
  {
  }

  /** Joins `parts`, putting `sep` between neighbours (string.Join). */
  function Join(parts: seq<string>, sep: char): string
    requires |parts| >= 1
  {
    if |parts| == 1 then parts[0] else parts[0] + [sep] + Join(parts[1..], sep)
  }

  /** string.Split(char): the pieces between occurrences of `sep`, empty
      pieces included; there is always at least one piece. */
  function Split(s: string, sep: char): (parts: seq<string>)
    ensures |parts| >= 1
    ensures |parts| == 1 <==> sep !in s
    ensures forall i :: 0 <= i < |parts| ==> sep !in parts[i]
    decreases |s|
  {
    var i := IndexOf(s, sep);
    if i < 0 then [s]
    else
      var rest := Split(s[i + 1..], sep);
      assert sep == s[i];
      assert forall k :: 1 <= k < |rest| + 1 ==> ([s[..i]] + rest)[k] == rest[k - 1];
      [s[..i]] + rest
  }

  /** Joining a first piece in front of the others puts one separator
      between them. */
  lemma JoinCons(a: string, rest: seq<string>, sep: char)
    requires |rest| >= 1
    ensures Join([a] + rest, sep) == a + [sep] + Join(rest, sep)
  {
    assert ([a] + rest)[1..] == rest;
  }

  /** Joining the pieces of a split with the same separator gives the
      original text back. */
  lemma {:induction false} SplitJoin(s: string, sep: char)
    ensures Join(Split(s, sep), sep) == s
    decreases |s|
  {
    if sep in s {
      var i := IndexOf(s, sep);
      var a, b := s[..i], s[i + 1..];
      assert s == a + [sep] + b;
      SplitCons(a, sep, b);
      JoinCons(a, Split(b, sep), sep);
      SplitJoin(b, sep);
    } else {
      SplitNoSeparator(s, sep);
    }
  }

  /** The first piece of `s.Split(null)`: everything up to the first
      white-space character. */
  function FirstToken(s: string): (r: string)
    ensures |r| <= |s| && r == s[..|r|]
    ensures forall i :: 0 <= i < |r| ==> !IsWhiteSpace(r[i])
    ensures |r| == |s| || IsWhiteSpace(s[|r|])
    decreases |s|
  {
    if |s| == 0 || IsWhiteSpace(s[0]) then [] else [s[0]] + FirstToken(s[1..])
  }

  /** string.StartsWith(string), compared ordinally. */
  predicate StartsWith(s: string, prefix: string) {
    |prefix| <= |s| && s[..|prefix|] == prefix
  }

  /** A text starts with anything it is built from. */
  lemma StartsWithAppend(p: string, rest: string)
    ensures StartsWith(p + rest, p)
  {
    assert (p + rest)[..|p|] == p;
  }

  /** string.Contains(string), compared ordinally. */
  predicate Contains(s: string, sub: string)
    decreases |s|
  {
    |sub| <= |s| && (s[..|sub|] == sub || Contains(s[1..], sub))
  }

  /** A text contains whatever sits anywhere inside it. */
  lemma {:induction false} ContainsMiddle(a: string, x: string, b: string)
    ensures Contains(a + x + b, x)
    decreases |a|
  {
    if |a| == 0 {
      assert (a + x + b)[..|x|] == x;
    } else {
      assert (a + x + b)[1..] == a[1..] + x + b;
      ContainsMiddle(a[1..], x, b);
    }
  }

  function Digit(d: nat): char
    requires d < 10
  {
    "0123456789"[d]
  }

  /** Int32.ToString() of a non-negative count. */
  function NatToString(n: nat): (r: string)
    ensures |r| >= 1
    ensures forall i :: 0 <= i < |r| ==> '0' <= r[i] <= '9'
    decreases n
  {
    if n < 10 then [Digit(n)] else NatToString(n / 10) + [Digit(n % 10)]
  }

  // ---------------------------------------------------------------------
  // Facts about trimming and splitting used by the proofs of the store.

  lemma TrimStartIdempotent(s: string)
    ensures TrimStart(TrimStart(s)) == TrimStart(s)
  {
  }

  lemma TrimEndIdempotent(s: string)
    ensures TrimEnd(TrimEnd(s)) == TrimEnd(s)
  {
  }

  /** Leading white space never reaches past a non-white character. */
  lemma {:induction false} TrimStartPast(a: string, c: char, b: string)
    requires !IsWhiteSpace(c)
    ensures TrimStart(a + [c] + b) == TrimStart(a) + [c] + b
    decreases |a|
  {
    if |a| > 0 && IsWhiteSpace(a[0]) {
      assert (a + [c] + b)[1..] == a[1..] + [c] + b;
      TrimStartPast(a[1..], c, b);
    }
  }

  /** Trailing white space never reaches past a non-white character. */
  lemma {:induction false} TrimEndPast(a: string, c: char, b: string)
    requires !IsWhiteSpace(c)
    ensures TrimEnd(a + [c] + b) == a + [c] + TrimEnd(b)
    decreases |b|
  {
    if |b| > 0 && IsWhiteSpace(b[|b| - 1]) {
      assert (a + [c] + b)[..|a + [c] + b| - 1] == a + [c] + b[..|b| - 1];
      TrimEndPast(a, c, b[..|b| - 1]);
    }
  }

  lemma {:induction false} TrimStartBlankPrefix(w: string, s: string)
    requires Blank(w)
    ensures TrimStart(w + s) == TrimStart(s)
    decreases |w|
  {
    if |w| > 0 {
      assert (w + s)[1..] == w[1..] + s;
      TrimStartBlankPrefix(w[1..], s);
    } else {
      assert w + s == s;
    }
  }

  lemma {:induction false} TrimEndBlankSuffix(s: string, w: string)
    requires Blank(w)
    ensures TrimEnd(s + w) == TrimEnd(s)
    decreases |w|
  {
    if |w| > 0 {
      assert (s + w)[..|s + w| - 1] == s + w[..|w| - 1];
      TrimEndBlankSuffix(s, w[..|w| - 1]);
    } else {
      assert s + w == s;
    }
  }

  lemma {:induction false} TrimStartNonBlank(a: string, b: string)
    requires !Blank(a)
    ensures TrimStart(a + b) == TrimStart(a) + b
    decreases |a|
  {
    assert |a| > 0;
    assert (a + b)[0] == a[0];
    if IsWhiteSpace(a[0]) {
      assert (a + b)[1..] == a[1..] + b;
      assert !Blank(a[1..]) by {
        var k :| 0 <= k < |a| && !IsWhiteSpace(a[k]);
        assert a[1..][k - 1] == a[k];
      }
      TrimStartNonBlank(a[1..], b);
    }
  }

  lemma TrimStartWithin(s: string)
    ensures CharsWithin(TrimStart(s), s)
  {
    TrimStartShape(s);
    SliceCharsWithin(s, |s| - |TrimStart(s)|, |s|);
  }

  lemma TrimEndWithin(s: string)
    ensures CharsWithin(TrimEnd(s), s)
  {
    TrimEndShape(s);
    SliceCharsWithin(s, 0, |TrimEnd(s)|);
  }

  lemma TrimStartBlank(s: string)
    requires Blank(s)
    ensures TrimStart(s) == []
  {
    TrimStartShape(s);
  }

  lemma TrimIdempotent(s: string)
    ensures Trim(Trim(s)) == Trim(s)
  {
    var t := TrimStart(s);
    var u := TrimEnd(t);
    TrimEndShape(t);
    assert u != [] ==> u[0] == t[0];
    assert TrimStart(u) == u;
    TrimEndIdempotent(t);
  }

  /** Trim ignores white space padding on either side. */
  lemma TrimPadded(w1: string, a: string, w2: string)
    requires Blank(w1) && Blank(w2)
    ensures Trim(w1 + a + w2) == Trim(a)
  {
    assert w1 + a + w2 == w1 + (a + w2);
    TrimStartBlankPrefix(w1, a + w2);
    if Blank(a) {
      assert Blank(a + w2);
      TrimStartBlank(a + w2);
      TrimStartBlank(a);
    } else {
      TrimStartNonBlank(a, w2);
      TrimEndBlankSuffix(TrimStart(a), w2);
    }
  }

  /** A white space character in front does not change the trim. */
  lemma TrimSkipsWhiteHead(s: string)
    requires |s| > 0 && IsWhiteSpace(s[0])
    ensures Trim(s[1..]) == Trim(s)
  {
    TrimPadded([s[0]], s[1..], []);
    assert [s[0]] + s[1..] + [] == s;
    TrimPadded([], s[1..], []);
    assert [] + s[1..] + [] == s[1..];
  }

  lemma LowerKeepsWhiteSpace(c: char)
    ensures IsWhiteSpace(Lower(c)) == IsWhiteSpace(c)
  {
  }

  lemma {:induction false} TrimStartLower(s: string)
    ensures TrimStart(LowerStr(s)) == LowerStr(TrimStart(s))
    decreases |s|
  {
    if |s| > 0 {
      LowerKeepsWhiteSpace(s[0]);
      assert LowerStr(s)[1..] == LowerStr(s[1..]);
      TrimStartLower(s[1..]);
    }
  }

  lemma {:induction false} TrimEndLower(s: string)
    ensures TrimEnd(LowerStr(s)) == LowerStr(TrimEnd(s))
    decreases |s|
  {
    if |s| > 0 {
      LowerKeepsWhiteSpace(s[|s| - 1]);
      assert LowerStr(s)[..|s| - 1] == LowerStr(s[..|s| - 1]);
      TrimEndLower(s[..|s| - 1]);
    }
  }

  /** Lower-casing and trimming commute. */
  lemma TrimLower(s: string)
    ensures Trim(LowerStr(s)) == LowerStr(Trim(s))
  {
    TrimStartLower(s);
    TrimEndLower(TrimStart(s));
  }

  lemma LowerStrIdempotent(s: string)
    ensures LowerStr(LowerStr(s)) == LowerStr(s)
  {
  }

  /** The first separator ends the first piece. */
  lemma SplitCons(a: string, sep: char, b: string)
    requires sep !in a
    ensures Split(a + [sep] + b, sep) == [a] + Split(b, sep)
  {
    var s := a + [sep] + b;
    assert s[|a|] == sep;
    assert s[..|a|] == a;
    assert IndexOf(s, sep) == |a|;
    assert s[|a| + 1..] == b;
  }

  /** Every piece of a split is made of characters of the whole. */
  lemma {:induction false} SplitWithin(s: string, sep: char)
    ensures forall i :: 0 <= i < |Split(s, sep)| ==> CharsWithin(Split(s, sep)[i], s)
    decreases |s|
  {
    var parts := Split(s, sep);
    var i := IndexOf(s, sep);
    if i < 0 {
      assert s[0..|s|] == s;
      SliceCharsWithin(s, 0, |s|);
    } else {
      var rest := Split(s[i + 1..], sep);
      assert parts == [s[..i]] + rest;
      SplitWithin(s[i + 1..], sep);
      assert s[0..i] == s[..i];
      SliceCharsWithin(s, 0, i);
      var tail := s[i + 1..];
      assert tail == s[i + 1..|s|];
      SliceCharsWithin(s, i + 1, |s|);
      forall k | 1 <= k < |parts|
        ensures CharsWithin(parts[k], s)
      {
        assert parts[k] == rest[k - 1];
        CharsWithinTrans(rest[k - 1], tail, s);
      }
    }
  }

  lemma SplitNoSeparator(s: string, sep: char)
    requires sep !in s
    ensures Split(s, sep) == [s]
  {
  }
}
