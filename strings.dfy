/**
  String operations of the JavaScript and Java standard libraries that the
  Coderacer core relies on, written out over `seq<char>` with the same edge
  cases (index clamping, the whitespace sets of `\s` and `trim`, splitting on
  one separator character).
*/
module Strings {

  /** JavaScript's `\s` class. ECMAScript uses the same code points (WhiteSpace
      and LineTerminator) for `String.prototype.trim`. */
  predicate IsJsSpace(c: char) {
    c == '\t' || c == '\n' || c == '\U{0B}' || c == '\U{0C}' || c == '\r' || c == ' '
    || c == '\U{A0}' || c == '\U{1680}' || ('\U{2000}' <= c <= '\U{200A}')
    || c == '\U{2028}' || c == '\U{2029}' || c == '\U{202F}' || c == '\U{205F}'
    || c == '\U{3000}' || c == '\U{FEFF}'
  }

  /** Java's `String.trim` removes every character whose code is at most U+0020. */
  predicate IsJavaTrimmed(c: char) {
    c <= ' '
  }

  predicate AllJsSpace(s: string) {
    forall i :: 0 <= i < |s| ==> IsJsSpace(s[i])
  }

  predicate NoJsSpace(s: string) {
    forall i :: 0 <= i < |s| ==> !IsJsSpace(s[i])
  }

  // ---------------------------------------------------------------- trimming

  /** Drops the longest prefix made of characters `drop` selects. */
  function StripLeading(s: string, drop: char -> bool): (r: string)
    ensures |r| <= |s|
    decreases |s|
  {
    if s != [] && drop(s[0]) then StripLeading(s[1..], drop) else s
  }

  /** What StripLeading leaves is a suffix that does not start with a dropped
      character, and all it removes is dropped. */
  lemma {:induction false} StripLeadingSpec(s: string, drop: char -> bool)
    ensures var r := StripLeading(s, drop);
      && r == s[|s| - |r|..]
      && (r != [] ==> !drop(r[0]))
      && (forall i :: 0 <= i < |s| - |r| ==> drop(s[i]))
    decreases |s|
  {
    if s != [] && drop(s[0]) {
      StripLeadingSpec(s[1..], drop);
      var r := StripLeading(s, drop);
      forall i | 0 <= i < |s| - |r| ensures drop(s[i]) {
        if i > 0 { assert s[i] == s[1..][i - 1]; }
      }
    }
  }

  /** Drops the longest suffix made of characters `drop` selects. */
  function StripTrailing(s: string, drop: char -> bool): (r: string)
    ensures |r| <= |s|
    decreases |s|
  {
    if s != [] && drop(s[|s| - 1]) then StripTrailing(s[..|s| - 1], drop) else s
  }

  /** What StripTrailing leaves is a prefix that does not end with a dropped
      character, and all it removes is dropped. */
  lemma {:induction false} StripTrailingSpec(s: string, drop: char -> bool)
    ensures var r := StripTrailing(s, drop);
      && r == s[..|r|]
      && (r != [] ==> !drop(r[|r| - 1]))
      && (forall i :: |r| <= i < |s| ==> drop(s[i]))
    decreases |s|
  {
    if s != [] && drop(s[|s| - 1]) {
      StripTrailingSpec(s[..|s| - 1], drop);
      var r := StripTrailing(s, drop);
      forall i | |r| <= i < |s| ensures drop(s[i]) {
        if i < |s| - 1 { assert s[i] == s[..|s| - 1][i]; }
      }
    }
  }

  /** JavaScript's `\s` as a value, so that proofs over a character class see
      it as an opaque class unless they look through it. */
  const JsSpace: char -> bool := IsJsSpace

  /** Drops the longest prefix and the longest suffix selected by `drop`. */
  function Trim(s: string, drop: char -> bool): string {
    StripTrailing(StripLeading(s, drop), drop)
  }

  /** JavaScript `s.trim()`. */
  function JsTrim(s: string): string {
    Trim(s, JsSpace)
  }

  /** Java `s.trim()`. */
  function JavaTrim(s: string): string {
    Trim(s, IsJavaTrimmed)
  }

  /** A trimmed string is a slice of `s` that neither starts nor ends with a
      dropped character, and everything cut away on either side is dropped. */
  lemma {:induction false} TrimIsSlice(s: string, drop: char -> bool)
    ensures var t := Trim(s, drop); var a := |s| - |StripLeading(s, drop)|;
      && a + |t| <= |s| && t == s[a..a + |t|]
      && (t != [] ==> !drop(t[0]) && !drop(t[|t| - 1]))
      && (forall i :: 0 <= i < a ==> drop(s[i]))
      && (forall i :: a + |t| <= i < |s| ==> drop(s[i]))
  {
    var l := StripLeading(s, drop);
    var t := StripTrailing(l, drop);
    var a := |s| - |l|;
    StripLeadingSpec(s, drop);
    StripTrailingSpec(l, drop);
    assert l == s[a..];
    assert t == l[..|t|];
    forall i | a + |t| <= i < |s| ensures drop(s[i]) {
      assert s[i] == l[i - a];
    }
  }

  /** Trimming leaves a string alone when neither end is dropped. */
  lemma TrimUnchanged(s: string, drop: char -> bool)
    requires s != [] && !drop(s[0]) && !drop(s[|s| - 1])
    ensures Trim(s, drop) == s
  {
  }

  /** A string is blank (falsy after `trim()`) exactly when all its characters are whitespace. */
  lemma JsTrimEmptyIff(s: string)
    ensures JsTrim(s) == [] <==> AllJsSpace(s)
  {
    TrimEmptyIff(s, JsSpace);
  }

  lemma {:induction false} TrimEmptyIff(s: string, drop: char -> bool)
    ensures Trim(s, drop) == [] <==> forall i :: 0 <= i < |s| ==> drop(s[i])
  {
    TrimIsSlice(s, drop);
  }

  // ---------------------------------------------------------------- prefixes

  predicate StartsWith(s: string, p: string) {
    |p| <= |s| && s[..|p|] == p
  }

  predicate EndsWith(s: string, p: string) {
    |p| <= |s| && s[|s| - |p|..] == p
  }

  // ---------------------------------------------------------------- searching

  predicate OccursAt(s: string, pat: string, k: int) {
    0 <= k && k + |pat| <= |s| && s[k..k + |pat|] == pat
  }

  /** JavaScript `s.indexOf(pat, from)` for a position inside the string: the
      first occurrence at or after `from`, or -1. */
  function IndexOf(s: string, pat: string, from: nat): (r: int)
    requires from <= |s|
    ensures r == -1 || (from <= r && OccursAt(s, pat, r))
    ensures forall k :: from <= k && (r == -1 || k < r) ==> !OccursAt(s, pat, k)
    decreases |s| - from
  {
    if from + |pat| > |s| then -1
    else if s[from..from + |pat|] == pat then from
    else IndexOf(s, pat, from + 1)
  }

  /** The first occurrence found from 0 is the one with no earlier start
      of the pattern's first character. */
  lemma IndexOfIs(s: string, pat: string, k: nat)
    requires pat != [] && OccursAt(s, pat, k)
    requires forall j :: 0 <= j < k ==> s[j] != pat[0]
    ensures IndexOf(s, pat, 0) == k
  {
    forall j | 0 <= j < k ensures !OccursAt(s, pat, j) {
      if j + |pat| <= |s| {
        assert s[j..j + |pat|][0] == s[j];
      }
    }
  }

  /** JavaScript `text.includes(pat)`. */
  predicate Includes(text: string, pat: string) {
    IndexOf(text, pat, 0) != -1
  }

  lemma IncludesIff(text: string, pat: string)
    ensures Includes(text, pat) <==> exists k :: OccursAt(text, pat, k)
  {
  }

  /** The greatest index `k <= hi` holding `c`, or -1. */
  function LastIndexUpTo(s: string, c: char, hi: int): (r: int)
    requires -1 <= hi < |s|
    ensures -1 <= r <= hi
    ensures r >= 0 ==> s[r] == c
    ensures forall k :: r < k <= hi && 0 <= k ==> s[k] != c
    decreases hi + 1
  {
    if hi < 0 then -1 else if s[hi] == c then hi else LastIndexUpTo(s, c, hi - 1)
  }

  /** JavaScript `s.lastIndexOf(c, from)` for a one-character search string: the
      position is clamped into [0, |s|] before searching backwards, so
      `lastIndexOf(c, -1)` still inspects index 0. */
  function LastIndexOf(s: string, c: char, from: int): int {
    var start := if from < 0 then 0 else if from > |s| then |s| else from;
    LastIndexUpTo(s, c, if start < |s| then start else |s| - 1)
  }

  /** JavaScript `s.substring(a, b)`: both ends are clamped into [0, |s|] and
      swapped when the first exceeds the second. */
  function Substring(s: string, a: int, b: int): (r: string)
    ensures 0 <= a <= b <= |s| ==> r == s[a..b]
  {
    var a' := if a < 0 then 0 else if a > |s| then |s| else a;
    var b' := if b < 0 then 0 else if b > |s| then |s| else b;
    if a' <= b' then s[a'..b'] else s[b'..a']
  }

  // ---------------------------------------------------------------- counting

  function Count(s: string, c: char): (n: nat)
    ensures n <= |s|
  {
    if s == [] then 0 else (if s[0] == c then 1 else 0) + Count(s[1..], c)
  }

  lemma {:induction false} CountAppend(a: string, b: string, c: char)
    ensures Count(a + b, c) == Count(a, c) + Count(b, c)
  {
    if a == [] {
      assert a + b == b;
    } else {
      assert (a + b)[0] == a[0];
      assert (a + b)[1..] == a[1..] + b;
      CountAppend(a[1..], b, c);
    }
  }

  lemma CountAbsent(s: string, c: char)
    requires forall i :: 0 <= i < |s| ==> s[i] != c
    ensures Count(s, c) == 0
  {
    if s != [] {
      CountAbsent(s[1..], c);
    }
  }

  // ---------------------------------------------------------------- split / join

  /** JavaScript `s.split(sep)` for a one-character separator string. */
  function Split(s: string, sep: char): (r: seq<string>)
    ensures |r| >= 1
    decreases |s|
  {
    if s == [] then [""]
    else if s[0] == sep then [""] + Split(s[1..], sep)
    else var t := Split(s[1..], sep); [[s[0]] + t[0]] + t[1..]
  }

  /** JavaScript `lines.join(sep)`. */
  function Join(lines: seq<string>, sep: char): string
  {
    if |lines| == 0 then ""
    else if |lines| == 1 then lines[0]
    else lines[0] + [sep] + Join(lines[1..], sep)
  }

  predicate Free(lines: seq<string>, sep: char) {
    forall i, k :: 0 <= i < |lines| && 0 <= k < |lines[i]| ==> lines[i][k] != sep
  }

  /** Splitting yields one more piece than there are separators. */
  lemma {:induction false} SplitLength(s: string, sep: char)
    ensures |Split(s, sep)| == Count(s, sep) + 1
  {
    if s != [] {
      SplitLength(s[1..], sep);
    }
  }

  /** No piece of a split contains the separator. */
  lemma {:induction false} SplitFree(s: string, sep: char)
    ensures Free(Split(s, sep), sep)
  {
    if s != [] {
      SplitFree(s[1..], sep);
      var t := Split(s[1..], sep);
      if s[0] != sep {
        var r := Split(s, sep);
        forall i, k | 0 <= i < |r| && 0 <= k < |r[i]| ensures r[i][k] != sep {
          if i == 0 {
            if k > 0 { assert r[0][k] == t[0][k - 1]; }
          } else {
            assert r[i] == t[i];
          }
        }
      }
    }
  }

  /** Joining the pieces of a split gives the string back. */
  lemma {:induction false} JoinSplit(s: string, sep: char)
    ensures Join(Split(s, sep), sep) == s
  {
    if s != [] {
      JoinSplit(s[1..], sep);
      var t := Split(s[1..], sep);
      if s[0] == sep {
        assert Split(s, sep) == [""] + t;
        assert ([""] + t)[1..] == t;
      } else {
        var r := Split(s, sep);
        assert r == [[s[0]] + t[0]] + t[1..];
        if |t| == 1 {
          assert t == [t[0]];
        } else {
          assert r[1..] == t[1..];
          assert Join(t, sep) == t[0] + [sep] + Join(t[1..], sep);
        }
      }
    }
  }

  /** Splitting a join of separator-free pieces gives the pieces back. */
  lemma {:induction false} SplitJoin(lines: seq<string>, sep: char)
    requires |lines| >= 1 && Free(lines, sep)
    ensures Split(Join(lines, sep), sep) == lines
  {
    if |lines| == 1 {
      SplitNoSep(lines[0], sep);
    } else {
      assert Free(lines[1..], sep) by {
        forall i, k | 0 <= i < |lines[1..]| && 0 <= k < |lines[1..][i]| ensures lines[1..][i][k] != sep {
          assert lines[1..][i] == lines[i + 1];
        }
      }
      SplitJoin(lines[1..], sep);
      SplitPiecePlusSep(lines[0], sep, Join(lines[1..], sep));
      assert Join(lines, sep) == lines[0] + ([sep] + Join(lines[1..], sep));
    }
  }

  /** Joining one more piece appends a separator and the piece. */
  lemma {:induction false} JoinSnoc(lines: seq<string>, sep: char, last: string)
    requires |lines| >= 1
    ensures Join(lines + [last], sep) == Join(lines, sep) + [sep] + last
    decreases |lines|
  {
    var s := lines + [last];
    if |lines| == 1 {
      assert s == [lines[0], last];
      assert s[1..] == [last];
    } else {
      assert s[1..] == lines[1..] + [last];
      JoinSnoc(lines[1..], sep, last);
    }
  }

  /** The first position of c in s, or |s|. */
  function FirstIndexOf(s: string, c: char): (i: nat)
    ensures i <= |s| && (i < |s| ==> s[i] == c)
    ensures forall j :: 0 <= j < i ==> s[j] != c
    decreases |s|
  {
    if s == [] || s[0] == c then 0 else 1 + FirstIndexOf(s[1..], c)
  }

  /** Splitting at one separator occurrence concatenates the two sides' pieces. */
  lemma {:induction false} SplitAtSep(a: string, sep: char, b: string)
    ensures Split(a + [sep] + b, sep) == Split(a, sep) + Split(b, sep)
    decreases |a|
  {
    var i := FirstIndexOf(a, sep);
    var p := a[..i];
    if i == |a| {
      assert a == p;
      SplitNoSep(a, sep);
      assert a + [sep] + b == a + ([sep] + b);
      SplitPiecePlusSep(a, sep, b);
    } else {
      var r := a[i + 1..];
      assert a == p + ([sep] + r);
      var u, v := Split(r, sep), Split(b, sep);
      assert Split(a + [sep] + b, sep) == [p] + (u + v) by {
        Regroup(p, [sep], r, [sep], b);
        SplitPiecePlusSep(p, sep, r + [sep] + b);
        SplitAtSep(r, sep, b);
      }
      assert Split(a, sep) == [p] + u by {
        SplitPiecePlusSep(p, sep, r);
      }
      Regroup([p], u, [], v, []);
    }
  }

  /** Concatenation regrouped, for proofs that should not reason about it. */
  lemma Regroup<T>(p: seq<T>, x: seq<T>, r: seq<T>, y: seq<T>, b: seq<T>)
    ensures (p + (x + r)) + y + b == p + (x + (r + y + b))
  {
  }

  lemma {:induction false} SplitNoSep(s: string, sep: char)
    requires forall k :: 0 <= k < |s| ==> s[k] != sep
    ensures Split(s, sep) == [s]
  {
    if s != [] {
      SplitNoSep(s[1..], sep);
      assert [s[0]] + s[1..] == s;
    }
  }

  lemma {:induction false} SplitPiecePlusSep(p: string, sep: char, rest: string)
    requires forall k :: 0 <= k < |p| ==> p[k] != sep
    ensures Split(p + ([sep] + rest), sep) == [p] + Split(rest, sep)
  {
    if p == [] {
      assert [] + ([sep] + rest) == [sep] + rest;
      assert ([sep] + rest)[1..] == rest;
    } else {
      SplitPiecePlusSep(p[1..], sep, rest);
      var s := p + ([sep] + rest);
      assert s[0] == p[0];
      assert s[1..] == p[1..] + ([sep] + rest);
      assert [p[0]] + p[1..] == p;
    }
  }

  // ---------------------------------------------------------------- case

  function LowerChar(c: char): (r: char)
    ensures !('A' <= r <= 'Z')
    ensures !('A' <= c <= 'Z') ==> r == c
  {
    if 'A' <= c <= 'Z' then (c as int + 32) as char else c
  }

  predicate NoUpper(s: string) {
    forall i :: 0 <= i < |s| ==> !('A' <= s[i] <= 'Z')
  }

  /** JavaScript `s.toLowerCase()` restricted to the ASCII letters. */
  function ToLower(s: string): (r: string)
    ensures |r| == |s| && NoUpper(r)
    ensures forall i :: 0 <= i < |s| ==> r[i] == LowerChar(s[i])
  {
    seq(|s|, i requires 0 <= i < |s| => LowerChar(s[i]))
  }

  // ---------------------------------------------------------------- numbers

  function DigitChar(d: nat): char
    requires d < 10
  {
    "0123456789"[d]
  }

  /** Decimal rendering of a natural number, as template literals render it. */
  function NatToString(n: nat): (r: string)
    ensures |r| >= 1
    ensures forall i :: 0 <= i < |r| ==> '0' <= r[i] <= '9'
  {
    if n < 10 then [DigitChar(n)] else NatToString(n / 10) + [DigitChar(n % 10)]
  }
}
