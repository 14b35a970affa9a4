/**
 * The Python `str` operations the modelled code relies on, over `seq<char>`:
 * whitespace (`str.isspace`, which is also what `\s` and `strip()` use), ASCII case
 * mapping, prefix/substring tests, `replace`, `split`/`join` on one character, and the
 * decimal rendering of a natural number.
 */
module PyStr {

  /** Python `str.isspace()` for one character; regex `\s` and `strip()` use the same set. */
  predicate IsSpace(c: char)
  {
    c == ' ' || ('\t' <= c <= '\r') || ('\U{1C}' <= c <= '\U{1F}') ||
    c == '\U{85}' || c == '\U{A0}' || c == '\U{1680}' || ('\U{2000}' <= c <= '\U{200A}') ||
    c == '\U{2028}' || c == '\U{2029}' || c == '\U{202F}' || c == '\U{205F}' || c == '\U{3000}'
  }

  predicate IsAsciiDigit(c: char)
  {
    '0' <= c <= '9'
  }

  predicate IsHexDigit(c: char)
  {
    IsAsciiDigit(c) || 'a' <= c <= 'f' || 'A' <= c <= 'F'
  }

  function HexValue(c: char): (v: nat)
    requires IsHexDigit(c)
    ensures v < 16
  {
    if IsAsciiDigit(c) then c as int - '0' as int
    else if 'a' <= c <= 'f' then c as int - 'a' as int + 10
    else c as int - 'A' as int + 10
  }

  function LowerChar(c: char): char
  {
    if 'A' <= c <= 'Z' then (c as int + 32) as char else c
  }

  function UpperChar(c: char): char
  {
    if 'a' <= c <= 'z' then (c as int - 32) as char else c
  }

  /** `str.lower()`, restricted to the ASCII letters. */
  function Lower(s: string): (r: string)
    ensures |r| == |s|
    ensures forall i :: 0 <= i < |s| ==> r[i] == LowerChar(s[i])
  {
    if s == [] then [] else [LowerChar(s[0])] + Lower(s[1..])
  }

  /** `str.upper()`, restricted to the ASCII letters. */
  function Upper(s: string): (r: string)
    ensures |r| == |s|
    ensures forall i :: 0 <= i < |s| ==> r[i] == UpperChar(s[i])
  {
    if s == [] then [] else [UpperChar(s[0])] + Upper(s[1..])
  }

  predicate StartsWith(s: string, p: string)
  {
    |p| <= |s| && s[..|p|] == p
  }

  predicate EndsWith(s: string, p: string)
  {
    |p| <= |s| && s[|s| - |p|..] == p
  }

  /** The two sides of a concatenation are its prefix and its suffix. */
  lemma ConcatEnds(a: string, b: string)
    ensures StartsWith(a + b, a) && EndsWith(a + b, b)
  {
    assert (a + b)[..|a|] == a;
    assert (a + b)[|a|..] == b;
  }

  /** A prefix of a prefix is a prefix. */
  lemma StartsWithTransitive(s: string, t: string, p: string)
    requires StartsWith(s, t) && StartsWith(t, p)
    ensures StartsWith(s, p)
  {
    assert s[..|p|] == s[..|t|][..|p|];
  }

  /** Python `p in s`. */
  predicate Contains(s: string, p: string)
  {
    StartsWith(s, p) || (|s| > 0 && Contains(s[1..], p))
  }

  /** Position of the first occurrence of `p` in `s`. */
  function Find(s: string, p: string): (r: int)
    ensures r == -1 <==> !Contains(s, p)
    ensures r != -1 ==> 0 <= r && r + |p| <= |s| && s[r..r + |p|] == p
  {
    if StartsWith(s, p) then 0
    else if |s| == 0 then -1
    else
      var k := Find(s[1..], p);
      if k == -1 then -1 else
        assert s[1..][k..k + |p|] == s[k + 1..k + 1 + |p|];
        k + 1
  }

  lemma {:induction false} FindIsFirst(s: string, p: string, j: nat)
    requires j + |p| <= |s| && s[j..j + |p|] == p
    ensures Contains(s, p) && Find(s, p) <= j
  {
    if j > 0 && !StartsWith(s, p) {
      assert s[1..][j - 1..j - 1 + |p|] == s[j..j + |p|];
      FindIsFirst(s[1..], p, j - 1);
    } else if j == 0 {
      assert s[..|p|] == s[0..|p|];
    }
  }

  /** Python `s.replace(p, q)`: every non-overlapping occurrence, scanning left to right. */
  function ReplaceAll(s: string, p: string, q: string): (r: string)
    requires |p| > 0
    ensures |q| == |p| ==> |r| == |s|
    ensures |q| >= |p| ==> |r| >= |s|
    decreases |s|
  {
    if |s| < |p| then s
    else if s[..|p|] == p then q + ReplaceAll(s[|p|..], p, q)
    else [s[0]] + ReplaceAll(s[1..], p, q)
  }

  /** Replacing a pattern that does not occur returns the text unchanged. */
  lemma {:induction false} ReplaceAllAbsent(s: string, p: string, q: string)
    requires |p| > 0 && !Contains(s, p)
    ensures ReplaceAll(s, p, q) == s
    decreases |s|
  {
    if |s| >= |p| {
      ReplaceAllAbsent(s[1..], p, q);
    }
  }

  /**
   * Replacing every occurrence leaves the text before the first occurrence alone, puts `q` in
   * place of that occurrence and carries on after it; with `ReplaceAllAbsent` this describes
   * the whole replacement by repeated `Find`.
   */
  lemma {:induction false} ReplaceAllFind(s: string, p: string, q: string)
    requires |p| > 0 && Contains(s, p)
    ensures var k := Find(s, p);
            ReplaceAll(s, p, q) == s[..k] + q + ReplaceAll(s[k + |p|..], p, q)
    decreases |s|
  {
    if StartsWith(s, p) {
      ReplaceAllAtStart(s, p, q);
    } else {
      var k, t := Find(s, p), s[1..];
      FindAfterHead(s, p);
      ReplaceAllSkipsHead(s, p, q);
      ReplaceAllFind(t, p, q);
      TailSlices(s, k, k + |p|);
      var tail := ReplaceAll(s[k + |p|..], p, q);
      assert ReplaceAll(t, p, q) == s[1..k] + q + tail;
      JoinHead(s, k, q, tail);
      assert ReplaceAll(s, p, q) == s[..k] + q + tail;
    }
  }

  lemma TailSlices(s: string, i: nat, j: nat)
    requires 1 <= i <= j <= |s|
    ensures s[1..][..i - 1] == s[1..i] && s[1..][j - 1..] == s[j..]
  {
  }

  lemma JoinHead(s: string, k: nat, q: string, tail: string)
    requires 1 <= k <= |s|
    ensures [s[0]] + (s[1..k] + q + tail) == s[..k] + q + tail
  {
    assert [s[0]] + s[1..k] == s[..k];
  }

  lemma ReplaceAllAtStart(s: string, p: string, q: string)
    requires |p| > 0 && StartsWith(s, p)
    ensures Find(s, p) == 0
    ensures ReplaceAll(s, p, q) == s[..0] + q + ReplaceAll(s[|p|..], p, q)
  {
    assert s[..0] == [];
  }

  lemma FindAfterHead(s: string, p: string)
    requires |p| > 0 && Contains(s, p) && !StartsWith(s, p)
    ensures Contains(s[1..], p) && Find(s, p) == Find(s[1..], p) + 1
  {
  }

  lemma ReplaceAllSkipsHead(s: string, p: string, q: string)
    requires |p| > 0 && Contains(s, p) && !StartsWith(s, p)
    ensures ReplaceAll(s, p, q) == [s[0]] + ReplaceAll(s[1..], p, q)
  {
    var k := Find(s, p);
    assert |s| >= |p|;
  }

  /** Python `s.replace(p, q, 1)`. */
  function ReplaceFirst(s: string, p: string, q: string): (r: string)
    requires |p| > 0
    ensures !Contains(s, p) ==> r == s
    ensures Contains(s, p) ==>
              var k := Find(s, p);
              r == s[..k] + q + s[k + |p|..] && !Contains(s[..k + |p| - 1], p)
  {
    var k := Find(s, p);
    if k == -1 then s
    else
      assert !Contains(s[..k + |p| - 1], p) by {
        if Contains(s[..k + |p| - 1], p) {
          var j := Find(s[..k + |p| - 1], p);
          assert s[j..j + |p|] == s[..k + |p| - 1][j..j + |p|];
          FindIsFirst(s, p, j);
        }
      }
      s[..k] + q + s[k + |p|..]
  }

  /** Replacing the first `p` by `p + q` inserts `q` right after that occurrence. */
  lemma ReplaceFirstInsertsAfter(s: string, p: string, q: string)
    requires |p| > 0 && Contains(s, p)
    ensures var k := Find(s, p);
            ReplaceFirst(s, p, p + q) == s[..k + |p|] + q + s[k + |p|..]
  {
    var k := Find(s, p);
    var r := ReplaceFirst(s, p, p + q);
    assert r == s[..k] + (p + q) + s[k + |p|..];
    assert s[..k + |p|] == s[..k] + p;
    assert r == (s[..k] + p) + q + s[k + |p|..];
  }

  /** `s.replace(c, r)` for a one-character pattern: every `c` becomes `r`. */
  function ReplaceChar(s: string, c: char, r: string): string
    decreases |s|
  {
    if s == [] then []
    else (if s[0] == c then r else [s[0]]) + ReplaceChar(s[1..], c, r)
  }

  /** A text without `c` is left as it is, and `c` is gone when its replacement has none. */
  lemma {:induction false} ReplaceCharRemoves(s: string, c: char, r: string)
    ensures c !in s ==> ReplaceChar(s, c, r) == s
    ensures c !in r ==> c !in ReplaceChar(s, c, r)
    decreases |s|
  {
    if s != [] {
      ReplaceCharRemoves(s[1..], c, r);
      if c !in s {
        assert c !in s[1..];
        assert s == [s[0]] + s[1..];
      }
    }
  }

  /** The one-character case of the general replace scan gives the same text. */
  lemma {:induction false} ReplaceCharIsReplaceAll(s: string, c: char, r: string)
    ensures ReplaceChar(s, c, r) == ReplaceAll(s, [c], r)
    decreases |s|
  {
    if s != [] {
      ReplaceCharIsReplaceAll(s[1..], c, r);
      assert s[..1] == [s[0]];
    }
  }

  /** Replacing a character by one character keeps the length and changes only that character. */
  lemma {:induction false} ReplaceCharOneForOne(s: string, c: char, d: char)
    ensures |ReplaceChar(s, c, [d])| == |s|
    ensures forall k :: 0 <= k < |s| ==> ReplaceChar(s, c, [d])[k] == (if s[k] == c then d else s[k])
    decreases |s|
  {
    if s != [] {
      ReplaceCharOneForOne(s[1..], c, d);
    }
  }

  /** Python `s.split(sep)` for a one-character separator. */
  function Split(s: string, sep: char): (r: seq<string>)
    ensures |r| >= 1
    ensures forall i :: 0 <= i < |r| ==> sep !in r[i]
    decreases |s|
  {
    if s == [] then [[]]
    else
      var rest := Split(s[1..], sep);
      if s[0] == sep then [[]] + rest
      else [[s[0]] + rest[0]] + rest[1..]
  }

  /** Python `sep.join(parts)` for a one-character separator. */
  function Join(parts: seq<string>, sep: char): string
  {
    if parts == [] then []
    else if |parts| == 1 then parts[0]
    else parts[0] + [sep] + Join(parts[1..], sep)
  }

  /** Splitting and joining again on the same character gives back the text. */
  lemma {:induction false} JoinSplit(s: string, sep: char)
    ensures Join(Split(s, sep), sep) == s
    decreases |s|
  {
    if s != [] {
      JoinSplit(s[1..], sep);
      var rest := Split(s[1..], sep);
      if s[0] != sep {
        if |rest| > 1 {
          assert Join(rest, sep) == rest[0] + [sep] + Join(rest[1..], sep);
          assert Join(Split(s, sep), sep) == [s[0]] + rest[0] + [sep] + Join(rest[1..], sep);
        }
        assert s == [s[0]] + s[1..];
      } else {
        assert s == [s[0]] + s[1..];
      }
    }
  }

  /** Joining pieces that do not contain the separator and splitting again gives back the pieces. */
  lemma {:induction false} SplitJoin(parts: seq<string>, sep: char)
    requires |parts| >= 1
    requires forall i :: 0 <= i < |parts| ==> sep !in parts[i]
    ensures Split(Join(parts, sep), sep) == parts
    decreases |parts|, |parts[0]|
  {
    if |parts[0]| > 0 {
      var p0 := parts[0];
      var shorter := [p0[1..]] + parts[1..];
      SplitJoin(shorter, sep);
      assert Join(parts, sep) == [p0[0]] + Join(shorter, sep) by {
        if |parts| == 1 { } else {
          assert Join(shorter, sep) == p0[1..] + [sep] + Join(parts[1..], sep);
        }
      }
      assert ([p0[0]] + Join(shorter, sep))[1..] == Join(shorter, sep);
      assert p0 == [p0[0]] + p0[1..];
    } else if |parts| > 1 {
      SplitJoin(parts[1..], sep);
      assert Join(parts, sep) == [sep] + Join(parts[1..], sep);
      assert ([sep] + Join(parts[1..], sep))[1..] == Join(parts[1..], sep);
    }
  }

  /** `s.split(c)` has a second piece exactly when `c` occurs in `s`. */
  lemma {:induction false} SplitHasSecond(s: string, c: char)
    ensures |Split(s, c)| >= 2 <==> c in s
    decreases |s|
  {
    if s != [] {
      SplitHasSecond(s[1..], c);
      assert s == [s[0]] + s[1..];
    }
  }

  /** Number of leading characters of `s` that are whitespace. */
  function LeadingSpace(s: string): (n: nat)
    ensures n <= |s|
    ensures forall i :: 0 <= i < n ==> IsSpace(s[i])
    ensures n < |s| ==> !IsSpace(s[n])
  {
    if s == [] || !IsSpace(s[0]) then 0 else 1 + LeadingSpace(s[1..])
  }

  /** Number of trailing characters of `s` that are whitespace. */
  function TrailingSpace(s: string): (n: nat)
    ensures n <= |s|
    ensures forall i :: |s| - n <= i < |s| ==> IsSpace(s[i])
    ensures n < |s| ==> !IsSpace(s[|s| - n - 1])
  {
    if s == [] || !IsSpace(s[|s| - 1]) then 0 else 1 + TrailingSpace(s[..|s| - 1])
  }

  /** Python `s.lstrip()`. */
  function LStrip(s: string): (r: string)
    ensures r == s[LeadingSpace(s)..]
  {
    s[LeadingSpace(s)..]
  }

  /** Python `s.rstrip()`. */
  function RStrip(s: string): (r: string)
    ensures r == s[..|s| - TrailingSpace(s)]
  {
    s[..|s| - TrailingSpace(s)]
  }

  /** Python `s.strip()`: the text between the leading and the trailing whitespace. */
  function Strip(s: string): (r: string)
    ensures |r| <= |s|
    ensures r == [] || (!IsSpace(r[0]) && !IsSpace(r[|r| - 1]))
    ensures LeadingSpace(s) + |r| <= |s| && r == s[LeadingSpace(s)..LeadingSpace(s) + |r|]
    ensures forall k :: LeadingSpace(s) + |r| <= k < |s| ==> IsSpace(s[k])
  {
    StripSlice(s);
    RStrip(LStrip(s))
  }

  lemma StripSlice(s: string)
    ensures var r := RStrip(LStrip(s));
            var i := LeadingSpace(s);
            i <= |s| - |r| && r == s[i..i + |r|] &&
            (r == [] || (!IsSpace(r[0]) && !IsSpace(r[|r| - 1]))) &&
            (forall k :: i + |r| <= k < |s| ==> IsSpace(s[k]))
  {
    var l := LStrip(s);
    var r := RStrip(l);
    var i := LeadingSpace(s);
    assert r == s[i..i + |r|];
    if r != [] {
      assert r[0] == s[i];
      assert |l| - TrailingSpace(l) == |r|;
    }
    forall k | i + |r| <= k < |s| ensures IsSpace(s[k]) {
      assert s[k] == l[k - i];
    }
  }

  /**
   * Stripping text padded with whitespace on both sides gives the text back, provided the
   * text is non-empty and neither starts nor ends with whitespace.
   */
  lemma StripPadded(front: string, x: string, back: string)
    requires forall i :: 0 <= i < |front| ==> IsSpace(front[i])
    requires forall i :: 0 <= i < |back| ==> IsSpace(back[i])
    requires x != [] && !IsSpace(x[0]) && !IsSpace(x[|x| - 1])
    ensures Strip(front + x + back) == x
  {
    var s := front + x + back;
    var l := LeadingSpace(s);
    var r := Strip(s);
    assert s[|front|] == x[0];
    assert l == |front|;
    assert s[|front| + |x| - 1] == x[|x| - 1];
    assert |r| >= |x|;
    assert r == s[|front|..|front| + |x|] == x;
  }

  /** Lower-casing undoes upper-casing on words of lower-case ASCII letters. */
  lemma LowerUpper(s: string)
    requires forall i :: 0 <= i < |s| ==> 'a' <= s[i] <= 'z'
    ensures Lower(Upper(s)) == s
  {
    var u := Upper(s);
    forall i | 0 <= i < |s| ensures Lower(u)[i] == s[i] {
      assert u[i] == UpperChar(s[i]);
      LowerUpperChar(s[i]);
    }
  }

  lemma LowerUpperChar(c: char)
    requires 'a' <= c <= 'z'
    ensures LowerChar(UpperChar(c)) == c
  {
  }

  /** Python `s.lstrip(c)` for one character. */
  function LStripChar(s: string, c: char): (r: string)
    ensures |r| <= |s| && r == s[|s| - |r|..]
    ensures r == [] || r[0] != c
    ensures forall k :: 0 <= k < |s| - |r| ==> s[k] == c
  {
    if s == [] || s[0] != c then s else LStripChar(s[1..], c)
  }

  function DigitChar(d: nat): (c: char)
    requires d < 10
    ensures IsAsciiDigit(c)
  {
    ('0' as int + d) as char
  }

  /** `str(n)` for a natural number. */
  function NatToString(n: nat): (r: string)
    ensures |r| >= 1
    ensures forall i :: 0 <= i < |r| ==> IsAsciiDigit(r[i])
    ensures n < 10 <==> |r| == 1
  {
    if n < 10 then [DigitChar(n)] else NatToString(n / 10) + [DigitChar(n % 10)]
  }

  /** Distinct numbers print differently. */
  lemma {:induction false} NatToStringInjective(m: nat, n: nat)
    requires NatToString(m) == NatToString(n)
    ensures m == n
  {
    var s := NatToString(m);
    if m >= 10 && n >= 10 {
      assert s[|s| - 1] == DigitChar(m % 10) == DigitChar(n % 10);
      assert NatToString(m / 10) == s[..|s| - 1] == NatToString(n / 10);
      NatToStringInjective(m / 10, n / 10);
    }
  }
}
