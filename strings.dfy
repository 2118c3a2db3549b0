/** The Python string operations the chart pipeline relies on:
    `str.strip()`, `str.replace(old, "")`, `str.upper()`, `str.lower()`, the `in`
    substring test and a one-character search, over `seq<char>`. */
module Strings {
  import opened Wrappers

  /** Python's `str.isspace` for one character: the characters `str.strip()` removes. */
  predicate IsSpace(c: char)
  {
    c == ' ' || ('\t' <= c <= '\r') || ('\U{1c}' <= c <= '\U{1f}')
    || c == '\U{85}' || c == '\U{a0}' || c == '\U{1680}'
    || ('\U{2000}' <= c <= '\U{200a}') || c == '\U{2028}' || c == '\U{2029}'
    || c == '\U{202f}' || c == '\U{205f}' || c == '\U{3000}'
  }

  /** The number of whitespace characters `s` starts with. */
  function LeadingSpaces(s: string): (n: nat)
    ensures n <= |s|
    ensures forall k :: 0 <= k < n ==> IsSpace(s[k])
    ensures n < |s| ==> !IsSpace(s[n])
  {
    if |s| > 0 && IsSpace(s[0]) then 1 + LeadingSpaces(s[1..]) else 0
  }

  /** Where the trailing whitespace of `s` starts. */
  function TrailingStart(s: string): (n: nat)
    ensures n <= |s|
    ensures forall k :: n <= k < |s| ==> IsSpace(s[k])
    ensures n > 0 ==> !IsSpace(s[n - 1])
  {
    if |s| > 0 && IsSpace(s[|s| - 1]) then TrailingStart(s[..|s| - 1]) else |s|
  }

  /** `r` is the slice of `s` starting at `i`, and everything of `s` around it is whitespace. */
  ghost predicate StrippedAt(s: string, r: string, i: int)
  {
    0 <= i <= |s| - |r| && r == s[i..i + |r|]
    && (forall k :: 0 <= k < i ==> IsSpace(s[k]))
    && (forall k :: i + |r| <= k < |s| ==> IsSpace(s[k]))
  }

  /** `s.strip()`: the longest slice of `s` that neither starts nor ends with whitespace,
      everything cut off on either side being whitespace. */
  function Strip(s: string): (r: string)
    ensures r != [] ==> !IsSpace(r[0]) && !IsSpace(r[|r| - 1])
    ensures exists i :: StrippedAt(s, r, i)
  {
    var a := LeadingSpaces(s);
    var b := if a == |s| then a else TrailingStart(s);
    assert a <= b;
    assert StrippedAt(s, s[a..b], a);
    s[a..b]
  }

  /** What does not occur in a string does not occur in its stripped form. */
  lemma StripKeepsAbsence(s: string, r: string, i: int, pat: string)
    requires StrippedAt(s, r, i) && !Contains(s, pat)
    ensures !Contains(r, pat)
  {
    SliceOccurrence(s, pat, i, i + |r|);
  }

  /** A string with no whitespace at either end is its own stripped form. */
  lemma StripKeeps(s: string)
    requires s != [] ==> !IsSpace(s[0]) && !IsSpace(s[|s| - 1])
    ensures Strip(s) == s
  {
    assert s[0..|s|] == s;
  }

  /** ASCII case mapping; other characters are left as they are. */
  function LowerChar(c: char): char
  {
    if 'A' <= c <= 'Z' then (c as int - 'A' as int + 'a' as int) as char else c
  }

  function UpperChar(c: char): char
  {
    if 'a' <= c <= 'z' then (c as int - 'a' as int + 'A' as int) as char else c
  }

  /** `s.lower()` restricted to ASCII letters. */
  function Lower(s: string): (r: string)
    ensures |r| == |s| && forall k :: 0 <= k < |s| ==> r[k] == LowerChar(s[k])
  {
    seq(|s|, k requires 0 <= k < |s| => LowerChar(s[k]))
  }

  /** `s.upper()` restricted to ASCII letters. */
  function Upper(s: string): (r: string)
    ensures |r| == |s| && forall k :: 0 <= k < |s| ==> r[k] == UpperChar(s[k])
  {
    seq(|s|, k requires 0 <= k < |s| => UpperChar(s[k]))
  }

  /** Lower-casing leaves no upper-case ASCII letter behind. */
  lemma LowerHasNoUpper(s: string)
    ensures forall k :: 0 <= k < |Lower(s)| ==> !('A' <= Lower(s)[k] <= 'Z')
  {
  }

  /** Stripping the empty string gives the empty string. */
  lemma StripEmpty()
    ensures Strip("") == ""
  {
    var r := Strip("");
    var i :| StrippedAt("", r, i);
  }

  /** `pat` occurs in `s` starting at index `i`. */
  predicate OccursAt(s: string, pat: string, i: int)
  {
    0 <= i && i + |pat| <= |s| && s[i..i + |pat|] == pat
  }

  /** Python's `pat in s`, scanning from the left. */
  predicate Contains(s: string, pat: string)
    decreases |s|
  {
    if |s| < |pat| then false else s[..|pat|] == pat || Contains(s[1..], pat)
  }

  lemma {:induction false} ContainsIff(s: string, pat: string)
    ensures Contains(s, pat) <==> exists i :: OccursAt(s, pat, i)
    decreases |s|
  {
    if |s| >= |pat| {
      if s[..|pat|] == pat {
        assert OccursAt(s, pat, 0);
      } else {
        ContainsIff(s[1..], pat);
        if Contains(s[1..], pat) {
          var i :| OccursAt(s[1..], pat, i);
          assert s[i + 1..i + 1 + |pat|] == s[1..][i..i + |pat|];
          assert OccursAt(s, pat, i + 1);
        }
        if i :| OccursAt(s, pat, i) {
          assert i != 0;
          assert s[1..][i - 1..i - 1 + |pat|] == s[i..i + |pat|];
          assert OccursAt(s[1..], pat, i - 1);
        }
      }
    } else {
      if i :| OccursAt(s, pat, i) {
        assert false;
      }
    }
  }

  /** A text lacking the first character of a non-empty pattern does not contain it. */
  lemma {:induction false} AbsentFirstChar(s: string, pat: string)
    requires |pat| > 0
    requires forall k :: 0 <= k < |s| ==> s[k] != pat[0]
    ensures !Contains(s, pat)
    decreases |s|
  {
    if |s| >= |pat| {
      assert s[..|pat|][0] == s[0];
      AbsentFirstChar(s[1..], pat);
    }
  }

  /** `s.replace(pat, "")`: every non-overlapping occurrence of `pat`, found from the left, is deleted. */
  function RemoveAll(s: string, pat: string): (r: string)
    requires |pat| > 0
    ensures |r| <= |s|
    decreases |s|
  {
    if |s| < |pat| then s
    else if s[..|pat|] == pat then RemoveAll(s[|pat|..], pat)
    else [s[0]] + RemoveAll(s[1..], pat)
  }

  /** Text with no occurrence of `pat` is returned unchanged by `RemoveAll`. */
  lemma {:induction false} RemoveAllAbsent(s: string, pat: string)
    requires |pat| > 0
    requires forall k :: 0 <= k < |s| ==> s[k] != pat[0]
    ensures RemoveAll(s, pat) == s
    decreases |s|
  {
    if |s| >= |pat| {
      assert s[..|pat|][0] == s[0];
      RemoveAllAbsent(s[1..], pat);
    }
  }

  /** A prefix that cannot start an occurrence of `pat` passes through `RemoveAll` untouched. */
  lemma {:induction false} RemoveAllKeepsPrefix(x: string, y: string, pat: string)
    requires |pat| > 0
    requires forall k :: 0 <= k < |x| ==> x[k] != pat[0]
    ensures RemoveAll(x + y, pat) == x + RemoveAll(y, pat)
    decreases |x|
  {
    if x != [] {
      var s := x + y;
      if |s| < |pat| {
        RemoveAllShort(y, pat);
      } else {
        assert s[..|pat|][0] == x[0];
        assert RemoveAll(s, pat) == [x[0]] + RemoveAll(s[1..], pat);
        assert s[1..] == x[1..] + y;
        RemoveAllKeepsPrefix(x[1..], y, pat);
        assert [x[0]] + x[1..] == x;
      }
    } else {
      assert x + y == y;
    }
  }

  /** Concatenation is associative. Dafny knows this; the lemma only hands the solver the
      regrouping a proof needs, which it does not always find by itself in a long chain. */
  lemma AppendAssoc<T>(a: seq<T>, b: seq<T>, c: seq<T>)
    ensures (a + b) + c == a + (b + c)
  {
  }

  /** Different texts stay different behind a common prefix. */
  lemma AppendDiffers<T>(a: seq<T>, b: seq<T>, c: seq<T>)
    requires b != c
    ensures a + b != a + c
  {
    assert b == (a + b)[|a|..] && c == (a + c)[|a|..];
  }

  /** Text that does not contain `pat` is returned unchanged by `RemoveAll`. */
  lemma {:induction false} RemoveAllNotContained(s: string, pat: string)
    requires |pat| > 0 && !Contains(s, pat)
    ensures RemoveAll(s, pat) == s
    decreases |s|
  {
    if |s| >= |pat| {
      RemoveAllNotContained(s[1..], pat);
      assert [s[0]] + s[1..] == s;
    }
  }

  /** No occurrence of `pat` can start inside `x` and run on past its end. */
  predicate NoOverhang(x: string, pat: string)
  {
    forall p :: 0 <= p < |x| < p + |pat| ==> x[p..] != pat[..|x| - p]
  }

  /** A prefix that contains no `pat`, and none of whose tails begins one, passes through
      `RemoveAll` untouched whatever follows it. */
  lemma {:induction false} RemoveAllKeepsClean(x: string, y: string, pat: string)
    requires |pat| > 0 && !Contains(x, pat) && NoOverhang(x, pat)
    ensures RemoveAll(x + y, pat) == x + RemoveAll(y, pat)
    decreases |x|
  {
    if x == [] {
      assert x + y == y;
    } else if |x + y| < |pat| {
      RemoveAllShort(y, pat);
    } else {
      CleanHeadKept(x, y, pat);
      CleanTail(x, pat);
      RemoveAllKeepsClean(x[1..], y, pat);
      assert (x + y)[1..] == x[1..] + y;
      assert [x[0]] + x[1..] == x;
    }
  }

  /** Such a prefix does not start an occurrence of `pat`. */
  lemma CleanHeadKept(x: string, y: string, pat: string)
    requires |pat| > 0 && !Contains(x, pat) && NoOverhang(x, pat)
    requires x != [] && |x + y| >= |pat|
    ensures (x + y)[..|pat|] != pat
  {
    var s := x + y;
    if |x| >= |pat| {
      assert s[..|pat|] == x[..|pat|];
    } else {
      assert x[0..] != pat[..|x|];
      assert s[..|pat|][..|x|] == x;
    }
  }

  /** Dropping the first character keeps a prefix clean. */
  lemma CleanTail(x: string, pat: string)
    requires |pat| > 0 && !Contains(x, pat) && NoOverhang(x, pat) && x != []
    ensures !Contains(x[1..], pat) && NoOverhang(x[1..], pat)
  {
    forall p | 0 <= p < |x[1..]| < p + |pat|
      ensures x[1..][p..] != pat[..|x[1..]| - p]
    {
      assert x[1..][p..] == x[p + 1..];
    }
  }

  /** A text shorter than `pat` is returned unchanged. */
  lemma RemoveAllShort(s: string, pat: string)
    requires |pat| > 0 && |s| < |pat|
    ensures RemoveAll(s, pat) == s
  {
  }

  /** The occurrence of `pat` at the front is deleted. */
  lemma RemoveAllDropsLeading(y: string, pat: string)
    requires |pat| > 0
    ensures RemoveAll(pat + y, pat) == RemoveAll(y, pat)
  {
    assert (pat + y)[..|pat|] == pat;
    assert (pat + y)[|pat|..] == y;
  }

  /** When `s` does not start with `pat`, its first character survives `RemoveAll`. */
  lemma RemoveAllHead(s: string, pat: string)
    requires |pat| > 0
    requires |s| > 0 && !(|s| >= |pat| && s[..|pat|] == pat)
    ensures RemoveAll(s, pat) == [s[0]] + RemoveAll(s[1..], pat)
  {
    if |s| < |pat| {
      RemoveAllShort(s[1..], pat);
    }
  }

  const Backticks := "```"

  /** When `s` does not start with three backticks, its first character survives `RemoveAll`. */
  lemma RemoveBackticksHead(s: string)
    requires |s| > 0 && !(|s| >= 3 && s[..3] == Backticks)
    ensures RemoveAll(s, Backticks) == [s[0]] + RemoveAll(s[1..], Backticks)
  {
    RemoveAllHead(s, Backticks);
  }

  /** The text left by deleting every "```" does not start with "```". */
  lemma NoBackticksAtFront(s: string)
    ensures !OccursAt(RemoveAll(s, Backticks), Backticks, 0)
  {
    if |s| >= 3 && s[..3] == Backticks {
      NoBackticksAtFront(s[3..]);
    } else if |s| >= 3 && s[0] == '`' {
      RemoveBackticksHead(s);
      assert s[..3] == [s[0], s[1], s[2]];
      assert s[1] != '`' || s[2] != '`';
      if |s| >= 4 {
        assert s[1..][..3] == [s[1], s[2], s[3]];
      }
      RemoveBackticksHead(s[1..]);
      if s[1] == '`' {
        assert s[1..][1..] == s[2..];
        RemoveBackticksHead(s[2..]);
      }
    } else if |s| >= 3 {
      RemoveBackticksHead(s);
    }
  }

  /** Deleting every "```" leaves none behind: no occurrence can be formed across a deleted one,
      because the left-to-right scan would have matched it first. */
  lemma {:induction false} RemoveBackticksLeavesNone(s: string)
    ensures !Contains(RemoveAll(s, Backticks), Backticks)
    decreases |s|
  {
    var r := RemoveAll(s, Backticks);
    ContainsIff(r, Backticks);
    if |s| < 3 {
    } else if s[..3] == Backticks {
      RemoveBackticksLeavesNone(s[3..]);
    } else {
      var t := RemoveAll(s[1..], Backticks);
      RemoveBackticksHead(s);
      RemoveBackticksLeavesNone(s[1..]);
      ContainsIff(t, Backticks);
      NoBackticksAtFront(s);
      forall i | 1 <= i ensures !OccursAt(r, Backticks, i) {
        if i + 3 <= |r| {
          assert r[i..i + 3] == t[i - 1..i + 2];
        }
        assert !OccursAt(t, Backticks, i - 1);
      }
    }
  }

  /** An occurrence in a slice is an occurrence in the whole text. */
  lemma SliceOccurrence(s: string, pat: string, i: int, j: int)
    requires 0 <= i <= j <= |s|
    ensures Contains(s[i..j], pat) ==> Contains(s, pat)
  {
    ContainsIff(s, pat);
    ContainsIff(s[i..j], pat);
    if Contains(s[i..j], pat) {
      var k :| OccursAt(s[i..j], pat, k);
      assert k + |pat| <= j - i;
      forall m | 0 <= m < |pat| ensures s[i + k..i + k + |pat|][m] == pat[m] {
        assert s[i..j][k..k + |pat|][m] == pat[m];
      }
      assert OccursAt(s, pat, i + k);
    }
  }

  /** A text containing a pattern contains every prefix of it. */
  lemma PrefixOccurrence(s: string, pat: string, longer: string)
    requires |pat| <= |longer| && longer[..|pat|] == pat
    ensures Contains(s, longer) ==> Contains(s, pat)
  {
    ContainsIff(s, pat);
    ContainsIff(s, longer);
    if Contains(s, longer) {
      var k :| OccursAt(s, longer, k);
      assert s[k..k + |pat|] == s[k..k + |longer|][..|pat|];
      assert OccursAt(s, pat, k);
    }
  }

  /** Index of the first `c` in `s`. */
  function FirstIndex(s: string, c: char): (r: Option<nat>)
    ensures r.Some? ==> r.value < |s| && s[r.value] == c && forall k :: 0 <= k < r.value ==> s[k] != c
    ensures r.None? ==> forall k :: 0 <= k < |s| ==> s[k] != c
  {
    if s == [] then None
    else if s[0] == c then Some(0)
    else match FirstIndex(s[1..], c)
      case Some(i) => Some(i + 1)
      case None => None
  }

  /** Index of the last `c` in `s`. */
  function LastIndex(s: string, c: char): (r: Option<nat>)
    ensures r.Some? ==> r.value < |s| && s[r.value] == c && forall k :: r.value < k < |s| ==> s[k] != c
    ensures r.None? ==> forall k :: 0 <= k < |s| ==> s[k] != c
  {
    if s == [] then None
    else if s[|s| - 1] == c then Some(|s| - 1)
    else LastIndex(s[..|s| - 1], c)
  }
}
