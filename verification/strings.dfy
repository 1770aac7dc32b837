/**
  The Python string operations the prompt coach relies on, written out on
  `seq<char>`: `str.strip()`, `str.lower()`, the `in` substring test,
  `str.split(sep)`, `sep.join(parts)`, `str.split(":", 1)[1]` and
  `str.replace(old, new)`.
 */
module Strings {

  /** Python's `str.isspace()` for one character: the characters `str.strip()` removes. */
  predicate IsSpace(c: char)
  {
    var n := c as int;
    (9 <= n <= 13) || (28 <= n <= 32) || n == 0x85 || n == 0xA0 || n == 0x1680
    || (0x2000 <= n <= 0x200A) || n == 0x2028 || n == 0x2029 || n == 0x202F
    || n == 0x205F || n == 0x3000
  }

  predicate AllSpace(s: string)
  {
    forall k :: 0 <= k < |s| ==> IsSpace(s[k])
  }

  /**
    `s.strip()`: `s` without the whitespace at either end. It is empty exactly
    when `s` is all whitespace, and otherwise it begins and ends with a
    non-whitespace character; `StripSlice` says where it sits in `s`.
   */
  function Strip(s: string): (r: string)
    ensures |r| <= |s|
    ensures r == [] <==> AllSpace(s)
    ensures r != [] ==> !IsSpace(r[0]) && !IsSpace(r[|r| - 1])
    decreases |s|
  {
    if s != [] && IsSpace(s[0]) then Strip(s[1..])
    else if s != [] && IsSpace(s[|s| - 1]) then Strip(s[..|s| - 1])
    else s
  }

  /** The number of whitespace characters that `strip()` removes at the front. */
  function LeadingSpaces(s: string): (n: nat)
    ensures n <= |s|
  {
    if s != [] && IsSpace(s[0]) then 1 + LeadingSpaces(s[1..]) else 0
  }

  /** Without leading whitespace, the strip of `s` is a prefix of `s` followed only by whitespace. */
  lemma {:induction false} StripPrefix(s: string)
    requires s == [] || !IsSpace(s[0])
    ensures Strip(s) == s[..|Strip(s)|] && AllSpace(s[|Strip(s)|..])
    decreases |s|
  {
    if s != [] && IsSpace(s[|s| - 1]) {
      var t := s[..|s| - 1];
      assert t == [] || t[0] == s[0];
      StripPrefix(t);
      var r := Strip(s);
      assert r == Strip(t);
      assert s[..|r|] == t[..|r|];
      assert s[|r|..] == t[|r|..] + [s[|s| - 1]];
    }
  }

  /** The leading whitespace of `s` is whitespace. */
  lemma {:induction false} LeadingAllSpace(s: string)
    ensures AllSpace(s[..LeadingSpaces(s)])
    decreases |s|
  {
    if s != [] && IsSpace(s[0]) {
      LeadingAllSpace(s[1..]);
      assert s[..LeadingSpaces(s)] == [s[0]] + s[1..][..LeadingSpaces(s[1..])];
    }
  }

  /** The strip of `s` sits right after the leading whitespace, and what follows it is whitespace. */
  lemma {:induction false} StripAfterLeading(s: string)
    ensures LeadingSpaces(s) + |Strip(s)| <= |s|
    ensures Strip(s) == s[LeadingSpaces(s)..LeadingSpaces(s) + |Strip(s)|]
    ensures AllSpace(s[LeadingSpaces(s) + |Strip(s)|..])
    decreases |s|
  {
    if s != [] && IsSpace(s[0]) {
      var t := s[1..];
      StripAfterLeading(t);
      var n, r := LeadingSpaces(t), Strip(t);
      assert LeadingSpaces(s) == n + 1 && Strip(s) == r;
      assert s[n + 1..n + 1 + |r|] == t[n..n + |r|];
      assert s[n + 1 + |r|..] == t[n + |r|..];
    } else {
      StripPrefix(s);
    }
  }

  /** The strip of `s` is the slice of `s` after its leading whitespace, and whatever lies outside that slice is whitespace. */
  lemma StripSlice(s: string)
    ensures LeadingSpaces(s) + |Strip(s)| <= |s|
    ensures Strip(s) == s[LeadingSpaces(s)..LeadingSpaces(s) + |Strip(s)|]
    ensures AllSpace(s[..LeadingSpaces(s)]) && AllSpace(s[LeadingSpaces(s) + |Strip(s)|..])
  {
    LeadingAllSpace(s);
    StripAfterLeading(s);
  }

  /** Stripping twice is stripping once. */
  lemma {:induction false} StripIdempotent(s: string)
    ensures Strip(Strip(s)) == Strip(s)
  {
    var r := Strip(s);
    if r != [] {
      StripUntouched(r);
    }
  }

  /** `str.lower()` restricted to ASCII letters. */
  function LowerChar(c: char): (d: char)
    ensures ('A' <= c <= 'Z') ==> ('a' <= d <= 'z') && d as int - c as int == 32
    ensures !('A' <= c <= 'Z') ==> d == c
  {
    if 'A' <= c <= 'Z' then (c as int + 32) as char else c
  }

  function Lower(s: string): (r: string)
    ensures |r| == |s|
    ensures forall k :: 0 <= k < |s| ==> r[k] == LowerChar(s[k])
  {
    seq(|s|, k requires 0 <= k < |s| => LowerChar(s[k]))
  }

  /** `pat` occurs in `s` starting at position `i`. */
  predicate OccursAt(s: string, pat: string, i: nat)
  {
    i + |pat| <= |s| && s[i..i + |pat|] == pat
  }

  /** The characters of `pat` from `k` on equal those of `s` from `i + k` on. */
  predicate MatchFrom(s: string, pat: string, i: nat, k: nat)
    requires i + |pat| <= |s| && k <= |pat|
    decreases |pat| - k
  {
    k == |pat| || (s[i + k] == pat[k] && MatchFrom(s, pat, i, k + 1))
  }

  lemma {:induction false} MatchFromSlice(s: string, pat: string, i: nat, k: nat)
    requires i + |pat| <= |s| && k <= |pat|
    ensures MatchFrom(s, pat, i, k) <==> s[i + k..i + |pat|] == pat[k..]
    decreases |pat| - k
  {
    if k < |pat| {
      MatchFromSlice(s, pat, i, k + 1);
      assert s[i + k..i + |pat|] == [s[i + k]] + s[i + k + 1..i + |pat|];
      assert pat[k..] == [pat[k]] + pat[k + 1..];
    }
  }

  /** `pat` occurs in `s` at position `i` or later: the scan of `in`, from position `i` on. */
  predicate ContainsFrom(s: string, pat: string, i: nat)
    decreases |s| - i
  {
    if i + |pat| > |s| then false
    else if MatchFrom(s, pat, i, 0) then true
    else ContainsFrom(s, pat, i + 1)
  }


  lemma {:induction false} ContainsFromOccurs(s: string, pat: string, i: nat)
    ensures ContainsFrom(s, pat, i) <==> exists j: nat :: i <= j && OccursAt(s, pat, j)
    decreases |s| - i
  {
    if i + |pat| > |s| {
      forall j: nat | i <= j ensures !OccursAt(s, pat, j) { }
    } else {
      MatchFromSlice(s, pat, i, 0);
      assert pat[0..] == pat;
      if MatchFrom(s, pat, i, 0) {
        assert OccursAt(s, pat, i);
      } else {
        ContainsFromOccurs(s, pat, i + 1);
        if !ContainsFrom(s, pat, i + 1) {
          forall j: nat | i <= j ensures !OccursAt(s, pat, j) {
            if j == i {
              assert !OccursAt(s, pat, i);
            }
          }
        }
      }
    }
  }

  /** Python's `pat in s`, by scanning the start positions of `s` left to right: it finds `pat` exactly when `pat` occurs somewhere in `s`. */
  predicate Contains(s: string, pat: string): (b: bool)
    ensures b <==> exists i: nat :: OccursAt(s, pat, i)
  {
    ContainsFromOccurs(s, pat, 0);
    ContainsFrom(s, pat, 0)
  }

  /** `c` and `d` are the same character, or `c` is the upper-case ASCII letter of the lower-case letter `d`. */
  predicate SameIgnoringCase(c: char, d: char)
  {
    c == d || ('A' <= c <= 'Z' && 'a' <= d <= 'z' && d as int == c as int + ('a' as int - 'A' as int))
  }

  /** `kw` occurs in `s` at position `i` when ASCII case is ignored. */
  predicate OccursIgnoringCaseAt(s: string, kw: string, i: nat)
  {
    i + |kw| <= |s| && forall k :: 0 <= k < |kw| ==> SameIgnoringCase(s[i + k], kw[k])
  }

  /**
    Testing a keyword without upper-case letters against the lower-cased line
    finds it exactly when it occurs in the line with ASCII case ignored.
   */
  lemma LowerContains(s: string, kw: string)
    requires forall k :: 0 <= k < |kw| ==> !('A' <= kw[k] <= 'Z')
    ensures Contains(Lower(s), kw) <==> exists i: nat :: OccursIgnoringCaseAt(s, kw, i)
  {
    var low := Lower(s);
    forall i: nat ensures OccursAt(low, kw, i) <==> OccursIgnoringCaseAt(s, kw, i) {
      if i + |kw| <= |s| {
        forall k | 0 <= k < |kw| ensures low[i + k] == kw[k] <==> SameIgnoringCase(s[i + k], kw[k]) {
        }
        if OccursAt(low, kw, i) {
          forall k | 0 <= k < |kw| ensures low[i + k] == kw[k] {
            assert low[i..i + |kw|][k] == low[i + k];
          }
        }
      }
    }
  }

  /** `sep.join(parts)`. */
  function Join(parts: seq<string>, sep: string): (r: string)
    ensures |parts| == 1 ==> r == parts[0]
  {
    if |parts| == 0 then []
    else if |parts| == 1 then parts[0]
    else parts[0] + sep + Join(parts[1..], sep)
  }

  /** The total length of `parts`. */
  function TotalLength(parts: seq<string>): nat
  {
    if parts == [] then 0 else |parts[0]| + TotalLength(parts[1..])
  }

  /** Where the `i`-th part starts in `Join(parts, sep)`. */
  function JoinOffset(parts: seq<string>, sep: string, i: nat): nat
    requires i <= |parts|
  {
    if i == 0 then 0 else |parts[0]| + |sep| + JoinOffset(parts[1..], sep, i - 1)
  }

  /** The joined string is as long as the parts plus one separator between each two of them. */
  lemma {:induction false} JoinLength(parts: seq<string>, sep: string)
    requires |parts| >= 1
    ensures |Join(parts, sep)| == TotalLength(parts) + |sep| * (|parts| - 1)
  {
    if |parts| > 1 {
      JoinLength(parts[1..], sep);
      assert |sep| * (|parts| - 1) == |sep| + |sep| * (|parts[1..]| - 1);
    }
  }

  /** The `i`-th part sits, unchanged, at its offset in the joined string: the parts appear in order. */
  lemma {:induction false} JoinAt(parts: seq<string>, sep: string, i: nat)
    requires i < |parts|
    ensures JoinOffset(parts, sep, i) + |parts[i]| <= |Join(parts, sep)|
    ensures Join(parts, sep)[JoinOffset(parts, sep, i)..JoinOffset(parts, sep, i) + |parts[i]|] == parts[i]
  {
    if i == 0 {
      if |parts| > 1 {
        assert Join(parts, sep) == parts[0] + (sep + Join(parts[1..], sep));
      }
    } else {
      var rest := Join(parts[1..], sep);
      JoinAt(parts[1..], sep, i - 1);
      var o := JoinOffset(parts[1..], sep, i - 1);
      var pre := parts[0] + sep;
      assert Join(parts, sep) == pre + rest;
      assert (pre + rest)[|pre| + o..|pre| + o + |parts[i]|] == rest[o..o + |parts[i]|];
    }
  }

  /** The separator follows every part but the last in the joined string. */
  lemma {:induction false} JoinSepAt(parts: seq<string>, sep: string, i: nat)
    requires i + 1 < |parts|
    ensures var o := JoinOffset(parts, sep, i) + |parts[i]|;
      o + |sep| <= |Join(parts, sep)| && Join(parts, sep)[o..o + |sep|] == sep
  {
    var rest := Join(parts[1..], sep);
    assert Join(parts, sep) == parts[0] + sep + rest;
    if i == 0 {
      SliceMiddle(parts[0], sep, rest);
    } else {
      JoinSepAt(parts[1..], sep, i - 1);
      var o := JoinOffset(parts[1..], sep, i - 1) + |parts[i]|;
      SliceShift(parts[0] + sep, rest, o, o + |sep|);
    }
  }

  lemma SliceMiddle(a: string, b: string, c: string)
    ensures (a + b + c)[|a|..|a| + |b|] == b
  {
  }

  lemma SliceShift(pre: string, rest: string, x: nat, y: nat)
    requires x <= y <= |rest|
    ensures (pre + rest)[|pre| + x..|pre| + y] == rest[x..y]
  {
  }

  /** Python's `s.split(sep)` for a one-character separator: the pieces between separators, at least one. */
  function Split(s: string, sep: char): (parts: seq<string>)
    ensures |parts| >= 1
    ensures forall k :: 0 <= k < |parts| ==> sep !in parts[k]
  {
    if s == [] then [[]]
    else
      var rest := Split(s[1..], sep);
      if s[0] == sep then [[]] + rest
      else [[s[0]] + rest[0]] + rest[1..]
  }

  lemma {:induction false} JoinConsHead(c: char, parts: seq<string>, sep: string)
    requires |parts| >= 1
    ensures Join([[c] + parts[0]] + parts[1..], sep) == [c] + Join(parts, sep)
  {
    var ps := [[c] + parts[0]] + parts[1..];
    assert ps[1..] == parts[1..];
  }

  /** Joining the pieces of a split with the separator gives back the string. */
  lemma {:induction false} SplitJoin(s: string, sep: char)
    ensures Join(Split(s, sep), [sep]) == s
  {
    if s != [] {
      var rest := Split(s[1..], sep);
      SplitJoin(s[1..], sep);
      if s[0] == sep {
        var ps := [[]] + rest;
        assert ps[1..] == rest;
        assert Join(ps, [sep]) == [] + [sep] + Join(rest, [sep]);
        assert s == [s[0]] + s[1..];
      } else {
        JoinConsHead(s[0], rest, [sep]);
        assert s == [s[0]] + s[1..];
      }
    }
  }

  lemma {:induction false} SplitNoSep(a: string, sep: char)
    requires sep !in a
    ensures Split(a, sep) == [a]
  {
    if a != [] {
      assert sep !in a[1..];
      SplitNoSep(a[1..], sep);
      assert a == [a[0]] + a[1..];
    }
  }

  lemma {:induction false} SplitAtFirstSep(a: string, sep: char, b: string)
    requires sep !in a
    ensures Split(a + [sep] + b, sep) == [a] + Split(b, sep)
  {
    var s := a + [sep] + b;
    if a == [] {
      assert s[0] == sep && s[1..] == b;
    } else {
      assert s[0] == a[0] && s[1..] == a[1..] + [sep] + b;
      assert sep !in a[1..];
      SplitAtFirstSep(a[1..], sep, b);
      assert a == [a[0]] + a[1..];
    }
  }

  /** Splitting a join whose parts hold no separator gives back the parts. */
  lemma {:induction false} JoinSplit(parts: seq<string>, sep: char)
    requires |parts| >= 1
    requires forall k :: 0 <= k < |parts| ==> sep !in parts[k]
    ensures Split(Join(parts, [sep]), sep) == parts
  {
    if |parts| == 1 {
      SplitNoSep(parts[0], sep);
    } else {
      JoinSplit(parts[1..], sep);
      SplitAtFirstSep(parts[0], sep, Join(parts[1..], [sep]));
      assert parts == [parts[0]] + parts[1..];
    }
  }

  /** Python's `s.split(c, 1)[1]` when `c in s`: what follows the first `c`. */
  function AfterFirst(s: string, c: char): (r: string)
    requires c in s
    ensures |r| < |s| && s[|s| - |r| - 1] == c && r == s[|s| - |r|..]
    ensures c !in s[..|s| - |r| - 1]
  {
    if s[0] == c then s[1..] else AfterFirst(s[1..], c)
  }

  /** Python's `s.replace(pat, rep)`: every non-overlapping occurrence, scanning left to right. */
  function ReplaceAll(s: string, pat: string, rep: string): (r: string)
    requires pat != []
    ensures rep == pat ==> r == s
    ensures |rep| <= |pat| ==> |r| <= |s|
    decreases |s|
  {
    if |s| < |pat| then s
    else if s[..|pat|] == pat then
      assert s == s[..|pat|] + s[|pat|..];
      rep + ReplaceAll(s[|pat|..], pat, rep)
    else
      assert s == [s[0]] + s[1..];
      [s[0]] + ReplaceAll(s[1..], pat, rep)
  }

  /** A string in which `pat` does not occur is left as it is. */
  lemma {:induction false} ReplaceAbsent(s: string, pat: string, rep: string)
    requires pat != [] && !Contains(s, pat)
    ensures ReplaceAll(s, pat, rep) == s
    decreases |s|
  {
    if |s| >= |pat| {
      assert !Contains(s[1..], pat) by {
        if Contains(s[1..], pat) {
          var j: nat :| OccursAt(s[1..], pat, j);
          assert s[1..][j..j + |pat|] == s[j + 1..j + 1 + |pat|];
          assert OccursAt(s, pat, j + 1);
        }
      }
      assert !OccursAt(s, pat, 0);
      ReplaceAbsent(s[1..], pat, rep);
      assert s == [s[0]] + s[1..];
    }
  }

  lemma ReplaceAtStart(s: string, pat: string, rep: string)
    requires pat != [] && OccursAt(s, pat, 0)
    ensures ReplaceAll(s, pat, rep) == rep + ReplaceAll(s[|pat|..], pat, rep)
  {
  }

  /** Where `pat` does not start `s`, `replace` keeps the first character and carries on from the second. */
  lemma ReplaceSkip(s: string, pat: string, rep: string)
    requires pat != [] && |s| >= |pat| && !OccursAt(s, pat, 0)
    ensures ReplaceAll(s, pat, rep) == [s[0]] + ReplaceAll(s[1..], pat, rep)
  {
  }

  /**
    `replace` replaces the leftmost occurrence of `pat`, at `i`, keeps what
    comes before it, and resumes the scan right after it.
   */
  lemma ReplaceFirst(s: string, pat: string, rep: string, i: nat)
    requires pat != [] && OccursAt(s, pat, i)
    requires forall j: nat :: j < i ==> !OccursAt(s, pat, j)
    ensures ReplaceAll(s, pat, rep) == s[..i] + rep + ReplaceAll(s[i + |pat|..], pat, rep)
  {
    ReplaceSkipPrefix(s, pat, rep, i);
    ReplaceAt(s, pat, rep, i);
    ConcatAssoc(s[..i], rep, ReplaceAll(s[i + |pat|..], pat, rep));
  }

  lemma ConcatAssoc(a: string, b: string, c: string)
    ensures a + (b + c) == a + b + c
  {
  }

  /** An occurrence at `i` is replaced, and the scan resumes right after it. */
  lemma ReplaceAt(s: string, pat: string, rep: string, i: nat)
    requires pat != [] && OccursAt(s, pat, i)
    ensures ReplaceAll(s[i..], pat, rep) == rep + ReplaceAll(s[i + |pat|..], pat, rep)
  {
    var t := s[i..];
    assert t[0..|pat|] == s[i..i + |pat|];
    ReplaceAtStart(t, pat, rep);
    assert t[|pat|..] == s[i + |pat|..];
  }

  /** Where `pat` does not occur at `k - 1`, `replace` copies `s[k - 1]` and carries on from `k`. */
  lemma ReplaceSkipAt(s: string, pat: string, rep: string, k: nat)
    requires pat != [] && 0 < k && k - 1 + |pat| <= |s| && !OccursAt(s, pat, k - 1)
    ensures ReplaceAll(s[k - 1..], pat, rep) == [s[k - 1]] + ReplaceAll(s[k..], pat, rep)
  {
    var t := s[k - 1..];
    assert t[0..|pat|] == s[k - 1..k - 1 + |pat|];
    ReplaceSkip(t, pat, rep);
    assert t[1..] == s[k..];
  }

  lemma PrefixSnoc(s: string, k: nat, tail: string)
    requires 0 < k <= |s|
    ensures s[..k - 1] + ([s[k - 1]] + tail) == s[..k] + tail
  {
    assert s[..k - 1] + [s[k - 1]] == s[..k];
  }

  /** Before the first occurrence of `pat`, `replace` copies the characters as they are. */
  lemma {:induction false} ReplaceSkipPrefix(s: string, pat: string, rep: string, k: nat)
    requires pat != [] && k + |pat| <= |s|
    requires forall j: nat :: j < k ==> !OccursAt(s, pat, j)
    ensures ReplaceAll(s, pat, rep) == s[..k] + ReplaceAll(s[k..], pat, rep)
  {
    if k == 0 {
      assert s[..0] + s[0..] == s;
    } else {
      ReplaceSkipPrefix(s, pat, rep, k - 1);
      ReplaceSkipAt(s, pat, rep, k);
      PrefixSnoc(s, k, ReplaceAll(s[k..], pat, rep));
    }
  }

  /** Removing a pattern that first occurs right after `pre` and not at all in `post` leaves `pre + post`. */
  lemma RemoveFirst(pre: string, pat: string, post: string)
    requires pat != []
    requires forall j: nat :: j < |pre| ==> !OccursAt(pre + pat + post, pat, j)
    requires !Contains(post, pat)
    ensures ReplaceAll(pre + pat + post, pat, "") == pre + post
  {
    var s := pre + pat + post;
    ThreeSlices(pre, pat, post);
    ReplaceFirst(s, pat, "", |pre|);
    ReplaceAbsent(post, pat, "");
  }

  lemma ThreeSlices(a: string, b: string, c: string)
    ensures (a + b + c)[..|a|] == a
    ensures (a + b + c)[|a|..|a| + |b|] == b
    ensures (a + b + c)[|a| + |b|..] == c
  {
  }

  /** A leading occurrence of `pat` is replaced, and the scan resumes after it. */
  lemma {:induction false} ReplaceLeading(pat: string, s: string, rep: string)
    requires pat != []
    ensures ReplaceAll(pat + s, pat, rep) == rep + ReplaceAll(s, pat, rep)
  {
    assert (pat + s)[..|pat|] == pat;
    assert (pat + s)[|pat|..] == s;
  }

  /** A string that neither starts nor ends with whitespace is its own strip. */
  lemma StripUntouched(s: string)
    requires s != [] && !IsSpace(s[0]) && !IsSpace(s[|s| - 1])
    ensures Strip(s) == s
  {
  }

  /** One trailing space after a string with non-space ends is all that stripping removes. */
  lemma StripTrailingSpace(s: string)
    requires s != [] && !IsSpace(s[0]) && !IsSpace(s[|s| - 1])
    ensures Strip(s + " ") == s
  {
    var t := s + " ";
    assert t[0] == s[0] && IsSpace(t[|t| - 1]);
    assert t[..|t| - 1] == s;
    StripUntouched(s);
  }

  /** Joining one more part appends the separator and that part. */
  lemma {:induction false} JoinSnoc(parts: seq<string>, sep: string, x: string)
    requires |parts| >= 1
    ensures Join(parts + [x], sep) == Join(parts, sep) + sep + x
  {
    if |parts| > 1 {
      JoinSnoc(parts[1..], sep, x);
      assert (parts + [x])[1..] == parts[1..] + [x];
    } else {
      assert (parts + [x])[1..] == [x];
    }
  }

  /** A join of parts whose first and last parts are non-empty starts with the first part's first character and ends with the last part's last one. */
  lemma JoinEnds(parts: seq<string>, sep: string)
    requires |parts| >= 1 && parts[0] != [] && parts[|parts| - 1] != []
    ensures var j := Join(parts, sep);
      j != [] && j[0] == parts[0][0] && j[|j| - 1] == parts[|parts| - 1][|parts[|parts| - 1]| - 1]
  {
    var n := |parts|;
    JoinAt(parts, sep, 0);
    if n > 1 {
      JoinSnoc(parts[..n - 1], sep, parts[n - 1]);
      assert parts[..n - 1] + [parts[n - 1]] == parts;
    }
  }
}
