/** The Python string operations of the import cleanup: replace, split, join, strip. */
module PyStrings {

  /** `pat` occurs in `s` at position i. */
  predicate At(s: string, pat: string, i: nat) {
    i <= |s| && pat <= s[i..]
  }

  predicate Contains(s: string, pat: string) {
    exists i :: 0 <= i <= |s| && At(s, pat, i)
  }

  /** str.replace: left to right, occurrences do not overlap. */
  function Replace(s: string, pat: string, subst: string): string
    requires pat != ""
  {
    if s == "" then ""
    else if pat <= s then subst + Replace(s[|pat|..], pat, subst)
    else [s[0]] + Replace(s[1..], pat, subst)
  }

  /** str.split on a single character. */
  function Split(s: string, sep: char): (parts: seq<string>)
    ensures |parts| > 0
  {
    if s == "" then [""]
    else if s[0] == sep then [""] + Split(s[1..], sep)
    else
      var rest := Split(s[1..], sep);
      [[s[0]] + rest[0]] + rest[1..]
  }

  function Join(parts: seq<string>, sep: string): string {
    if parts == [] then ""
    else if |parts| == 1 then parts[0]
    else parts[0] + sep + Join(parts[1..], sep)
  }

  /** The characters that strip() removes. */
  predicate IsSpace(c: char) {
    || '\t' <= c <= '\r' || '\U{1c}' <= c <= ' ' || c == '\U{85}' || c == '\U{a0}' || c == '\U{1680}'
    || '\U{2000}' <= c <= '\U{200a}' || c == '\U{2028}' || c == '\U{2029}' || c == '\U{202f}'
    || c == '\U{205f}' || c == '\U{3000}'
  }

  function RStrip(s: string): string {
    if s != "" && IsSpace(s[|s| - 1]) then RStrip(s[..|s| - 1]) else s
  }

  function RStripChar(s: string, c: char): string {
    if s != "" && s[|s| - 1] == c then RStripChar(s[..|s| - 1], c) else s
  }

  /** `s.strip().endswith(c)` for a non-space c: leading blanks do not matter. */
  predicate StrippedEndsWith(s: string, c: char) {
    var t := RStrip(s);
    t != "" && t[|t| - 1] == c
  }

  /** One character that does not match rules an occurrence out. */
  lemma Mismatch(s: string, pat: string, i: nat, k: nat)
    requires i <= k < i + |pat| && (k < |s| ==> s[k] != pat[k - i])
    ensures !At(s, pat, i)
  {
    if i <= |s| {
      assert k < |s| ==> s[i..][k - i] == s[k];
    }
  }

  /** What does not occur inside `a` does not start there in a longer text, nor does anything longer. */
  lemma AbsentWithin(a: string, b: string, pat: string, more: string, i: nat)
    requires i + |pat| <= |a| && !At(a, pat, i)
    ensures !At(a + b, pat + more, i)
  {
    var s := a + b;
    assert s[i..][..|pat|] == a[i..][..|pat|];
    assert a[i..][..|pat|] != pat;
    assert (pat + more)[..|pat|] == pat;
  }

  lemma AbsentLater(a: string, b: string, pat: string, i: nat)
    requires |a| <= i <= |a| + |b| && !At(b, pat, i - |a|)
    ensures !At(a + b, pat, i)
  {
    assert (a + b)[i..] == b[i - |a|..];
  }

  // ---------------------------------------------------------------- replace

  /** The part of a string in which no occurrence starts is copied. */
  lemma {:induction false} ReplaceSkips(s: string, pat: string, subst: string, n: nat)
    requires pat != "" && n <= |s|
    requires forall i :: 0 <= i < n ==> !At(s, pat, i)
    ensures Replace(s, pat, subst) == s[..n] + Replace(s[n..], pat, subst)
    decreases n
  {
    if n > 0 {
      assert !At(s, pat, 0) && s[0..] == s;
      forall i | 0 <= i < n - 1 ensures !At(s[1..], pat, i) {
        assert !At(s, pat, i + 1);
        assert s[1..][i..] == s[i + 1..];
      }
      ReplaceSkips(s[1..], pat, subst, n - 1);
      assert s[1..][n - 1..] == s[n..];
      assert [s[0]] + s[1..][..n - 1] == s[..n];
    } else {
      assert s[0..] == s;
    }
  }

  lemma ReplaceAfter(head: string, rest: string, pat: string, subst: string)
    requires pat != "" && forall i :: 0 <= i < |head| ==> !At(head + rest, pat, i)
    ensures Replace(head + rest, pat, subst) == head + Replace(rest, pat, subst)
  {
    ReplaceSkips(head + rest, pat, subst, |head|);
    assert (head + rest)[..|head|] == head && (head + rest)[|head|..] == rest;
  }

  lemma ReplaceAbsent(s: string, pat: string, subst: string)
    requires pat != "" && !Contains(s, pat)
    ensures Replace(s, pat, subst) == s
  {
    ReplaceSkips(s, pat, subst, |s|);
    assert s[..|s|] == s && s[|s|..] == "";
  }

  lemma ReplaceHit(pat: string, rest: string, subst: string)
    requires pat != ""
    ensures Replace(pat + rest, pat, subst) == subst + Replace(rest, pat, subst)
  {
    assert (pat + rest)[|pat|..] == rest;
  }

  /** A single occurrence is replaced. */
  lemma ReplaceOnce(head: string, pat: string, rest: string, subst: string)
    requires pat != "" && !Contains(rest, pat)
    requires forall i :: 0 <= i < |head| ==> !At(head + (pat + rest), pat, i)
    ensures Replace(head + (pat + rest), pat, subst) == head + (subst + rest)
  {
    ReplaceAfter(head, pat + rest, pat, subst);
    ReplaceHit(pat, rest, subst);
    ReplaceAbsent(rest, pat, subst);
  }

  lemma {:induction false} ReplaceNewChars(s: string, pat: string, subst: string, c: char)
    requires pat != "" && c !in s && c !in subst
    ensures c !in Replace(s, pat, subst)
    decreases |s|
  {
    if s != "" {
      ReplaceNewChars(if pat <= s then s[|pat|..] else s[1..], pat, subst, c);
    }
  }

  /** A character at the end in which no occurrence can end stays there. */
  lemma {:induction false} ReplaceBeforeLast(s: string, pat: string, subst: string, c: char)
    requires pat != "" && pat[|pat| - 1] != c
    ensures Replace(s + [c], pat, subst) == Replace(s, pat, subst) + [c]
    decreases |s|
  {
    if s == "" {
      assert !(pat <= [c]);
      assert s + [c] == [c] && [c][1..] == "";
    } else if pat <= s {
      assert (s + [c])[|pat|..] == s[|pat|..] + [c];
      ReplaceBeforeLast(s[|pat|..], pat, subst, c);
    } else {
      assert !(pat <= s + [c]);
      assert (s + [c])[1..] == s[1..] + [c];
      ReplaceBeforeLast(s[1..], pat, subst, c);
    }
  }

  lemma MissingChar(s: string, pat: string, c: char)
    requires c in pat && c !in s
    ensures !Contains(s, pat)
  {
    var k :| 0 <= k < |pat| && pat[k] == c;
    forall i | 0 <= i <= |s| ensures !At(s, pat, i) {
      assert i + k < |s| ==> s[i + k] in s;
      Mismatch(s, pat, i, i + k);
    }
  }

  /** What the two strips cut off, and that nothing more could be cut off. */
  lemma {:induction false} StripMeaning(s: string, c: char)
    ensures RStrip(s) <= s && forall i :: |RStrip(s)| <= i < |s| ==> IsSpace(s[i])
    ensures RStrip(s) == "" || !IsSpace(RStrip(s)[|RStrip(s)| - 1])
    ensures RStripChar(s, c) <= s && forall i :: |RStripChar(s, c)| <= i < |s| ==> s[i] == c
    ensures RStripChar(s, c) == "" || RStripChar(s, c)[|RStripChar(s, c)| - 1] != c
  {
    if s != "" {
      StripMeaning(s[..|s| - 1], c);
    }
  }

  // ---------------------------------------------------------------- split and join

  lemma {:induction false} JoinSplit(s: string, sep: char)
    ensures Join(Split(s, sep), [sep]) == s
  {
    if s != "" {
      var rest := Split(s[1..], sep);
      JoinSplit(s[1..], sep);
      if s[0] == sep {
        assert ([""] + rest)[1..] == rest;
        assert s == [sep] + s[1..];
      } else {
        var parts := [[s[0]] + rest[0]] + rest[1..];
        assert parts[1..] == rest[1..];
        assert s == [s[0]] + s[1..];
        if |rest| > 1 {
          assert Join(parts, [sep]) == [s[0]] + (rest[0] + [sep] + Join(rest[1..], [sep]));
        }
      }
    }
  }

  lemma {:induction false} SplitPlain(s: string, sep: char)
    requires sep !in s
    ensures Split(s, sep) == [s]
  {
    if s != "" {
      SplitPlain(s[1..], sep);
      assert [s[0]] + s[1..] == s;
    }
  }

  lemma {:induction false} SplitHead(a: string, sep: char, rest: string)
    requires sep !in a
    ensures Split(a + [sep] + rest, sep) == [a] + Split(rest, sep)
  {
    var s := a + [sep] + rest;
    if a == "" {
      assert s == [sep] + rest && s[1..] == rest;
    } else {
      assert s[1..] == a[1..] + [sep] + rest;
      SplitHead(a[1..], sep, rest);
      assert [s[0]] + a[1..] == a;
    }
  }

  lemma {:induction false} SplitJoin(parts: seq<string>, sep: char)
    requires parts != [] && forall p <- parts :: sep !in p
    ensures Split(Join(parts, [sep]), sep) == parts
  {
    if |parts| == 1 {
      SplitPlain(parts[0], sep);
    } else {
      var rest := parts[1..];
      assert parts == [parts[0]] + rest && forall p <- rest :: p in parts;
      SplitJoin(rest, sep);
      SplitHead(parts[0], sep, Join(rest, [sep]));
    }
  }

  lemma {:induction false} SplitParts(s: string, sep: char)
    ensures forall p <- Split(s, sep) :: sep !in p
  {
    if s != "" {
      SplitParts(s[1..], sep);
    }
  }
}
