/** The class-name scanner of the README generator (`extractCSSClasses`,
    download-system.js:466-469): every match of the regular expression
    `/\.([\w-]+)/g`, with the leading dot removed, de-duplicated in
    first-seen order. It is a textual heuristic, not a CSS parser: a decimal
    such as `0.6` yields the "class" `6`. */
module CssClasses {

  /** A character of `[\w-]` without the `u` flag: ASCII letters, digits,
      underscore and hyphen. */
  predicate IsClassChar(c: char)
  {
    ('a' <= c <= 'z') || ('A' <= c <= 'Z') || ('0' <= c <= '9') || c == '_' || c == '-'
  }

  /** Length of the greedy run of class characters at the front of `s`. */
  function RunLength(s: string): (n: nat)
    ensures n <= |s|
    ensures forall k :: 0 <= k < n ==> IsClassChar(s[k])
    ensures n < |s| ==> !IsClassChar(s[n])
  {
    if s == [] || !IsClassChar(s[0]) then 0 else 1 + RunLength(s[1..])
  }

  /** The regular expression matches at position `k`: a dot followed by at
      least one class character. */
  predicate MatchAt(s: string, k: int)
  {
    0 <= k && k + 1 < |s| && s[k] == '.' && IsClassChar(s[k + 1])
  }

  /** The captured name of the match at `k`: the maximal run after the dot. */
  function RunAt(s: string, k: int): string
    requires MatchAt(s, k)
  {
    s[k + 1..k + 1 + RunLength(s[k + 1..])]
  }

  /** All matches of `/\.([\w-]+)/g`, left to right, without their dots; the
      scan resumes right after each match. */
  function ClassMatches(s: string): seq<string>
    decreases |s|
  {
    if |s| < 2 then []
    else if s[0] == '.' && IsClassChar(s[1]) then
      var n := RunLength(s[1..]);
      [s[1..1 + n]] + ClassMatches(s[1 + n..])
    else ClassMatches(s[1..])
  }

  /** No value occurs twice. */
  predicate NoDuplicates(xs: seq<string>)
  {
    forall i, j :: 0 <= i < j < |xs| ==> xs[i] != xs[j]
  }

  /** `[...new Set(xs)]`: the values of `xs` without repeats, each kept at its
      first occurrence. */
  function Dedup(xs: seq<string>): (r: seq<string>)
    ensures NoDuplicates(r)
    ensures forall x :: x in r <==> x in xs
  {
    if xs == [] then []
    else
      var d := Dedup(xs[..|xs| - 1]);
      var last := xs[|xs| - 1];
      assert forall x :: x in xs <==> x in xs[..|xs| - 1] || x == last by {
        assert xs == xs[..|xs| - 1] + [last];
      }
      if last in d then d else d + [last]
  }

  /** `extractCSSClasses(css)`. */
  function ExtractCSSClasses(css: string): seq<string>
  {
    Dedup(ClassMatches(css))
  }

  /** Index of the first occurrence of `x` in `xs`. */
  function FirstIndex(xs: seq<string>, x: string): (i: nat)
    requires x in xs
    ensures i < |xs| && xs[i] == x
    ensures forall j :: 0 <= j < i ==> xs[j] != x
  {
    if xs[0] == x then 0 else 1 + FirstIndex(xs[1..], x)
  }

  /** Every match is the maximal run of class characters after some dot of
      the text. */
  lemma {:induction false} ClassMatchesSound(s: string)
    ensures forall m :: m in ClassMatches(s) ==> exists k :: MatchAt(s, k) && m == RunAt(s, k)
    decreases |s|
  {
    if |s| >= 2 {
      var d := if s[0] == '.' && IsClassChar(s[1]) then 1 + RunLength(s[1..]) else 1;
      var t := s[d..];
      ClassMatchesSound(t);
      forall m | m in ClassMatches(s)
        ensures exists k :: MatchAt(s, k) && m == RunAt(s, k)
      {
        if d > 1 && m == s[1..d] {
          assert MatchAt(s, 0) && RunAt(s, 0) == m;
        } else {
          assert m in ClassMatches(t);
          var k :| MatchAt(t, k) && m == RunAt(t, k);
          ShiftMatch(s, d, k);
        }
      }
    }
  }

  /** Every dot followed by a class character yields a match. */
  lemma {:induction false} ClassMatchesComplete(s: string)
    ensures forall k :: MatchAt(s, k) ==> RunAt(s, k) in ClassMatches(s)
    decreases |s|
  {
    if |s| >= 2 {
      var d := if s[0] == '.' && IsClassChar(s[1]) then 1 + RunLength(s[1..]) else 1;
      var t := s[d..];
      ClassMatchesComplete(t);
      forall j | 1 <= j < d
        ensures IsClassChar(s[j])
      {
        assert s[j] == s[1..][j - 1];
      }
      forall k | MatchAt(s, k)
        ensures RunAt(s, k) in ClassMatches(s)
      {
        if k > 0 {
          ShiftMatch(s, d, k - d);
        }
      }
    }
  }

  /** A match in a suffix of `s` is the same match in `s`, shifted. */
  lemma ShiftMatch(s: string, d: nat, k: int)
    requires d <= |s| && 0 <= k
    ensures MatchAt(s[d..], k) <==> MatchAt(s, k + d)
    ensures MatchAt(s[d..], k) ==> RunAt(s[d..], k) == RunAt(s, k + d)
  {
    if MatchAt(s[d..], k) {
      assert s[d..][k + 1..] == s[k + d + 1..];
    }
  }

  /** What `extractCSSClasses` returns: no duplicates, and exactly the names
      that follow a dot somewhere in the text. */
  lemma ExtractedClassesExact(css: string)
    ensures NoDuplicates(ExtractCSSClasses(css))
    ensures forall m :: m in ExtractCSSClasses(css) <==> exists k :: MatchAt(css, k) && m == RunAt(css, k)
  {
    ClassMatchesSound(css);
    ClassMatchesComplete(css);
  }

  /** Every extracted name is a non-empty run of class characters. */
  lemma {:induction false} ClassMatchesWellFormed(s: string)
    ensures forall m :: m in ClassMatches(s) ==> |m| > 0 && forall c :: c in m ==> IsClassChar(c)
    decreases |s|
  {
    if |s| < 2 {
    } else if s[0] == '.' && IsClassChar(s[1]) {
      ClassMatchesWellFormed(s[1 + RunLength(s[1..])..]);
    } else {
      ClassMatchesWellFormed(s[1..]);
    }
  }

  /** De-duplication keeps first-seen order: the names come out in the order
      of their first occurrences in the input. */
  lemma {:induction false} DedupFirstSeenOrder(xs: seq<string>)
    ensures forall i, j :: 0 <= i < j < |Dedup(xs)| ==>
      FirstIndex(xs, Dedup(xs)[i]) < FirstIndex(xs, Dedup(xs)[j])
  {
    if xs != [] {
      var init := xs[..|xs| - 1];
      var last := xs[|xs| - 1];
      var d := Dedup(init);
      DedupFirstSeenOrder(init);
      forall y | y in init
        ensures FirstIndex(xs, y) == FirstIndex(init, y)
      {
        FirstIndexPrefix(xs, init, y);
      }
      if last !in d {
        assert last !in init;
        assert FirstIndex(xs, last) == |xs| - 1;
      }
    }
  }

  /** The first index of a value in a prefix is its first index in the whole. */
  lemma FirstIndexPrefix(xs: seq<string>, p: seq<string>, y: string)
    requires p <= xs && y in p
    ensures FirstIndex(xs, y) == FirstIndex(p, y)
  {
    var i := FirstIndex(p, y);
    assert xs[i] == y;
    var j := FirstIndex(xs, y);
    assert j <= i;
    assert p[j] == xs[j];
  }

  /** Text without a dot yields no match. */
  lemma {:induction false} NoDotNoMatches(s: string)
    requires '.' !in s
    ensures ClassMatches(s) == []
    decreases |s|
  {
    if |s| >= 2 {
      assert s[0] != '.';
      NoDotNoMatches(s[1..]);
    }
  }

  /** The run after a dot is the whole name when the name is followed by a
      character outside `[\w-]`. */
  lemma {:induction false} RunLengthOfName(name: string, rest: string)
    requires forall c :: c in name ==> IsClassChar(c)
    requires rest == [] || !IsClassChar(rest[0])
    ensures RunLength(name + rest) == |name|
    decreases |name|
  {
    if name != [] {
      assert (name + rest)[0] == name[0];
      assert (name + rest)[1..] == name[1..] + rest;
      RunLengthOfName(name[1..], rest);
    }
  }

  /** A text that starts with `.name` and a non-name character yields `name`
      first and then the matches of the rest. */
  lemma LeadingClass(name: string, rest: string)
    requires name != [] && forall c :: c in name ==> IsClassChar(c)
    requires rest == [] || !IsClassChar(rest[0])
    ensures ClassMatches("." + name + rest) == [name] + ClassMatches(rest)
  {
    var s := "." + name + rest;
    assert s[1..] == name + rest;
    assert s[0] == '.' && s[1] == name[0] && name[0] in name;
    RunLengthOfName(name, rest);
    assert s[1..1 + |name|] == name;
    assert s[1 + |name|..] == rest;
  }

  /** A run that starts inside `x` ends inside `x` when `x` ends with a
      non-name character. */
  lemma {:induction false} RunStops(x: string, y: string)
    requires x != [] && !IsClassChar(x[|x| - 1])
    ensures RunLength(x + y) == RunLength(x) < |x|
    decreases |x|
  {
    assert (x + y)[0] == x[0];
    if IsClassChar(x[0]) {
      assert (x + y)[1..] == x[1..] + y;
      RunStops(x[1..], y);
    }
  }

  /** The scan splits at a boundary whose left side ends with a character
      that is neither a dot nor a name character. */
  lemma {:induction false} ClassMatchesConcat(a: string, b: string)
    requires a != [] && a[|a| - 1] != '.' && !IsClassChar(a[|a| - 1])
    ensures ClassMatches(a + b) == ClassMatches(a) + ClassMatches(b)
    decreases |a|, 1
  {
    if |a| == 1 {
      ConcatOne(a, b);
    } else if a[0] == '.' && IsClassChar(a[1]) {
      ConcatMatchFirst(a, b);
    } else {
      ConcatSkipFirst(a, b);
    }
  }

  /** `ClassMatchesConcat` when `a` opens with a match. */
  lemma {:induction false} ConcatMatchFirst(a: string, b: string)
    requires |a| >= 2 && a[0] == '.' && IsClassChar(a[1])
    requires a[|a| - 1] != '.' && !IsClassChar(a[|a| - 1])
    ensures ClassMatches(a + b) == ClassMatches(a) + ClassMatches(b)
    decreases |a|, 0
  {
    var n := ConcatAtMatch(a, b);
    var rest := a[1 + n..];
    assert rest[|rest| - 1] == a[|a| - 1];
    ClassMatchesConcat(rest, b);
    ConsAppend(a[1..1 + n], ClassMatches(rest), ClassMatches(b));
  }

  lemma ConsAppend(h: string, x: seq<string>, y: seq<string>)
    ensures [h] + (x + y) == ([h] + x) + y
  {
  }

  /** `ClassMatchesConcat` when `a` does not open with a match. */
  lemma {:induction false} ConcatSkipFirst(a: string, b: string)
    requires |a| >= 2 && !(a[0] == '.' && IsClassChar(a[1]))
    requires a[|a| - 1] != '.' && !IsClassChar(a[|a| - 1])
    ensures ClassMatches(a + b) == ClassMatches(a) + ClassMatches(b)
    decreases |a|, 0
  {
    ConcatSkip(a, b);
    var rest := a[1..];
    assert rest[|rest| - 1] == a[|a| - 1];
    ClassMatchesConcat(rest, b);
  }

  /** A single character that neither is a dot nor belongs to a name
      contributes nothing to the scan. */
  lemma ConcatOne(a: string, b: string)
    requires |a| == 1 && a[0] != '.'
    ensures ClassMatches(a) == []
    ensures ClassMatches(a + b) == ClassMatches(b)
  {
    var s := a + b;
    if |s| >= 2 {
      assert s[0] == a[0] && s[1..] == b;
    } else {
      assert b == [];
    }
  }

  /** One step of the scan over `a + b` at a match that starts, and so
      ends, inside `a`. */
  lemma ConcatAtMatch(a: string, b: string) returns (n: nat)
    requires |a| >= 2 && a[0] == '.' && IsClassChar(a[1]) && !IsClassChar(a[|a| - 1])
    ensures n == RunLength(a[1..]) && 1 + n < |a|
    ensures ClassMatches(a) == [a[1..1 + n]] + ClassMatches(a[1 + n..])
    ensures ClassMatches(a + b) == [a[1..1 + n]] + ClassMatches(a[1 + n..] + b)
  {
    var s := a + b;
    assert s[0] == a[0] && s[1] == a[1];
    assert s[1..] == a[1..] + b;
    RunStops(a[1..], b);
    n := RunLength(a[1..]);
    assert s[1..1 + n] == a[1..1 + n];
    assert s[1 + n..] == a[1 + n..] + b;
  }

  /** One step of the scan over `a + b` where `a` has no match at its
      front. */
  lemma ConcatSkip(a: string, b: string)
    requires |a| >= 2 && !(a[0] == '.' && IsClassChar(a[1]))
    ensures ClassMatches(a) == ClassMatches(a[1..])
    ensures ClassMatches(a + b) == ClassMatches(a[1..] + b)
  {
    var s := a + b;
    assert s[0] == a[0] && s[1] == a[1];
    assert s[1..] == a[1..] + b;
  }

  /** Text without a dot before a `.name`: the scan skips it. */
  lemma {:induction false} SkipsDotless(prefix: string, rest: string)
    requires '.' !in prefix && |rest| >= 2
    ensures ClassMatches(prefix + rest) == ClassMatches(rest)
    decreases |prefix|
  {
    if prefix != [] {
      var s := prefix + rest;
      assert s[0] == prefix[0] && prefix[0] in prefix;
      assert s[1..] == prefix[1..] + rest;
      SkipsDotless(prefix[1..], rest);
    } else {
      assert prefix + rest == rest;
    }
  }

  /** The digits after a decimal point are reported as a class: the only
      dot of `opacity: 0.6;` yields `6`. */
  lemma DecimalReadAsClass(whole: string, digits: string, rest: string)
    requires '.' !in whole && '.' !in rest
    requires digits != [] && forall c :: c in digits ==> '0' <= c <= '9'
    requires rest == [] || !IsClassChar(rest[0])
    ensures ExtractCSSClasses(whole + ("." + digits + rest)) == [digits]
  {
    assert forall c :: c in digits ==> IsClassChar(c);
    SkipsDotless(whole, "." + digits + rest);
    LeadingClass(digits, rest);
    NoDotNoMatches(rest);
    assert ClassMatches(whole + ("." + digits + rest)) == [digits];
    assert Dedup([digits]) == Dedup([]) + [digits];
  }
}
