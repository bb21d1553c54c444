/** Joining lines with a separator (`Array.prototype.join`) and splitting them
    back, used to read the bullet lists of the generated README and the
    space-separated class strings of the widgets. */
module Text {

  /** `parts.join(sep)` for a one-character separator. */
  function Join(parts: seq<string>, sep: char): string
  {
    if |parts| == 0 then ""
    else if |parts| == 1 then parts[0]
    else parts[0] + [sep] + Join(parts[1..], sep)
  }

  /** `s.split(sep)` for a one-character separator: always at least one
      piece. */
  function Split(s: string, sep: char): (r: seq<string>)
    ensures |r| > 0
  {
    if s == [] then [""]
    else
      var rest := Split(s[1..], sep);
      if s[0] == sep then [""] + rest
      else [[s[0]] + rest[0]] + rest[1..]
  }

  /** A piece without the separator splits into itself. */
  lemma {:induction false} SplitPlain(a: string, sep: char)
    requires sep !in a
    ensures Split(a, sep) == [a]
  {
    if a != [] {
      assert a[1..] + [] == a[1..];
      SplitPlain(a[1..], sep);
      assert [a[0]] + a[1..] == a;
    }
  }

  /** Splitting `a + sep + b` cuts exactly after `a` when `a` has no separator. */
  lemma {:induction false} SplitAfter(a: string, b: string, sep: char)
    requires sep !in a
    ensures Split(a + [sep] + b, sep) == [a] + Split(b, sep)
  {
    var s := a + [sep] + b;
    if a == [] {
      assert s[0] == sep && s[1..] == b;
    } else {
      assert s[0] == a[0];
      assert s[1..] == a[1..] + [sep] + b;
      SplitAfter(a[1..], b, sep);
      assert [a[0]] + a[1..] == a;
    }
  }

  /** Round trip: splitting a join gives back the parts when no part holds the
      separator. */
  lemma {:induction false} SplitJoin(parts: seq<string>, sep: char)
    requires |parts| > 0
    requires forall i :: 0 <= i < |parts| ==> sep !in parts[i]
    ensures Split(Join(parts, sep), sep) == parts
  {
    if |parts| == 1 {
      SplitPlain(parts[0], sep);
    } else {
      SplitAfter(parts[0], Join(parts[1..], sep), sep);
      SplitJoin(parts[1..], sep);
      assert [parts[0]] + parts[1..] == parts;
    }
  }

  /** Splitting at a separator placed between two texts splits each text on
      its own. */
  lemma {:induction false} SplitAtSeparator(x: string, y: string, sep: char)
    ensures Split(x + [sep] + y, sep) == Split(x, sep) + Split(y, sep)
  {
    if x == [] {
      assert x + [sep] + y == [sep] + y;
      SplitCons(sep, y, sep);
    } else {
      SplitAtSeparator(x[1..], y, sep);
      SplitAtSeparatorStep(x[0], x[1..], y, sep);
      assert x + [sep] + y == [x[0]] + (x[1..] + [sep] + y);
      assert x == [x[0]] + x[1..];
    }
  }

  /** The inductive step of `SplitAtSeparator`: one more leading character. */
  lemma SplitAtSeparatorStep(c: char, tail: string, y: string, sep: char)
    requires Split(tail + [sep] + y, sep) == Split(tail, sep) + Split(y, sep)
    ensures Split([c] + (tail + [sep] + y), sep) == Split([c] + tail, sep) + Split(y, sep)
  {
    ConsStep(c, tail + [sep] + y, tail, Split(y, sep), sep);
  }

  /** A common leading character keeps a common suffix of pieces. */
  lemma ConsStep(c: char, rest: string, tail: string, more: seq<string>, sep: char)
    requires Split(rest, sep) == Split(tail, sep) + more
    ensures Split([c] + rest, sep) == Split([c] + tail, sep) + more
  {
    SplitCons(c, rest, sep);
    SplitCons(c, tail, sep);
    if c != sep {
      ExtendFirst([c], Split(tail, sep), more);
    } else {
      assert [""] + (Split(tail, sep) + more) == [""] + Split(tail, sep) + more;
    }
  }

  /** Prefixing the first piece commutes with appending more pieces. */
  lemma ExtendFirst(p: string, r: seq<string>, more: seq<string>)
    requires |r| > 0
    ensures [p + (r + more)[0]] + (r + more)[1..] == [p + r[0]] + r[1..] + more
  {
    assert (r + more)[0] == r[0];
    assert (r + more)[1..] == r[1..] + more;
  }

  /** One unfolding of `Split` on a text with a known first character. */
  lemma SplitCons(c: char, rest: string, sep: char)
    ensures Split([c] + rest, sep) ==
      if c == sep then [""] + Split(rest, sep)
      else [[c] + Split(rest, sep)[0]] + Split(rest, sep)[1..]
  {
    var s := [c] + rest;
    assert s[0] == c && s[1..] == rest;
  }

  /** No piece of a split contains the separator. */
  lemma {:induction false} SplitPiecesPlain(s: string, sep: char)
    ensures forall i :: 0 <= i < |Split(s, sep)| ==> sep !in Split(s, sep)[i]
  {
    if s != [] {
      SplitPiecesPlain(s[1..], sep);
      assert s == [s[0]] + s[1..];
      SplitCons(s[0], s[1..], sep);
    }
  }

  /** The lines of every part, one part after the other. */
  function SplitEach(parts: seq<string>, sep: char): seq<string>
  {
    if |parts| == 0 then [] else Split(parts[0], sep) + SplitEach(parts[1..], sep)
  }

  /** Splitting a join splits every part on its own, whatever the parts hold. */
  lemma {:induction false} SplitJoinEach(parts: seq<string>, sep: char)
    requires |parts| > 0
    ensures Split(Join(parts, sep), sep) == SplitEach(parts, sep)
  {
    if |parts| == 1 {
      assert SplitEach(parts[1..], sep) == [];
    } else {
      SplitAtSeparator(parts[0], Join(parts[1..], sep), sep);
      SplitJoinEach(parts[1..], sep);
    }
  }

  /** Plain concatenation of text pieces. */
  function Concat(parts: seq<string>): string
  {
    if |parts| == 0 then "" else parts[0] + Concat(parts[1..])
  }

  /** Concatenating a prefix and a suffix of the pieces separately. */
  lemma {:induction false} ConcatSplit(parts: seq<string>, k: nat)
    requires k <= |parts|
    ensures Concat(parts) == Concat(parts[..k]) + Concat(parts[k..])
  {
    if k > 0 {
      ConcatSplit(parts[1..], k - 1);
      assert parts[1..][..k - 1] == parts[..k][1..];
      assert parts[1..][k - 1..] == parts[k..];
    } else {
      assert parts[..0] == [];
      assert parts[0..] == parts;
    }
  }

  /** Piece `k` sits at the combined length of the pieces before it. */
  lemma PieceAt(parts: seq<string>, k: nat)
    requires k < |parts|
    ensures var at := |Concat(parts[..k])|;
      at + |parts[k]| <= |Concat(parts)| &&
      Concat(parts)[at..at + |parts[k]|] == parts[k]
  {
    ConcatSplit(parts, k);
    var a, b, c := Concat(parts[..k]), parts[k], Concat(parts[k + 1..]);
    assert parts[k..][1..] == parts[k + 1..];
    assert Concat(parts[k..]) == b + c;
    var s := a + b + c;
    forall i | 0 <= i < |b|
      ensures s[|a|..|a| + |b|][i] == b[i]
    {
      assert s[|a| + i] == b[i];
    }
  }

  /** The pieces before `k` are at most as long as the pieces before `j`. */
  lemma ConcatPrefixGrows(parts: seq<string>, k: nat, j: nat)
    requires k <= j <= |parts|
    ensures |Concat(parts[..k])| + |Concat(parts[k..j])| == |Concat(parts[..j])|
  {
    ConcatSplit(parts[..j], k);
    assert parts[..j][..k] == parts[..k];
    assert parts[..j][k..] == parts[k..j];
  }

  /** A text without the separator at the front of another stays at the
      front of the first piece. */
  lemma {:induction false} FirstLinePrefix(a: string, b: string, sep: char)
    requires sep !in a
    ensures |Split(a + b, sep)[0]| >= |a| && Split(a + b, sep)[0][..|a|] == a
  {
    if a != [] {
      var s := a + b;
      assert s[0] == a[0] && s[1..] == a[1..] + b;
      FirstLinePrefix(a[1..], b, sep);
      var r := Split(a[1..] + b, sep);
      assert Split(s, sep)[0] == [a[0]] + r[0];
      assert ([a[0]] + r[0])[..|a|] == [a[0]] + r[0][..|a| - 1];
      assert [a[0]] + a[1..] == a;
    }
  }
}
