/**
 The few Python `str` operations the mod checker relies on, written out on
 `seq<char>`: `str.isspace`, `str.strip`, `str.startswith`, the `in`
 substring test, `str.split(sep)` with a one-character separator and
 `sep.join(items)`.
 */
module PyStr {

  /** The characters for which Python's `str.isspace` holds. */
  predicate IsSpace(c: char) {
    || c == ' ' || c == '\t' || c == '\n' || c == '\r' || c == '\U{B}' || c == '\U{C}'
    || ('\U{1C}' <= c <= '\U{1F}') || c == '\U{85}' || c == '\U{A0}' || c == '\U{1680}'
    || ('\U{2000}' <= c <= '\U{200A}') || c == '\U{2028}' || c == '\U{2029}'
    || c == '\U{202F}' || c == '\U{205F}' || c == '\U{3000}'
  }

  /** `s.startswith(p)`. */
  predicate StartsWith(s: string, p: string) {
    |p| <= |s| && s[..|p|] == p
  }

  /** `sub` occurs in `s` starting at index `i`. */
  predicate OccursAt(s: string, sub: string, i: int) {
    0 <= i <= |s| - |sub| && s[i..i + |sub|] == sub
  }

  /** `sub in s`. */
  predicate Contains(s: string, sub: string) {
    exists i :: 0 <= i <= |s| - |sub| && OccursAt(s, sub, i)
  }

  /** `s.lstrip()`: drops the leading whitespace and nothing else. */
  function LStrip(s: string): (r: string)
  {
    if s != [] && IsSpace(s[0]) then LStrip(s[1..]) else s
  }

  /** `s.rstrip()`: drops the trailing whitespace and nothing else. */
  function RStrip(s: string): (r: string)
  {
    if s != [] && IsSpace(s[|s| - 1]) then RStrip(s[..|s| - 1]) else s
  }

  /** `lstrip` removes exactly the leading run of whitespace. */
  lemma {:induction false} LStripSpec(s: string)
    ensures var r := LStrip(s);
      && |r| <= |s| && r == s[|s| - |r|..]
      && (r == [] || !IsSpace(r[0]))
      && forall i :: 0 <= i < |s| - |r| ==> IsSpace(s[i])
  {
    if s != [] && IsSpace(s[0]) {
      LStripSpec(s[1..]);
    }
  }

  /** `rstrip` removes exactly the trailing run of whitespace. */
  lemma {:induction false} RStripSpec(s: string)
    ensures var r := RStrip(s);
      && |r| <= |s| && r == s[..|r|]
      && (r == [] || !IsSpace(r[|r| - 1]))
      && forall i :: |r| <= i < |s| ==> IsSpace(s[i])
  {
    if s != [] && IsSpace(s[|s| - 1]) {
      RStripSpec(s[..|s| - 1]);
    }
  }

  /** `s.strip()`. */
  function Strip(s: string): string {
    RStrip(LStrip(s))
  }

  /** `sep.join(xs)`; the join of no items is the empty string. */
  function Join(xs: seq<string>, sep: string): string {
    if |xs| == 0 then []
    else if |xs| == 1 then xs[0]
    else xs[0] + sep + Join(xs[1..], sep)
  }

  /**
   `s.split(c)`: the maximal runs of `s` free of `c`, in order. There is
   always one piece more than occurrences of `c`, and joining the pieces
   with `c` gives `s` back.
   */
  function Split(s: string, c: char): (r: seq<string>)
    ensures |r| >= 1
    ensures forall k :: 0 <= k < |r| ==> c !in r[k]
    ensures Join(r, [c]) == s
  {
    if s == [] then [[]]
    else
      var rest := Split(s[1..], c);
      if s[0] == c then [[]] + rest
      else [[s[0]] + rest[0]] + rest[1..]
  }

  /** There is one piece more than there are occurrences of `c`. */
  lemma {:induction false} SplitCount(s: string, c: char)
    ensures |Split(s, c)| == multiset(s)[c] + 1
  {
    if s != [] {
      assert s == [s[0]] + s[1..];
      SplitCount(s[1..], c);
    }
  }

  /** The first piece of a split is the part of `s` before the first `c`. */
  lemma SplitHead(s: string, c: char)
    ensures var h := Split(s, c)[0];
      |h| <= |s| && s[..|h|] == h && (|h| == |s| || s[|h|] == c)
  {
    var r := Split(s, c);
    if |r| > 1 {
      assert s == r[0] + [c] + Join(r[1..], [c]);
    }
  }

  /**
   When `t` starts with a `c`-free piece `p` followed by `c`, the second piece
   of the split is the text after that `c` up to the next `c` or the end.
   */
  lemma SecondPiece(t: string, p: string, c: char)
    requires c !in p && StartsWith(t, p + [c])
    ensures |Split(t, c)| >= 2
    ensures var v := Split(t, c)[1]; var n := |p| + 1;
      && n + |v| <= |t| && t[n..n + |v|] == v
      && (n + |v| == |t| || t[n + |v|] == c)
  {
    var n := |p| + 1;
    var u := t[n..];
    assert t == p + [c] + u;
    SplitAfterPiece(p, c, u);
    SplitHead(u, c);
  }

  /** Splitting a string that does not contain `c` gives the string alone. */
  lemma {:induction false} SplitWithoutSeparator(s: string, c: char)
    requires c !in s
    ensures Split(s, c) == [s]
  {
    if s != [] {
      SplitWithoutSeparator(s[1..], c);
    }
  }

  /** A `c`-free prefix followed by `c` is split off as the first piece. */
  lemma {:induction false} SplitAfterPiece(p: string, c: char, u: string)
    requires c !in p
    ensures Split(p + [c] + u, c) == [p] + Split(u, c)
  {
    if p == [] {
      assert p + [c] + u == [c] + u;
      assert ([c] + u)[1..] == u;
    } else {
      assert (p + [c] + u)[1..] == p[1..] + [c] + u;
      SplitAfterPiece(p[1..], c, u);
      assert [p[0]] + p[1..] == p;
    }
  }

  /**
   Split undoes Join: a non-empty list of items none of which contains `c`
   is recovered by splitting their `c`-join.
   */
  lemma {:induction false} SplitOfJoin(xs: seq<string>, c: char)
    requires |xs| >= 1
    requires forall k :: 0 <= k < |xs| ==> c !in xs[k]
    ensures Split(Join(xs, [c]), c) == xs
  {
    if |xs| == 1 {
      SplitWithoutSeparator(xs[0], c);
    } else {
      SplitAfterPiece(xs[0], c, Join(xs[1..], [c]));
      SplitOfJoin(xs[1..], c);
      assert [xs[0]] + xs[1..] == xs;
    }
  }

  /** Joining two non-empty lists puts one separator between their joins. */
  lemma {:induction false} JoinAppend(a: seq<string>, b: seq<string>, sep: string)
    requires |a| >= 1 && |b| >= 1
    ensures Join(a + b, sep) == Join(a, sep) + sep + Join(b, sep)
  {
    if |a| > 1 {
      assert (a + b)[1..] == a[1..] + b;
      JoinAppend(a[1..], b, sep);
    } else {
      assert (a + b)[1..] == b;
    }
  }

  /** Stripping keeps a prefix made of non-whitespace characters. */
  lemma StripKeepsPrefix(s: string, key: string)
    requires StartsWith(s, key)
    requires forall k :: 0 <= k < |key| ==> !IsSpace(key[k])
    ensures StartsWith(Strip(s), key)
  {
    if key != [] {
      var l := LStrip(s);
      LStripSpec(s);
      assert s[0] == key[0];
      assert |l| == |s|;
      var r := RStrip(l);
      RStripSpec(l);
      assert s[|key| - 1] == key[|key| - 1];
      assert |key| <= |r|;
      assert r[..|key|] == s[..|key|];
    }
  }

  /** A string whose split has at least three pieces ends with its last two pieces, each after a separator. */
  lemma SplitLastTwo(s: string, c: char)
    requires |Split(s, c)| >= 3
    ensures var r := Split(s, c); var n := |r|;
      s == Join(r[..n - 2], [c]) + [c] + r[n - 2] + [c] + r[n - 1]
  {
    var r := Split(s, c);
    var n := |r|;
    assert r == r[..n - 2] + [r[n - 2], r[n - 1]];
    JoinAppend(r[..n - 2], [r[n - 2], r[n - 1]], [c]);
    assert [r[n - 2], r[n - 1]][1..] == [r[n - 1]];
    assert Join([r[n - 2], r[n - 1]], [c]) == r[n - 2] + [c] + r[n - 1];
  }
}
