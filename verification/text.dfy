/** String helpers with JavaScript's meaning: `toLowerCase` on ASCII letters,
    `includes`, `trim`, `join` and `split` on one separator character. */
module Text {

  function LowerChar(c: char): char {
    if 'A' <= c <= 'Z' then (c as int + 32) as char else c
  }

  /** `toLowerCase`, restricted to the ASCII letters. */
  function Lower(s: string): (r: string)
    ensures |r| == |s|
    ensures forall i :: 0 <= i < |s| ==> r[i] == LowerChar(s[i])
  {
    seq(|s|, i requires 0 <= i < |s| => LowerChar(s[i]))
  }

  /** `needle` occurs in `hay` starting at index `i`. */
  predicate OccursAt(hay: string, needle: string, i: int) {
    0 <= i && i + |needle| <= |hay| && hay[i..i + |needle|] == needle
  }

  /** `hay.includes(needle)`: the empty needle occurs in every string. */
  predicate Contains(hay: string, needle: string) {
    exists i :: 0 <= i <= |hay| - |needle| && OccursAt(hay, needle, i)
  }

  /** Every character of a contained needle occurs in the haystack. */
  lemma ContainedCharsOccur(hay: string, needle: string, k: nat)
    requires Contains(hay, needle) && k < |needle|
    ensures needle[k] in hay
  {
    var i :| 0 <= i <= |hay| - |needle| && OccursAt(hay, needle, i);
    assert hay[i + k] == hay[i..i + |needle|][k];
  }

  /** White space and line terminators as `String.prototype.trim` removes them. */
  predicate IsSpace(c: char) {
    var n := c as int;
    (9 <= n <= 13) || n == 0x20 || n == 0xA0 || n == 0x1680 || (0x2000 <= n <= 0x200A)
    || n == 0x2028 || n == 0x2029 || n == 0x202F || n == 0x205F || n == 0x3000 || n == 0xFEFF
  }

  predicate AllSpace(s: string) {
    forall i :: 0 <= i < |s| ==> IsSpace(s[i])
  }

  function TrimStart(s: string): (r: string)
    ensures |r| <= |s| && r == s[|s| - |r|..]
    ensures AllSpace(s[..|s| - |r|])
    ensures r == [] || !IsSpace(r[0])
  {
    if |s| > 0 && IsSpace(s[0]) then
      var r := TrimStart(s[1..]);
      assert s[..|s| - |r|] == [s[0]] + s[1..][..|s| - 1 - |r|];
      r
    else s
  }

  function TrimEnd(s: string): (r: string)
    ensures |r| <= |s| && r == s[..|r|]
    ensures AllSpace(s[|r|..])
    ensures r == [] || !IsSpace(r[|r| - 1])
  {
    if |s| > 0 && IsSpace(s[|s| - 1]) then
      var r := TrimEnd(s[..|s| - 1]);
      assert s[|r|..] == s[..|s| - 1][|r|..] + [s[|s| - 1]];
      assert r == s[..|s| - 1][..|r|] == s[..|r|];
      r
    else s
  }

  /** No white space at either end. */
  predicate Trimmed(s: string) {
    s == [] || (!IsSpace(s[0]) && !IsSpace(s[|s| - 1]))
  }

  /** `trim`: the longest infix with no white space at either end. */
  function Trim(s: string): (r: string)
    ensures Trimmed(r)
    ensures TrimmedInfix(s, |s| - |TrimStart(s)|, r)
  {
    TrimSlices(s, TrimStart(s), TrimEnd(TrimStart(s)));
    TrimEnd(TrimStart(s))
  }

  /** `r` sits at index `i` of `s`, with only white space around it. */
  predicate TrimmedInfix(s: string, i: int, r: string) {
    0 <= i && i + |r| <= |s| && r == s[i..i + |r|] && AllSpace(s[..i]) && AllSpace(s[i + |r|..])
  }

  lemma {:induction false} TrimSlices(s: string, a: string, r: string)
    requires a == TrimStart(s) && r == TrimEnd(a)
    ensures Trimmed(r)
    ensures TrimmedInfix(s, |s| - |a|, r)
  {
    var i := |s| - |a|;
    assert a == s[i..];
    assert r == a[..|r|] == s[i..i + |r|];
    assert AllSpace(s[..i]);
    assert s[i + |r|..] == a[|r|..];
    assert AllSpace(a[|r|..]);
    if |r| > 0 {
      assert r[0] == a[0];
    }
  }

  /** Trimming leaves exactly the strings with no white space at their
      ends unchanged; in particular trimming twice is trimming once. */
  lemma TrimmedFixed(t: string)
    ensures Trimmed(t) <==> Trim(t) == t
  {
    if Trimmed(t) && |t| > 0 {
      assert TrimStart(t) == t;
      assert TrimEnd(t) == t;
    }
  }

  lemma TrimIdempotent(s: string)
    ensures Trim(Trim(s)) == Trim(s)
  {
    TrimmedFixed(Trim(s));
  }

  /** `xs.join(sep)`. */
  function Join(xs: seq<string>, sep: string): string
  {
    if |xs| == 0 then ""
    else if |xs| == 1 then xs[0]
    else xs[0] + sep + Join(xs[1..], sep)
  }

  /** `s.split(c)` for a one-character separator: never empty, and the
      pieces are the maximal runs without `c`. */
  function Split(s: string, c: char): (r: seq<string>)
    ensures |r| >= 1
    ensures forall i :: 0 <= i < |r| ==> c !in r[i]
  {
    if |s| == 0 then [""]
    else if s[0] == c then [""] + Split(s[1..], c)
    else
      var rest := Split(s[1..], c);
      [[s[0]] + rest[0]] + rest[1..]
  }

  lemma {:induction false} SplitNoSeparator(x: string, c: char)
    requires c !in x
    ensures Split(x, c) == [x]
  {
    if |x| > 0 {
      SplitNoSeparator(x[1..], c);
      assert [x[0]] + x[1..] == x;
    }
  }

  lemma {:induction false} SplitPiece(x: string, y: string, c: char)
    requires c !in x
    ensures Split(x + [c] + y, c) == [x] + Split(y, c)
  {
    if |x| == 0 {
      assert x + [c] + y == [c] + y;
      assert ([c] + y)[1..] == y;
    } else {
      assert (x + [c] + y)[1..] == x[1..] + [c] + y;
      SplitPiece(x[1..], y, c);
      assert [x[0]] + x[1..] == x;
    }
  }

  /** Splitting a join on a separator that no piece contains gives the
      pieces back. */
  lemma {:induction false} SplitJoin(xs: seq<string>, c: char)
    requires |xs| >= 1
    requires forall i :: 0 <= i < |xs| ==> c !in xs[i]
    ensures Split(Join(xs, [c]), c) == xs
  {
    if |xs| == 1 {
      SplitNoSeparator(xs[0], c);
    } else {
      SplitJoin(xs[1..], c);
      SplitPiece(xs[0], Join(xs[1..], [c]), c);
      assert [xs[0]] + xs[1..] == xs;
    }
  }

  /** A character in neither the pieces nor the separator is not in the join. */
  lemma {:induction false} JoinAvoids(xs: seq<string>, sep: string, c: char)
    requires c !in sep
    requires forall i :: 0 <= i < |xs| ==> c !in xs[i]
    ensures c !in Join(xs, sep)
  {
    if |xs| > 1 {
      JoinAvoids(xs[1..], sep, c);
    }
  }

  lemma {:induction false} JoinAppend(a: seq<string>, b: seq<string>, sep: string)
    requires |a| >= 1 && |b| >= 1
    ensures Join(a + b, sep) == Join(a, sep) + sep + Join(b, sep)
  {
    if |a| == 1 {
      assert (a + b)[1..] == b;
    } else {
      assert (a + b)[1..] == a[1..] + b;
      JoinAppend(a[1..], b, sep);
    }
  }

  /** Every piece with `t` in front. */
  function PrefixAll(ys: seq<string>, t: string): (r: seq<string>)
    ensures |r| == |ys| && forall i :: 0 <= i < |ys| ==> r[i] == t + ys[i]
  {
    seq(|ys|, i requires 0 <= i < |ys| => t + ys[i])
  }

  lemma {:induction false} PrefixJoin(ys: seq<string>, c: char, t: string)
    requires |ys| >= 1
    ensures t + Join(ys, [c] + t) == Join(PrefixAll(ys, t), [c])
  {
    if |ys| > 1 {
      PrefixJoin(ys[1..], c, t);
      assert PrefixAll(ys, t)[1..] == PrefixAll(ys[1..], t);
    }
  }

  /** Joining on a longer separator is joining on its first character,
      with the rest of the separator moved to the front of every later piece. */
  lemma WidenedSeparator(xs: seq<string>, c: char, t: string)
    requires |xs| >= 1
    ensures Join(xs, [c] + t) == Join([xs[0]] + PrefixAll(xs[1..], t), [c])
  {
    if |xs| > 1 {
      PrefixJoin(xs[1..], c, t);
      JoinAppend([xs[0]], PrefixAll(xs[1..], t), [c]);
    }
  }
}
