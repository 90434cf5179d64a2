/** The small list editors of the forms: the skill list of the profile
    page, the requirement list and work-mode chips of the role form. */
module ListEditor {
  import Seqs
  import Text

  /** Every entry is non-empty and already trimmed (see `Text.TrimmedFixed`),
      as `AddTrimmed` keeps it. */
  predicate Clean(xs: seq<string>) {
    forall i :: 0 <= i < |xs| ==> |xs[i]| > 0 && Text.Trimmed(xs[i])
  }

  /** `addSkill` / `addRequirement`: append the trimmed text when it is
      non-empty and not yet listed; otherwise leave the list alone. */
  function AddTrimmed(xs: seq<string>, text: string): (r: seq<string>)
    ensures r == xs || r == xs + [Text.Trim(text)]
    ensures r != xs <==> |Text.Trim(text)| > 0 && Text.Trim(text) !in xs
    ensures |Text.Trim(text)| > 0 ==> Text.Trim(text) in r
    ensures Seqs.NoDup(xs) ==> Seqs.NoDup(r)
    ensures Clean(xs) ==> Clean(r)
  {
    var t := Text.Trim(text);
    if |t| > 0 && t !in xs then
      AppendFacts(xs, t);
      xs + [t]
    else xs
  }

  lemma AppendFacts(xs: seq<string>, t: string)
    requires |t| > 0 && t !in xs
    ensures xs + [t] != xs && t in xs + [t]
    ensures Seqs.NoDup(xs) ==> Seqs.NoDup(xs + [t])
    ensures Clean(xs) && Text.Trimmed(t) ==> Clean(xs + [t])
  {
    assert |xs + [t]| == |xs| + 1;
    assert (xs + [t])[|xs|] == t;
  }

  /** The entries other than `x`. */
  function Other<T(==)>(x: T): T -> bool {
    (y: T) => y != x
  }

  /** `filter((s) => s !== x)`: every occurrence of `x` goes, every other
      entry stays, as often as it occurs, in its order. */
  function RemoveAll<T(==)>(xs: seq<T>, x: T): (r: seq<T>)
    ensures x !in r
    ensures forall i :: 0 <= i < |xs| && xs[i] != x ==> xs[i] in r
    ensures forall i :: 0 <= i < |r| ==> r[i] in xs
    ensures Seqs.IsSubsequence(r, xs)
    ensures x !in xs ==> r == xs
    ensures x in xs ==> |r| < |xs|
    ensures |r| == Seqs.Count(xs, Other(x))
  {
    DropFacts(xs, x);
    Drop(xs, x)
  }

  /** The recursion of `RemoveAll`. */
  function Drop<T(==)>(xs: seq<T>, x: T): seq<T> {
    if |xs| == 0 then []
    else if xs[0] == x then Drop(xs[1..], x)
    else [xs[0]] + Drop(xs[1..], x)
  }

  lemma DropFacts<T>(xs: seq<T>, x: T)
    ensures var r := Drop(xs, x);
      && x !in r
      && (forall i :: 0 <= i < |xs| && xs[i] != x ==> xs[i] in r)
      && (forall i :: 0 <= i < |r| ==> r[i] in xs)
      && Seqs.IsSubsequence(r, xs)
      && (x !in xs ==> r == xs)
      && (x in xs ==> |r| < |xs|)
      && |r| == Seqs.Count(xs, Other(x))
  {
    DropMembers(xs, x);
    DropCount(xs, x);
  }

  lemma {:induction false} DropMembers<T>(xs: seq<T>, x: T)
    ensures var r := Drop(xs, x);
      && x !in r
      && (forall i :: 0 <= i < |xs| && xs[i] != x ==> xs[i] in r)
      && (forall i :: 0 <= i < |r| ==> r[i] in xs)
      && Seqs.IsSubsequence(r, xs)
      && (x !in xs ==> r == xs)
  {
    if |xs| > 0 {
      DropMembers(xs[1..], x);
      var rest := Drop(xs[1..], x);
      assert forall y :: y in xs ==> y == xs[0] || y in xs[1..];
      if xs[0] != x {
        assert ([xs[0]] + rest)[1..] == rest;
        assert xs == [xs[0]] + xs[1..];
      }
    }
  }

  lemma {:induction false} DropCount<T>(xs: seq<T>, x: T)
    ensures |Drop(xs, x)| == Seqs.Count(xs, Other(x))
    ensures x in xs ==> |Drop(xs, x)| < |xs|
  {
    if |xs| > 0 {
      DropCount(xs[1..], x);
      assert x in xs && xs[0] != x ==> x in xs[1..];
    }
  }

  /** `toggleWorkMode`: drop the entry if listed, append it otherwise. */
  function Toggle<T(==)>(xs: seq<T>, x: T): (r: seq<T>)
    ensures x in r <==> x !in xs
    ensures forall i :: 0 <= i < |xs| && xs[i] != x ==> xs[i] in r
    ensures forall i :: 0 <= i < |r| && r[i] != x ==> r[i] in xs
    ensures Seqs.NoDup(xs) ==> Seqs.NoDup(r)
  {
    if x in xs then
      RemoveNoDup(xs, x);
      RemoveAll(xs, x)
    else xs + [x]
  }

  lemma {:induction false} RemoveNoDup<T>(xs: seq<T>, x: T)
    ensures Seqs.NoDup(xs) ==> Seqs.NoDup(RemoveAll(xs, x))
  {
    if |xs| > 0 {
      RemoveNoDup(xs[1..], x);
      DropFacts(xs[1..], x);
      if Seqs.NoDup(xs) && xs[0] != x {
        assert xs[0] !in xs[1..];
        var rest := RemoveAll(xs[1..], x);
        assert xs[0] !in rest;
      }
    }
  }

  lemma {:induction false} RemoveAppend<T>(a: seq<T>, b: seq<T>, x: T)
    ensures RemoveAll(a + b, x) == RemoveAll(a, x) + RemoveAll(b, x)
  {
    if |a| == 0 {
      assert a + b == b;
    } else {
      assert (a + b)[1..] == a[1..] + b;
      RemoveAppend(a[1..], b, x);
    }
  }

  /** Adding a new entry and removing it again gives back the list. */
  lemma AddThenRemove(xs: seq<string>, text: string)
    requires |Text.Trim(text)| > 0 && Text.Trim(text) !in xs
    ensures RemoveAll(AddTrimmed(xs, text), Text.Trim(text)) == xs
  {
    var t := Text.Trim(text);
    RemoveAppend(xs, [t], t);
    assert RemoveAll([t], t) == [];
  }

  /** Toggling an absent entry twice gives back the list; toggling a listed
      one twice moves it to the end and keeps the same entries. */
  lemma ToggleTwice<T>(xs: seq<T>, x: T)
    ensures x !in xs ==> Toggle(Toggle(xs, x), x) == xs
    ensures x in xs ==> Toggle(Toggle(xs, x), x) == RemoveAll(xs, x) + [x]
    ensures Seqs.NoDup(xs) && x in xs ==> multiset(Toggle(Toggle(xs, x), x)) == multiset(xs)
  {
    if x !in xs {
      RemoveAppend(xs, [x], x);
      assert RemoveAll([x], x) == [];
    } else if Seqs.NoDup(xs) {
      RemoveOnce(xs, x);
    }
  }

  /** In a duplicate-free list, removing a listed entry takes out exactly one. */
  lemma {:induction false} RemoveOnce<T>(xs: seq<T>, x: T)
    requires Seqs.NoDup(xs) && x in xs
    ensures multiset(RemoveAll(xs, x)) + multiset{x} == multiset(xs)
  {
    assert xs == [xs[0]] + xs[1..];
    if xs[0] == x {
      assert x !in xs[1..];
      assert RemoveAll(xs[1..], x) == xs[1..];
    } else {
      assert x in xs[1..];
      RemoveOnce(xs[1..], x);
    }
  }
}
