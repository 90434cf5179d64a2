/** A JavaScript object used as a string-keyed record: entries keep the
    order in which their key was first assigned, and assigning an existing
    key replaces its value in place. */
module Entries {
  import opened Wrappers
  import Seqs

  datatype Entry<V> = Entry(key: string, value: V)

  function Keys<V>(es: seq<Entry<V>>): (ks: seq<string>)
    ensures |ks| == |es| && forall i :: 0 <= i < |es| ==> ks[i] == es[i].key
  {
    if |es| == 0 then [] else [es[0].key] + Keys(es[1..])
  }

  /** `obj[key]`, `None` for undefined. */
  function Get<V>(es: seq<Entry<V>>, key: string): Option<V> {
    if |es| == 0 then None
    else if es[0].key == key then Some(es[0].value)
    else Get(es[1..], key)
  }

  /** A key is defined exactly when it is listed, and its value is the one
      stored with it. */
  lemma {:induction false} GetDefined<V>(es: seq<Entry<V>>, key: string)
    ensures Get(es, key).None? <==> key !in Keys(es)
    ensures Get(es, key).Some? ==> Entry(key, Get(es, key).value) in es
  {
    if |es| > 0 {
      assert Keys(es) == [es[0].key] + Keys(es[1..]);
      if es[0].key != key {
        GetDefined(es[1..], key);
      }
    }
  }

  /** `obj[key] = value`: the entry for `key` is replaced in place, or a new
      entry is appended. */
  function Put<V>(es: seq<Entry<V>>, key: string, value: V): seq<Entry<V>> {
    if |es| == 0 then [Entry(key, value)]
    else if es[0].key == key then [Entry(key, value)] + es[1..]
    else [es[0]] + Put(es[1..], key, value)
  }

  /** A write keeps the key order; a new key goes last, and no key is listed
      twice afterwards if none was before. */
  lemma {:induction false} PutKeys<V>(es: seq<Entry<V>>, key: string, value: V)
    ensures key in Keys(es) ==> Keys(Put(es, key, value)) == Keys(es)
    ensures key !in Keys(es) ==> Keys(Put(es, key, value)) == Keys(es) + [key]
  {
    if |es| > 0 {
      assert Keys(es) == [es[0].key] + Keys(es[1..]);
      if es[0].key != key {
        PutKeys(es[1..], key, value);
        assert Put(es, key, value)[1..] == Put(es[1..], key, value);
        assert Keys(Put(es, key, value)) == [es[0].key] + Keys(Put(es[1..], key, value));
      } else {
        assert Put(es, key, value)[1..] == es[1..];
        assert Keys(Put(es, key, value)) == [key] + Keys(es[1..]);
      }
    }
  }

  lemma PutNoDup<V>(es: seq<Entry<V>>, key: string, value: V)
    requires Seqs.NoDup(Keys(es))
    ensures Seqs.NoDup(Keys(Put(es, key, value)))
  {
    PutKeys(es, key, value);
    if key !in Keys(es) {
      Seqs.NoDupSnoc(Keys(es), key);
    }
  }

  /** Every entry after a write is an old entry or the written one. */
  lemma {:induction false} PutEntries<V>(es: seq<Entry<V>>, key: string, value: V)
    ensures forall e :: e in Put(es, key, value) ==> e in es || e == Entry(key, value)
  {
    if |es| > 0 && es[0].key != key {
      PutEntries(es[1..], key, value);
      assert Put(es, key, value) == [es[0]] + Put(es[1..], key, value);
    }
  }

  /** Reading back after a write: the written key has the new value and
      every other key keeps its old one. */
  lemma {:induction false} GetPut<V>(es: seq<Entry<V>>, key: string, value: V, other: string)
    ensures Get(Put(es, key, value), key) == Some(value)
    ensures other != key ==> Get(Put(es, key, value), other) == Get(es, other)
  {
    if |es| > 0 && es[0].key != key {
      GetPut(es[1..], key, value, other);
    }
  }

  lemma PutReadBack<V>(es: seq<Entry<V>>, key: string, value: V)
    ensures Get(Put(es, key, value), key) == Some(value)
    ensures forall other :: other != key ==> Get(Put(es, key, value), other) == Get(es, other)
  {
    GetPut(es, key, value, key);
    forall other | other != key
      ensures Get(Put(es, key, value), other) == Get(es, other)
    {
      GetPut(es, key, value, other);
    }
  }

  /** Number of occurrences of `k`. */
  function Occurrences(keys: seq<string>, k: string): nat {
    if |keys| == 0 then 0
    else Occurrences(keys[..|keys| - 1], k) + (if keys[|keys| - 1] == k then 1 else 0)
  }

  function SumValues(es: seq<Entry<int>>): int {
    if |es| == 0 then 0 else es[0].value + SumValues(es[1..])
  }

  lemma {:induction false} SumPut(es: seq<Entry<int>>, key: string, v: int)
    requires Seqs.NoDup(Keys(es))
    ensures SumValues(Put(es, key, v)) == SumValues(es) - Get(es, key).GetOr(0) + v
  {
    if |es| > 0 {
      assert Keys(es) == [es[0].key] + Keys(es[1..]);
      if es[0].key != key {
        assert Seqs.NoDup(Keys(es[1..]));
        SumPut(es[1..], key, v);
      }
    }
  }

  /** What a tally reports for `k`: its number of occurrences, or nothing
      when it does not occur. */
  function CountOf(keys: seq<string>, k: string): Option<int> {
    if Occurrences(keys, k) == 0 then None else Some(Occurrences(keys, k))
  }

  /** `counts[k] = (counts[k] || 0) + 1` for each key in order: every key is
      listed once, with its number of occurrences, and the counts add up to
      the number of keys. */
  function Tally(keys: seq<string>): (r: seq<Entry<int>>)
    ensures Seqs.NoDup(Keys(r))
    ensures forall k :: Get(r, k) == CountOf(keys, k)
    ensures SumValues(r) == |keys|
  {
    if |keys| == 0 then []
    else
      var es := Tally(keys[..|keys| - 1]);
      TallyStep(keys[..|keys| - 1], keys[|keys| - 1], es);
      assert keys[..|keys| - 1] + [keys[|keys| - 1]] == keys;
      Bump(es, keys[|keys| - 1])
  }

  /** `counts[k] = (counts[k] || 0) + 1`: the entry for `k` goes up by one,
      or a new entry with count 1 is appended. */
  function Bump(es: seq<Entry<int>>, k: string): seq<Entry<int>> {
    if |es| == 0 then [Entry(k, 1)]
    else if es[0].key == k then [Entry(k, es[0].value + 1)] + es[1..]
    else [es[0]] + Bump(es[1..], k)
  }

  /** Bumping is the write `Put(es, k, old + 1)`, the old count being 0 for
      a missing key. */
  lemma {:induction false} BumpIsPut(es: seq<Entry<int>>, k: string)
    ensures Bump(es, k) == Put(es, k, Get(es, k).GetOr(0) + 1)
  {
    if |es| > 0 && es[0].key != k {
      BumpIsPut(es[1..], k);
      assert Get(es, k) == Get(es[1..], k);
    }
  }

  lemma {:induction false} BumpSum(es: seq<Entry<int>>, k: string)
    ensures SumValues(Bump(es, k)) == SumValues(es) + 1
  {
    if |es| > 0 {
      if es[0].key == k {
        assert Bump(es, k)[1..] == es[1..];
      } else {
        BumpSum(es[1..], k);
        assert Bump(es, k)[1..] == Bump(es[1..], k);
      }
    }
  }

  /** The bumped key goes up by one, starting from zero. */
  lemma {:induction false} BumpSame(es: seq<Entry<int>>, t: string)
    ensures Get(Bump(es, t), t) == Some(Get(es, t).GetOr(0) + 1)
  {
    if |es| > 0 && es[0].key != t {
      BumpSame(es[1..], t);
      assert Bump(es, t)[1..] == Bump(es[1..], t);
    }
  }

  /** Every other key keeps its count. */
  lemma {:induction false} BumpOther(es: seq<Entry<int>>, t: string, k: string)
    requires t != k
    ensures Get(Bump(es, t), k) == Get(es, k)
  {
    if |es| > 0 {
      if es[0].key == t {
        assert Bump(es, t)[1..] == es[1..];
      } else {
        BumpOther(es[1..], t, k);
        assert Bump(es, t)[1..] == Bump(es[1..], t);
      }
    }
  }

  /** Like a write, a bump keeps the key order and lists no key twice. */
  lemma {:induction false} BumpKeys(es: seq<Entry<int>>, k: string)
    ensures k in Keys(es) ==> Keys(Bump(es, k)) == Keys(es)
    ensures k !in Keys(es) ==> Keys(Bump(es, k)) == Keys(es) + [k]
  {
    if |es| > 0 {
      assert Keys(es) == [es[0].key] + Keys(es[1..]);
      if es[0].key != k {
        BumpKeys(es[1..], k);
        assert Bump(es, k)[1..] == Bump(es[1..], k);
        assert Keys(Bump(es, k)) == [es[0].key] + Keys(Bump(es[1..], k));
      } else {
        assert Bump(es, k)[1..] == es[1..];
        assert Keys(Bump(es, k)) == [k] + Keys(es[1..]);
      }
    }
  }

  lemma BumpNoDup(es: seq<Entry<int>>, k: string)
    requires Seqs.NoDup(Keys(es))
    ensures Seqs.NoDup(Keys(Bump(es, k)))
  {
    BumpKeys(es, k);
    if k !in Keys(es) {
      Seqs.NoDupSnoc(Keys(es), k);
    }
  }

  /** Tallying one more key is one more bump. */
  lemma TallyExtend(seen: seq<string>, k: string)
    ensures Tally(seen + [k]) == Bump(Tally(seen), k)
  {
    assert (seen + [k])[..|seen|] == seen;
  }

  lemma TallyStep(seen: seq<string>, t: string, es: seq<Entry<int>>)
    requires Seqs.NoDup(Keys(es)) && SumValues(es) == |seen|
    requires forall k :: Get(es, k) == CountOf(seen, k)
    ensures Seqs.NoDup(Keys(Bump(es, t)))
    ensures SumValues(Bump(es, t)) == |seen| + 1
    ensures forall k :: Get(Bump(es, t), k) == CountOf(seen + [t], k)
  {
    BumpSum(es, t);
    BumpNoDup(es, t);
    forall k
      ensures Get(Bump(es, t), k) == CountOf(seen + [t], k)
    {
      BumpKey(seen, t, es, k);
    }
  }

  lemma BumpKey(seen: seq<string>, t: string, es: seq<Entry<int>>, k: string)
    requires Get(es, k) == CountOf(seen, k) && Get(es, t) == CountOf(seen, t)
    ensures Get(Bump(es, t), k) == CountOf(seen + [t], k)
  {
    assert (seen + [t])[..|seen|] == seen;
    assert Occurrences(seen + [t], k) == Occurrences(seen, k) + (if t == k then 1 else 0);
    if t == k {
      BumpSame(es, t);
    } else {
      BumpOther(es, t, k);
    }
  }

  /** The value of the last pair with key `k`. */
  function LastValue<V>(pairs: seq<Entry<V>>, k: string): Option<V> {
    if |pairs| == 0 then None
    else if pairs[|pairs| - 1].key == k then Some(pairs[|pairs| - 1].value)
    else LastValue(pairs[..|pairs| - 1], k)
  }

  /** `obj[key] = value` for each pair in order: the last assignment to a
      key wins, and keys keep the position of their first assignment. */
  function Assign<V>(pairs: seq<Entry<V>>): (r: seq<Entry<V>>)
    ensures Seqs.NoDup(Keys(r))
    ensures forall k :: Get(r, k) == LastValue(pairs, k)
    ensures forall i :: 0 <= i < |r| ==> r[i] in pairs
  {
    if |pairs| == 0 then []
    else
      var es := Assign(pairs[..|pairs| - 1]);
      AssignStep(pairs, es);
      Put(es, pairs[|pairs| - 1].key, pairs[|pairs| - 1].value)
  }

  lemma AssignStep<V>(pairs: seq<Entry<V>>, es: seq<Entry<V>>)
    requires |pairs| > 0
    requires Seqs.NoDup(Keys(es))
    requires forall k :: Get(es, k) == LastValue(pairs[..|pairs| - 1], k)
    requires forall i :: 0 <= i < |es| ==> es[i] in pairs[..|pairs| - 1]
    ensures var r := Put(es, pairs[|pairs| - 1].key, pairs[|pairs| - 1].value);
      Seqs.NoDup(Keys(r))
      && (forall k :: Get(r, k) == LastValue(pairs, k))
      && (forall i :: 0 <= i < |r| ==> r[i] in pairs)
  {
    var p := pairs[|pairs| - 1];
    PutNoDup(es, p.key, p.value);
    forall k
      ensures Get(Put(es, p.key, p.value), k) == LastValue(pairs, k)
    {
      GetPut(es, p.key, p.value, k);
    }
    AssignMembers(pairs, es);
  }

  lemma AssignMembers<V>(pairs: seq<Entry<V>>, es: seq<Entry<V>>)
    requires |pairs| > 0
    requires forall i :: 0 <= i < |es| ==> es[i] in pairs[..|pairs| - 1]
    ensures var r := Put(es, pairs[|pairs| - 1].key, pairs[|pairs| - 1].value);
      forall i :: 0 <= i < |r| ==> r[i] in pairs
  {
    var p := pairs[|pairs| - 1];
    var r := Put(es, p.key, p.value);
    PutEntries(es, p.key, p.value);
    forall i | 0 <= i < |r|
      ensures r[i] in pairs
    {
      assert r[i] in r;
      if r[i] != p {
        assert r[i] in es;
        var j :| 0 <= j < |es| && es[j] == r[i];
        assert es[j] in pairs[..|pairs| - 1];
      }
    }
  }
}
