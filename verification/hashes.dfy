/**
 Ruby's Hash, as the code under study uses it: a finite map that remembers
 the order in which its keys were first inserted. A hash is modelled as its
 key sequence in insertion order together with a map giving each key's value;
 `Valid` says the two agree and no key is listed twice. Keys are strings
 (Ruby symbols, identified by their names).
 */
module Hashes {
  import opened Wrappers

  type Key = string

  datatype Hash<V> = Hash(keys: seq<Key>, vals: map<Key, V>)

  predicate Distinct<T(==)>(s: seq<T>) {
    forall i, j :: 0 <= i < j < |s| ==> s[i] != s[j]
  }

  predicate Valid<V>(h: Hash<V>) {
    && Distinct(h.keys)
    && (forall k :: k in h.keys ==> k in h.vals)
    && (forall k :: k in h.vals ==> k in h.keys)
  }

  /** {} */
  function Empty<V>(): Hash<V> {
    Hash([], map[])
  }

  /** h[k]: the value stored under k, or nil. */
  function Get<V>(h: Hash<V>, k: Key): Option<V> {
    if k in h.vals then Some(h.vals[k]) else None
  }

  /**
   h[k] = v: a key already present keeps its position and takes the new value;
   a new key is added last.
   */
  function Put<V>(h: Hash<V>, k: Key, v: V): (r: Hash<V>)
    ensures Valid(h) ==> Valid(r)
  {
    Hash(if k in h.vals then h.keys else h.keys + [k], h.vals[k := v])
  }

  /** The position of the first occurrence of x in s. */
  function FirstIndex<T(==)>(s: seq<T>, x: T): (i: nat)
    requires x in s
    ensures i < |s| && s[i] == x
    ensures forall j :: 0 <= j < i ==> s[j] != x
  {
    if s[0] == x then 0 else 1 + FirstIndex(s[1..], x)
  }

  /** Appending to a sequence does not move the first occurrence of anything already in it. */
  lemma FirstIndexAppend<T>(s: seq<T>, t: seq<T>, x: T)
    requires x in s
    ensures x in s + t && FirstIndex(s + t, x) == FirstIndex(s, x)
  {
    var i := FirstIndex(s, x);
    assert (s + t)[i] == x;
    var k := FirstIndex(s + t, x);
    assert k <= i;
    assert (s + t)[k] == s[k];
  }

  /** Something first seen in the appended part is found after the whole prefix. */
  lemma FirstIndexAfter<T>(s: seq<T>, t: seq<T>, x: T)
    requires x !in s && x in t
    ensures x in s + t && FirstIndex(s + t, x) == |s| + FirstIndex(t, x)
  {
    var i := FirstIndex(t, x);
    assert (s + t)[|s| + i] == x;
    var k := FirstIndex(s + t, x);
    assert k <= |s| + i;
    assert k >= |s| by {
      assert forall j :: 0 <= j < |s| ==> (s + t)[j] == s[j];
    }
    assert (s + t)[k] == t[k - |s|];
  }

  /** In a sequence without repetitions, the first occurrence is the only one. */
  lemma FirstIndexDistinct<T>(s: seq<T>, i: int)
    requires Distinct(s) && 0 <= i < |s|
    ensures FirstIndex(s, s[i]) == i
  {
  }

  /** The keys of ks that m lacks, in the order of ks. */
  function Missing<V>(ks: seq<Key>, m: map<Key, V>): (r: seq<Key>)
    ensures forall x :: x in r <==> x in ks && x !in m
    ensures Distinct(ks) ==> Distinct(r)
    ensures Distinct(ks) ==> forall i, j :: 0 <= i < j < |r| ==> FirstIndex(ks, r[i]) < FirstIndex(ks, r[j])
  {
    if ks == [] then []
    else
      var rest := Missing(ks[1..], m);
      var r := if ks[0] in m then rest else [ks[0]] + rest;
      MissingStep(ks, m, rest, r);
      r
  }

  /** The step of Missing: dropping or keeping the first key meets its contract. */
  lemma MissingStep<V>(ks: seq<Key>, m: map<Key, V>, rest: seq<Key>, r: seq<Key>)
    requires ks != []
    requires forall x :: x in rest <==> x in ks[1..] && x !in m
    requires Distinct(ks[1..]) ==> Distinct(rest)
    requires Distinct(ks[1..]) ==> forall i, j :: 0 <= i < j < |rest| ==> FirstIndex(ks[1..], rest[i]) < FirstIndex(ks[1..], rest[j])
    requires r == if ks[0] in m then rest else [ks[0]] + rest
    ensures forall x :: x in r <==> x in ks && x !in m
    ensures Distinct(ks) ==> Distinct(r)
    ensures Distinct(ks) ==> forall i, j :: 0 <= i < j < |r| ==> FirstIndex(ks, r[i]) < FirstIndex(ks, r[j])
  {
    assert forall x :: x in ks <==> x == ks[0] || x in ks[1..] by {
      assert ks == [ks[0]] + ks[1..];
    }
    if Distinct(ks) {
      DistinctTail(ks);
      if ks[0] in m {
        OrderTail(ks, rest);
      } else {
        OrderCons(ks, rest);
      }
    }
  }

  /** Dropping the head of a sequence without repetitions leaves one without the head. */
  lemma DistinctTail<T>(s: seq<T>)
    requires s != [] && Distinct(s)
    ensures Distinct(s[1..]) && s[0] !in s[1..]
  {
    assert forall i :: 0 <= i < |s| - 1 ==> s[1..][i] == s[i + 1];
  }

  /** An order by first appearance in the tail of s is one in s, when the head of s is not among the elements. */
  lemma OrderTail<T>(s: seq<T>, rest: seq<T>)
    requires s != [] && s[0] !in rest
    requires forall x :: x in rest ==> x in s[1..]
    requires forall i, j :: 0 <= i < j < |rest| ==> FirstIndex(s[1..], rest[i]) < FirstIndex(s[1..], rest[j])
    ensures forall x :: x in rest ==> x in s
    ensures forall i, j :: 0 <= i < j < |rest| ==> FirstIndex(s, rest[i]) < FirstIndex(s, rest[j])
  {
    forall x | x in rest
      ensures x in s && FirstIndex(s, x) == 1 + FirstIndex(s[1..], x)
    {
      FirstIndexTail(s, x);
    }
  }

  /** The head of s followed by elements of its tail, ordered there, is ordered by first appearance in s. */
  lemma OrderCons<T>(s: seq<T>, rest: seq<T>)
    requires s != [] && s[0] !in rest && Distinct(rest)
    requires forall x :: x in rest ==> x in s[1..]
    requires forall i, j :: 0 <= i < j < |rest| ==> FirstIndex(s[1..], rest[i]) < FirstIndex(s[1..], rest[j])
    ensures Distinct([s[0]] + rest)
    ensures forall x :: x in [s[0]] + rest ==> x in s
    ensures var r := [s[0]] + rest;
      forall i, j :: 0 <= i < j < |r| ==> FirstIndex(s, r[i]) < FirstIndex(s, r[j])
  {
    OrderTail(s, rest);
    var r := [s[0]] + rest;
    assert forall i :: 1 <= i < |r| ==> r[i] == rest[i - 1];
  }

  /** Past a different head, the first occurrence is one further than in the tail. */
  lemma FirstIndexTail<T>(s: seq<T>, x: T)
    requires s != [] && x in s[1..] && x != s[0]
    ensures x in s && FirstIndex(s, x) == 1 + FirstIndex(s[1..], x)
  {
  }

  /**
   a.merge(b): on a shared key b's value wins; a's keys keep their positions
   and the keys only b holds follow, in b's order.
   */
  function Merge<V>(a: Hash<V>, b: Hash<V>): (r: Hash<V>)
    requires Valid(a) && Valid(b)
    ensures Valid(r)
    ensures forall x :: Get(r, x) == if x in b.vals then Get(b, x) else Get(a, x)
    ensures |a.keys| <= |r.keys| && r.keys[..|a.keys|] == a.keys
    ensures forall i :: |a.keys| <= i < |r.keys| ==> r.keys[i] !in a.vals && r.keys[i] in b.keys
    ensures forall i, j :: |a.keys| <= i < j < |r.keys| ==>
              FirstIndex(b.keys, r.keys[i]) < FirstIndex(b.keys, r.keys[j])
  {
    var added := Missing(b.keys, a.vals);
    MergeKeys(a.keys, added);
    Hash(a.keys + added, a.vals + b.vals)
  }

  /** Facts about appending the keys a hash lacks to its own keys. */
  lemma MergeKeys(ks: seq<Key>, added: seq<Key>)
    ensures (ks + added)[..|ks|] == ks
    ensures forall i :: |ks| <= i < |ks + added| ==> (ks + added)[i] == added[i - |ks|]
    ensures Distinct(ks) && Distinct(added) && (forall x :: x in added ==> x !in ks) ==> Distinct(ks + added)
  {
    assert (ks + added)[..|ks|] == ks;
    if Distinct(ks) && Distinct(added) && (forall x :: x in added ==> x !in ks) {
      var s := ks + added;
      forall i, j | 0 <= i < j < |s|
        ensures s[i] != s[j]
      {
        if i < |ks| <= j {
          assert s[j] == added[j - |ks|];
          assert s[j] in added;
        }
      }
    }
  }

  /** The value the LAST hash of hs that holds k gives it, or nil. */
  function LastArg<V>(hs: seq<Hash<V>>, k: Key): Option<V> {
    if hs == [] then None
    else if k in hs[|hs| - 1].vals then Some(hs[|hs| - 1].vals[k])
    else LastArg(hs[..|hs| - 1], k)
  }

  /** All keys of all hashes of hs, in argument order. */
  function AllKeys<V>(hs: seq<Hash<V>>): seq<Key> {
    if hs == [] then [] else AllKeys(hs[..|hs| - 1]) + hs[|hs| - 1].keys
  }

  /**
   hs.inject(:merge): nil for no arguments, the only argument itself for one,
   and otherwise the left-to-right merge of all of them.
   */
  function MergeAll<V>(hs: seq<Hash<V>>): (r: Option<Hash<V>>)
    requires forall i :: 0 <= i < |hs| ==> Valid(hs[i])
    ensures r.Some? <==> |hs| > 0
    ensures r.Some? ==> Valid(r.value)
    ensures r.Some? ==> forall x :: Get(r.value, x) == LastArg(hs, x)
    ensures r.Some? ==> forall x :: x in r.value.keys <==> x in AllKeys(hs)
    ensures r.Some? ==> forall i, j :: 0 <= i < j < |r.value.keys| ==>
              FirstIndex(AllKeys(hs), r.value.keys[i]) < FirstIndex(AllKeys(hs), r.value.keys[j])
    decreases |hs|
  {
    if hs == [] then None
    else if |hs| == 1 then
      MergeAllSingle(hs);
      Some(hs[0])
    else
      var init, last := hs[..|hs| - 1], hs[|hs| - 1];
      assert hs == init + [last];
      MergeAllStep(init, last, MergeAll(init).value);
      Some(Merge(MergeAll(init).value, last))
  }

  /** MergeAll of a single hash is that hash, and it meets the contract. */
  lemma MergeAllSingle<V>(hs: seq<Hash<V>>)
    requires |hs| == 1 && Valid(hs[0])
    ensures forall x :: Get(hs[0], x) == LastArg(hs, x)
    ensures AllKeys(hs) == hs[0].keys
    ensures forall i, j :: 0 <= i < j < |hs[0].keys| ==>
              FirstIndex(hs[0].keys, hs[0].keys[i]) < FirstIndex(hs[0].keys, hs[0].keys[j])
  {
    assert hs[..0] == [];
    FirstIndexOrdered(hs[0].keys);
  }

  /** The step of MergeAll: merging one more argument into the merge of the earlier ones meets its contract. */
  lemma MergeAllStep<V>(init: seq<Hash<V>>, last: Hash<V>, m: Hash<V>)
    requires Valid(m) && Valid(last)
    requires forall x :: Get(m, x) == LastArg(init, x)
    requires forall x :: x in m.keys <==> x in AllKeys(init)
    requires forall i, j :: 0 <= i < j < |m.keys| ==> FirstIndex(AllKeys(init), m.keys[i]) < FirstIndex(AllKeys(init), m.keys[j])
    ensures Valid(Merge(m, last))
    ensures forall x :: Get(Merge(m, last), x) == LastArg(init + [last], x)
    ensures forall x :: x in Merge(m, last).keys <==> x in AllKeys(init + [last])
    ensures var ks := Merge(m, last).keys;
      forall i, j :: 0 <= i < j < |ks| ==>
        FirstIndex(AllKeys(init + [last]), ks[i]) < FirstIndex(AllKeys(init + [last]), ks[j])
  {
    AppendLast(init, last);
    MergeKeySet(m, last);
    MergeOrdered(AllKeys(init), m, last);
  }

  /**
   If the keys of a are ordered by first appearance in u and are exactly u's
   elements, the keys of a.merge(b) are ordered by first appearance in u + b.keys.
   */
  lemma MergeOrdered<V>(u: seq<Key>, a: Hash<V>, b: Hash<V>)
    requires Valid(a) && Valid(b)
    requires forall x :: x in a.keys <==> x in u
    requires forall i, j :: 0 <= i < j < |a.keys| ==> FirstIndex(u, a.keys[i]) < FirstIndex(u, a.keys[j])
    ensures var ks := Merge(a, b).keys;
      forall i, j :: 0 <= i < j < |ks| ==> FirstIndex(u + b.keys, ks[i]) < FirstIndex(u + b.keys, ks[j])
  {
    var r := Merge(a, b).keys;
    assert forall i :: |a.keys| <= i < |r| ==> r[i] !in a.keys && r[i] in b.keys;
    MergeAllOrder(u, b.keys, a.keys, r);
  }

  /** The keys of a.merge(b) are those of a and those of b. */
  lemma MergeKeySet<V>(a: Hash<V>, b: Hash<V>)
    requires Valid(a) && Valid(b)
    ensures forall x :: x in Merge(a, b).keys <==> x in a.keys || x in b.keys
  {
    var r := Merge(a, b);
    forall x
      ensures x in r.keys <==> x in a.keys || x in b.keys
    {
      assert x in r.keys <==> Get(r, x).Some?;
    }
  }

  /** LastArg and AllKeys of a list with one more hash at the end. */
  lemma AppendLast<V>(init: seq<Hash<V>>, last: Hash<V>)
    ensures AllKeys(init + [last]) == AllKeys(init) + last.keys
    ensures forall x :: LastArg(init + [last], x) == if x in last.vals then Some(last.vals[x]) else LastArg(init, x)
  {
    var hs := init + [last];
    assert hs[..|hs| - 1] == init && hs[|hs| - 1] == last;
  }

  /** In a sequence without repetitions, first occurrences are just positions. */
  lemma FirstIndexOrdered<T>(s: seq<T>)
    requires Distinct(s)
    ensures forall i, j :: 0 <= i < j < |s| ==> FirstIndex(s, s[i]) < FirstIndex(s, s[j])
  {
    forall i, j | 0 <= i < j < |s|
      ensures FirstIndex(s, s[i]) < FirstIndex(s, s[j])
    {
      FirstIndexDistinct(s, i);
      FirstIndexDistinct(s, j);
    }
  }

  /**
   The ordering step of MergeAll: the keys m are ordered by first appearance
   in u, and the keys appended after them by first appearance in v; then all
   of r is ordered by first appearance in u + v.
   */
  lemma MergeAllOrder<T>(u: seq<T>, v: seq<T>, m: seq<T>, r: seq<T>)
    requires |m| <= |r| && r[..|m|] == m
    requires forall x :: x in m <==> x in u
    requires forall a, b :: 0 <= a < b < |m| ==> FirstIndex(u, m[a]) < FirstIndex(u, m[b])
    requires forall a :: |m| <= a < |r| ==> r[a] !in m && r[a] in v
    requires forall a, b :: |m| <= a < b < |r| ==> FirstIndex(v, r[a]) < FirstIndex(v, r[b])
    ensures forall i, j :: 0 <= i < j < |r| ==> FirstIndex(u + v, r[i]) < FirstIndex(u + v, r[j])
  {
    forall i, j | 0 <= i < j < |r|
      ensures FirstIndex(u + v, r[i]) < FirstIndex(u + v, r[j])
    {
      MergeAllOrderStep(u, v, m, r, i, j);
    }
  }

  lemma MergeAllOrderStep<T>(u: seq<T>, v: seq<T>, m: seq<T>, r: seq<T>, i: int, j: int)
    requires |m| <= |r| && r[..|m|] == m
    requires forall x :: x in m <==> x in u
    requires forall a, b :: 0 <= a < b < |m| ==> FirstIndex(u, m[a]) < FirstIndex(u, m[b])
    requires forall a :: |m| <= a < |r| ==> r[a] !in m && r[a] in v
    requires forall a, b :: |m| <= a < b < |r| ==> FirstIndex(v, r[a]) < FirstIndex(v, r[b])
    requires 0 <= i < j < |r|
    ensures r[i] in u + v && r[j] in u + v
    ensures FirstIndex(u + v, r[i]) < FirstIndex(u + v, r[j])
  {
    if j < |m| {
      assert r[i] == m[i] && r[j] == m[j];
      FirstIndexAppend(u, v, r[i]);
      FirstIndexAppend(u, v, r[j]);
    } else if i < |m| {
      assert r[i] == m[i];
      FirstIndexAppend(u, v, r[i]);
      FirstIndexAfter(u, v, r[j]);
    } else {
      FirstIndexAfter(u, v, r[i]);
      FirstIndexAfter(u, v, r[j]);
    }
  }
}
