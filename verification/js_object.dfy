/**
 JavaScript plain objects as ordered key/value sequences. The sequence is the
 object's enumeration order (what `Object.entries` yields). Reading a key
 finds its last occurrence, as `JSON.parse` keeps the last of duplicate keys;
 assigning a key overwrites it in place or appends it at the end, which is
 JavaScript's insertion order.
 */
module JsObject {
  import opened Wrappers
  import Seqs

  type Object<V> = seq<(string, V)>

  function Keys<V>(o: Object<V>): set<string> {
    set i | 0 <= i < |o| :: o[i].0
  }

  /** No key occurs twice (every object built by assignment has this shape). */
  predicate DistinctKeys<V>(o: Object<V>) {
    forall i, j :: 0 <= i < j < |o| ==> o[i].0 != o[j].0
  }

  lemma KeysInit<V>(o: Object<V>)
    requires o != []
    ensures Keys(o) == Keys(o[..|o| - 1]) + {o[|o| - 1].0}
  {
    var init := o[..|o| - 1];
    forall k | k in Keys(o) ensures k in Keys(init) + {o[|o| - 1].0} {
      var i :| 0 <= i < |o| && o[i].0 == k;
      if i < |o| - 1 { assert init[i].0 == k; }
    }
    forall k | k in Keys(init) ensures k in Keys(o) {
      var i :| 0 <= i < |init| && init[i].0 == k;
      assert o[i].0 == k;
    }
  }

  /** `o[k]`: the value of the last occurrence of `k`, or `None` when the key is absent. */
  function Get<V>(o: Object<V>, k: string): (r: Option<V>)
    ensures r.Some? <==> k in Keys(o)
    ensures r.Some? ==> exists i :: 0 <= i < |o| && o[i] == (k, r.value) && LastOccurrence(o, i)
    decreases |o|
  {
    if o == [] then None
    else
      KeysInit(o);
      if o[|o| - 1].0 == k then Some(o[|o| - 1].1)
      else
        var r := Get(o[..|o| - 1], k);
        assert r.Some? ==> exists i :: 0 <= i < |o| - 1 && o[i] == (k, r.value) && LastOccurrence(o, i) by {
          if r.Some? {
            var i :| 0 <= i < |o| - 1 && o[..|o| - 1][i] == (k, r.value) && LastOccurrence(o[..|o| - 1], i);
            assert LastOccurrence(o, i);
          }
        }
        r
  }

  /** No later entry has the key of entry `i`. */
  predicate LastOccurrence<V>(o: Object<V>, i: int)
    requires 0 <= i < |o|
  {
    forall j :: i < j < |o| ==> o[j].0 != o[i].0
  }

  /** The last occurrence of a key is what the key reads. */
  lemma {:induction false} GetLast<V>(o: Object<V>, i: nat)
    requires i < |o| && LastOccurrence(o, i)
    ensures Get(o, o[i].0) == Some(o[i].1)
    decreases |o|
  {
    if i < |o| - 1 {
      var init := o[..|o| - 1];
      assert init[i] == o[i];
      assert LastOccurrence(init, i);
      GetLast(init, i);
    }
  }

  /** In an object without repeated keys, each entry is what its key reads. */
  lemma GetEntry<V>(o: Object<V>, i: nat)
    requires DistinctKeys(o) && i < |o|
    ensures Get(o, o[i].0) == Some(o[i].1)
  {
    GetLast(o, i);
  }

  /** Every occurrence of `k` gets the value `v`; positions do not move. */
  function Replace<V>(o: Object<V>, k: string, v: V): Object<V> {
    seq(|o|, i requires 0 <= i < |o| => if o[i].0 == k then (k, v) else o[i])
  }

  lemma {:induction false} ReplaceFacts<V>(o: Object<V>, k: string, v: V)
    requires k in Keys(o)
    ensures Keys(Replace(o, k, v)) == Keys(o)
    ensures Get(Replace(o, k, v), k) == Some(v)
    ensures forall j :: j != k ==> Get(Replace(o, k, v), j) == Get(o, j)
    decreases |o|
  {
    var r := Replace(o, k, v);
    var init := o[..|o| - 1];
    assert Replace(o, k, v)[..|o| - 1] == Replace(init, k, v);
    KeysInit(o);
    KeysInit(r);
    if o[|o| - 1].0 == k {
      if k in Keys(init) {
        ReplaceFacts(init, k, v);
      } else {
        ReplaceAbsent(init, k, v);
      }
    } else {
      ReplaceFacts(init, k, v);
    }
  }

  lemma ReplaceAbsent<V>(o: Object<V>, k: string, v: V)
    requires k !in Keys(o)
    ensures Replace(o, k, v) == o
  {
    forall i | 0 <= i < |o| ensures Replace(o, k, v)[i] == o[i] {
      assert o[i].0 in Keys(o);
    }
  }

  /**
   `o[k] = v`: afterwards `k` reads `v`, every other key reads as before, keys
   that were present keep their positions, and a new key goes to the end.
   */
  function Set<V>(o: Object<V>, k: string, v: V): (r: Object<V>)
    ensures Keys(r) == Keys(o) + {k}
    ensures Get(r, k) == Some(v)
    ensures forall j :: j != k ==> Get(r, j) == Get(o, j)
    ensures |r| == if k in Keys(o) then |o| else |o| + 1
    ensures forall i :: 0 <= i < |o| ==> r[i].0 == o[i].0
    ensures k !in Keys(o) ==> r[|o|] == (k, v)
    ensures DistinctKeys(o) ==> DistinctKeys(r)
  {
    if k in Keys(o) then
      ReplaceFacts(o, k, v);
      Replace(o, k, v)
    else
      var r := o + [(k, v)];
      assert r[..|r| - 1] == o;
      KeysInit(r);
      assert DistinctKeys(o) ==> DistinctKeys(r) by {
        if DistinctKeys(o) {
          forall i, j | 0 <= i < j < |r| ensures r[i].0 != r[j].0 {
            if j == |o| { assert o[i].0 in Keys(o); }
          }
        }
      }
      r
  }

  /**
   `Object.assign(t, s)`: the properties of `s` are assigned onto `t` in order.
   A key of `s` reads its value in `s`; any other key reads its value in `t`.
   */
  function Assign<V>(t: Object<V>, s: Object<V>): (r: Object<V>)
    ensures Keys(r) == Keys(t) + Keys(s)
    ensures forall k :: Get(r, k) == if k in Keys(s) then Get(s, k) else Get(t, k)
    ensures |t| <= |r| && forall i :: 0 <= i < |t| ==> r[i].0 == t[i].0
    ensures Keys(s) <= Keys(t) ==> |r| == |t|
    ensures DistinctKeys(t) ==> DistinctKeys(r)
    decreases |s|
  {
    if s == [] then t
    else
      KeysInit(s);
      var p := Assign(t, s[..|s| - 1]);
      Set(p, s[|s| - 1].0, s[|s| - 1].1)
  }

  /** Dropping the last entry keeps keys distinct, and the dropped key is then absent. */
  lemma DistinctKeysInit<V>(s: Object<V>)
    requires s != [] && DistinctKeys(s)
    ensures DistinctKeys(s[..|s| - 1])
    ensures s[|s| - 1].0 !in Keys(s[..|s| - 1])
  {
    var init := s[..|s| - 1];
    forall i, j | 0 <= i < j < |init| ensures init[i].0 != init[j].0 {
      assert s[i].0 != s[j].0;
    }
    forall i | 0 <= i < |init| ensures init[i].0 != s[|s| - 1].0 {
      assert s[i].0 != s[|s| - 1].0;
    }
  }

  /** Assigning entries with distinct keys onto an empty object rebuilds them as they are. */
  lemma {:induction false} AssignDistinct<V>(s: Object<V>)
    requires DistinctKeys(s)
    ensures Assign([], s) == s
    decreases |s|
  {
    if s != [] {
      var init := s[..|s| - 1];
      var last := s[|s| - 1];
      DistinctKeysInit(s);
      AssignDistinct(init);
      assert Assign([], s) == Set(init, last.0, last.1);
      assert init + [last] == s;
    }
  }

  /** The keys of `o` in enumeration order. */
  function KeySeq<V>(o: Object<V>): (ks: seq<string>)
    ensures |ks| == |o|
    ensures forall i :: 0 <= i < |o| ==> ks[i] == o[i].0
  {
    seq(|o|, i requires 0 <= i < |o| => o[i].0)
  }

  /** A key occurs in the key sequence exactly when it is a key of the object. */
  lemma KeySeqKeys<V>(o: Object<V>)
    ensures forall k :: k in KeySeq(o) <==> k in Keys(o)
  {
    forall k | k in Keys(o) ensures k in KeySeq(o) {
      var i :| 0 <= i < |o| && o[i].0 == k;
      assert KeySeq(o)[i] == k;
    }
  }

  /** The key sequence of a non-empty object is that of its prefix followed by the last key. */
  lemma KeySeqInit<V>(s: Object<V>)
    requires s != []
    ensures KeySeq(s) == KeySeq(s[..|s| - 1]) + [s[|s| - 1].0]
  {
    var init := s[..|s| - 1];
    assert forall i :: 0 <= i < |init| ==> KeySeq(s)[i] == KeySeq(init)[i];
  }

  /** The entries of `r` appear in the order in which their keys first occur in `ks`. */
  predicate InFirstOrder<V>(r: Object<V>, ks: seq<string>) {
    forall a, b :: 0 <= a < b < |r| ==> Seqs.FirstIndex(ks, r[a].0) < Seqs.FirstIndex(ks, r[b].0)
  }

  /** One assignment keeps the first-occurrence order: an existing key keeps its slot, a new one goes last. */
  lemma SetFirstOrder<V>(p: Object<V>, ks: seq<string>, k: string, v: V)
    requires InFirstOrder(p, ks)
    requires forall x :: x in ks <==> x in Keys(p)
    ensures InFirstOrder(Set(p, k, v), ks + [k])
  {
    var r := Set(p, k, v);
    forall a | 0 <= a < |p|
      ensures Seqs.FirstIndex(ks + [k], p[a].0) == Seqs.FirstIndex(ks, p[a].0) < |ks|
    {
      assert p[a].0 in Keys(p);
      Seqs.FirstIndexAppend(ks, k, p[a].0);
    }
    if k !in Keys(p) {
      Seqs.FirstIndexAppend(ks, k, k);
      assert r[|p|].0 == k;
    }
  }

  /**
   Assigning `s` onto an empty object enumerates the keys in the order of
   their first assignment: a later write to a key keeps its original slot.
   */
  lemma {:induction false} AssignFirstOrder<V>(s: Object<V>)
    ensures InFirstOrder(Assign([], s), KeySeq(s))
    decreases |s|
  {
    if s != [] {
      var init := s[..|s| - 1];
      var last := s[|s| - 1];
      var p := Assign([], init);
      AssignFirstOrder(init);
      assert Keys(p) == Keys(init);
      KeySeqKeys(init);
      assert Assign([], s) == Set(p, last.0, last.1);
      KeySeqInit(s);
      SetFirstOrder(p, KeySeq(init), last.0, last.1);
    }
  }

  /** The object literal `{...a, ...b}`. */
  function Spread<V>(a: Object<V>, b: Object<V>): (r: Object<V>)
    ensures Keys(r) == Keys(a) + Keys(b)
    ensures forall k :: Get(r, k) == if k in Keys(b) then Get(b, k) else Get(a, k)
    ensures DistinctKeys(r)
  {
    Assign(Assign([], a), b)
  }

  /** Keys of an object built by assignment are in one-to-one correspondence with its entries. */
  lemma {:induction false} DistinctKeysCard<V>(o: Object<V>)
    requires DistinctKeys(o)
    ensures |Keys(o)| == |o|
    decreases |o|
  {
    if o != [] {
      var init := o[..|o| - 1];
      KeysInit(o);
      DistinctKeysCard(init);
    }
  }
}
