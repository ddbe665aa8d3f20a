/**
 * A plain JavaScript object with string keys, as the proxy uses for header dictionaries: an
 * insertion-ordered list of entries with distinct keys. `Object.entries` is the list itself,
 * `obj[k]` is `Lookup`, `obj[k] = v` is `Set` (an existing key keeps its place, a new key goes
 * last), `delete obj[k]` is `Delete`, and `{ ...a, ...b }` is `Assign`.
 */
module JsObject {
  import opened Wrappers
  import opened Text

  type Entries<V> = seq<(string, V)>

  /** `Object.keys`. */
  function Keys<V>(e: Entries<V>): (ks: seq<string>)
    ensures |ks| == |e|
  {
    if |e| == 0 then [] else [e[0].0] + Keys(e[1..])
  }

  /** Every key occurs once, as in any JavaScript object. */
  predicate DistinctKeys<V>(e: Entries<V>)
  {
    |e| == 0 || (Lookup(e[1..], e[0].0) == None && DistinctKeys(e[1..]))
  }

  /** `obj[k]`: the value stored under `k`, or `None` for `undefined` when `k` is not a key. */
  function Lookup<V>(e: Entries<V>, k: string): (r: Option<V>)
  {
    if |e| == 0 then None else if e[0].0 == k then Some(e[0].1) else Lookup(e[1..], k)
  }

  /** A key looks up a value exactly when it is among the keys, and that value is its entry's. */
  lemma {:induction false} LookupIffKey<V>(e: Entries<V>, k: string)
    ensures Lookup(e, k).Some? <==> k in Keys(e)
    ensures Lookup(e, k).Some? ==> (k, Lookup(e, k).value) in e
  {
    if |e| > 0 {
      LookupIffKey(e[1..], k);
      assert Keys(e) == [e[0].0] + Keys(e[1..]);
      if e[0].0 != k && Lookup(e, k).Some? {
        assert (k, Lookup(e, k).value) in e[1..];
      }
    }
  }

  /** The position of `k`, or `|e|` when it is absent. */
  function PosOf<V>(e: Entries<V>, k: string): (p: nat)
    ensures p <= |e|
    ensures p < |e| ==> e[p].0 == k && Lookup(e, k) == Some(e[p].1)
    ensures p == |e| <==> Lookup(e, k) == None
    ensures forall j :: 0 <= j < p ==> e[j].0 != k
  {
    if |e| == 0 then 0 else if e[0].0 == k then 0 else 1 + PosOf(e[1..], k)
  }

  /** In an object each entry is what its key looks up. */
  lemma {:induction false} LookupEntry<V>(e: Entries<V>, i: nat)
    requires DistinctKeys(e) && i < |e|
    ensures PosOf(e, e[i].0) == i && Lookup(e, e[i].0) == Some(e[i].1)
  {
    if i > 0 {
      assert e[1..][i - 1] == e[i];
      LookupEntry(e[1..], i - 1);
    }
  }

  lemma {:induction false} KeysAppend<V>(a: Entries<V>, b: Entries<V>)
    ensures Keys(a + b) == Keys(a) + Keys(b)
  {
    if |a| > 0 {
      assert (a + b)[1..] == a[1..] + b;
      KeysAppend(a[1..], b);
    } else {
      assert a + b == b;
    }
  }

  /** The first `i` entries hold `k` exactly when its position is below `i`. */
  lemma {:induction false} LookupPrefix<V>(e: Entries<V>, i: nat, k: string)
    requires i <= |e|
    ensures Lookup(e[..i], k) == if PosOf(e, k) < i then Lookup(e, k) else None
  {
    if i > 0 && e[0].0 != k {
      assert e[..i][1..] == e[1..][..i - 1];
      LookupPrefix(e[1..], i - 1, k);
    }
  }

  /** `obj[k] = v`. */
  function Set<V>(e: Entries<V>, k: string, v: V): (r: Entries<V>)
    ensures Lookup(r, k) == Some(v)
    ensures forall x :: x != k ==> Lookup(r, x) == Lookup(e, x)
    ensures Lookup(e, k).Some? ==> Keys(r) == Keys(e)
    ensures Lookup(e, k) == None ==> r == e + [(k, v)]
    ensures DistinctKeys(e) ==> DistinctKeys(r)
  {
    if |e| == 0 then [(k, v)]
    else if e[0].0 == k then [(k, v)] + e[1..]
    else
      var r := [e[0]] + Set(e[1..], k, v);
      assert r[1..] == Set(e[1..], k, v);
      r
  }

  /** `delete obj[k]`. */
  function Delete<V>(e: Entries<V>, k: string): (r: Entries<V>)
    ensures DistinctKeys(e) ==> Lookup(r, k) == None && DistinctKeys(r)
    ensures forall x :: x != k ==> Lookup(r, x) == Lookup(e, x)
    ensures Lookup(e, k) == None ==> r == e
  {
    if |e| == 0 then []
    else if e[0].0 == k then e[1..]
    else
      var r := [e[0]] + Delete(e[1..], k);
      assert r[1..] == Delete(e[1..], k);
      r
  }

  /** Deleting a present key removes it from the keys and keeps the order of the others. */
  lemma {:induction false} DeleteKeys<V>(e: Entries<V>, k: string)
    requires Lookup(e, k).Some?
    ensures Keys(Delete(e, k)) == Keys(e)[..PosOf(e, k)] + Keys(e)[PosOf(e, k) + 1..]
  {
    if e[0].0 != k {
      DeleteKeys(e[1..], k);
      var p := PosOf(e[1..], k);
      var ks := Keys(e[1..]);
      assert Keys(e) == [e[0].0] + ks;
      assert Keys(e)[..p + 1] == [e[0].0] + ks[..p];
      assert Keys(e)[p + 2..] == ks[p + 1..];
      ConcatAssoc([e[0].0], ks[..p], ks[p + 1..]);
    }
  }

  /**
   * `{ ...target, ...source }`: each entry of `source` in turn set on `target`. A key that
   * `source` lacks keeps the target's value, and the result is an object when `target` is.
   */
  function Assign<V>(target: Entries<V>, source: Entries<V>): (r: Entries<V>)
    ensures forall x :: Lookup(source, x) == None ==> Lookup(r, x) == Lookup(target, x)
    ensures DistinctKeys(target) ==> DistinctKeys(r)
    decreases |source|
  {
    if |source| == 0 then target else Assign(Set(target, source[0].0, source[0].1), source[1..])
  }

  /** The keys of `source` that `target` lacks, in `source` order. */
  function NewKeys<V>(target: Entries<V>, source: Entries<V>): seq<string>
  {
    if |source| == 0 then []
    else (if Lookup(target, source[0].0).Some? then [] else [source[0].0]) + NewKeys(target, source[1..])
  }

  /** Only the keys of `source` are looked up. */
  lemma {:induction false} NewKeysAgree<V>(t: Entries<V>, u: Entries<V>, k: string, source: Entries<V>)
    requires Lookup(source, k) == None
    requires forall x :: x != k ==> Lookup(t, x) == Lookup(u, x)
    ensures NewKeys(t, source) == NewKeys(u, source)
  {
    if |source| > 0 {
      NewKeysAgree(t, u, k, source[1..]);
    }
  }

  /** Setting a key adds it to the keys exactly when it is new. */
  lemma SetKeys<V>(target: Entries<V>, k: string, v: V)
    ensures Keys(Set(target, k, v)) == Keys(target) + (if Lookup(target, k).Some? then [] else [k])
  {
    if Lookup(target, k) == None {
      KeysAppend(target, [(k, v)]);
      assert Keys([(k, v)]) == [k];
    } else {
      assert Keys(target) + [] == Keys(target);
    }
  }

  /**
   * Spreading an object into another: a key of `source` that `target` has keeps its position;
   * the other keys of `source` follow, in their order.
   */
  lemma {:induction false} AssignKeys<V>(target: Entries<V>, source: Entries<V>)
    requires DistinctKeys(source)
    ensures Keys(Assign(target, source)) == Keys(target) + NewKeys(target, source)
    decreases |source|
  {
    if |source| > 0 {
      var k, v := source[0].0, source[0].1;
      var t := Set(target, k, v);
      var rest := source[1..];
      AssignKeys(t, rest);
      NewKeysAgree(t, target, k, rest);
      var n := NewKeys(target, rest);
      var added: seq<string> := if Lookup(target, k).Some? then [] else [k];
      SetKeys(target, k, v);
      assert NewKeys(target, source) == added + n;
      ConcatAssoc(Keys(target), added, n);
    }
  }

  /** After a spread, a key of `source` has the source's value and any other key the target's. */
  lemma {:induction false} AssignLookup<V>(target: Entries<V>, source: Entries<V>, x: string)
    requires DistinctKeys(source)
    ensures Lookup(Assign(target, source), x) == if Lookup(source, x).Some? then Lookup(source, x) else Lookup(target, x)
    decreases |source|
  {
    if |source| > 0 {
      AssignLookup(Set(target, source[0].0, source[0].1), source[1..], x);
    }
  }

  /** A spread of objects is an object. */
  lemma {:induction false} AssignDistinct<V>(target: Entries<V>, source: Entries<V>)
    requires DistinctKeys(target)
    ensures DistinctKeys(Assign(target, source))
    decreases |source|
  {
    if |source| > 0 {
      AssignDistinct(Set(target, source[0].0, source[0].1), source[1..]);
    }
  }
}
