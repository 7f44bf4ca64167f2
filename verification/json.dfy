/** The document values the backend stores and returns: Python dicts,
    lists and scalars as they come out of the document database. A dict is
    an ordered sequence of entries, as Python dicts keep insertion order. */
module Json {
  import opened Wrappers

  datatype Value =
    | Null
    | Bool(b: bool)
    | Int(i: int)
    | Real(r: real)
    | Str(s: string)
    | List(items: seq<Value>)
    | Dict(entries: seq<Entry>)

  datatype Entry = Entry(key: string, val: Value)

  function Keys(es: seq<Entry>): (ks: seq<string>)
    ensures |ks| == |es|
    ensures forall i | 0 <= i < |es| :: ks[i] == es[i].key
  {
    seq(|es|, i requires 0 <= i < |es| => es[i].key)
  }

  /** `d.get(k)`: the value stored under `k`, if any. */
  function Get(es: seq<Entry>, k: string): (r: Option<Value>)
    ensures r.None? <==> k !in Keys(es)
    ensures r.Some? ==> Entry(k, r.value) in es
  {
    if es == [] then None
    else if es[0].key == k then Some(es[0].val)
    else
      assert Keys(es) == [es[0].key] + Keys(es[1..]);
      Get(es[1..], k)
  }

  /** `{k: v for k, v in d.items() if k not in drop}`: the entries whose key
      is not in `drop`, in their original order. */
  function Without(es: seq<Entry>, drop: set<string>): (r: seq<Entry>)
    ensures |r| <= |es|
    ensures forall i | 0 <= i < |r| :: r[i] in es && r[i].key !in drop
    ensures forall i | 0 <= i < |es| :: es[i].key !in drop ==> es[i] in r
  {
    if es == [] then []
    else if es[0].key in drop then Without(es[1..], drop)
    else [es[0]] + Without(es[1..], drop)
  }

  /** A key reads as the value of its first entry. */
  lemma {:induction false} GetFirst(es: seq<Entry>, i: nat)
    requires i < |es|
    requires forall j | 0 <= j < i :: es[j].key != es[i].key
    ensures Get(es, es[i].key) == Some(es[i].val)
    decreases i
  {
    if i > 0 {
      assert es[1..][i - 1] == es[i];
      GetFirst(es[1..], i - 1);
    }
  }

  /** Removing keys from a concatenation removes them from each part, so the
      kept entries stay in their order. */
  lemma {:induction false} WithoutAppend(a: seq<Entry>, b: seq<Entry>, drop: set<string>)
    ensures Without(a + b, drop) == Without(a, drop) + Without(b, drop)
    decreases |a|
  {
    if a == [] {
      assert a + b == b;
    } else {
      assert (a + b)[0] == a[0];
      assert (a + b)[1..] == a[1..] + b;
      WithoutAppend(a[1..], b, drop);
    }
  }

  /** A single entry is kept exactly when its key is not dropped. */
  lemma WithoutSingle(e: Entry, drop: set<string>)
    ensures Without([e], drop) == if e.key in drop then [] else [e]
  {
    assert [e][1..] == [];
  }

  /** Removing keys loses exactly those keys: every other key reads back
      the same value as before. */
  lemma {:induction false} GetWithout(es: seq<Entry>, drop: set<string>, k: string)
    ensures Get(Without(es, drop), k) == if k in drop then None else Get(es, k)
    decreases |es|
  {
    if es != [] {
      GetWithout(es[1..], drop, k);
    }
  }

  /** Removing keys that do not occur changes nothing. */
  lemma {:induction false} WithoutAbsent(es: seq<Entry>, drop: set<string>)
    requires forall i | 0 <= i < |es| :: es[i].key !in drop
    ensures Without(es, drop) == es
    decreases |es|
  {
    if es != [] {
      WithoutAbsent(es[1..], drop);
      assert es == [es[0]] + es[1..];
    }
  }

  lemma {:induction false} WithoutAll(es: seq<Entry>, drop: set<string>)
    requires forall i | 0 <= i < |es| :: es[i].key in drop
    ensures Without(es, drop) == []
    decreases |es|
  {
    if es != [] {
      WithoutAll(es[1..], drop);
    }
  }

  /** Removing a set of keys from a dict whose entries hold every kept key
      first and every dropped key after them leaves the first part. */
  lemma WithoutTail(keep: seq<Entry>, tail: seq<Entry>, drop: set<string>)
    requires forall i | 0 <= i < |keep| :: keep[i].key !in drop
    requires forall i | 0 <= i < |tail| :: tail[i].key in drop
    ensures Without(keep + tail, drop) == keep
  {
    WithoutAppend(keep, tail, drop);
    WithoutAbsent(keep, drop);
    WithoutAll(tail, drop);
    assert keep + [] == keep;
  }
}
