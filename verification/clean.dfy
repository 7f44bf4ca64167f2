/** `clean_mongo_doc` and `clean_mongo_list` (backend/server.py:126-142):
    strip the database's `_id` key from a document and from the documents
    nested in it. */
module Clean {
  import opened Json

  const IdKey := "_id"

  /** A value that is neither a dict nor a list. */
  predicate Atomic(v: Value) {
    !v.Dict? && !v.List?
  }

  /** No dict that `clean_mongo_doc` visits holds an `_id` key. The walk
      enters the values of a dict that are dicts, and the dict items of a
      list held by a dict; it does not look inside a list held by a list. */
  predicate IdFree(v: Value)
    decreases v, 0
  {
    match v
    case Dict(es) => forall i | 0 <= i < |es| :: es[i].key != IdKey && FieldIdFree(es[i].val)
    case _ => true
  }

  /** `IdFree` for a value held by a dict. */
  predicate FieldIdFree(v: Value)
    decreases v, 1
  {
    match v
    case Dict(_) => IdFree(v)
    case List(items) => forall i | 0 <= i < |items| :: IdFree(items[i])
    case _ => true
  }

  /** No dict anywhere inside `v`, however deeply nested, holds an `_id` key. */
  predicate DeepIdFree(v: Value) {
    match v
    case Dict(es) => forall i | 0 <= i < |es| :: es[i].key != IdKey && DeepIdFree(es[i].val)
    case List(items) => forall i | 0 <= i < |items| :: DeepIdFree(items[i])
    case _ => true
  }

  /** `clean_mongo_doc`: a dict loses its `_id` entry and has each of its
      values cleaned by `CleanField`; anything else comes back as it is. */
  function CleanDoc(v: Value): (r: Value)
    ensures IdFree(r)
    ensures !v.Dict? ==> r == v
    ensures v.Dict? ==>
      var kept := Without(v.entries, {IdKey});
      && r.Dict?
      && Keys(r.entries) == Keys(kept)
      && (forall i | 0 <= i < |kept| :: Atomic(kept[i].val) ==> r.entries[i].val == kept[i].val)
      && (forall i | 0 <= i < |kept| :: r.entries[i].val == CleanField(kept[i].val))
    decreases v, 0
  {
    match v
    case Dict(es) =>
      var kept := Without(es, {IdKey});
      Dict(seq(|kept|, i requires 0 <= i < |kept| =>
        assert kept[i] in es;
        Entry(kept[i].key, CleanField(kept[i].val))))
    case _ => v
  }

  /** One step of the loop in `clean_mongo_doc`: a dict value is cleaned, a
      list value has its dict items cleaned and its other items kept, and
      any other value is kept. */
  function CleanField(v: Value): (r: Value)
    ensures FieldIdFree(r)
    ensures Atomic(v) ==> r == v
    ensures v.List? ==>
      && r.List?
      && |r.items| == |v.items|
      && (forall i | 0 <= i < |v.items| :: !v.items[i].Dict? ==> r.items[i] == v.items[i])
      && (forall i | 0 <= i < |v.items| :: r.items[i] == CleanDoc(v.items[i]))
    ensures v.Dict? ==> r == CleanDoc(v)
    decreases v, 1
  {
    match v
    case Dict(_) => CleanDoc(v)
    case List(items) => List(seq(|items|, i requires 0 <= i < |items| => CleanDoc(items[i])))
    case _ => v
  }

  /** `clean_mongo_list`: every document of the list cleaned, in order. */
  function CleanList(docs: seq<Value>): (r: seq<Value>)
    ensures |r| == |docs|
    ensures forall i | 0 <= i < |r| :: IdFree(r[i])
    ensures forall i | 0 <= i < |r| :: !docs[i].Dict? ==> r[i] == docs[i]
    ensures forall i | 0 <= i < |r| :: r[i] == CleanDoc(docs[i])
  {
    seq(|docs|, i requires 0 <= i < |docs| => CleanDoc(docs[i]))
  }

  /** A document that is already clean is returned unchanged. */
  lemma {:induction false} CleanDocOfIdFree(v: Value)
    requires IdFree(v)
    ensures CleanDoc(v) == v
    decreases v, 0
  {
    match v
    case Dict(es) =>
      WithoutAbsent(es, {IdKey});
      forall i | 0 <= i < |es|
        ensures CleanField(es[i].val) == es[i].val
      {
        CleanFieldOfIdFree(es[i].val);
      }
      assert CleanDoc(v).entries == es;
    case _ =>
  }

  lemma {:induction false} CleanFieldOfIdFree(v: Value)
    requires FieldIdFree(v)
    ensures CleanField(v) == v
    decreases v, 1
  {
    match v
    case Dict(_) => CleanDocOfIdFree(v);
    case List(items) =>
      forall i | 0 <= i < |items|
        ensures CleanDoc(items[i]) == items[i]
      {
        CleanDocOfIdFree(items[i]);
      }
      assert CleanField(v).items == items;
    case _ =>
  }

  /** The documents `clean_mongo_doc` leaves alone are exactly the clean ones. */
  lemma CleanDocFixpoints(v: Value)
    ensures CleanDoc(v) == v <==> IdFree(v)
  {
    if IdFree(v) {
      CleanDocOfIdFree(v);
    }
  }

  /** Cleaning twice is cleaning once. */
  lemma CleanDocIdempotent(v: Value)
    ensures CleanDoc(CleanDoc(v)) == CleanDoc(v)
  {
    CleanDocOfIdFree(CleanDoc(v));
  }

  /** The lists `clean_mongo_list` leaves alone are exactly the lists of
      clean documents. */
  lemma CleanListFixpoints(docs: seq<Value>)
    ensures CleanList(docs) == docs <==> forall i | 0 <= i < |docs| :: IdFree(docs[i])
  {
    if forall i | 0 <= i < |docs| :: IdFree(docs[i]) {
      forall i | 0 <= i < |docs|
        ensures CleanDoc(docs[i]) == docs[i]
      {
        CleanDocOfIdFree(docs[i]);
      }
    }
  }

  /** Cleaning a list twice is cleaning it once. */
  lemma CleanListIdempotent(docs: seq<Value>)
    ensures CleanList(CleanList(docs)) == CleanList(docs)
  {
    CleanListFixpoints(CleanList(docs));
  }

  /** The walk does not enter a list held by a list: a dict two lists deep
      keeps its `_id`, so a cleaned document need not be free of `_id`
      everywhere. */
  lemma CleanSkipsListsInLists()
    ensures
      var inner := Dict([Entry(IdKey, Int(1))]);
      var doc := Dict([Entry("rows", List([List([inner])]))]);
      CleanDoc(doc) == doc && !DeepIdFree(doc)
  {
    var inner := Dict([Entry(IdKey, Int(1))]);
    var doc := Dict([Entry("rows", List([List([inner])]))]);
    assert inner.entries[0].key == IdKey;
    assert !DeepIdFree(inner);
    assert List([inner]).items[0] == inner;
    assert !DeepIdFree(List([inner]));
    assert doc.entries[0].val.items[0] == List([inner]);
    CleanDocOfIdFree(doc);
  }
}
