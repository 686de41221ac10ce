/** A MongoDB collection as the handlers use it: an ordered sequence of
    documents, each under a unique `_id`, in natural (insertion) order. */
module Collection {
  import opened Common

  /** A stored document: its `_id` and its fields. */
  datatype Stored<T> = Stored(id: Id, doc: T)

  /** The `_id` index is unique. */
  ghost predicate DistinctIds<T>(rs: seq<Stored<T>>) {
    forall i, j :: 0 <= i < j < |rs| ==> rs[i].id != rs[j].id
  }

  /** `findById`: the document stored under `id`, if any. */
  function Find<T>(rs: seq<Stored<T>>, id: Id): (r: Option<Stored<T>>)
    ensures r.Some? ==> r.value in rs && r.value.id == id
    ensures r.None? <==> forall k :: 0 <= k < |rs| ==> rs[k].id != id
  {
    if rs == [] then None
    else if rs[0].id == id then Some(rs[0])
    else Find(rs[1..], id)
  }

  /** The collection after `remove` of the document stored under `id`. */
  function Without<T>(rs: seq<Stored<T>>, id: Id): (r: seq<Stored<T>>)
    ensures forall k :: 0 <= k < |r| ==> r[k] in rs && r[k].id != id
    ensures forall k :: 0 <= k < |rs| && rs[k].id != id ==> rs[k] in r
    ensures |r| <= |rs|
  {
    if rs == [] then []
    else if rs[0].id == id then Without(rs[1..], id)
    else [rs[0]] + Without(rs[1..], id)
  }

  /** The collection after the document under `id` is replaced by `doc`. */
  function Replace<T>(rs: seq<Stored<T>>, id: Id, doc: T): (r: seq<Stored<T>>)
    ensures |r| == |rs|
    ensures forall k :: 0 <= k < |rs| ==> r[k] == if rs[k].id == id then Stored(id, doc) else rs[k]
  {
    if rs == [] then []
    else [if rs[0].id == id then Stored(id, doc) else rs[0]] + Replace(rs[1..], id, doc)
  }

  /** Removing a stored id removes exactly one document when ids are unique. */
  lemma {:induction false} WithoutRemovesOne<T>(rs: seq<Stored<T>>, id: Id)
    requires DistinctIds(rs)
    requires Find(rs, id).Some?
    ensures |Without(rs, id)| == |rs| - 1
  {
    if rs[0].id != id {
      WithoutRemovesOne(rs[1..], id);
    } else {
      WithoutAbsent(rs[1..], id);
    }
  }

  /** Removing an id that is not stored changes nothing. */
  lemma {:induction false} WithoutAbsent<T>(rs: seq<Stored<T>>, id: Id)
    requires forall k :: 0 <= k < |rs| ==> rs[k].id != id
    ensures Without(rs, id) == rs
  {
    if rs != [] {
      WithoutAbsent(rs[1..], id);
    }
  }

  /** Removal keeps the `_id` index unique. */
  lemma {:induction false} WithoutKeepsDistinct<T>(rs: seq<Stored<T>>, id: Id)
    requires DistinctIds(rs)
    ensures DistinctIds(Without(rs, id))
  {
    if rs != [] {
      WithoutKeepsDistinct(rs[1..], id);
      var tail := Without(rs[1..], id);
      forall k | 0 <= k < |tail| ensures tail[k].id != rs[0].id {
        assert tail[k] in rs[1..];
      }
    }
  }

  /** Replacing a document keeps every id where it was. */
  lemma ReplaceKeepsDistinct<T>(rs: seq<Stored<T>>, id: Id, doc: T)
    requires DistinctIds(rs)
    ensures DistinctIds(Replace(rs, id, doc))
  {
  }

  /** Under a unique index the rest of the collection is unique too and does
      not hold the first document's id. */
  lemma TailKeepsDistinct<T>(rs: seq<Stored<T>>)
    requires rs != [] && DistinctIds(rs)
    ensures DistinctIds(rs[1..]) && Find(rs[1..], rs[0].id).None?
  {
    forall k | 0 <= k < |rs[1..]| ensures rs[1..][k].id != rs[0].id {
      assert rs[1..][k] == rs[k + 1];
    }
  }

  /** Appending under an id not yet stored keeps the index unique. */
  lemma AppendKeepsDistinct<T>(rs: seq<Stored<T>>, x: Stored<T>)
    requires DistinctIds(rs)
    requires Find(rs, x.id).None?
    ensures DistinctIds(rs + [x])
  {
  }

  /** The collection object that a Mongoose model reads and writes. */
  class Store<T> {
    var records: seq<Stored<T>>

    ghost predicate Valid()
      reads this
    {
      DistinctIds(records)
    }

    constructor ()
      ensures Valid() && records == []
    {
      records := [];
    }

    /** `create`: refused, as by MongoDB's duplicate-key error, when `id` is taken. */
    method Insert(id: Id, doc: T) returns (ok: bool)
      requires Valid()
      modifies this
      ensures Valid()
      ensures ok <==> Find(old(records), id).None?
      ensures records == if ok then old(records) + [Stored(id, doc)] else old(records)
    {
      ok := Find(records, id).None?;
      if ok {
        AppendKeepsDistinct(records, Stored(id, doc));
        records := records + [Stored(id, doc)];
      }
    }

    /** `remove` of one document. */
    method Delete(id: Id)
      requires Valid()
      modifies this
      ensures Valid()
      ensures records == Without(old(records), id)
    {
      WithoutKeepsDistinct(records, id);
      records := Without(records, id);
    }

    /** `findOneAndUpdate` of one document. */
    method Update(id: Id, doc: T)
      requires Valid()
      modifies this
      ensures Valid()
      ensures records == Replace(old(records), id, doc)
    {
      ReplaceKeepsDistinct(records, id, doc);
      records := Replace(records, id, doc);
    }
  }
}
