/** A MongoDB collection as the controllers see it through Mongoose: documents in insertion
    order, each under a unique `_id`, with `findById`, `findByIdAndUpdate`,
    `findByIdAndDelete` and `save` of a new document. Identifiers are drawn from a counter
    (the database's ObjectId generator). */
module Collection {
  import opened Http
  import Lists

  type Id = nat

  /** A stored document: its `_id` and its fields. */
  datatype Doc<T> = Doc(id: Id, data: T)

  ghost predicate UniqueIds<T>(s: seq<Doc<T>>) {
    forall i, j :: 0 <= i < j < |s| ==> s[i].id != s[j].id
  }

  /** Position of the document with identifier `id`, if any (the first one). */
  function IndexOf<T>(s: seq<Doc<T>>, id: Id): (r: Option<nat>)
    ensures r.Some? ==> r.value < |s| && s[r.value].id == id
    ensures r.Some? ==> forall j :: 0 <= j < r.value ==> s[j].id != id
    ensures r.None? ==> forall j :: 0 <= j < |s| ==> s[j].id != id
  {
    if s == [] then None
    else if s[0].id == id then Some(0)
    else match IndexOf(s[1..], id)
      case None => None
      case Some(k) => Some(k + 1)
  }

  /** `Model.findById(id)`: the fields of the document with that identifier. */
  function Lookup<T>(s: seq<Doc<T>>, id: Id): Option<T> {
    match IndexOf(s, id)
    case None => None
    case Some(k) => Some(s[k].data)
  }

  /** The update part of `findByIdAndUpdate`: `f` is applied to the document with that
      identifier; every other document, and the order, stay as they were. */
  function Modify<T>(s: seq<Doc<T>>, id: Id, f: T -> T): (r: seq<Doc<T>>)
    ensures |r| == |s|
    ensures forall i :: 0 <= i < |s| ==>
      r[i] == (if s[i].id == id then Doc(id, f(s[i].data)) else s[i])
  {
    if s == [] then [] else [if s[0].id == id then Doc(id, f(s[0].data)) else s[0]] + Modify(s[1..], id, f)
  }

  /** Updating with an idempotent change twice is updating once (the same status written
      again, say). */
  lemma {:induction false} ModifyIdempotent<T>(s: seq<Doc<T>>, id: Id, f: T -> T)
    requires forall x :: f(f(x)) == f(x)
    ensures Modify(Modify(s, id, f), id, f) == Modify(s, id, f)
  {
    var once := Modify(s, id, f);
    var twice := Modify(once, id, f);
    forall i | 0 <= i < |s| ensures twice[i] == once[i] {
      if s[i].id == id {
        assert once[i] == Doc(id, f(s[i].data));
        assert twice[i] == Doc(id, f(f(s[i].data)));
      }
    }
  }

  /** Updating twice with a change that undoes itself (flipping a flag) restores the
      collection. */
  lemma {:induction false} ModifyInvolution<T>(s: seq<Doc<T>>, id: Id, f: T -> T)
    requires forall x :: f(f(x)) == x
    ensures Modify(Modify(s, id, f), id, f) == s
  {
    var twice := Modify(Modify(s, id, f), id, f);
    forall i | 0 <= i < |s| ensures twice[i] == s[i] {
      if s[i].id == id {
        assert twice[i] == Doc(id, f(f(s[i].data)));
      }
    }
  }

  /** The collection after `findByIdAndDelete(id)`: every other document, in order. */
  function Remove<T>(s: seq<Doc<T>>, id: Id): (r: seq<Doc<T>>)
    ensures |r| <= |s|
    ensures forall i :: 0 <= i < |r| ==> r[i].id != id && r[i] in s
    ensures forall i :: 0 <= i < |s| && s[i].id != id ==> s[i] in r
  {
    if s == [] then []
    else (if s[0].id == id then [] else [s[0]]) + Remove(s[1..], id)
  }

  /** Removal never makes two documents share an identifier. */
  lemma {:induction false} RemoveKeepsIdsUnique<T>(s: seq<Doc<T>>, id: Id)
    requires UniqueIds(s)
    ensures UniqueIds(Remove(s, id))
  {
    if s != [] {
      var rest := Remove(s[1..], id);
      RemoveKeepsIdsUnique(s[1..], id);
      forall i | 0 <= i < |rest| ensures rest[i].id != s[0].id {
        var k :| 0 <= k < |s[1..]| && s[1..][k] == rest[i];
        assert s[k + 1] == rest[i];
      }
    }
  }

  /** Deleting an identifier that is not stored changes nothing. */
  lemma {:induction false} RemoveAbsent<T>(s: seq<Doc<T>>, id: Id)
    requires forall i :: 0 <= i < |s| ==> s[i].id != id
    ensures Remove(s, id) == s
  {
    if s != [] {
      RemoveAbsent(s[1..], id);
    }
  }

  /** Removal keeps the survivors in their stored order: it is the filter on identifiers. */
  lemma {:induction false} RemoveIsFilter<T(!new)>(s: seq<Doc<T>>, id: Id)
    ensures Remove(s, id) == Lists.Filter(s, (d: Doc<T>) => d.id != id)
  {
    if s != [] {
      RemoveIsFilter(s[1..], id);
    }
  }

  /** A document inserted under a fresh identifier is what a later lookup of that
      identifier finds, and every other lookup is unaffected. */
  lemma {:induction false} LookupAfterInsert<T>(s: seq<Doc<T>>, id: Id, x: T, other: Id)
    requires forall i :: 0 <= i < |s| ==> s[i].id != id
    ensures Lookup(s + [Doc(id, x)], id) == Some(x)
    ensures other != id ==> Lookup(s + [Doc(id, x)], other) == Lookup(s, other)
  {
    if s != [] {
      assert (s + [Doc(id, x)])[1..] == s[1..] + [Doc(id, x)];
      LookupAfterInsert(s[1..], id, x, other);
    }
  }

  /** Lookup goes front to back. */
  lemma LookupCons<T>(d: Doc<T>, s: seq<Doc<T>>, id: Id)
    ensures Lookup([d] + s, id) == if d.id == id then Some(d.data) else Lookup(s, id)
  {
    assert ([d] + s)[1..] == s;
  }

  /** After a deletion the identifier is gone, and every other identifier finds what it
      found before. */
  lemma {:induction false} LookupAfterRemove<T>(s: seq<Doc<T>>, id: Id, other: Id)
    ensures Lookup(Remove(s, id), id).None?
    ensures other != id ==> Lookup(Remove(s, id), other) == Lookup(s, other)
  {
    if s != [] {
      var rest := Remove(s[1..], id);
      LookupAfterRemove(s[1..], id, other);
      assert s == [s[0]] + s[1..];
      LookupCons(s[0], s[1..], other);
      if s[0].id != id {
        assert Remove(s, id) == [s[0]] + rest;
        LookupCons(s[0], rest, id);
        LookupCons(s[0], rest, other);
      } else {
        assert Remove(s, id) == rest;
      }
    }
  }

  /** One Mongoose model: the documents it holds and the next identifier to hand out. */
  class Table<T(==)> {
    var docs: seq<Doc<T>>
    var nextId: Id

    ghost predicate Valid()
      reads this
    {
      UniqueIds(docs) && forall i :: 0 <= i < |docs| ==> docs[i].id < nextId
    }

    constructor ()
      ensures Valid() && docs == [] && nextId == 0
    {
      docs := [];
      nextId := 0;
    }

    /** `Model.findById(id)` */
    function FindById(id: Id): (r: Option<T>)
      reads this
      ensures r.Some? <==> exists i :: 0 <= i < |docs| && docs[i].id == id
      ensures r.Some? ==> Doc(id, r.value) in docs
    {
      var k := IndexOf(docs, id);
      if k.Some? then assert docs[k.value] == Doc(id, docs[k.value].data); Some(docs[k.value].data) else None
    }

    /** `new Model(x).save()`: appends a document under a fresh identifier. */
    method Insert(x: T) returns (id: Id)
      requires Valid()
      modifies this
      ensures Valid()
      ensures id == old(nextId) && nextId == id + 1
      ensures IndexOf(old(docs), id).None?
      ensures docs == old(docs) + [Doc(id, x)]
    {
      id := nextId;
      docs := docs + [Doc(id, x)];
      nextId := nextId + 1;
    }

    /** `Model.findByIdAndUpdate(id, change, { new: true })`: the updated fields, or none
        when no document has that identifier (and then nothing changes). */
    method FindByIdAndUpdate(id: Id, f: T -> T) returns (r: Option<T>)
      requires Valid()
      modifies this`docs
      ensures Valid()
      ensures docs == Modify(old(docs), id, f)
      ensures r.None? <==> old(FindById(id)).None?
      ensures r.Some? ==> r.value == f(old(FindById(id)).value)
      ensures r.None? ==> docs == old(docs)
    {
      var k := IndexOf(docs, id);
      var before := docs;
      docs := Modify(docs, id, f);
      if k.None? {
        assert docs == before;
        r := None;
      } else {
        r := Some(f(before[k.value].data));
      }
    }

    /** `Model.findByIdAndDelete(id)`: the deleted fields, or none when absent. */
    method FindByIdAndDelete(id: Id) returns (r: Option<T>)
      requires Valid()
      modifies this`docs
      ensures Valid()
      ensures docs == Remove(old(docs), id)
      ensures r == old(FindById(id))
    {
      r := FindById(id);
      RemoveKeepsIdsUnique(docs, id);
      docs := Remove(docs, id);
    }
  }
}
