/**
 The document collection.  `Collection` is its sequential behaviour; the state machine
 below it interleaves the calls at lock granularity: `insert` and `update` release the
 document lock before they index, the other writers hold it across their index work.
 */
module DocStore {
  import opened Common
  import opened DocTypes
  import opened DocIndexes

  datatype CollectionError = DuplicateId(id: Id) | NotFound(id: Id)

  function AddAll(indexes: seq<DocIndex>, doc: Document): (r: seq<DocIndex>)
    ensures |r| == |indexes|
  {
    seq(|indexes|, i requires 0 <= i < |indexes| => indexes[i].Add(doc))
  }

  function DropAll(indexes: seq<DocIndex>, doc: Document): (r: seq<DocIndex>)
    ensures |r| == |indexes|
  {
    seq(|indexes|, i requires 0 <= i < |indexes| => indexes[i].Drop(doc))
  }

  function ClearAll(indexes: seq<DocIndex>): (r: seq<DocIndex>)
    ensures |r| == |indexes|
  {
    seq(|indexes|, i requires 0 <= i < |indexes| => indexes[i].Cleared())
  }

  function WithoutField(indexes: seq<DocIndex>, field: string): (r: seq<DocIndex>)
    ensures forall ix :: ix in r <==> ix in indexes && ix.field != field
  {
    if indexes == [] then []
    else
      assert indexes == [indexes[0]] + indexes[1..];
      (if indexes[0].field == field then [] else [indexes[0]]) + WithoutField(indexes[1..], field)
  }

  /** Each document is stored under its own id, and every index lists exactly the stored documents. */
  ghost predicate Exact(docs: map<Id, Document>, indexes: seq<DocIndex>) {
    && (forall id | id in docs :: docs[id].id == id)
    && (forall ix | ix in indexes :: ix.Exact(docs))
  }

  // ---------------------------------------------------------------------------
  // Sequential calls
  // ---------------------------------------------------------------------------

  lemma AddExact(ix: DocIndex, docs: map<Id, Document>, doc: Document)
    requires ix.Exact(docs) && doc.id !in docs
    ensures ix.Add(doc).Exact(docs[doc.id := doc])
  {
    hide Get, KeyOf;
    AddBuckets(ix, doc);
    var after, docs' := ix.Add(doc), docs[doc.id := doc];
    forall key, id ensures id in after.Bucket(key) <==>
        !after.kind.FullText? && id in docs' && HasKey(docs'[id], after.field, key) {
      assert id in ix.Bucket(key) <==> !ix.kind.FullText? && id in docs && HasKey(docs[id], ix.field, key);
    }
  }

  lemma DropExact(ix: DocIndex, docs: map<Id, Document>, id: Id)
    requires ix.Exact(docs) && id in docs && docs[id].id == id
    ensures ix.Drop(docs[id]).Exact(docs - {id})
  {
    hide Get, KeyOf;
    DropBuckets(ix, docs[id]);
  }

  lemma InsertExact(docs: map<Id, Document>, indexes: seq<DocIndex>, doc: Document)
    requires Exact(docs, indexes) && doc.id !in docs
    ensures Exact(docs[doc.id := doc], AddAll(indexes, doc))
  {
    forall ix | ix in AddAll(indexes, doc) ensures ix.Exact(docs[doc.id := doc]) {
      var i :| 0 <= i < |indexes| && ix == indexes[i].Add(doc);
      assert indexes[i] in indexes;
      AddExact(indexes[i], docs, doc);
    }
  }

  lemma DeleteExact(docs: map<Id, Document>, indexes: seq<DocIndex>, id: Id)
    requires Exact(docs, indexes) && id in docs
    ensures Exact(docs - {id}, DropAll(indexes, docs[id]))
  {
    forall ix | ix in DropAll(indexes, docs[id]) ensures ix.Exact(docs - {id}) {
      var i :| 0 <= i < |indexes| && ix == indexes[i].Drop(docs[id]);
      assert indexes[i] in indexes;
      DropExact(indexes[i], docs, id);
    }
  }

  lemma UpdateExact(docs: map<Id, Document>, indexes: seq<DocIndex>, id: Id, doc: Document)
    requires Exact(docs, indexes) && id in docs && doc.id == id
    ensures Exact(docs[id := doc], AddAll(DropAll(indexes, docs[id]), doc))
  {
    hide Get, KeyOf;
    DeleteExact(docs, indexes, id);
    InsertExact(docs - {id}, DropAll(indexes, docs[id]), doc);
    assert (docs - {id})[id := doc] == docs[id := doc];
  }

  lemma ForeignAdds(docs: map<Id, Document>, ix: DocIndex, id: Id, doc: Document)
    requires ix.Exact(docs) && id in docs && docs[id].id == id && doc.id != id
    requires !ix.kind.FullText? && Get(doc, ix.field).Some?
    ensures !ix.Drop(docs[id]).Add(doc).Exact(docs[id := doc])
  {
    var key := KeyOf(Get(doc, ix.field).value);
    var mid := ix.Drop(docs[id]);
    DropBuckets(ix, docs[id]);
    AddBuckets(mid, doc);
    assert HasKey(doc, ix.field, key);
    hide Get, KeyOf, DocIndex.Add, DocIndex.Drop, DocIndex.Bucket, HasKey;
    assert id in ix.Bucket(key) <==> HasKey(docs[id], ix.field, key);
    assert id !in mid.Add(doc).Bucket(key);
    assert docs[id := doc][id] == doc;
  }

  lemma ForeignSkips(docs: map<Id, Document>, ix: DocIndex, id: Id, doc: Document)
    requires ix.Exact(docs) && id in docs && docs[id].id == id
    requires ix.kind.FullText? || Get(doc, ix.field).None?
    ensures ix.Drop(docs[id]).Add(doc).Exact(docs[id := doc])
  {
    var mid, docs' := ix.Drop(docs[id]), docs[id := doc];
    assert mid.field == ix.field && mid.kind == ix.kind;
    assert mid.Add(doc) == mid;
    assert forall key :: ix.kind.FullText? || !HasKey(doc, ix.field, key);
    DropExact(ix, docs, id);
    hide Get, KeyOf, DocIndex.Add, DocIndex.Drop, DocIndex.Bucket, HasKey;
    forall key, x ensures x in mid.Bucket(key) <==>
        !mid.kind.FullText? && x in docs' && HasKey(docs'[x], mid.field, key) {
      assert x in mid.Bucket(key) <==>
          !mid.kind.FullText? && x in docs - {id} && HasKey((docs - {id})[x], mid.field, key);
    }
  }

  /** After an update an index is exact if and only if the ids match or the index has nothing to say of the new
      document. */
  lemma UpdateExactly(docs: map<Id, Document>, indexes: seq<DocIndex>, id: Id, doc: Document, i: nat)
    requires Exact(docs, indexes) && id in docs && i < |indexes|
    ensures AddAll(DropAll(indexes, docs[id]), doc)[i].Exact(docs[id := doc])
            <==> doc.id == id || indexes[i].kind.FullText? || Get(doc, indexes[i].field).None?
  {
    var after := AddAll(DropAll(indexes, docs[id]), doc);
    assert indexes[i] in indexes && after[i] in after && after[i] == indexes[i].Drop(docs[id]).Add(doc);
    if doc.id == id {
      UpdateExact(docs, indexes, id, doc);
    } else if indexes[i].kind.FullText? || Get(doc, indexes[i].field).None? {
      ForeignSkips(docs, indexes[i], id, doc);
    } else {
      ForeignAdds(docs, indexes[i], id, doc);
    }
  }

  /** One index, its buckets updated in place. */
  class DocumentIndex {
    const field: string
    const kind: IndexType
    var buckets: map<IndexKey, set<Id>>

    /** The contents, as a value. */
    function View(): DocIndex
      reads this
    {
      DocIndex(field, kind, buckets)
    }

    constructor (name: string, type': IndexType)
      ensures View() == DocIndex(name, type', map[])
    {
      field, kind, buckets := name, type', map[];
    }

    method IndexDocument(doc: Document)
      modifies this
      ensures View() == old(View()).Add(doc)
    {
      var value := Get(doc, field);
      if value.Some? && !kind.FullText? {
        var key := KeyOf(value.value);
        buckets := buckets[key := (if key in buckets then buckets[key] else {}) + {doc.id}];
      }
    }

    method UnindexDocument(doc: Document)
      modifies this
      ensures View() == old(View()).Drop(doc)
    {
      var value := Get(doc, field);
      if value.Some? && !kind.FullText? {
        var key := KeyOf(value.value);
        if key in buckets {
          buckets := buckets[key := buckets[key] - {doc.id}];
          if buckets[key] == {} {
            buckets := buckets - {key};
          }
        }
      }
    }

    method Clear()
      modifies this
      ensures View() == old(View()).Cleared()
    {
      buckets := map[];
    }
  }

  function Views(ixs: seq<DocumentIndex>): (r: seq<DocIndex>)
    reads ixs
    ensures |r| == |ixs|
  {
    seq(|ixs|, i requires 0 <= i < |ixs| reads ixs => ixs[i].View())
  }

  ghost predicate Separate(ixs: seq<DocumentIndex>) {
    forall i, j | 0 <= i < j < |ixs| :: ixs[i] != ixs[j]
  }

  class Collection {
    var docs: map<Id, Document>
    var indexes: seq<DocumentIndex>

    ghost predicate Valid()
      reads this
    {
      Separate(indexes)
    }

    ghost predicate IsExact()
      reads this, indexes
    {
      Exact(docs, Views(indexes))
    }

    constructor ()
      ensures Valid() && docs == map[] && indexes == [] && IsExact()
    {
      docs, indexes := map[], [];
    }

    method IndexDocument(doc: Document)
      requires Valid()
      modifies indexes
      ensures Views(indexes) == AddAll(old(Views(indexes)), doc)
    {
      for i := 0 to |indexes|
        invariant forall j | 0 <= j < |indexes| ::
            indexes[j].View() == if j < i then old(indexes[j].View()).Add(doc) else old(indexes[j].View())
      {
        hide DocIndex.Add;
        indexes[i].IndexDocument(doc);
      }
    }

    method UnindexDocument(doc: Document)
      requires Valid()
      modifies indexes
      ensures Views(indexes) == DropAll(old(Views(indexes)), doc)
    {
      for i := 0 to |indexes|
        invariant forall j | 0 <= j < |indexes| ::
            indexes[j].View() == if j < i then old(indexes[j].View()).Drop(doc) else old(indexes[j].View())
      {
        hide DocIndex.Drop;
        indexes[i].UnindexDocument(doc);
      }
    }

    method Insert(doc: Document) returns (r: Result<Id, CollectionError>)
      requires Valid()
      modifies this`docs, indexes
      ensures r == if doc.id in old(docs) then Err(DuplicateId(doc.id)) else Ok(doc.id)
      ensures r.Ok? ==> docs == old(docs)[doc.id := doc] && Views(indexes) == AddAll(old(Views(indexes)), doc)
      ensures r.Err? ==> docs == old(docs) && Views(indexes) == old(Views(indexes))
      ensures old(IsExact()) ==> IsExact()
    {
      hide Views, AddAll, Exact;
      if doc.id in docs {
        return Err(DuplicateId(doc.id));
      }
      if Exact(docs, Views(indexes)) {
        InsertExact(docs, Views(indexes), doc);
      }
      docs := docs[doc.id := doc];
      IndexDocument(doc);
      r := Ok(doc.id);
    }

    /** Replaces a document; exactness survives when the new document carries the id it is stored under. */
    method Update(id: Id, doc: Document) returns (r: Result<(), CollectionError>)
      requires Valid()
      modifies this`docs, indexes
      ensures r == if id in old(docs) then Ok(()) else Err(NotFound(id))
      ensures r.Ok? ==>
                && docs == old(docs)[id := doc]
                && Views(indexes) == AddAll(DropAll(old(Views(indexes)), old(docs)[id]), doc)
      ensures r.Err? ==> docs == old(docs) && Views(indexes) == old(Views(indexes))
      ensures old(IsExact()) && (r.Ok? ==> doc.id == id) ==> IsExact()
    {
      hide Views, AddAll, DropAll, Exact;
      if id !in docs {
        return Err(NotFound(id));
      }
      if Exact(docs, Views(indexes)) && doc.id == id {
        UpdateExact(docs, Views(indexes), id, doc);
      }
      UnindexDocument(docs[id]);
      docs := docs[id := doc];
      IndexDocument(doc);
      r := Ok(());
    }

    method Delete(id: Id) returns (r: Result<Document, CollectionError>)
      requires Valid()
      modifies this`docs, indexes
      ensures r == if id in old(docs) then Ok(old(docs)[id]) else Err(NotFound(id))
      ensures r.Ok? ==> docs == old(docs) - {id} && Views(indexes) == DropAll(old(Views(indexes)), old(docs)[id])
      ensures r.Err? ==> docs == old(docs) && Views(indexes) == old(Views(indexes))
      ensures old(IsExact()) ==> IsExact()
    {
      hide Views, DropAll, Exact;
      if id !in docs {
        return Err(NotFound(id));
      }
      if Exact(docs, Views(indexes)) {
        DeleteExact(docs, Views(indexes), id);
      }
      var doc := docs[id];
      docs := docs - {id};
      UnindexDocument(doc);
      r := Ok(doc);
    }

    method Clear()
      requires Valid()
      modifies this`docs, indexes
      ensures docs == map[] && Views(indexes) == ClearAll(old(Views(indexes)))
      ensures IsExact()
    {
      docs := map[];
      for i := 0 to |indexes|
        invariant docs == map[]
        invariant forall j | 0 <= j < |indexes| ::
            indexes[j].View() == if j < i then old(indexes[j].View()).Cleared() else old(indexes[j].View())
      {
        indexes[i].Clear();
      }
    }

    method CreateIndex(field: string, kind: IndexType)
      requires Valid()
      modifies this`indexes
      ensures Valid() && |indexes| == |old(indexes)| + 1 && indexes[..|old(indexes)|] == old(indexes)
      ensures Views(old(indexes)) == old(Views(indexes))
      ensures BuiltFrom(indexes[|old(indexes)|].View(), field, kind, docs)
      ensures old(IsExact()) ==> IsExact()
    {
      var index := BuildIndex(field, kind);
      BuiltExact(index.View(), field, kind, docs);
      hide BuiltFrom, DocIndex.Exact;
      assert Views(indexes + [index]) == Views(indexes) + [index.View()];
      indexes := indexes + [index];
    }

    /** Indexes every stored document, in no particular order. */
    method BuildIndex(field: string, kind: IndexType) returns (index: DocumentIndex)
      ensures fresh(index) && BuiltFrom(index.View(), field, kind, docs)
    {
      index := new DocumentIndex(field, kind);
      var todo := docs.Keys;
      while todo != {}
        invariant todo <= docs.Keys && fresh(index)
        invariant BuiltFrom(index.View(), field, kind, docs - todo)
      {
        hide Get, KeyOf, BuiltFrom, DocIndex.Add;
        var id :| id in todo;
        BuildStep(index.View(), field, kind, docs, todo, id);
        index.IndexDocument(docs[id]);
        todo := todo - {id};
      }
      assert docs - todo == docs;
    }

    /** The documents that match, before sorting, paging and projection, keyed by id since they come in hash order. */
    method Find(filters: seq<Filter>) returns (found: map<Id, Document>)
      ensures forall id | id in found :: id in docs && found[id] == docs[id] && MatchesAll(filters, docs[id])
      ensures IsExact() ==>
                found.Keys == set id | id in ScannedIds(docs, filters) && !SignClash(docs[id], filters, Views(indexes))
    {
      ghost var views := Views(indexes);
      var candidates := FindIndexedCandidates(filters, Views(indexes));
      var todo := if candidates.Some? then candidates.value else docs.Keys;
      ghost var all := todo;
      found := map[];
      while todo != {}
        invariant todo <= all
        invariant forall id :: id in found <==> id in all - todo && id in docs && MatchesAll(filters, docs[id])
        invariant forall id | id in found :: found[id] == docs[id]
      {
        var id :| id in todo;
        if id in docs && MatchesAll(filters, docs[id]) {
          found := found[id := docs[id]];
        }
        todo := todo - {id};
      }
      assert found.Keys == FoundIds(docs, filters, candidates);
      if Exact(docs, views) {
        ExactFind(docs, views, filters, candidates);
      }
    }
  }

  lemma BuildStep(ix: DocIndex, field: string, kind: IndexType, docs: map<Id, Document>, todo: set<Id>, id: Id)
    requires id in todo && todo <= docs.Keys && BuiltFrom(ix, field, kind, docs - todo)
    ensures BuiltFrom(ix.Add(docs[id]), field, kind, docs - (todo - {id}))
  {
    hide Get, KeyOf;
    var before, after := docs - todo, docs - (todo - {id});
    assert after == before[id := docs[id]];
    AddBuckets(ix, docs[id]);
    forall key, x ensures x in ix.Add(docs[id]).Bucket(key) <==>
        exists stored :: stored in after && after[stored].id == x && !kind.FullText?
            && HasKey(after[stored], field, key)
    {
      if x == docs[id].id && !kind.FullText? && HasKey(docs[id], field, key) {
        assert id in after && after[id].id == x;
      } else if x in ix.Bucket(key) {
        var stored :| stored in before && before[stored].id == x && !kind.FullText?
            && HasKey(before[stored], field, key);
        assert stored in after && after[stored].id == x && HasKey(after[stored], field, key);
      }
    }
  }

  lemma BuiltExact(ix: DocIndex, field: string, kind: IndexType, docs: map<Id, Document>)
    requires BuiltFrom(ix, field, kind, docs)
    ensures (forall id | id in docs :: docs[id].id == id) ==> ix.Exact(docs)
  {
    hide Get, KeyOf;
    if forall id | id in docs :: docs[id].id == id {
      forall key, id ensures id in ix.Bucket(key) <==>
          !ix.kind.FullText? && id in docs && HasKey(docs[id], ix.field, key) {
        if !kind.FullText? && id in docs && HasKey(docs[id], field, key) {
          assert docs[id].id == id;
        }
      }
    }
  }

  // ---------------------------------------------------------------------------
  // Interleaved calls
  // ---------------------------------------------------------------------------

  /** What the holder of the document write lock is doing between two index-lock sections. */
  datatype Writer = NoWriter | Replacing(id: Id, doc: Document) | Removing(doc: Document) | Clearing

  /**
   `pending` are documents whose writer has released the document lock and not yet indexed;
   `builds` are the indexes of `create_index` calls that hold the document read lock.
   */
  datatype State = State(docs: map<Id, Document>, indexes: seq<DocIndex>, pending: multiset<Document>,
                         builds: multiset<DocIndex>, writer: Writer)

  datatype Step =
    | StoreNew(doc: Document)
    | IndexPending(doc: Document)
    | BeginUpdate(id: Id, doc: Document)
    | EndUpdate
    | BeginDelete(id: Id)
    | EndDelete
    | BeginClear
    | EndClear
    | BeginBuild(field: string, kind: IndexType, index: DocIndex)
    | EndBuild(index: DocIndex)
    | DropIndex(field: string)

  /** The document write lock is free. */
  predicate Unlocked(s: State) {
    s.writer.NoWriter? && s.builds == multiset{}
  }

  /** One atomic step. */
  ghost predicate Next(s: State, step: Step, t: State) {
    match step
    case StoreNew(doc) =>
      Unlocked(s) && doc.id !in s.docs
      && t == s.(docs := s.docs[doc.id := doc], pending := s.pending + multiset{doc})
    case IndexPending(doc) =>
      doc in s.pending
      && t == s.(indexes := AddAll(s.indexes, doc), pending := s.pending - multiset{doc})
    case BeginUpdate(id, doc) =>
      Unlocked(s) && id in s.docs
      && t == s.(indexes := DropAll(s.indexes, s.docs[id]), writer := Replacing(id, doc))
    case EndUpdate =>
      s.writer.Replacing?
      && t == s.(docs := s.docs[s.writer.id := s.writer.doc], pending := s.pending + multiset{s.writer.doc},
          writer := NoWriter)
    case BeginDelete(id) =>
      Unlocked(s) && id in s.docs
      && t == s.(docs := s.docs - {id}, writer := Removing(s.docs[id]))
    case EndDelete =>
      s.writer.Removing?
      && t == s.(indexes := DropAll(s.indexes, s.writer.doc), writer := NoWriter)
    case BeginClear =>
      Unlocked(s) && t == s.(docs := map[], writer := Clearing)
    case EndClear =>
      s.writer.Clearing? && t == s.(indexes := ClearAll(s.indexes), writer := NoWriter)
    case BeginBuild(field, kind, index) =>
      s.writer.NoWriter? && BuiltFrom(index, field, kind, s.docs)
      && t == s.(builds := s.builds + multiset{index})
    case EndBuild(index) =>
      index in s.builds
      && t == s.(indexes := s.indexes + [index], builds := s.builds - multiset{index})
    case DropIndex(field) =>
      t == s.(indexes := WithoutField(s.indexes, field))
  }

  /** The ids an update confuses when its document carries another id than the one it is stored under. */
  function Confused(step: Step): set<Id> {
    if step.BeginUpdate? && step.doc.id != step.id then {step.id, step.doc.id} else {}
  }

  /** The document needs no bucket yet: its indexing is pending, or it is being replaced. */
  ghost predicate Excused(s: State, id: Id)
    requires id in s.docs
  {
    s.docs[id] in s.pending || (s.writer.Replacing? && s.writer.id == id)
  }

  /** The id is stored, not confused by any update so far, and needs its buckets. */
  ghost predicate Due(s: State, confused: set<Id>, id: Id) {
    id in s.docs && id !in confused && !Excused(s, id)
  }

  ghost predicate Inv(s: State, confused: set<Id>) {
    && (forall id | id in s.docs :: s.docs[id].id == id || (id in confused && s.docs[id].id in confused))
    && (forall ix, id | ix in s.indexes && Due(s, confused, id) :: ix.Holds(id, s.docs[id]))
    && (forall ix, id | ix in s.builds && id in s.docs && id !in confused :: ix.Holds(id, s.docs[id]))
    && (s.writer.Replacing? ==> s.writer.id in s.docs
                                && (s.writer.doc.id == s.writer.id
                                    || (s.writer.id in confused && s.writer.doc.id in confused)))
    && (s.writer.Removing? ==> s.writer.doc.id !in s.docs || s.writer.doc.id in confused)
    && (s.writer.Clearing? ==> s.docs == map[])
    && (s.builds != multiset{} ==> s.writer.NoWriter?)
  }

  /** Confusing more ids asks for less. */
  lemma MoreConfused(s: State, confused: set<Id>, more: set<Id>)
    requires Inv(s, confused) && confused <= more
    ensures Inv(s, more)
  {
    hide Get, KeyOf, HasKey, DocIndex.Bucket;
    assert forall id | Due(s, more, id) :: Due(s, confused, id);
  }

  lemma AddKeepsHolds(ix: DocIndex, doc: Document, id: Id, d: Document)
    requires ix.Holds(id, d) || (id == doc.id && d == doc)
    ensures ix.Add(doc).Holds(id, d)
  {
    hide Get, KeyOf;
    AddBuckets(ix, doc);
  }

  lemma DropKeepsHolds(ix: DocIndex, doc: Document, id: Id, d: Document)
    requires ix.Holds(id, d) && id != doc.id
    ensures ix.Drop(doc).Holds(id, d)
  {
    hide Get, KeyOf;
    DropBuckets(ix, doc);
  }

  lemma IndexStepInv(s: State, confused: set<Id>, doc: Document, t: State)
    requires Inv(s, confused) && Next(s, IndexPending(doc), t)
    ensures Inv(t, confused)
  {
    hide Get, KeyOf, HasKey, DocIndex.Holds;
    forall ix, id | ix in t.indexes && Due(t, confused, id) ensures ix.Holds(id, t.docs[id]) {
      var i :| 0 <= i < |s.indexes| && ix == s.indexes[i].Add(doc);
      assert s.indexes[i] in s.indexes;
      assert t.docs[id] == doc || Due(s, confused, id);
      AddKeepsHolds(s.indexes[i], doc, id, t.docs[id]);
    }
  }

  lemma DropStepInv(s: State, confused: set<Id>, doc: Document, t: State)
    requires Inv(s, confused) && t.indexes == DropAll(s.indexes, doc) && t.docs == s.docs
    requires forall id | Due(t, confused, id) :: id != doc.id && Due(s, confused, id)
    ensures forall ix, id | ix in t.indexes && Due(t, confused, id) :: ix.Holds(id, t.docs[id])
  {
    hide Get, KeyOf, HasKey, DocIndex.Holds;
    forall ix, id | ix in t.indexes && Due(t, confused, id) ensures ix.Holds(id, t.docs[id]) {
      var i :| 0 <= i < |s.indexes| && ix == s.indexes[i].Drop(doc);
      assert s.indexes[i] in s.indexes;
      DropKeepsHolds(s.indexes[i], doc, id, t.docs[id]);
    }
  }

  lemma BuiltHolds(index: DocIndex, field: string, kind: IndexType, docs: map<Id, Document>, id: Id)
    requires BuiltFrom(index, field, kind, docs) && id in docs && docs[id].id == id
    ensures index.Holds(id, docs[id])
  {
    hide Get, KeyOf;
  }

  lemma BuildStepInv(s: State, confused: set<Id>, field: string, kind: IndexType, index: DocIndex, t: State)
    requires Inv(s, confused) && Next(s, BeginBuild(field, kind, index), t)
    ensures Inv(t, confused)
  {
    hide Get, KeyOf, BuiltFrom, DocIndex.Holds;
    assert forall id | Due(t, confused, id) :: Due(s, confused, id);
    forall ix, id | ix in t.builds && id in t.docs && id !in confused ensures ix.Holds(id, t.docs[id]) {
      if ix == index {
        BuiltHolds(index, field, kind, s.docs, id);
      } else {
        assert ix in s.builds;
      }
    }
  }

  lemma StoreInv(s: State, confused: set<Id>, id: Id, doc: Document, t: State)
    requires Inv(s, confused) && (doc.id == id || (id in confused && doc.id in confused))
    requires t == s.(docs := s.docs[id := doc], pending := s.pending + multiset{doc}, writer := NoWriter)
    requires s.builds == multiset{} && (s.writer.NoWriter? || (s.writer.Replacing? && s.writer.id == id))
    ensures Inv(t, confused)
  {
    hide Get, KeyOf, HasKey, DocIndex.Holds;
    forall ix, x | ix in t.indexes && Due(t, confused, x) ensures ix.Holds(x, t.docs[x]) {
      assert x != id && t.docs[x] == s.docs[x] && Due(s, confused, x);
    }
  }

  lemma PushInv(s: State, confused: set<Id>, index: DocIndex, t: State)
    requires Inv(s, confused) && Next(s, EndBuild(index), t)
    ensures Inv(t, confused)
  {
    hide Get, KeyOf, HasKey, DocIndex.Holds;
    forall ix, id | ix in t.indexes && Due(t, confused, id) ensures ix.Holds(id, t.docs[id]) {
      assert ix == index || (ix in s.indexes && Due(s, confused, id));
    }
  }

  lemma BeginUpdateInv(s: State, confused: set<Id>, id: Id, doc: Document, t: State)
    requires Inv(s, confused) && Next(s, BeginUpdate(id, doc), t)
    requires doc.id == id || (id in confused && doc.id in confused)
    ensures Inv(t, confused)
  {
    hide Get, KeyOf, HasKey, DocIndex.Holds;
    forall x | Due(t, confused, x) ensures x != s.docs[id].id && Due(s, confused, x) {
    }
    DropStepInv(s, confused, s.docs[id], t);
  }

  lemma BeginDeleteInv(s: State, confused: set<Id>, id: Id, t: State)
    requires Inv(s, confused) && Next(s, BeginDelete(id), t)
    ensures Inv(t, confused)
  {
    hide Get, KeyOf, HasKey, DocIndex.Holds;
    assert forall x | Due(t, confused, x) :: Due(s, confused, x);
  }

  lemma EndDeleteInv(s: State, confused: set<Id>, t: State)
    requires Inv(s, confused) && Next(s, EndDelete, t)
    ensures Inv(t, confused)
  {
    hide Get, KeyOf, HasKey, DocIndex.Holds;
    forall x | Due(t, confused, x) ensures x != s.writer.doc.id && Due(s, confused, x) {
    }
    DropStepInv(s, confused, s.writer.doc, t);
  }

  lemma ClearInv(s: State, confused: set<Id>, step: Step, t: State)
    requires Inv(s, confused) && Next(s, step, t) && (step.BeginClear? || step.EndClear?)
    ensures Inv(t, confused)
  {
    assert t.docs == map[];
  }

  lemma DropIndexInv(s: State, confused: set<Id>, field: string, t: State)
    requires Inv(s, confused) && Next(s, DropIndex(field), t)
    ensures Inv(t, confused)
  {
    hide Get, KeyOf, HasKey, DocIndex.Holds;
    assert forall x | Due(t, confused, x) :: Due(s, confused, x);
  }

  lemma StepInv(s: State, step: Step, t: State, confused: set<Id>)
    requires Inv(s, confused) && Next(s, step, t) && Confused(step) <= confused
    ensures Inv(t, confused)
  {
    match step
    case StoreNew(doc) => StoreInv(s, confused, doc.id, doc, t);
    case IndexPending(doc) => IndexStepInv(s, confused, doc, t);
    case BeginUpdate(id, doc) => BeginUpdateInv(s, confused, id, doc, t);
    case EndUpdate => StoreInv(s, confused, s.writer.id, s.writer.doc, t);
    case BeginDelete(id) => BeginDeleteInv(s, confused, id, t);
    case EndDelete => EndDeleteInv(s, confused, t);
    case BeginClear => ClearInv(s, confused, step, t);
    case EndClear => ClearInv(s, confused, step, t);
    case BeginBuild(field, kind, index) => BuildStepInv(s, confused, field, kind, index, t);
    case EndBuild(index) => PushInv(s, confused, index, t);
    case DropIndex(field) => DropIndexInv(s, confused, field, t);
  }

  /** Every step, by whichever call, keeps the invariant, but for the ids it confuses. */
  lemma NextInv(s: State, step: Step, t: State, confused: set<Id>)
    requires Inv(s, confused) && Next(s, step, t)
    ensures Inv(t, confused + Confused(step))
  {
    hide Inv, Next, Confused;
    MoreConfused(s, confused, confused + Confused(step));
    StepInv(s, step, t, confused + Confused(step));
  }

  const EMPTY := State(map[], [], multiset{}, multiset{}, NoWriter)

  ghost predicate Run(states: seq<State>, steps: seq<Step>) {
    && |states| == |steps| + 1 && states[0] == EMPTY
    && forall i | 0 <= i < |steps| :: Next(states[i], steps[i], states[i + 1])
  }

  /** The ids that the first `n` steps have confused; none if every update carried its own id. */
  function ConfusedBy(steps: seq<Step>, n: nat): set<Id>
    requires n <= |steps|
  {
    if n == 0 then {} else ConfusedBy(steps, n - 1) + Confused(steps[n - 1])
  }

  lemma {:induction false} NoneConfused(steps: seq<Step>, n: nat)
    requires n <= |steps| && forall k | 0 <= k < n && steps[k].BeginUpdate? :: steps[k].doc.id == steps[k].id
    ensures ConfusedBy(steps, n) == {}
  {
    if n > 0 {
      NoneConfused(steps, n - 1);
    }
  }

  lemma StartInv(s: State)
    requires s == EMPTY
    ensures Inv(s, {})
  {
  }

  lemma {:induction false} RunInv(states: seq<State>, steps: seq<Step>, n: nat)
    requires Run(states, steps) && n <= |steps|
    ensures Inv(states[n], ConfusedBy(steps, n))
  {
    hide Next, Inv, Confused;
    if n == 0 {
      StartInv(states[0]);
    } else {
      RunInv(states, steps, n - 1);
      NextInv(states[n - 1], steps[n - 1], states[n], ConfusedBy(steps, n - 1));
    }
  }

  /** In every interleaving, a stored document with no indexing pending, no replacement under way and no confused id
      sits in its bucket of every index. */
  lemma StoredIsIndexed(states: seq<State>, steps: seq<Step>, n: nat, ix: DocIndex, id: Id)
    requires Run(states, steps) && n <= |steps|
    requires ix in states[n].indexes && Due(states[n], ConfusedBy(steps, n), id)
    ensures ix.Holds(id, states[n].docs[id])
  {
    RunInv(states, steps, n);
  }

  /** A match that `find` must return: indexed, not confused, and not a zero of the wrong sign. */
  ghost predicate Findable(s: State, confused: set<Id>, filters: seq<Filter>, id: Id) {
    && id in ScannedIds(s.docs, filters) && s.docs[id] !in s.pending && id !in confused
    && !SignClash(s.docs[id], filters, s.indexes)
  }

  /** Whenever `find` can run, it returns only matches, and every match that is findable. */
  lemma FindBetween(states: seq<State>, steps: seq<Step>, n: nat, filters: seq<Filter>, candidates: Option<set<Id>>)
    requires Run(states, steps) && n <= |steps| && states[n].writer.NoWriter?
    requires CandidatesOf(filters, states[n].indexes, |filters|, candidates)
    ensures FoundIds(states[n].docs, filters, candidates) <= ScannedIds(states[n].docs, filters)
    ensures forall id | Findable(states[n], ConfusedBy(steps, n), filters, id) ::
        id in FoundIds(states[n].docs, filters, candidates)
  {
    var s, confused := states[n], ConfusedBy(steps, n);
    forall id | Findable(s, confused, filters, id) ensures id in FoundIds(s.docs, filters, candidates) {
      assert Due(s, confused, id);
      hide Get, KeyOf, Matches, FoundIds, SignClash, CandidatesOf, DocIndex.Holds, Run;
      forall ix | ix in s.indexes ensures ix.Holds(id, s.docs[id]) {
        assert ix in states[n].indexes;
        RunInv(states, steps, n);
      }
      HeldMatchFound(s.docs, s.indexes, filters, candidates, id);
    }
  }

  /** At rest, when updates carried their own ids and no match is a zero of the wrong sign, `find` is a full scan. */
  lemma FindAtRest(states: seq<State>, steps: seq<Step>, n: nat, filters: seq<Filter>, candidates: Option<set<Id>>)
    requires Run(states, steps) && n <= |steps| && states[n].writer.NoWriter? && states[n].pending == multiset{}
    requires CandidatesOf(filters, states[n].indexes, |filters|, candidates)
    requires forall k | 0 <= k < n && steps[k].BeginUpdate? :: steps[k].doc.id == steps[k].id
    requires forall id | id in ScannedIds(states[n].docs, filters) ::
        !SignClash(states[n].docs[id], filters, states[n].indexes)
    ensures FoundIds(states[n].docs, filters, candidates) == ScannedIds(states[n].docs, filters)
  {
    var s := states[n];
    NoneConfused(steps, n);
    FindBetween(states, steps, n, filters, candidates);
    hide ScannedIds, FoundIds, SignClash, CandidatesOf, Run;
    assert forall id | id in ScannedIds(s.docs, filters) :: Findable(s, {}, filters, id);
  }
}
