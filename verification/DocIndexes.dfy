/** Secondary indexes over documents and the candidate narrowing of `find`. */
module DocIndexes {
  import opened Common
  import opened Ieee
  import opened DocTypes

  datatype IndexType = Hash | BTree | FullText | Unique

  /** Hash-style contents of an index; the text side of a full-text index is not modelled. */
  datatype DocIndex = DocIndex(field: string, kind: IndexType, buckets: map<IndexKey, set<Id>>) {
    function Bucket(key: IndexKey): set<Id> {
      if key in buckets then buckets[key] else {}
    }

    function Add(doc: Document): DocIndex {
      var value := Get(doc, field);
      if kind.FullText? || value.None? then this
      else
        var key := KeyOf(value.value);
        this.(buckets := buckets[key := Bucket(key) + {doc.id}])
    }

    function Drop(doc: Document): DocIndex {
      var value := Get(doc, field);
      if kind.FullText? || value.None? then this
      else
        var key := KeyOf(value.value);
        if key !in buckets then this
        else
          var rest := buckets[key] - {doc.id};
          this.(buckets := if rest == {} then buckets - {key} else buckets[key := rest])
    }

    function Cleared(): DocIndex {
      this.(buckets := map[])
    }

    /** The id sits in the bucket of the document's key, if it has one here. */
    ghost predicate Holds(id: Id, doc: Document) {
      forall key | !kind.FullText? && HasKey(doc, field, key) :: id in Bucket(key)
    }

    /** Buckets list exactly the stored documents with that key. */
    ghost predicate Exact(docs: map<Id, Document>) {
      forall key, id {:trigger id in Bucket(key)} {:trigger HasKey(docs[id], field, key)} ::
        id in Bucket(key) <==> !kind.FullText? && id in docs && HasKey(docs[id], field, key)
    }
  }

  predicate HasKey(doc: Document, field: string, key: IndexKey) {
    Get(doc, field).Some? && KeyOf(Get(doc, field).value) == key
  }

  lemma AddBuckets(ix: DocIndex, doc: Document)
    ensures ix.Add(doc).field == ix.field && ix.Add(doc).kind == ix.kind
    ensures forall key, id :: id in ix.Add(doc).Bucket(key) <==>
                              id in ix.Bucket(key) || (id == doc.id && !ix.kind.FullText? && HasKey(doc, ix.field, key))
  {
  }

  lemma DropBuckets(ix: DocIndex, doc: Document)
    ensures ix.Drop(doc).field == ix.field && ix.Drop(doc).kind == ix.kind
    ensures forall key, id :: id in ix.Drop(doc).Bucket(key) <==>
                              id in ix.Bucket(key)
                                  && !(id == doc.id && !ix.kind.FullText? && HasKey(doc, ix.field, key))
  {
  }

  /** The index that `create_index` builds over the stored documents. */
  ghost predicate BuiltFrom(ix: DocIndex, field: string, kind: IndexType, docs: map<Id, Document>) {
    && ix.field == field && ix.kind == kind
    && forall key, id :: id in ix.Bucket(key) <==>
                         exists stored :: stored in docs && docs[stored].id == id && !kind.FullText?
                             && HasKey(docs[stored], field, key)
  }

  // ---------------------------------------------------------------------------
  // Candidates
  // ---------------------------------------------------------------------------

  predicate Usable(ix: DocIndex, field: string) {
    ix.field == field && !ix.kind.FullText?
  }

  /** The first hash-style index on a field. */
  function FirstUsable(indexes: seq<DocIndex>, field: string): (r: Option<DocIndex>)
    ensures r.Some? ==> r.value in indexes && Usable(r.value, field)
    ensures r.None? <==> forall ix | ix in indexes :: !Usable(ix, field)
  {
    if indexes == [] then None
    else if Usable(indexes[0], field) then Some(indexes[0])
    else
      assert indexes == [indexes[0]] + indexes[1..];
      FirstUsable(indexes[1..], field)
  }

  /** The filter at `i` is an equality answered by some index. */
  predicate Probes(filters: seq<Filter>, indexes: seq<DocIndex>, i: int) {
    0 <= i < |filters| && filters[i].Eq? && FirstUsable(indexes, filters[i].field).Some?
  }

  /** What that index answers. */
  function Probe(filters: seq<Filter>, indexes: seq<DocIndex>, i: int): set<Id>
    requires Probes(filters, indexes, i)
  {
    FirstUsable(indexes, filters[i].field).value.Bucket(KeyOf(filters[i].value))
  }

  /** The intersection of the answers of the first `n` filters; none when no index applies. */
  ghost predicate CandidatesOf(filters: seq<Filter>, indexes: seq<DocIndex>, n: int, r: Option<set<Id>>) {
    match r
    case None => forall i | 0 <= i < n :: !Probes(filters, indexes, i)
    case Some(ids) =>
      && (exists i :: 0 <= i < n && Probes(filters, indexes, i))
      && forall id :: id in ids <==>
                      forall i | 0 <= i < n && Probes(filters, indexes, i) :: id in Probe(filters, indexes, i)
  }

  method FindIndexedCandidates(filters: seq<Filter>, indexes: seq<DocIndex>) returns (r: Option<set<Id>>)
    ensures CandidatesOf(filters, indexes, |filters|, r)
  {
    r := None;
    for n := 0 to |filters|
      invariant CandidatesOf(filters, indexes, n, r)
    {
      if filters[n].Eq? {
        var index := FirstUsable(indexes, filters[n].field);
        if index.Some? {
          assert Probes(filters, indexes, n);
          var ids := index.value.Bucket(KeyOf(filters[n].value));
          assert ids == Probe(filters, indexes, n);
          r := Some(if r.Some? then r.value * ids else ids);
        }
      }
    }
  }

  /** The ids `find` returns: candidates still stored that match, or all stored that match. */
  ghost function FoundIds(docs: map<Id, Document>, filters: seq<Filter>, candidates: Option<set<Id>>): set<Id> {
    set id | id in docs && (candidates.Some? ==> id in candidates.value) && MatchesAll(filters, docs[id])
  }

  ghost function ScannedIds(docs: map<Id, Document>, filters: seq<Filter>): set<Id> {
    set id | id in docs && MatchesAll(filters, docs[id])
  }

  /** Several filters narrow, a disjunction joins, a negation complements. */
  lemma ScannedLaws(docs: map<Id, Document>, fs: seq<Filter>, f: Filter, g: Filter)
    ensures ScannedIds(docs, []) == docs.Keys
    ensures ScannedIds(docs, [f] + fs) == ScannedIds(docs, [f]) * ScannedIds(docs, fs)
    ensures ScannedIds(docs, [And(fs)]) == ScannedIds(docs, fs)
    ensures ScannedIds(docs, [Or([f, g])]) == ScannedIds(docs, [f]) + ScannedIds(docs, [g])
    ensures ScannedIds(docs, [Not(f)]) == docs.Keys - ScannedIds(docs, [f])
  {
    forall id | id in docs
      ensures MatchesAll([f] + fs, docs[id]) <==> MatchesAll([f], docs[id]) && MatchesAll(fs, docs[id])
      ensures MatchesAll([And(fs)], docs[id]) <==> MatchesAll(fs, docs[id])
      ensures MatchesAll([Or([f, g])], docs[id]) <==> MatchesAll([f], docs[id]) || MatchesAll([g], docs[id])
      ensures MatchesAll([Not(f)], docs[id]) <==> !MatchesAll([f], docs[id])
    {
      MatchesLaws(fs, f, g, docs[id]);
    }
    hide MatchesAll;
  }

  lemma One(f: Filter, doc: Document)
    ensures MatchesAll([f], doc) <==> Matches(f, doc)
  {
    assert [f][0] == f;
  }

  lemma MatchesLaws(fs: seq<Filter>, f: Filter, g: Filter, doc: Document)
    ensures MatchesAll([f] + fs, doc) <==> MatchesAll([f], doc) && MatchesAll(fs, doc)
    ensures MatchesAll([And(fs)], doc) <==> MatchesAll(fs, doc)
    ensures MatchesAll([Or([f, g])], doc) <==> MatchesAll([f], doc) || MatchesAll([g], doc)
    ensures MatchesAll([Not(f)], doc) <==> !MatchesAll([f], doc)
  {
    hide Matches, MatchesAll;
    One(f, doc);
    One(g, doc);
    One(And(fs), doc);
    One(Or([f, g]), doc);
    One(Not(f), doc);
    AndIs(f, fs, doc);
    AndIs(f, [f] + fs, doc);
    OrIs(f, [g], doc);
    OrIs(g, [], doc);
    NotIs("", Null, [], f, doc);
    assert [f] + [g] == [f, g] && [g] + [] == [g];
  }

  /** An indexed equality filter on a float zero whose sign differs from the document's. */
  ghost predicate SignClash(doc: Document, filters: seq<Filter>, indexes: seq<DocIndex>) {
    exists i :: Probes(filters, indexes, i) && Get(doc, filters[i].field).Some?
                && ZeroClash(Get(doc, filters[i].field).value, filters[i].value)
  }

  /** A matching document without a sign clash has, in every probed index, the key that is probed. */
  lemma MatchingHasProbedKey(doc: Document, filters: seq<Filter>, indexes: seq<DocIndex>, i: int)
    requires MatchesAll(filters, doc) && Probes(filters, indexes, i)
    ensures Get(doc, filters[i].field).Some?
    ensures HasKey(doc, filters[i].field, KeyOf(filters[i].value)) <==>
        !ZeroClash(Get(doc, filters[i].field).value, filters[i].value)
  {
    assert Matches(filters[i], doc);
    EqualValuesShareKey(Get(doc, filters[i].field).value, filters[i].value);
  }

  /** Whatever stale entries the indexes carry, a match that sits in its buckets is found unless its zero has the wrong
      sign. */
  lemma HeldMatchFound(docs: map<Id, Document>, indexes: seq<DocIndex>, filters: seq<Filter>,
      candidates: Option<set<Id>>, id: Id)
    requires CandidatesOf(filters, indexes, |filters|, candidates)
    requires id in ScannedIds(docs, filters) && forall ix | ix in indexes :: ix.Holds(id, docs[id])
    requires !SignClash(docs[id], filters, indexes)
    ensures id in FoundIds(docs, filters, candidates)
  {
    hide Get, Matches, KeyOf, ValueEq;
    forall i | Probes(filters, indexes, i) ensures id in Probe(filters, indexes, i) {
      MatchingHasProbedKey(docs[id], filters, indexes, i);
      var ix := FirstUsable(indexes, filters[i].field).value;
      assert ix.Holds(id, docs[id]);
      assert HasKey(docs[id], ix.field, KeyOf(filters[i].value));
    }
  }

  /** On exact indexes `find` misses precisely the matches whose zero has the wrong sign. */
  lemma ExactFind(docs: map<Id, Document>, indexes: seq<DocIndex>, filters: seq<Filter>, candidates: Option<set<Id>>)
    requires CandidatesOf(filters, indexes, |filters|, candidates)
    requires forall ix | ix in indexes :: ix.Exact(docs)
    ensures FoundIds(docs, filters, candidates)
            == set id | id in ScannedIds(docs, filters) && !SignClash(docs[id], filters, indexes)
  {
    hide Get, Matches, KeyOf, ValueEq;
    forall id | id in ScannedIds(docs, filters)
        ensures id in FoundIds(docs, filters, candidates) <==> !SignClash(docs[id], filters, indexes) {
      if !SignClash(docs[id], filters, indexes) {
        forall ix | ix in indexes ensures ix.Holds(id, docs[id]) {
          assert ix.Exact(docs);
        }
        HeldMatchFound(docs, indexes, filters, candidates, id);
      } else {
        var i :| Probes(filters, indexes, i) && Get(docs[id], filters[i].field).Some?
                 && ZeroClash(Get(docs[id], filters[i].field).value, filters[i].value);
        MatchingHasProbedKey(docs[id], filters, indexes, i);
        var ix := FirstUsable(indexes, filters[i].field).value;
        assert ix.Exact(docs);
        assert id !in Probe(filters, indexes, i);
      }
    }
  }

  /** An index on +0.0 hides a document holding -0.0 that a full scan would return. */
  lemma SignedZeroMissed(candidates: Option<set<Id>>)
    requires var ix := DocIndex("x", Hash, map[KFloat(NEG_ZERO) := {"d"}]);
             CandidatesOf([Eq("x", Float(0))], [ix], 1, candidates)
    ensures var docs := map["d" := Document("d", map["x" := Float(NEG_ZERO)])];
            var filters := [Eq("x", Float(0))];
            ScannedIds(docs, filters) == {"d"} && FoundIds(docs, filters, candidates) == {}
  {
    var ix := DocIndex("x", Hash, map[KFloat(NEG_ZERO) := {"d"}]);
    var filters := [Eq("x", Float(0))];
    var doc := Document("d", map["x" := Float(NEG_ZERO)]);
    assert Get(doc, "x") == Some(Float(NEG_ZERO));
    assert Matches(filters[0], doc);
    assert Probes(filters, [ix], 0) && Probe(filters, [ix], 0) == {};
  }
}
