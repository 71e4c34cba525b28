/** A full-text index of documents with external ids: upsert, delete, ranked search, snapshots. */
module FullText {
  import opened Common
  import opened Ranking
  import opened Metadata
  import opened Strings
  import opened Sums
  import opened InvertedIndex

  datatype StoredDoc<N> = StoredDoc(id: string, text: string, metadata: Json<N>, tokens: Tokens)

  /** A document as the caller sees it. */
  datatype FtsDocument<N> = FtsDocument(id: string, text: string, metadata: Json<N>)

  datatype SearchHit<N, F> = SearchHit(id: string, score: F, metadata: Json<N>)

  /** The live documents by external id. */
  type Contents<N> = map<string, FtsDocument<N>>

  // ---------------------------------------------------------------------------
  // Brute-force search
  // ---------------------------------------------------------------------------

  ghost function TokensOf<N>(tokenize: string -> Tokens, contents: Contents<N>): map<string, Tokens> {
    map id | id in contents :: tokenize(contents[id].text)
  }

  predicate Passes<N(==)>(metadata: Json<N>, filter: Json<N>) {
    HasFilter(filter) ==> MatchesFilter(metadata, filter)
  }

  /** Every live document scored directly, then filtered. */
  ghost function HitSet<N, F>(tokenize: string -> Tokens, bm: Bm25<F>, contents: Contents<N>, query: Tokens,
      filter: Json<N>)
    : set<SearchHit<N, F>>
  {
    var scores := Scores(bm, TokensOf(tokenize, contents), query);
    set id | id in scores && id in contents && Passes(contents[id].metadata, filter)
           :: SearchHit(id, scores[id], contents[id].metadata)
  }

  /** Higher score first, then smaller id. */
  function Better<N, F(==)>(bm: Bm25<F>): (SearchHit<N, F>, SearchHit<N, F>) -> bool {
    (a: SearchHit<N, F>, b: SearchHit<N, F>) => bm.less(b.score, a.score)
        || (a.score == b.score && StringLess(a.id, b.id))
  }

  /** The float comparison is a strict total order, as `total_cmp` is. */
  ghost predicate Lawful<F(!new)>(bm: Bm25<F>) {
    && (forall x: F :: !bm.less(x, x))
    && (forall x: F, y: F :: x == y || bm.less(x, y) || bm.less(y, x))
    && (forall x: F, y: F, z: F | bm.less(x, y) && bm.less(y, z) :: bm.less(x, z))
  }

  lemma BetterOrders<N, F(!new)>(bm: Bm25<F>, s: set<SearchHit<N, F>>)
    requires Lawful(bm)
    requires forall a, b | a in s && b in s && a.id == b.id :: a == b
    ensures StrictOrderOn(Better<N, F>(bm), s)
  {
    var better := Better<N, F>(bm);
    forall a | a in s ensures !better(a, a) {
      StringIrreflexive(a.id);
    }
    forall a, b | a in s && b in s && a != b ensures better(a, b) || better(b, a) {
      StringTrichotomy(a.id, b.id);
    }
    forall a, b, c | a in s && b in s && c in s && better(a, b) && better(b, c) ensures better(a, c) {
      if StringLess(a.id, b.id) && StringLess(b.id, c.id) {
        StringTransitive(a.id, b.id, c.id);
      }
    }
  }

  lemma HitsOrdered<N, F(!new)>(tokenize: string -> Tokens, bm: Bm25<F>, contents: Contents<N>, query: Tokens,
      filter: Json<N>)
    requires Lawful(bm)
    ensures StrictOrderOn(Better<N, F>(bm), HitSet(tokenize, bm, contents, query, filter))
  {
    BetterOrders(bm, HitSet(tokenize, bm, contents, query, filter));
  }

  /** The answer to a search, as a function of the live documents alone. */
  ghost function SearchSpec<N, F(!new)>(tokenize: string -> Tokens, bm: Bm25<F>, contents: Contents<N>,
      query: Tokens, k: nat, filter: Json<N>): seq<SearchHit<N, F>>
    requires Lawful(bm)
  {
    HitsOrdered(tokenize, bm, contents, query, filter);
    var ranking := Ranked(Better<N, F>(bm), HitSet(tokenize, bm, contents, query, filter));
    ranking[..Min(k, |ranking|)]
  }

  /** A live document that the query scores and the filter passes, with its score. */
  ghost predicate Qualifies<N, F>(tokenize: string -> Tokens, bm: Bm25<F>, contents: Contents<N>, query: Tokens,
      filter: Json<N>, h: SearchHit<N, F>)
  {
    var scores := Scores(bm, TokensOf(tokenize, contents), query);
    && h.id in contents && h.id in scores && h.score == scores[h.id] && h.metadata == contents[h.id].metadata
    && (HasFilter(filter) ==> MatchesFilter(h.metadata, filter))
  }

  /** Scores do not increase along the list, and equal scores come by ascending id. */
  ghost predicate BestFirst<N, F>(bm: Bm25<F>, hits: seq<SearchHit<N, F>>) {
    forall i, j | 0 <= i < j < |hits| ::
      && !bm.less(hits[i].score, hits[j].score)
      && (hits[i].score == hits[j].score ==> StringLess(hits[i].id, hits[j].id))
  }

  /** What qualifies is in the list, or the list is full of hits that are at least as good. */
  ghost predicate NoneBetter<N, F>(bm: Bm25<F>, hits: seq<SearchHit<N, F>>, k: nat, h: SearchHit<N, F>) {
    || h in hits
    || (|hits| == k && forall i | 0 <= i < |hits| ::
          && !bm.less(hits[i].score, h.score)
          && (hits[i].score == h.score ==> StringLess(hits[i].id, h.id)))
  }

  lemma BetterIs<N, F(!new)>(bm: Bm25<F>, a: SearchHit<N, F>, b: SearchHit<N, F>)
    requires Lawful(bm) && Better<N, F>(bm)(a, b)
    ensures !bm.less(a.score, b.score) && (a.score == b.score ==> StringLess(a.id, b.id))
  {
  }

  lemma HitsQualify<N, F>(tokenize: string -> Tokens, bm: Bm25<F>, contents: Contents<N>, query: Tokens,
      filter: Json<N>, h: SearchHit<N, F>)
    ensures h in HitSet(tokenize, bm, contents, query, filter) <==> Qualifies(tokenize, bm, contents, query, filter, h)
  {
    hide Scores, TokensOf;
  }

  /** The first `k` of a ranking, told without it. */
  lemma RankedAnswers<N, F(!new)>(bm: Bm25<F>, ranking: seq<SearchHit<N, F>>, all: set<SearchHit<N, F>>, k: nat)
    requires Lawful(bm) && IsRanking(Better<N, F>(bm), ranking, all)
    ensures var hits := ranking[..Min(k, |ranking|)];
            |hits| <= k && BestFirst(bm, hits) && (forall h | h in hits :: h in all) && forall h | h in all ::
                NoneBetter(bm, hits, k, h)
  {
    var hits := ranking[..Min(k, |ranking|)];
    assert forall h | h in ranking :: h in Elements(ranking);
    hide Lawful;
    forall i, j | 0 <= i < j < |ranking|
      ensures !bm.less(ranking[i].score, ranking[j].score)
      ensures ranking[i].score == ranking[j].score ==> StringLess(ranking[i].id, ranking[j].id)
    {
      BetterIs(bm, ranking[i], ranking[j]);
    }
    hide Better, StringLess;
    forall h | h in all ensures NoneBetter(bm, hits, k, h) {
      assert h in Elements(ranking);
      var j :| 0 <= j < |ranking| && ranking[j] == h;
      if j < |hits| {
        assert hits[j] == h;
      }
    }
  }

  /** A search returns at most `k` qualifying documents, best first, and leaves out none that is better. */
  lemma SearchAnswers<N, F(!new)>(tokenize: string -> Tokens, bm: Bm25<F>, contents: Contents<N>, query: Tokens,
      k: nat, filter: Json<N>)
    requires Lawful(bm)
    ensures var hits := SearchSpec(tokenize, bm, contents, query, k, filter);
            && |hits| <= k && BestFirst(bm, hits)
            && (forall h | h in hits :: Qualifies(tokenize, bm, contents, query, filter, h))
            && (forall h | h in HitSet(tokenize, bm, contents, query, filter) :: NoneBetter(bm, hits, k, h))
  {
    var all := HitSet(tokenize, bm, contents, query, filter);
    HitsOrdered(tokenize, bm, contents, query, filter);
    forall h | h in all ensures Qualifies(tokenize, bm, contents, query, filter, h) {
      HitsQualify(tokenize, bm, contents, query, filter, h);
    }
    hide HitSet, Qualifies, Better, StrictOrderOn, IsRanking, BestFirst, NoneBetter, Lawful;
    RankedAnswers(bm, Ranked(Better<N, F>(bm), all), all, k);
  }

  // ---------------------------------------------------------------------------
  // Internal numbering does not matter
  // ---------------------------------------------------------------------------

  /** `b` is `a` with its keys renamed one-to-one by `f`. */
  ghost predicate Renaming<J, K>(f: map<J, K>, a: map<J, Tokens>, b: map<K, Tokens>) {
    && Injective(f) && a.Keys == f.Keys && b.Keys == f.Values
    && forall j | j in f :: f[j] in b && a[j] == b[f[j]]
  }

  lemma RenamedContribution<J, K, F>(f: map<J, K>, a: map<J, Tokens>, b: map<K, Tokens>, bm: Bm25<F>, j: J,
      term: string)
    requires Renaming(f, a, b) && j in f
    ensures Contribution(bm, a, j, term) == Contribution(bm, b, f[j], term)
  {
    var la, lb := Lengths(a), Lengths(b);
    Renamed(f, la, lb);
    assert la.Keys == a.Keys && lb.Keys == b.Keys;
    assert |a| == |la| && |b| == |lb|;
    var s, t := Containing(a, term), Containing(b, term);
    assert t == set i | i in s :: f[i];
    RenamedCount(f, s, t);
  }

  lemma {:induction false} RenamedScore<J, K, F>(f: map<J, K>, a: map<J, Tokens>, b: map<K, Tokens>, bm: Bm25<F>, j: J,
      terms: Tokens)
    requires Renaming(f, a, b) && j in f
    ensures DirectScore(bm, a, j, terms) == DirectScore(bm, b, f[j], terms)
  {
    if terms != [] {
      var n := |terms| - 1;
      RenamedScore(f, a, b, bm, j, terms[..n]);
      RenamedContribution(f, a, b, bm, j, terms[n]);
    }
  }

  lemma RenamedScores<J, K, F>(f: map<J, K>, a: map<J, Tokens>, b: map<K, Tokens>, bm: Bm25<F>, query: Tokens)
    requires Renaming(f, a, b)
    ensures forall j | j in f ::
              && (j in Scores(bm, a, query) <==> f[j] in Scores(bm, b, query))
              && (j in Scores(bm, a, query) ==> Scores(bm, a, query)[j] == Scores(bm, b, query)[f[j]])
  {
    var la, lb := Lengths(a), Lengths(b);
    Renamed(f, la, lb);
    assert la.Keys == a.Keys && lb.Keys == b.Keys;
    assert |a| == |la| && |b| == |lb|;
    hide SumOf, DirectScore, Touched;
    forall j | j in f ensures DirectScore(bm, a, j, Distinct(query)) == DirectScore(bm, b, f[j], Distinct(query)) {
      RenamedScore(f, a, b, bm, j, Distinct(query));
    }
  }

  // ---------------------------------------------------------------------------
  // The index
  // ---------------------------------------------------------------------------

  function LiveTokens<N>(docs: seq<Option<StoredDoc<N>>>): Corpus {
    map d: nat | d < |docs| && docs[d].Some? :: docs[d].value.tokens
  }

  /** External ids and live slots correspond one-to-one, and every slot keeps the tokens of its text. */
  ghost predicate Stored<N>(tokenize: string -> Tokens, idToDoc: map<string, nat>, docs: seq<Option<StoredDoc<N>>>) {
    && (forall id | id in idToDoc ::
        idToDoc[id] < |docs| && docs[idToDoc[id]].Some? && docs[idToDoc[id]].value.id == id)
    && (forall d: nat | d < |docs| && docs[d].Some? ::
          && docs[d].value.id in idToDoc && idToDoc[docs[d].value.id] == d
          && docs[d].value.tokens == tokenize(docs[d].value.text))
  }

  ghost function ContentsOf<N>(idToDoc: map<string, nat>, docs: seq<Option<StoredDoc<N>>>): Contents<N>
    requires forall id | id in idToDoc :: idToDoc[id] < |docs| && docs[idToDoc[id]].Some?
  {
    map id | id in idToDoc :: FtsDocument(id, docs[idToDoc[id]].value.text, docs[idToDoc[id]].value.metadata)
  }

  lemma ForgetSlot<N>(tokenize: string -> Tokens, idToDoc: map<string, nat>, docs: seq<Option<StoredDoc<N>>>,
      id: string)
    requires Stored(tokenize, idToDoc, docs) && id in idToDoc
    ensures Stored(tokenize, idToDoc - {id}, docs[idToDoc[id] := None])
    ensures ContentsOf(idToDoc - {id}, docs[idToDoc[id] := None]) == ContentsOf(idToDoc, docs) - {id}
    ensures LiveTokens(docs[idToDoc[id] := None]) == LiveTokens(docs) - {idToDoc[id]}
  {
  }

  lemma StoredMore<N>(tokenize: string -> Tokens, idToDoc: map<string, nat>, docs: seq<Option<StoredDoc<N>>>,
      doc: StoredDoc<N>, d: nat)
    requires Stored(tokenize, idToDoc, docs) && doc.id !in idToDoc && d == |docs| && doc.tokens == tokenize(doc.text)
    ensures Stored(tokenize, idToDoc[doc.id := d], docs + [Some(doc)])
  {
  }

  lemma LiveMore<N>(docs: seq<Option<StoredDoc<N>>>, doc: StoredDoc<N>, d: nat)
    requires d == |docs|
    ensures d !in LiveTokens(docs) && LiveTokens(docs + [Some(doc)]) == LiveTokens(docs)[d := doc.tokens]
  {
  }

  lemma AddSlot<N>(tokenize: string -> Tokens, idToDoc: map<string, nat>, docs: seq<Option<StoredDoc<N>>>,
      doc: StoredDoc<N>, d: nat)
    requires Stored(tokenize, idToDoc, docs) && doc.id !in idToDoc && d == |docs| && doc.tokens == tokenize(doc.text)
    ensures Stored(tokenize, idToDoc[doc.id := d], docs + [Some(doc)])
    ensures ContentsOf(idToDoc[doc.id := d], docs + [Some(doc)])
            == ContentsOf(idToDoc, docs)[doc.id := FtsDocument(doc.id, doc.text, doc.metadata)]
    ensures d !in LiveTokens(docs) && LiveTokens(docs + [Some(doc)]) == LiveTokens(docs)[d := doc.tokens]
  {
    StoredMore(tokenize, idToDoc, docs, doc, d);
    hide LiveTokens;
    LiveMore(docs, doc, d);
  }

  lemma Unchanged<K, V>(m: map<K, V>, k: K)
    requires k !in m
    ensures m - {k} == m
  {
  }

  /** Ids to slots is a renaming from the caller's view of the tokens to the inverted index's. */
  lemma SlotsRename<N>(tokenize: string -> Tokens, idToDoc: map<string, nat>, docs: seq<Option<StoredDoc<N>>>)
    requires Stored(tokenize, idToDoc, docs)
    ensures Renaming(idToDoc, TokensOf(tokenize, ContentsOf(idToDoc, docs)), LiveTokens(docs))
  {
    forall d ensures d in LiveTokens(docs) <==> d in idToDoc.Values {
      if d in LiveTokens(docs) {
        assert idToDoc[docs[d].value.id] == d;
      }
    }
  }

  class FtsIndex<N(==)> {
    const tokenize: string -> Tokens
    const inverted: InvertedIndex
    var idToDoc: map<string, nat>
    var docs: seq<Option<StoredDoc<N>>>

    ghost predicate Valid()
      reads this, inverted
    {
      && inverted.Valid()
      && inverted.corpus == LiveTokens(docs)
      && Stored(tokenize, idToDoc, docs)
    }

    ghost function Contents(): Contents<N>
      requires Valid()
      reads this, inverted
    {
      ContentsOf(idToDoc, docs)
    }

    constructor (tokenizer: string -> Tokens)
      ensures Valid() && fresh(inverted) && tokenize == tokenizer && Contents() == map[]
    {
      tokenize := tokenizer;
      inverted := new InvertedIndex();
      idToDoc := map[];
      docs := [];
    }

    /** Empties the slot behind an id and takes its tokens out of the inverted index. */
    method Forget(id: string)
      requires Valid() && id in idToDoc
      modifies this`docs, inverted
      ensures inverted.Valid() && inverted.corpus == LiveTokens(docs)
      ensures Stored(tokenize, idToDoc - {id}, docs)
      ensures ContentsOf(idToDoc - {id}, docs) == old(ContentsOf(idToDoc, docs)) - {id}
    {
      var slot := idToDoc[id];
      ForgetSlot(tokenize, idToDoc, docs, id);
      if docs[slot].Some? {
        hide Reflects;
        inverted.Remove(slot, docs[slot].value.tokens);
      }
      docs := docs[slot := None];
      hide Stored, ContentsOf, LiveTokens, Reflects;
    }

    method Upsert(id: string, text: string, metadata: Json<N>)
      requires Valid()
      modifies this, inverted
      ensures Valid()
      ensures Contents() == old(Contents())[id := FtsDocument(id, text, metadata)]
    {
      hide Reflects;
      ghost var was := Contents();
      if id in idToDoc {
        Forget(id);
      } else {
        Unchanged(idToDoc, id);
        Unchanged(was, id);
      }
      Place(id, text, metadata);
      Reput(was, id, FtsDocument(id, text, metadata));
    }

    /** Adds a document in a new slot; the id's previous slot, if any, is already empty. */
    method Place(id: string, text: string, metadata: Json<N>)
      requires inverted.Valid() && inverted.corpus == LiveTokens(docs) && Stored(tokenize, idToDoc - {id}, docs)
      modifies this, inverted
      ensures Valid()
      ensures Contents() == old(ContentsOf(idToDoc - {id}, docs))[id := FtsDocument(id, text, metadata)]
    {
      hide Reflects;
      var tokens := tokenize(text);
      var doc := |docs|;
      var stored := StoredDoc(id, text, metadata, tokens);
      AddSlot(tokenize, idToDoc - {id}, docs, stored, doc);
      Reput(idToDoc, id, doc);
      hide Stored, ContentsOf, LiveTokens;
      inverted.Add(doc, tokens);
      docs := docs + [Some(stored)];
      idToDoc := idToDoc[id := doc];
      assert Stored(tokenize, idToDoc, docs);
      assert inverted.Valid() && inverted.corpus == LiveTokens(docs);
    }

    method Delete(id: string) returns (found: bool)
      requires Valid()
      modifies this, inverted
      ensures Valid()
      ensures found <==> id in old(Contents())
      ensures Contents() == old(Contents()) - {id}
    {
      hide Reflects;
      found := id in idToDoc;
      if found {
        Forget(id);
        idToDoc := idToDoc - {id};
      } else {
        Unchanged(Contents(), id);
      }
    }

    /** The scored documents that pass the filter, in whatever order the score table yields them. */
    method Collect<F(==)>(scores: map<DocNo, F>, filter: Json<N>) returns (hits: seq<SearchHit<N, F>>)
      requires Valid()
      ensures NoDuplicates(hits)
      ensures forall h :: h in hits <==> FromSlot(docs, scores, scores.Keys, filter, h)
    {
      hide Reflects, MatchesFilter, HasFilter;
      var hasFilter := HasFilter(filter);
      var todo := scores.Keys;
      hits := [];
      while todo != {}
        invariant todo <= scores.Keys && NoDuplicates(hits)
        invariant forall h :: h in hits <==> FromSlot(docs, scores, scores.Keys - todo, filter, h)
      {
        var doc :| doc in todo;
        var rest := todo - {doc};
        assert scores.Keys - rest == scores.Keys - todo + {doc};
        if doc < |docs| && docs[doc].Some? && (!hasFilter || MatchesFilter(docs[doc].value.metadata, filter)) {
          var hit := SearchHit(docs[doc].value.id, scores[doc], docs[doc].value.metadata);
          NewHit(tokenize, idToDoc, docs, scores, scores.Keys - todo, filter, doc, hit);
          hits := hits + [hit];
        }
        todo := rest;
      }
      assert scores.Keys - todo == scores.Keys;
    }

    /** Ranked search; the result is a function of the live documents, whatever their internal numbering. */
    method Search<F(==, !new)>(bm: Bm25<F>, query: string, k: nat, filter: Json<N>) returns (hits: seq<SearchHit<N, F>>)
      requires Valid() && Lawful(bm)
      ensures hits == SearchSpec(tokenize, bm, Contents(), tokenize(query), k, filter)
      ensures |hits| <= k && BestFirst(bm, hits)
      ensures forall h | h in hits :: Qualifies(tokenize, bm, Contents(), tokenize(query), filter, h)
      ensures forall h: SearchHit<N, F> | Qualifies(tokenize, bm, Contents(), tokenize(query), filter, h) ::
                NoneBetter(bm, hits, k, h)
    {
      hits := RankedSearch(bm, query, k, filter);
      hide Reflects, Lawful, Stored, HitSet, Scores, Qualifies, NoneBetter, BestFirst, SearchSpec;
      SearchAnswers(tokenize, bm, Contents(), tokenize(query), k, filter);
      forall h: SearchHit<N, F> | Qualifies(tokenize, bm, Contents(), tokenize(query), filter, h)
        ensures NoneBetter(bm, hits, k, h)
      {
        HitsQualify(tokenize, bm, Contents(), tokenize(query), filter, h);
      }
    }

    method RankedSearch<F(==, !new)>(bm: Bm25<F>, query: string, k: nat, filter: Json<N>)
      returns (hits: seq<SearchHit<N, F>>)
      requires Valid() && Lawful(bm)
      ensures hits == SearchSpec(tokenize, bm, Contents(), tokenize(query), k, filter)
    {
      hide Reflects, Lawful, FromSlot, Stored, HitSet, Scores, StrictOrderOn;
      var tokens := tokenize(query);
      var scores := inverted.Score(bm, tokens);
      hits := Collect(scores, filter);
      SlotHits(tokenize, bm, idToDoc, docs, tokens, filter, hits);
      HitsOrdered(tokenize, bm, Contents(), tokens, filter);
      SortByRanks(Better(bm), hits);
      hits := SortBy(Better(bm), hits);
      hits := hits[..Min(k, |hits|)];
    }

    /** The live documents in slot order. */
    method Documents() returns (list: seq<FtsDocument<N>>)
      requires Valid()
      ensures forall i, j | 0 <= i < j < |list| :: list[i].id != list[j].id
      ensures forall d :: d in list <==> d.id in Contents() && Contents()[d.id] == d
    {
      ghost var contents := Contents();
      list := [];
      hide Reflects;
      ListedNone(idToDoc, contents);
      for i := 0 to |docs|
        invariant ListedBelow(idToDoc, contents, i, list)
      {
        if docs[i].Some? {
          var d := docs[i].value;
          ListedMore(tokenize, idToDoc, docs, i, list);
          list := list + [FtsDocument(d.id, d.text, d.metadata)];
        } else {
          ListedSame(tokenize, idToDoc, docs, i, list);
        }
      }
    }
  }

  /** The list has each document in a slot below `n`, once. */
  ghost predicate ListedBelow<N>(idToDoc: map<string, nat>, contents: Contents<N>, n: nat, list: seq<FtsDocument<N>>) {
    && (forall i, j | 0 <= i < j < |list| :: list[i].id != list[j].id)
    && (forall d | d in list :: d.id in idToDoc && idToDoc[d.id] < n && d.id in contents && contents[d.id] == d)
    && (forall id | id in idToDoc && idToDoc[id] < n && id in contents :: contents[id] in list)
  }

  lemma ListedNone<N>(idToDoc: map<string, nat>, contents: Contents<N>)
    ensures ListedBelow(idToDoc, contents, 0, [])
  {
  }

  lemma ListedMore<N>(tokenize: string -> Tokens, idToDoc: map<string, nat>, docs: seq<Option<StoredDoc<N>>>, n: nat,
      list: seq<FtsDocument<N>>)
    requires Stored(tokenize, idToDoc, docs) && n < |docs| && docs[n].Some?
        && ListedBelow(idToDoc, ContentsOf(idToDoc, docs), n, list)
    ensures var d := docs[n].value;
            ListedBelow(idToDoc, ContentsOf(idToDoc, docs), n + 1, list + [FtsDocument(d.id, d.text, d.metadata)])
  {
    var d := docs[n].value;
    var next := FtsDocument(d.id, d.text, d.metadata);
    assert idToDoc[d.id] == n && ContentsOf(idToDoc, docs)[d.id] == next;
    assert forall j | 0 <= j < |list| :: list[j] in list;
    assert forall id | id in idToDoc && idToDoc[id] == n :: id == d.id;
  }

  lemma ListedSame<N>(tokenize: string -> Tokens, idToDoc: map<string, nat>, docs: seq<Option<StoredDoc<N>>>, n: nat,
      list: seq<FtsDocument<N>>)
    requires Stored(tokenize, idToDoc, docs) && n < |docs| && docs[n].None?
        && ListedBelow(idToDoc, ContentsOf(idToDoc, docs), n, list)
    ensures ListedBelow(idToDoc, ContentsOf(idToDoc, docs), n + 1, list)
  {
    assert forall id | id in idToDoc :: idToDoc[id] != n;
  }

  /** The hit comes from one of the given slots. */
  ghost predicate FromSlot<N, F>(docs: seq<Option<StoredDoc<N>>>, scores: map<DocNo, F>, slots: set<DocNo>,
      filter: Json<N>, h: SearchHit<N, F>) {
    exists d :: d in slots && d in scores && d < |docs| && docs[d].Some? && Passes(docs[d].value.metadata, filter)
                && h == SearchHit(docs[d].value.id, scores[d], docs[d].value.metadata)
  }

  lemma NewHit<N, F>(tokenize: string -> Tokens, idToDoc: map<string, nat>, docs: seq<Option<StoredDoc<N>>>,
      scores: map<DocNo, F>,
      slots: set<DocNo>, filter: Json<N>, doc: DocNo, hit: SearchHit<N, F>)
    requires Stored(tokenize, idToDoc, docs) && doc !in slots && doc in scores && doc < |docs| && docs[doc].Some?
    requires Passes(docs[doc].value.metadata, filter)
        && hit == SearchHit(docs[doc].value.id, scores[doc], docs[doc].value.metadata)
    ensures !FromSlot(docs, scores, slots, filter, hit)
    ensures forall h :: FromSlot(docs, scores, slots + {doc}, filter, h) <==>
        FromSlot(docs, scores, slots, filter, h) || h == hit
  {
    forall d | d in slots && d < |docs| && docs[d].Some? ensures docs[d].value.id != hit.id {
      assert idToDoc[docs[d].value.id] == d && idToDoc[docs[doc].value.id] == doc;
    }
    assert FromSlot(docs, scores, slots + {doc}, filter, hit);
    forall h | FromSlot(docs, scores, slots, filter, h) ensures FromSlot(docs, scores, slots + {doc}, filter, h) {
    }
  }

  lemma SlotHits<N, F>(tokenize: string -> Tokens, bm: Bm25<F>, idToDoc: map<string, nat>,
      docs: seq<Option<StoredDoc<N>>>,
      query: Tokens, filter: Json<N>, hits: seq<SearchHit<N, F>>)
    requires Stored(tokenize, idToDoc, docs)
    requires var scores := Scores(bm, LiveTokens(docs), query);
             forall h :: h in hits <==> FromSlot(docs, scores, scores.Keys, filter, h)
    ensures Elements(hits) == HitSet(tokenize, bm, ContentsOf(idToDoc, docs), query, filter)
  {
    var contents := ContentsOf(idToDoc, docs);
    SlotsRename(tokenize, idToDoc, docs);
    RenamedScores(idToDoc, TokensOf(tokenize, contents), LiveTokens(docs), bm, query);
    hide Scores, LiveTokens, Passes;
    var scores, direct := Scores(bm, LiveTokens(docs), query), Scores(bm, TokensOf(tokenize, contents), query);
    var target := HitSet(tokenize, bm, contents, query, filter);
    forall h | h in hits ensures h in target {
      var d :| d in scores && d < |docs| && docs[d].Some? && Passes(docs[d].value.metadata, filter)
               && h == SearchHit(docs[d].value.id, scores[d], docs[d].value.metadata);
      assert idToDoc[h.id] == d && h.id in contents;
    }
    forall h | h in target ensures h in hits {
      var d := idToDoc[h.id];
      assert d in scores && FromSlot(docs, scores, scores.Keys, filter, h);
    }
  }

  /** The documents of a list by id; of several with one id the last counts. */
  function LastOf<N>(list: seq<FtsDocument<N>>): Contents<N> {
    if list == [] then map[] else LastOf(list[..|list| - 1])[list[|list| - 1].id := list[|list| - 1]]
  }

  lemma {:induction false} LastOfDistinct<N>(list: seq<FtsDocument<N>>)
    requires forall i, j | 0 <= i < j < |list| :: list[i].id != list[j].id
    ensures forall d :: d in list <==> d.id in LastOf(list) && LastOf(list)[d.id] == d
  {
    if list != [] {
      var init, last := list[..|list| - 1], list[|list| - 1];
      LastOfDistinct(init);
      assert list == init + [last];
      forall d ensures d in list <==> d.id in LastOf(list) && LastOf(list)[d.id] == d {
        assert d in list <==> d in init || d == last;
        assert d in init ==> d.id != last.id;
      }
    }
  }

  lemma {:induction false} LastOfIds<N>(list: seq<FtsDocument<N>>)
    ensures forall id | id in LastOf(list) :: LastOf(list)[id].id == id
  {
    if list != [] {
      LastOfIds(list[..|list| - 1]);
    }
  }

  /** Loads a snapshot into a new index: documents are renumbered; of several with one id the last is kept. */
  method LoadDocuments<N(==)>(tokenize: string -> Tokens, list: seq<FtsDocument<N>>) returns (index: FtsIndex<N>)
    ensures fresh(index) && fresh(index.inverted) && index.tokenize == tokenize && index.Valid()
    ensures index.Contents() == LastOf(list)
  {
    hide Reflects, Stored;
    index := new FtsIndex(tokenize);
    assert list[..0] == [];
    for i := 0 to |list|
      invariant fresh(index) && fresh(index.inverted) && index.tokenize == tokenize && index.Valid()
      invariant index.Contents() == LastOf(list[..i])
    {
      assert list[..i + 1][..i] == list[..i];
      index.Upsert(list[i].id, list[i].text, list[i].metadata);
    }
    assert list[..|list|] == list;
  }

  lemma SameContents<N>(a: Contents<N>, b: Contents<N>)
    requires (forall id | id in a :: a[id].id == id) && (forall id | id in b :: b[id].id == id)
    requires forall d: FtsDocument<N> :: (d.id in a && a[d.id] == d) <==> (d.id in b && b[d.id] == d)
    ensures a == b
  {
    forall id | id in a ensures id in b && b[id] == a[id] {
      assert a[id].id in a && a[a[id].id] == a[id];
    }
    forall id | id in b ensures id in a {
      assert b[id].id in b && b[b[id].id] == b[id];
    }
  }

  /** Saving and loading an index gives back the same contents, hence the same answer to every search. */
  method Reload<N(==)>(index: FtsIndex<N>) returns (copy: FtsIndex<N>)
    requires index.Valid()
    ensures fresh(copy) && copy.Valid() && copy.tokenize == index.tokenize
    ensures copy.Contents() == index.Contents()
  {
    var list := index.Documents();
    ghost var contents := index.Contents();
    assert forall id | id in contents :: contents[id].id == id;
    hide Reflects, Stored, ContentsOf, LiveTokens;
    LastOfDistinct(list);
    LastOfIds(list);
    SameContents(LastOf(list), contents);
    copy := LoadDocuments(index.tokenize, list);
  }
}
