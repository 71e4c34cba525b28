/** The inverted index: term frequencies per document, lengths, and BM25 scoring with abstract float arithmetic. */
module InvertedIndex {
  import opened Sums

  type DocNo = nat
  type Tokens = seq<string>

  /** The token lists of the indexed documents. */
  type Corpus = map<DocNo, Tokens>

  function Occurrences(tokens: Tokens, term: string): nat {
    multiset(tokens)[term]
  }

  function Lengths<K>(corpus: map<K, Tokens>): map<K, nat> {
    map d | d in corpus :: |corpus[d]|
  }

  function Frequency(postings: map<string, map<DocNo, nat>>, term: string, doc: DocNo): nat {
    if term in postings && doc in postings[term] then postings[term][doc] else 0
  }

  ghost predicate NoEmptyList(postings: map<string, map<DocNo, nat>>) {
    forall term | term in postings :: postings[term] != map[] && forall d | d in postings[term] :: postings[term][d] > 0
  }

  /** `postings[t][d]` is the number of occurrences of `t` in `d`, lengths and their total are exact, and no list is
      empty. */
  ghost predicate Reflects(postings: map<string, map<DocNo, nat>>, docLen: map<DocNo, nat>, totalLen: nat,
      corpus: Corpus) {
    && NoEmptyList(postings)
    && (forall term, d :: Frequency(postings, term, d) == if d in corpus then Occurrences(corpus[d], term) else 0)
    && docLen == Lengths(corpus)
    && totalLen == SumOf(docLen)
  }

  // ---------------------------------------------------------------------------
  // Maintenance
  // ---------------------------------------------------------------------------

  function Bump(postings: map<string, map<DocNo, nat>>, term: string, doc: DocNo): map<string, map<DocNo, nat>> {
    var list: map<DocNo, nat> := if term in postings then postings[term] else map[];
    postings[term := list[doc := (if doc in list then list[doc] else 0) + 1]]
  }

  lemma BumpFrequency(postings: map<string, map<DocNo, nat>>, term: string, doc: DocNo)
    requires NoEmptyList(postings)
    ensures NoEmptyList(Bump(postings, term, doc))
    ensures forall t, d :: Frequency(Bump(postings, term, doc), t, d)
                           == Frequency(postings, t, d) + (if t == term && d == doc then 1 else 0)
  {
    var after := Bump(postings, term, doc);
    assert doc in after[term];
  }

  function Cut(postings: map<string, map<DocNo, nat>>, term: string, doc: DocNo): map<string, map<DocNo, nat>> {
    if term !in postings then postings
    else
      var list := postings[term] - {doc};
      if list == map[] then postings - {term} else postings[term := list]
  }

  lemma CutFrequency(postings: map<string, map<DocNo, nat>>, term: string, doc: DocNo)
    requires NoEmptyList(postings)
    ensures NoEmptyList(Cut(postings, term, doc))
    ensures forall t, d :: Frequency(Cut(postings, term, doc), t, d)
                           == if t == term && d == doc then 0 else Frequency(postings, t, d)
  {
    var after := Cut(postings, term, doc);
    if term in postings {
      assert forall d | d in postings[term] && d != doc :: d in postings[term] - {doc};
    }
  }

  class InvertedIndex {
    var postings: map<string, map<DocNo, nat>>
    var docLen: map<DocNo, nat>
    var totalLen: nat
    ghost var corpus: Corpus

    ghost predicate Valid()
      reads this
    {
      Reflects(postings, docLen, totalLen, corpus)
    }

    constructor ()
      ensures Valid() && corpus == map[]
    {
      postings, docLen, totalLen, corpus := map[], map[], 0, map[];
    }

    /** Adds a document's tokens; right for a document number that is new or stands for no tokens. */
    method Add(doc: DocNo, tokens: Tokens)
      requires Valid()
      modifies this
      ensures NoEmptyList(postings) && Added(old(postings), postings, doc, tokens)
      ensures docLen == old(docLen)[doc := |tokens|] && totalLen == old(totalLen) + |tokens|
      ensures doc !in old(corpus) || old(corpus)[doc] == [] ==> Valid() && corpus == old(corpus)[doc := tokens]
    {
      ghost var before := postings;
      AddedNone(postings, doc, tokens);
      for i := 0 to |tokens|
        invariant NoEmptyList(postings) && Added(before, postings, doc, tokens[..i])
        invariant docLen == old(docLen) && totalLen == old(totalLen) && corpus == old(corpus)
      {
        hide NoEmptyList, Added, Bump, Reflects;
        AddedMore(before, postings, doc, tokens, i);
        postings := Bump(postings, tokens[i], doc);
      }
      assert tokens[..|tokens|] == tokens;
      AddedExactly(before, postings, docLen, totalLen, corpus, doc, tokens);
      hide Reflects, Added, NoEmptyList;
      totalLen := totalLen + |tokens|;
      docLen := docLen[doc := |tokens|];
      corpus := corpus[doc := tokens];
    }

    /** Removes a document by re-applying a token list; right for a list that has all its terms, and for an unknown
        document. */
    method Remove(doc: DocNo, tokens: Tokens)
      requires Valid()
      modifies this
      ensures doc !in old(corpus) ==> Valid() && corpus == old(corpus)
      ensures doc in old(corpus) ==>
                && NoEmptyList(postings) && Removed(old(postings), postings, doc, tokens)
                && docLen == old(docLen) - {doc} && totalLen == old(totalLen) - |old(corpus)[doc]|
      ensures doc in old(corpus) && (forall t | t in old(corpus)[doc] :: t in tokens) ==>
          Valid() && corpus == old(corpus) - {doc}
    {
      LengthsAre(postings, docLen, totalLen, corpus, doc);
      if doc !in docLen {
        return;
      }
      ghost var before := postings;
      RemovedNone(postings, doc, tokens);
      totalLen := totalLen - docLen[doc];
      docLen := docLen - {doc};
      var seen: set<string> := {};
      for i := 0 to |tokens|
        invariant NoEmptyList(postings) && Removed(before, postings, doc, tokens[..i])
        invariant seen == set j | 0 <= j < i :: tokens[j]
        invariant docLen == old(docLen) - {doc} && totalLen == old(totalLen) - old(docLen)[doc] && corpus == old(corpus)
      {
        hide NoEmptyList, Removed, Cut, Reflects;
        if tokens[i] !in seen {
          seen := seen + {tokens[i]};
          RemovedMore(before, postings, doc, tokens, i);
          postings := Cut(postings, tokens[i], doc);
        } else {
          RemovedAgain(before, postings, doc, tokens, i);
        }
      }
      assert tokens[..|tokens|] == tokens;
      RemovedExactly(before, postings, old(docLen), old(totalLen), corpus, doc, tokens);
      hide Reflects, Removed, NoEmptyList;
      corpus := corpus - {doc};
    }

    /** Scores every document that contains a query term; repeated terms count once. */
    method Score<F(==)>(bm: Bm25<F>, query: Tokens) returns (scores: map<DocNo, F>)
      requires Valid()
      ensures scores == Scores(bm, corpus, query)
    {
      scores := map[];
      if |docLen| == 0 || totalLen == 0 {
        return;
      }
      var seen: set<string> := {};
      for i := 0 to |query|
        invariant forall t :: t in seen <==> t in Distinct(query[..i])
        invariant scores == Scored(bm, corpus, Distinct(query[..i]))
      {
        DistinctStep(query, i);
        if query[i] !in seen {
          seen := seen + {query[i]};
          PostingKeys(postings, docLen, totalLen, corpus, query[i]);
          ScoredStep(bm, corpus, Distinct(query[..i]), query[i]);
          if query[i] in postings {
            scores := ScoreTerm(bm, query[i], scores);
          } else {
            AbsentTerm(bm, corpus, query[i], scores);
          }
        }
      }
      assert query[..|query|] == query;
    }

    method ScoreTerm<F(==)>(bm: Bm25<F>, term: string, scores: map<DocNo, F>) returns (out: map<DocNo, F>)
      requires Valid() && term in postings
      ensures out == WithTerm(bm, corpus, term, scores)
    {
      PostingKeys(postings, docLen, totalLen, corpus, term);
      var list := postings[term];
      var todo := list.Keys;
      out := scores;
      NoTermYet(bm, corpus, term, scores);
      assert list.Keys - todo == {};
      hide Reflects, WithTermOn, Containing;
      while todo != {}
        invariant todo <= list.Keys <= corpus.Keys
        invariant out == WithTermOn(bm, corpus, term, scores, list.Keys - todo)
      {
        var doc :| doc in todo;
        var length := if doc in docLen then docLen[doc] else 0;
        var was := if doc in out then out[doc] else bm.zero;
        var gain := bm.term(|docLen|, |list|, totalLen, length, list[doc]);
        GainIs(bm, postings, docLen, totalLen, corpus, term, doc);
        WithTermMore(bm, corpus, term, scores, list.Keys - todo, doc, was, gain);
        assert list.Keys - (todo - {doc}) == list.Keys - todo + {doc};
        out := out[doc := bm.add(was, gain)];
        todo := todo - {doc};
      }
      assert list.Keys - todo == list.Keys;
    }
  }

  lemma NoTermYet<K, F>(bm: Bm25<F>, corpus: map<K, Tokens>, term: string, scores: map<K, F>)
    ensures WithTermOn(bm, corpus, term, scores, {}) == scores
    ensures Containing(corpus, term) <= corpus.Keys
  {
  }

  /** What the posting list says of a document is its contribution. */
  lemma GainIs<F>(bm: Bm25<F>, postings: map<string, map<DocNo, nat>>, docLen: map<DocNo, nat>, totalLen: nat,
      corpus: Corpus,
      term: string, doc: DocNo)
    requires Reflects(postings, docLen, totalLen, corpus) && term in postings && doc in postings[term]
    ensures doc in docLen && doc in corpus
    ensures bm.term(|docLen|, |postings[term]|, totalLen, docLen[doc], postings[term][doc])
        == Contribution(bm, corpus, doc, term)
  {
    PostingKeys(postings, docLen, totalLen, corpus, term);
    hide SumOf;
    assert Frequency(postings, term, doc) == Occurrences(corpus[doc], term);
    assert docLen.Keys == corpus.Keys;
  }

  lemma WithTermMore<K, F>(bm: Bm25<F>, corpus: map<K, Tokens>, term: string, scores: map<K, F>, docs: set<K>, d: K,
      was: F, gain: F)
    requires docs <= corpus.Keys && d in corpus && d !in docs && gain == Contribution(bm, corpus, d, term)
    requires var now := WithTermOn(bm, corpus, term, scores, docs); was == if d in now then now[d] else bm.zero
    ensures WithTermOn(bm, corpus, term, scores, docs + {d})
        == WithTermOn(bm, corpus, term, scores, docs)[d := bm.add(was, gain)]
  {
    hide Contribution;
  }

  /** Every term of the list counts once more for the document. */
  ghost predicate Added(before: map<string, map<DocNo, nat>>, after: map<string, map<DocNo, nat>>, doc: DocNo,
      tokens: Tokens) {
    forall t, d :: Frequency(after, t, d) == Frequency(before, t, d) + (if d == doc then Occurrences(tokens, t) else 0)
  }

  lemma AddedNone(postings: map<string, map<DocNo, nat>>, doc: DocNo, tokens: Tokens)
    ensures Added(postings, postings, doc, tokens[..0])
  {
    hide Frequency;
    forall t ensures Occurrences(tokens[..0], t) == 0 {
      assert t !in tokens[..0];
    }
  }

  lemma OccurrencesMore(tokens: Tokens, i: nat, t: string)
    requires i < |tokens|
    ensures Occurrences(tokens[..i + 1], t) == Occurrences(tokens[..i], t) + (if t == tokens[i] then 1 else 0)
  {
    assert tokens[..i + 1] == tokens[..i] + [tokens[i]];
  }

  lemma AddedMore(before: map<string, map<DocNo, nat>>, postings: map<string, map<DocNo, nat>>, doc: DocNo,
      tokens: Tokens, i: nat)
    requires i < |tokens| && NoEmptyList(postings) && Added(before, postings, doc, tokens[..i])
    ensures NoEmptyList(Bump(postings, tokens[i], doc))
        && Added(before, Bump(postings, tokens[i], doc), doc, tokens[..i + 1])
  {
    BumpFrequency(postings, tokens[i], doc);
    hide Frequency, NoEmptyList, Bump, Occurrences;
    forall t ensures Occurrences(tokens[..i + 1], t)
        == Occurrences(tokens[..i], t) + (if t == tokens[i] then 1 else 0) {
      OccurrencesMore(tokens, i, t);
    }
  }

  /** No term of the list counts for the document any more. */
  ghost predicate Removed(before: map<string, map<DocNo, nat>>, after: map<string, map<DocNo, nat>>, doc: DocNo,
      tokens: Tokens) {
    forall t, d :: Frequency(after, t, d) == if d == doc && t in tokens then 0 else Frequency(before, t, d)
  }

  lemma RemovedNone(postings: map<string, map<DocNo, nat>>, doc: DocNo, tokens: Tokens)
    ensures Removed(postings, postings, doc, tokens[..0])
  {
  }

  lemma RemovedMore(before: map<string, map<DocNo, nat>>, postings: map<string, map<DocNo, nat>>, doc: DocNo,
      tokens: Tokens, i: nat)
    requires i < |tokens| && NoEmptyList(postings) && Removed(before, postings, doc, tokens[..i])
    ensures NoEmptyList(Cut(postings, tokens[i], doc))
        && Removed(before, Cut(postings, tokens[i], doc), doc, tokens[..i + 1])
  {
    CutFrequency(postings, tokens[i], doc);
    hide Frequency, NoEmptyList, Cut;
    assert tokens[..i + 1] == tokens[..i] + [tokens[i]];
  }

  lemma RemovedAgain(before: map<string, map<DocNo, nat>>, postings: map<string, map<DocNo, nat>>, doc: DocNo,
      tokens: Tokens, i: nat)
    requires i < |tokens| && Removed(before, postings, doc, tokens[..i])
    requires exists j :: 0 <= j < i && tokens[j] == tokens[i]
    ensures Removed(before, postings, doc, tokens[..i + 1])
  {
    hide Frequency;
    var j :| 0 <= j < i && tokens[j] == tokens[i];
    assert tokens[..i][j] == tokens[i];
    assert tokens[..i + 1] == tokens[..i] + [tokens[i]];
  }

  lemma LengthsAre(postings: map<string, map<DocNo, nat>>, docLen: map<DocNo, nat>, totalLen: nat, corpus: Corpus,
      doc: DocNo)
    requires Reflects(postings, docLen, totalLen, corpus)
    ensures doc in docLen <==> doc in corpus
    ensures doc in corpus ==>
        docLen[doc] == |corpus[doc]| && totalLen >= docLen[doc] && totalLen - docLen[doc] == SumOf(docLen - {doc})
  {
    hide SumOf;
    if doc in docLen {
      SumRemove(docLen, doc);
    }
  }

  lemma OccursIn(tokens: Tokens)
    ensures tokens != [] ==> Occurrences(tokens, tokens[0]) > 0
    ensures forall t :: t in tokens <==> Occurrences(tokens, t) > 0
  {
    assert tokens != [] ==> tokens[0] in tokens;
  }

  lemma LengthPut(corpus: Corpus, doc: DocNo, tokens: Tokens)
    ensures Lengths(corpus)[doc := |tokens|] == Lengths(corpus[doc := tokens])
    ensures doc !in corpus || corpus[doc] == [] ==>
        SumOf(Lengths(corpus[doc := tokens])) == SumOf(Lengths(corpus)) + |tokens|
  {
    var before, after := Lengths(corpus), Lengths(corpus[doc := tokens]);
    assert before[doc := |tokens|] == after;
    hide SumOf;
    SumRemove(after, doc);
    if doc in corpus {
      SumRemove(before, doc);
    } else {
      assert before - {doc} == before;
    }
    assert after - {doc} == before - {doc};
  }

  /** Adding a document is right if and only if its number is new, or stood for no tokens. */
  lemma AddedExactly(before: map<string, map<DocNo, nat>>, after: map<string, map<DocNo, nat>>, docLen: map<DocNo, nat>,
      totalLen: nat, corpus: Corpus, doc: DocNo, tokens: Tokens)
    requires Reflects(before, docLen, totalLen, corpus) && NoEmptyList(after) && Added(before, after, doc, tokens)
    ensures Reflects(after, docLen[doc := |tokens|], totalLen + |tokens|, corpus[doc := tokens])
            <==> doc !in corpus || corpus[doc] == []
  {
    hide SumOf, Lengths, NoEmptyList, Frequency;
    LengthPut(corpus, doc, tokens);
    if doc in corpus && corpus[doc] != [] {
      OccursIn(corpus[doc]);
      var t := corpus[doc][0];
      assert Frequency(after, t, doc) == Occurrences(corpus[doc], t) + Occurrences(tokens, t);
      assert Frequency(after, t, doc) != Occurrences(corpus[doc := tokens][doc], t);
    } else {
      AddedFrequencies(before, after, corpus, doc, tokens);
    }
  }

  lemma AddedFrequencies(before: map<string, map<DocNo, nat>>, after: map<string, map<DocNo, nat>>, corpus: Corpus,
      doc: DocNo, tokens: Tokens)
    requires forall t, d :: Frequency(before, t, d) == if d in corpus then Occurrences(corpus[d], t) else 0
    requires Added(before, after, doc, tokens) && (doc !in corpus || corpus[doc] == [])
    ensures forall t, d ::
        Frequency(after, t, d) == if d in corpus[doc := tokens] then Occurrences(corpus[doc := tokens][d], t) else 0
  {
    hide Frequency;
  }

  /** Removing a document is right if and only if the list has all its terms. */
  lemma RemovedExactly(before: map<string, map<DocNo, nat>>, after: map<string, map<DocNo, nat>>,
      docLen: map<DocNo, nat>,
      totalLen: nat, corpus: Corpus, doc: DocNo, tokens: Tokens)
    requires Reflects(before, docLen, totalLen, corpus) && doc in corpus && NoEmptyList(after)
        && Removed(before, after, doc, tokens)
    ensures doc in docLen && totalLen >= docLen[doc]
    ensures Reflects(after, docLen - {doc}, totalLen - docLen[doc], corpus - {doc}) <==>
            forall t | t in corpus[doc] :: t in tokens
  {
    LengthsAre(before, docLen, totalLen, corpus, doc);
    assert docLen - {doc} == Lengths(corpus - {doc});
    OccursIn(corpus[doc]);
    hide SumOf, Lengths, NoEmptyList, Frequency, Occurrences;
    if forall t | t in corpus[doc] :: t in tokens {
      RemovedFrequencies(before, after, corpus, doc, tokens);
    } else {
      var t :| t in corpus[doc] && t !in tokens;
      assert Frequency(after, t, doc) == Occurrences(corpus[doc], t) > 0;
    }
  }

  lemma RemovedFrequencies(before: map<string, map<DocNo, nat>>, after: map<string, map<DocNo, nat>>, corpus: Corpus,
      doc: DocNo, tokens: Tokens)
    requires forall t, d :: Frequency(before, t, d) == if d in corpus then Occurrences(corpus[d], t) else 0
    requires Removed(before, after, doc, tokens) && doc in corpus && forall t | t in corpus[doc] :: t in tokens
    ensures forall t, d ::
        Frequency(after, t, d) == if d in corpus - {doc} then Occurrences((corpus - {doc})[d], t) else 0
  {
    OccursIn(corpus[doc]);
    hide Frequency, Occurrences;
  }

  // ---------------------------------------------------------------------------
  // Scoring
  // ---------------------------------------------------------------------------

  /** Float arithmetic of the ranking: `term(n, df, total, length, tf)` is the contribution of one query term. */
  datatype Bm25<!F> = Bm25(zero: F, add: (F, F) -> F, term: (nat, nat, nat, nat, nat) -> F, less: (F, F) -> bool)

  /** First occurrences, in order. */
  function Distinct(terms: Tokens): Tokens {
    if terms == [] then []
    else
      var init := Distinct(terms[..|terms| - 1]);
      if terms[|terms| - 1] in init then init else init + [terms[|terms| - 1]]
  }

  lemma DistinctStep(terms: Tokens, i: nat)
    requires i < |terms|
    ensures var d := Distinct(terms[..i]);
            Distinct(terms[..i + 1]) == if terms[i] in d then d else d + [terms[i]]
  {
    assert terms[..i + 1][..i] == terms[..i];
  }

  ghost function Containing<K>(corpus: map<K, Tokens>, term: string): set<K> {
    set d | d in corpus && term in corpus[d]
  }

  /** What one term adds to a document's score, from the documents themselves. */
  ghost function Contribution<K, F>(bm: Bm25<F>, corpus: map<K, Tokens>, d: K, term: string): F
    requires d in corpus
  {
    bm.term(|corpus|, |Containing(corpus, term)|, SumOf(Lengths(corpus)), |corpus[d]|, Occurrences(corpus[d], term))
  }

  /** The score of one document: its terms added in query order. */
  ghost function DirectScore<K, F>(bm: Bm25<F>, corpus: map<K, Tokens>, d: K, terms: Tokens): F
    requires d in corpus
  {
    if terms == [] then bm.zero
    else
      var n := |terms| - 1;
      var init := DirectScore(bm, corpus, d, terms[..n]);
      if terms[n] in corpus[d] then bm.add(init, Contribution(bm, corpus, d, terms[n])) else init
  }

  ghost predicate Touched(tokens: Tokens, terms: Tokens) {
    exists i :: 0 <= i < |terms| && terms[i] in tokens
  }

  /** Every document that contains one of the terms, with its score. */
  ghost function Scored<K, F>(bm: Bm25<F>, corpus: map<K, Tokens>, terms: Tokens): map<K, F> {
    map d | d in corpus && Touched(corpus[d], terms) :: DirectScore(bm, corpus, d, terms)
  }

  /** Brute-force scoring of a query; an empty collection, or one without tokens, scores nothing. */
  ghost function Scores<K, F>(bm: Bm25<F>, corpus: map<K, Tokens>, query: Tokens): map<K, F> {
    if |corpus| == 0 || SumOf(Lengths(corpus)) == 0 then map[] else Scored(bm, corpus, Distinct(query))
  }

  ghost function WithTermOn<K, F>(bm: Bm25<F>, corpus: map<K, Tokens>, term: string, scores: map<K, F>,
      docs: set<K>): map<K, F>
    requires docs <= corpus.Keys
  {
    map d | d in scores.Keys + docs ::
      if d in docs then bm.add(if d in scores then scores[d] else bm.zero, Contribution(bm, corpus, d, term))
          else scores[d]
  }

  ghost function WithTerm<K, F>(bm: Bm25<F>, corpus: map<K, Tokens>, term: string, scores: map<K, F>): map<K, F> {
    WithTermOn(bm, corpus, term, scores, Containing(corpus, term))
  }

  lemma AbsentTerm<K, F>(bm: Bm25<F>, corpus: map<K, Tokens>, term: string, scores: map<K, F>)
    ensures Containing(corpus, term) == {} ==> WithTerm(bm, corpus, term, scores) == scores
  {
  }

  /** One more distinct term extends the brute-force scores as the inner loop does. */
  lemma ScoredStep<K, F>(bm: Bm25<F>, corpus: map<K, Tokens>, terms: Tokens, term: string)
    ensures Scored(bm, corpus, terms + [term]) == WithTerm(bm, corpus, term, Scored(bm, corpus, terms))
  {
    var more := terms + [term];
    assert more[..|terms|] == terms && more[|terms|] == term;
    forall d | d in corpus
      ensures Touched(corpus[d], more) <==> Touched(corpus[d], terms) || term in corpus[d]
      ensures !Touched(corpus[d], terms) ==> DirectScore(bm, corpus, d, terms) == bm.zero
    {
      if Touched(corpus[d], terms) {
        var i :| 0 <= i < |terms| && terms[i] in corpus[d];
        assert more[i] in corpus[d];
      } else {
        UntouchedScore(bm, corpus, d, terms);
      }
    }
  }

  lemma {:induction false} UntouchedScore<K, F>(bm: Bm25<F>, corpus: map<K, Tokens>, d: K, terms: Tokens)
    requires d in corpus && !Touched(corpus[d], terms)
    ensures DirectScore(bm, corpus, d, terms) == bm.zero
  {
    if terms != [] {
      var n := |terms| - 1;
      assert terms[n] !in corpus[d];
      forall i | 0 <= i < n ensures terms[..n][i] !in corpus[d] {
        assert terms[i] !in corpus[d];
      }
      UntouchedScore(bm, corpus, d, terms[..n]);
    }
  }

  /** A posting list names exactly the documents that contain the term. */
  lemma PostingKeys(postings: map<string, map<DocNo, nat>>, docLen: map<DocNo, nat>, totalLen: nat, corpus: Corpus,
      term: string)
    requires Reflects(postings, docLen, totalLen, corpus)
    ensures term in postings ==> postings[term].Keys == Containing(corpus, term)
    ensures term !in postings ==> Containing(corpus, term) == {}
  {
    forall d ensures Frequency(postings, term, d) > 0 <==> d in Containing(corpus, term) {
    }
    if term in postings {
      assert forall d :: d in postings[term] <==> Frequency(postings, term, d) > 0;
    } else {
      assert forall d :: Frequency(postings, term, d) == 0;
    }
  }
}
