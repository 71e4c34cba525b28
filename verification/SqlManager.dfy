/** The index manager of one table: every row operation applied to all of its indexes. */
module TableIndexes {
  import opened Common
  import opened Ranking
  import opened SqlIndex

  type Indexes = map<string, Index>

  ghost predicate AllWellFormed(ixs: Indexes) {
    forall name | name in ixs :: ixs[name].WellFormed()
  }

  ghost predicate AllAgree(ixs: Indexes, rows: map<RowId, Row>) {
    forall name | name in ixs :: ixs[name].Agrees(rows)
  }

  function InsertOne(ix: Index, id: RowId, row: Row): Result<Index, IndexError> {
    ix.Insert(BuildKey(ix.columns, row), id)
  }

  function RemoveOne(ix: Index, id: RowId, row: Row): Index
    requires ix.WellFormed()
  {
    ix.Remove(BuildKey(ix.columns, row), id)
  }

  /** Some indexes have taken the row, the others are untouched. */
  ghost predicate PartlyInserted(before: Indexes, after: Indexes, id: RowId, row: Row) {
    && after.Keys == before.Keys
    && forall name | name in before ::
        after[name] == before[name] || InsertOne(before[name], id, row) == Ok(after[name])
  }

  ghost predicate FullyInserted(before: Indexes, after: Indexes, id: RowId, row: Row) {
    && after.Keys == before.Keys
    && forall name | name in before :: InsertOne(before[name], id, row) == Ok(after[name])
  }

  lemma NoneInserted(ixs: Indexes, id: RowId, row: Row)
    ensures PartlyInserted(ixs, ixs, id, row)
  {
  }

  /** Some unique index already holds the row's key. */
  ghost predicate Rejected(before: Indexes, id: RowId, row: Row) {
    exists name :: name in before && InsertOne(before[name], id, row).Err?
  }

  function RemovedAll(ixs: Indexes, id: RowId, row: Row): Indexes
    requires AllWellFormed(ixs)
  {
    map name | name in ixs :: RemoveOne(ixs[name], id, row)
  }

  // ---------------------------------------------------------------------------
  // Operations
  // ---------------------------------------------------------------------------

  /** A B-tree or hash index; the two differ only in the kind of map and in range scans. */
  class TableIndex {
    const columns: seq<string>
    const unique: bool
    var entries: map<Key, set<RowId>>
    var count: nat

    /** The contents, as a value. */
    function View(): Index
      reads this
    {
      Index(columns, unique, entries, count)
    }

    constructor (names: seq<string>, distinct: bool)
      ensures View() == Index(names, distinct, map[], 0)
    {
      columns, unique, entries, count := names, distinct, map[], 0;
    }

    method Insert(key: Key, id: RowId) returns (r: Result<(), IndexError>)
      modifies this
      ensures r.Err? ==> old(View()).Insert(key, id) == Err(r.error) && View() == old(View())
      ensures r.Ok? ==> old(View()).Insert(key, id) == Ok(View())
    {
      if unique && key in entries && entries[key] != {} {
        return Err(DuplicateKey);
      }
      var bucket := if key in entries then entries[key] else {};
      if id !in bucket {
        count := count + 1;
      }
      entries := entries[key := bucket + {id}];
      r := Ok(());
    }

    method Remove(key: Key, id: RowId) returns (found: bool)
      requires View().WellFormed()
      modifies this
      ensures found <==> id in old(View()).Bucket(key)
      ensures View() == old(View()).Remove(key, id)
    {
      if key in entries && id in entries[key] {
        RemoveDefined(View(), key, id);
        count := count - 1;
        var rest := entries[key] - {id};
        entries := if rest == {} then entries - {key} else entries[key := rest];
        return true;
      }
      found := false;
    }
  }

  type IndexObjects = map<string, TableIndex>

  function Views(ixs: IndexObjects): Indexes
    reads ixs.Values
  {
    map name | name in ixs :: ixs[name].View()
  }

  /** No index goes by two names. */
  ghost predicate Separate(ixs: IndexObjects) {
    forall a, b | a in ixs && b in ixs && a != b :: ixs[a] != ixs[b]
  }

  /** The indexes in `todo` are as before, the others have taken the row. */
  ghost predicate InsertedBut(before: Indexes, now: Indexes, todo: set<string>, id: RowId, row: Row) {
    && todo <= before.Keys == now.Keys
    && (forall name | name in todo :: now[name] == before[name])
    && (forall name | name in before && name !in todo :: InsertOne(before[name], id, row) == Ok(now[name]))
  }

  lemma InsertedMore(before: Indexes, now: Indexes, todo: set<string>, name: string, id: RowId, row: Row, after: Index)
    requires InsertedBut(before, now, todo, id, row) && name in todo
    requires now[name].Insert(BuildKey(now[name].columns, row), id) == Ok(after)
    ensures InsertedBut(before, now[name := after], todo - {name}, id, row)
  {
  }

  lemma InsertedSofar(before: Indexes, now: Indexes, todo: set<string>, id: RowId, row: Row)
    requires InsertedBut(before, now, todo, id, row)
    ensures PartlyInserted(before, now, id, row)
    ensures todo == {} ==> FullyInserted(before, now, id, row)
    ensures forall name | name in todo && now[name].Insert(BuildKey(now[name].columns, row), id).Err? ::
        Rejected(before, id, row)
  {
    forall name | name in todo && now[name].Insert(BuildKey(now[name].columns, row), id).Err?
        ensures Rejected(before, id, row) {
      assert InsertOne(before[name], id, row).Err?;
    }
  }

  method InsertAt(ixs: IndexObjects, name: string, id: RowId, row: Row) returns (r: Result<(), IndexError>)
    requires Separate(ixs) && name in ixs
    modifies ixs[name]
    ensures name in Views(ixs) && Views(ixs)[name] == ixs[name].View()
    ensures var ix := old(Views(ixs))[name];
            && (r.Err? ==> ix.Insert(BuildKey(ix.columns, row), id).Err? && Views(ixs) == old(Views(ixs)))
            && (r.Ok? ==> ix.Insert(BuildKey(ix.columns, row), id) == Ok(ixs[name].View())
                          && Views(ixs) == old(Views(ixs))[name := ixs[name].View()])
  {
    hide BuildKey, Index.Insert;
    var ix := ixs[name];
    r := ix.Insert(BuildKey(ix.columns, row), id);
    assert Views(ixs) == old(Views(ixs))[name := ix.View()];
    assert r.Err? ==> Views(ixs) == old(Views(ixs));
  }

  /** Inserts a row index by index, in no particular order, stopping at the first duplicate. */
  method InsertInto(ixs: IndexObjects, id: RowId, row: Row) returns (r: Result<(), IndexError>)
    requires Separate(ixs)
    modifies ixs.Values
    ensures PartlyInserted(old(Views(ixs)), Views(ixs), id, row)
    ensures r.Ok? ==> FullyInserted(old(Views(ixs)), Views(ixs), id, row)
    ensures r.Err? <==> Rejected(old(Views(ixs)), id, row)
  {
    ghost var before := Views(ixs);
    var todo := ixs.Keys;
    assert before.Keys == todo && InsertedBut(before, before, todo, id, row);
    hide BuildKey, Views, Separate, InsertedBut, PartlyInserted, FullyInserted, Rejected, Index.Insert;
    while todo != {}
      invariant todo <= ixs.Keys && InsertedBut(before, Views(ixs), todo, id, row)
    {
      InsertedSofar(before, Views(ixs), todo, id, row);
      var name :| name in todo;
      ghost var now := Views(ixs);
      r := InsertAt(ixs, name, id, row);
      if r.Err? {
        return;
      }
      InsertedMore(before, now, todo, name, id, row, ixs[name].View());
      todo := todo - {name};
    }
    InsertedSofar(before, Views(ixs), todo, id, row);
    r := Ok(());
  }

  /** The indexes in `todo` are as before, the others have dropped the row. */
  ghost predicate RemovedBut(before: Indexes, now: Indexes, todo: set<string>, id: RowId, row: Row)
    requires AllWellFormed(before)
  {
    && todo <= before.Keys == now.Keys
    && forall name | name in before ::
        now[name] == if name in todo then before[name] else RemoveOne(before[name], id, row)
  }

  lemma RemovedMore(before: Indexes, now: Indexes, todo: set<string>, name: string, id: RowId, row: Row)
    requires AllWellFormed(before) && RemovedBut(before, now, todo, id, row) && name in todo
    ensures now[name].WellFormed()
    ensures RemovedBut(before, now[name := now[name].Remove(BuildKey(now[name].columns, row), id)], todo - {name}, id,
        row)
  {
    hide Index.Remove, BuildKey, PairsOf;
    assert before[name].WellFormed();
  }

  lemma RemovedDone(before: Indexes, now: Indexes, id: RowId, row: Row)
    requires AllWellFormed(before) && RemovedBut(before, now, {}, id, row)
    ensures now == RemovedAll(before, id, row)
  {
    hide RemoveOne;
  }

  method RemoveAt(ixs: IndexObjects, name: string, id: RowId, row: Row)
    requires Separate(ixs) && name in ixs && Views(ixs)[name].WellFormed()
    modifies ixs[name]
    ensures var ix := old(Views(ixs))[name];
    Views(ixs) == old(Views(ixs))[name := ix.Remove(BuildKey(ix.columns, row), id)]
  {
    hide BuildKey, Index.Remove, Index.WellFormed;
    var ix := ixs[name];
    var found := ix.Remove(BuildKey(ix.columns, row), id);
    assert Views(ixs) == old(Views(ixs))[name := ix.View()];
  }

  method RemoveFrom(ixs: IndexObjects, id: RowId, row: Row)
    requires Separate(ixs) && AllWellFormed(Views(ixs))
    modifies ixs.Values
    ensures Views(ixs) == RemovedAll(old(Views(ixs)), id, row)
  {
    ghost var before := Views(ixs);
    var todo := ixs.Keys;
    assert before.Keys == todo && RemovedBut(before, before, todo, id, row);
    hide BuildKey, Views, Separate, RemovedBut, AllWellFormed, Index.Remove, Index.WellFormed;
    while todo != {}
      invariant todo <= ixs.Keys && RemovedBut(before, Views(ixs), todo, id, row)
    {
      var name :| name in todo;
      RemovedMore(before, Views(ixs), todo, name, id, row);
      RemoveAt(ixs, name, id, row);
      todo := todo - {name};
    }
    RemovedDone(before, Views(ixs), id, row);
  }

  class TableIndexManager {
    var btree: IndexObjects
    var hash: IndexObjects

    ghost predicate Valid()
      reads this, btree.Values, hash.Values
    {
      && Separate(btree) && Separate(hash) && btree.Values !! hash.Values
      && AllWellFormed(Views(btree)) && AllWellFormed(Views(hash))
    }

    constructor ()
      ensures Valid() && btree == map[] && hash == map[]
    {
      btree, hash := map[], map[];
    }

    /** Creates an empty index under a name that is not taken among the indexes of its kind. */
    method CreateIndex(name: string, columns: seq<string>, unique: bool, hashed: bool)
      returns (r: Result<(), IndexError>)
      requires Valid()
      modifies this
      ensures Valid()
      ensures r.Err? <==> if hashed then name in old(hash) else name in old(btree)
      ensures r.Err? ==> btree == old(btree) && hash == old(hash)
      ensures r.Ok? ==>
                var created := Index(columns, unique, map[], 0);
                && Views(btree) == (if hashed then old(Views(btree)) else old(Views(btree))[name := created])
                && Views(hash) == (if hashed then old(Views(hash))[name := created] else old(Views(hash)))
    {
      hide PairsOf, Index.WellFormed, Separate, AllWellFormed, Views;
      if name in (if hashed then hash else btree) {
        return Err(DuplicateKey);
      }
      var ix := new TableIndex(columns, unique);
      EmptyWellFormed(ix.View());
      if hashed {
        AddObject(hash, name, ix);
        hash := hash[name := ix];
      } else {
        AddObject(btree, name, ix);
        btree := btree[name := ix];
      }
      r := Ok(());
    }

    method InsertRow(id: RowId, row: Row) returns (r: Result<(), IndexError>)
      requires Valid()
      modifies btree.Values, hash.Values
      ensures Valid()
      ensures PartlyInserted(old(Views(btree)), Views(btree), id, row)
          && PartlyInserted(old(Views(hash)), Views(hash), id, row)
      ensures r.Ok? ==>
                && FullyInserted(old(Views(btree)), Views(btree), id, row)
                && FullyInserted(old(Views(hash)), Views(hash), id, row)
      ensures r.Err? <==> Rejected(old(Views(btree)), id, row) || Rejected(old(Views(hash)), id, row)
    {
      hide InsertOne, PartlyInserted, FullyInserted, Rejected, AllWellFormed, Views, Separate;
      r := InsertInto(btree, id, row);
      PartlyWellFormed(old(Views(btree)), Views(btree), id, row);
      NoneInserted(old(Views(hash)), id, row);
      if r.Err? {
        return;
      }
      r := InsertInto(hash, id, row);
      PartlyWellFormed(old(Views(hash)), Views(hash), id, row);
    }

    method RemoveRow(id: RowId, row: Row)
      requires Valid()
      modifies btree.Values, hash.Values
      ensures Valid()
      ensures Views(btree) == RemovedAll(old(Views(btree)), id, row)
          && Views(hash) == RemovedAll(old(Views(hash)), id, row)
    {
      RemoveFrom(btree, id, row);
      RemoveFrom(hash, id, row);
      RemovedWellFormed(old(Views(btree)), id, row);
      RemovedWellFormed(old(Views(hash)), id, row);
    }

    method UpdateRow(id: RowId, oldRow: Row, newRow: Row) returns (r: Result<(), IndexError>)
      requires Valid()
      modifies btree.Values, hash.Values
      ensures Valid()
      ensures var b, h := RemovedAll(old(Views(btree)), id, oldRow), RemovedAll(old(Views(hash)), id, oldRow);
              && PartlyInserted(b, Views(btree), id, newRow) && PartlyInserted(h, Views(hash), id, newRow)
              && (r.Ok? ==> FullyInserted(b, Views(btree), id, newRow) && FullyInserted(h, Views(hash), id, newRow))
              && (r.Err? <==> Rejected(b, id, newRow) || Rejected(h, id, newRow))
    {
      RemoveRow(id, oldRow);
      r := InsertRow(id, newRow);
    }

    /** Equality lookup: the B-tree indexes first, then the hash indexes. */
    method LookupEq(name: string, key: Key, ghost rows: map<RowId, Row>) returns (r: Option<set<RowId>>)
      requires AllAgree(Views(btree), rows) && AllAgree(Views(hash), rows)
      ensures r.Some? <==> name in btree || name in hash
      ensures r.Some? ==>
                var columns := if name in btree then btree[name].columns else hash[name].columns;
                r.value == set id | id in rows && KeyFits(columns, rows[id], key)
    {
      if name in btree {
        assert Views(btree)[name].Agrees(rows);
        BucketFits(btree[name].View(), rows, key);
        return Some(btree[name].View().Bucket(key));
      }
      if name in hash {
        assert Views(hash)[name].Agrees(rows);
        BucketFits(hash[name].View(), rows, key);
        return Some(hash[name].View().Bucket(key));
      }
      r := None;
    }

    /** Range lookup, in key order; only B-tree indexes support it. */
    method LookupRange(name: string, lo: Bound, hi: Bound, ghost rows: map<RowId, Row>) returns (r: Option<seq<RowId>>)
      requires AllAgree(Views(btree), rows) && !Reversed(lo, hi)
      ensures r.Some? <==> name in btree
      ensures r.Some? ==> RangeListing(btree[name].columns, rows, lo, hi, r.value)
      ensures r.Some? && btree[name].columns != [] ==> InColumnOrder(btree[name].columns[0], rows, r.value)
    {
      if name !in btree {
        return None;
      }
      assert Views(btree)[name].Agrees(rows);
      var ids := RangeScan(btree[name].View(), lo, hi, rows);
      hide *;
      if btree[name].columns != [] {
        ListedInOrder(btree[name].columns, rows, lo, hi, ids);
      }
      r := Some(ids);
    }
  }

  lemma AddObject(ixs: IndexObjects, name: string, ix: TableIndex)
    requires name !in ixs && ix !in ixs.Values && Separate(ixs) && AllWellFormed(Views(ixs)) && ix.View().WellFormed()
    ensures Separate(ixs[name := ix]) && AllWellFormed(Views(ixs[name := ix]))
        && ixs[name := ix].Values == ixs.Values + {ix}
    ensures Views(ixs[name := ix]) == Views(ixs)[name := ix.View()]
  {
    var added := ixs[name := ix];
    assert forall n | n in ixs :: ixs[n] in ixs.Values;
    assert Views(added) == Views(ixs)[name := ix.View()];
    forall n | n in added ensures Views(added)[n].WellFormed() {
      assert n != name ==> Views(ixs)[n].WellFormed();
    }
    hide Index.WellFormed, PairsOf;
    forall o | o in ixs.Values + {ix} ensures o in added.Values {
      if o in ixs.Values {
        var n :| n in ixs && ixs[n] == o;
        assert added[n] == o;
      } else {
        assert added[name] == o;
      }
    }
  }

  lemma EmptyWellFormed(ix: Index)
    requires ix.entries == map[] && ix.count == 0
    ensures ix.WellFormed()
  {
    assert PairsOf(ix.entries) == {};
  }

  /** A new index lists no row, so it agrees with the table only while the table is empty. */
  lemma NewIndexAgrees(ix: Index, rows: map<RowId, Row>)
    requires ix.entries == map[] && ix.count == 0
    ensures ix.Agrees(rows) <==> rows == map[]
  {
    EmptyWellFormed(ix);
    if rows != map[] {
      var id :| id in rows;
      assert id !in ix.Bucket(BuildKey(ix.columns, rows[id]));
    }
  }

  // ---------------------------------------------------------------------------
  // Ranges
  // ---------------------------------------------------------------------------

  datatype Bound = Unbounded | Included(key: Key) | Excluded(key: Key)

  predicate Above(key: Key, lo: Bound) {
    match lo
    case Unbounded => true
    case Included(k) => !KeyLess(key, k)
    case Excluded(k) => KeyLess(k, key)
  }

  predicate Below(key: Key, hi: Bound) {
    match hi
    case Unbounded => true
    case Included(k) => !KeyLess(k, key)
    case Excluded(k) => KeyLess(key, k)
  }

  /** The ranges on which a B-tree map panics instead of iterating. */
  predicate Reversed(lo: Bound, hi: Bound) {
    !lo.Unbounded? && !hi.Unbounded? && (KeyLess(hi.key, lo.key) || (lo.Excluded? && lo == hi))
  }

  /** `ids` are the rows whose key lies in the range, each once, in key order. */
  ghost predicate RangeListing(columns: seq<string>, rows: map<RowId, Row>, lo: Bound, hi: Bound, ids: seq<RowId>) {
    && NoDuplicates(ids)
    && (forall id :: id in ids <==>
        id in rows && var key := BuildKey(columns, rows[id]); Above(key, lo) && Below(key, hi))
    && (forall i, j | 0 <= i < j < |ids| && ids[i] in rows && ids[j] in rows ::
          !KeyLess(BuildKey(columns, rows[ids[j]]), BuildKey(columns, rows[ids[i]])))
  }

  /** The rows come in the order of the column's values. */
  ghost predicate InColumnOrder(column: string, rows: map<RowId, Row>, ids: seq<RowId>) {
    forall i, j | 0 <= i < j < |ids| && ids[i] in rows && ids[j] in rows ::
      !SqlLess(Cell(rows[ids[j]], column), Cell(rows[ids[i]], column))
  }

  lemma ListedInOrder(columns: seq<string>, rows: map<RowId, Row>, lo: Bound, hi: Bound, ids: seq<RowId>)
    requires RangeListing(columns, rows, lo, hi, ids) && columns != []
    ensures InColumnOrder(columns[0], rows, ids)
  {
    hide BuildKey, KeyLess, SqlLess;
    forall i, j | 0 <= i < j < |ids| && ids[i] in rows && ids[j] in rows
      ensures !SqlLess(Cell(rows[ids[j]], columns[0]), Cell(rows[ids[i]], columns[0]))
    {
      FirstColumnOrder(columns, rows[ids[i]], rows[ids[j]]);
    }
  }

  lemma BucketFits(ix: Index, rows: map<RowId, Row>, key: Key)
    requires ix.Agrees(rows)
    ensures ix.Bucket(key) == set id | id in rows && KeyFits(ix.columns, rows[id], key)
  {
    hide BuildKey, KeyFits, PairsOf;
    forall id | id in rows ensures BuildKey(ix.columns, rows[id]) == key <==> KeyFits(ix.columns, rows[id], key) {
      KeyIs(ix.columns, rows[id], key);
    }
  }

  /** One end of a range over one column: a value, and whether it belongs to the range. */
  datatype End = Open | At(value: Value, inclusive: bool)

  function BoundOf(end: End): Bound {
    match end
    case Open => Unbounded
    case At(v, inclusive) => if inclusive then Included([FromValue(v)]) else Excluded([FromValue(v)])
  }

  ghost predicate FromOn(v: Value, end: End) {
    end.Open? || (if end.inclusive then !SqlLess(v, end.value) else SqlLess(end.value, v))
  }

  ghost predicate UpTo(v: Value, end: End) {
    end.Open? || (if end.inclusive then !SqlLess(end.value, v) else SqlLess(v, end.value))
  }

  /** On an index over one column, a range lists exactly the rows whose value lies between its ends. */
  lemma ColumnRange(column: string, rows: map<RowId, Row>, from: End, to: End, ids: seq<RowId>, id: RowId)
    requires RangeListing([column], rows, BoundOf(from), BoundOf(to), ids)
    ensures id in ids <==> id in rows && FromOn(Cell(rows[id], column), from) && UpTo(Cell(rows[id], column), to)
  {
    if id in rows {
      var v := Cell(rows[id], column);
      assert BuildKey([column], rows[id]) == [FromValue(v)];
      hide BuildKey, FromValue, SqlLess, KeyLess;
      EndIs(v, from);
      EndIs(v, to);
    }
  }

  lemma EndIs(v: Value, end: End)
    ensures Above([FromValue(v)], BoundOf(end)) <==> FromOn(v, end)
    ensures Below([FromValue(v)], BoundOf(end)) <==> UpTo(v, end)
  {
    if end.At? {
      OneColumnLess(FromValue(v), FromValue(end.value));
      OneColumnLess(FromValue(end.value), FromValue(v));
      PartOrder(v, end.value);
      PartOrder(end.value, v);
    }
    hide FromValue, SqlLess, KeyLess, ValueLess;
  }

  lemma OneColumnLess(a: IndexValue, b: IndexValue)
    ensures KeyLess([a], [b]) <==> ValueLess(a, b)
  {
    assert [a][1..] == [] && [b][1..] == [];
  }

  /** The elements of a hash set, in whatever order they come. */
  method Listed<T(==)>(s: set<T>) returns (xs: seq<T>)
    ensures NoDuplicates(xs) && Elements(xs) == s
  {
    xs := [];
    var rest := s;
    while rest != {}
      invariant rest <= s && NoDuplicates(xs)
      invariant Elements(xs) == s - rest
    {
      var x :| x in rest;
      assert x !in Elements(xs);
      assert Elements(xs + [x]) == Elements(xs) + {x};
      xs := xs + [x];
      rest := rest - {x};
    }
  }

  /** The keys of a B-tree, in order. */
  method SortedKeys(entries: map<Key, set<RowId>>) returns (keys: seq<Key>)
    ensures Ascending(KeyLess, keys) && Elements(keys) == entries.Keys
  {
    keys := Listed(entries.Keys);
    KeysOrdered(entries.Keys);
    SortByRanks(KeyLess, keys);
    keys := SortBy(KeyLess, keys);
  }

  method RangeScan(ix: Index, lo: Bound, hi: Bound, ghost rows: map<RowId, Row>) returns (ids: seq<RowId>)
    requires ix.Agrees(rows) && !Reversed(lo, hi)
    ensures RangeListing(ix.columns, rows, lo, hi, ids)
  {
    hide BuildKey, KeyLess, PairsOf, Reached, Ordered, Above, Below, Reversed;
    var keys := SortedKeys(ix.entries);
    ids := [];
    NothingReached(ix.columns, rows, lo, hi);
    assert keys[..0] == [];
    for n := 0 to |keys|
      invariant NoDuplicates(ids)
      invariant forall id :: id in ids <==> Reached(ix.columns, rows, keys[..n], lo, hi, id)
      invariant Ordered(ix.columns, rows, ids)
    {
      if Above(keys[n], lo) && Below(keys[n], hi) {
        assert keys[n] in Elements(keys);
        var bucket := Listed(ix.entries[keys[n]]);
        assert Elements(bucket) == ix.Bucket(keys[n]);
        AppendRun(ix.columns, rows, keys, n, lo, hi, ids, bucket);
        ids := ids + bucket;
      } else {
        SkipRun(ix.columns, rows, keys, n, lo, hi);
      }
    }
    assert keys[..|keys|] == keys;
    RangeDone(ix, rows, keys, lo, hi, ids);
  }

  lemma RangeDone(ix: Index, rows: map<RowId, Row>, keys: seq<Key>, lo: Bound, hi: Bound, ids: seq<RowId>)
    requires ix.Agrees(rows) && Elements(keys) == ix.entries.Keys
    requires NoDuplicates(ids) && Ordered(ix.columns, rows, ids)
    requires forall id :: id in ids <==> Reached(ix.columns, rows, keys, lo, hi, id)
    ensures RangeListing(ix.columns, rows, lo, hi, ids)
  {
    hide BuildKey, KeyLess, PairsOf, Above, Below;
    assert forall id | id in rows :: id in ix.Bucket(BuildKey(ix.columns, rows[id]));
    assert forall key | key in ix.entries :: key in Elements(keys);
  }

  lemma SkipRun(columns: seq<string>, rows: map<RowId, Row>, keys: seq<Key>, n: nat, lo: Bound, hi: Bound)
    requires n < |keys| && !(Above(keys[n], lo) && Below(keys[n], hi))
    ensures forall id ::
        Reached(columns, rows, keys[..n + 1], lo, hi, id) <==> Reached(columns, rows, keys[..n], lo, hi, id)
  {
    assert keys[..n + 1] == keys[..n] + [keys[n]];
  }

  lemma NothingReached(columns: seq<string>, rows: map<RowId, Row>, lo: Bound, hi: Bound)
    ensures forall id :: !Reached(columns, rows, [], lo, hi, id)
    ensures Ordered(columns, rows, [])
  {
  }

  ghost predicate Reached(columns: seq<string>, rows: map<RowId, Row>, keys: seq<Key>, lo: Bound, hi: Bound,
      id: RowId) {
    id in rows && var key := BuildKey(columns, rows[id]); key in keys && Above(key, lo) && Below(key, hi)
  }

  ghost predicate Ordered(columns: seq<string>, rows: map<RowId, Row>, ids: seq<RowId>) {
    forall i, j | 0 <= i < j < |ids| && ids[i] in rows && ids[j] in rows ::
      !KeyLess(BuildKey(columns, rows[ids[j]]), BuildKey(columns, rows[ids[i]]))
  }

  lemma AppendRun(columns: seq<string>, rows: map<RowId, Row>, keys: seq<Key>, n: nat, lo: Bound, hi: Bound,
      ids: seq<RowId>, bucket: seq<RowId>)
    requires n < |keys| && Ascending(KeyLess, keys)
    requires NoDuplicates(ids) && NoDuplicates(bucket) && Ordered(columns, rows, ids)
    requires forall id :: id in ids <==> Reached(columns, rows, keys[..n], lo, hi, id)
    requires forall id :: id in bucket <==> id in rows && BuildKey(columns, rows[id]) == keys[n]
    requires Above(keys[n], lo) && Below(keys[n], hi)
    ensures NoDuplicates(ids + bucket) && Ordered(columns, rows, ids + bucket)
    ensures forall id :: id in ids + bucket <==> Reached(columns, rows, keys[..n + 1], lo, hi, id)
  {
    hide BuildKey, KeyLess;
    forall m | 0 <= m < n ensures keys[m] != keys[n] && !KeyLess(keys[n], keys[m]) && !KeyLess(keys[n], keys[n]) {
      KeyIrreflexive(keys[n]);
      assert KeyLess(keys[m], keys[n]);
      KeyTrichotomy(keys[m], keys[n]);
    }
    KeyIrreflexive(keys[n]);
    var all := ids + bucket;
    assert keys[..n + 1] == keys[..n] + [keys[n]];
    forall i | 0 <= i < |ids| ensures Reached(columns, rows, keys[..n], lo, hi, ids[i]) {
      assert ids[i] in ids;
    }
    forall i | 0 <= i < |bucket| ensures bucket[i] in rows && BuildKey(columns, rows[bucket[i]]) == keys[n] {
      assert bucket[i] in bucket;
    }
  }

  // ---------------------------------------------------------------------------
  // Undo
  // ---------------------------------------------------------------------------

  lemma PartlyWellFormed(before: Indexes, after: Indexes, id: RowId, row: Row)
    requires AllWellFormed(before) && PartlyInserted(before, after, id, row)
    ensures AllWellFormed(after)
  {
    forall name | name in before ensures after[name].WellFormed() {
      if after[name] != before[name] {
        InsertWellFormed(before[name], BuildKey(before[name].columns, row), id);
      }
    }
  }

  lemma RemovedWellFormed(ixs: Indexes, id: RowId, row: Row)
    requires AllWellFormed(ixs)
    ensures AllWellFormed(RemovedAll(ixs, id, row))
  {
    forall name | name in ixs ensures RemoveOne(ixs[name], id, row).WellFormed() {
      RemoveWellFormed(ixs[name], BuildKey(ixs[name].columns, row), id);
    }
  }

  /** Removing a fresh row undoes its insertion, wherever the insertion stopped. */
  lemma InsertRowUndone(before: Indexes, after: Indexes, id: RowId, row: Row)
    requires AllWellFormed(before) && PartlyInserted(before, after, id, row)
    requires forall name | name in before :: before[name].Fresh(id)
    ensures AllWellFormed(after) && RemovedAll(after, id, row) == before
  {
    PartlyWellFormed(before, after, id, row);
    forall name | name in before ensures RemoveOne(after[name], id, row) == before[name] {
      if after[name] == before[name] {
        assert before[name].Fresh(id);
      } else {
        InsertUndone(before[name], BuildKey(before[name].columns, row), id);
      }
    }
  }

  lemma RemovedAgree(ixs: Indexes, rows: map<RowId, Row>, id: RowId)
    requires AllAgree(ixs, rows) && id in rows && AllWellFormed(ixs)
    ensures AllAgree(RemovedAll(ixs, id, rows[id]), rows - {id})
  {
    forall name | name in ixs ensures RemoveOne(ixs[name], id, rows[id]).Agrees(rows - {id}) {
      RemoveAgrees(ixs[name], rows, id);
    }
  }

  lemma InsertedAgree(before: Indexes, after: Indexes, rows: map<RowId, Row>, id: RowId, row: Row)
    requires AllAgree(before, rows) && id !in rows && FullyInserted(before, after, id, row)
    ensures AllAgree(after, rows[id := row])
  {
    forall name | name in after ensures after[name].Agrees(rows[id := row]) {
      InsertAgrees(before[name], rows, id, row);
    }
  }

  lemma AgreeFresh(ixs: Indexes, rows: map<RowId, Row>, id: RowId)
    requires AllAgree(ixs, rows) && id !in rows
    ensures forall name | name in ixs :: ixs[name].Fresh(id)
  {
    forall name | name in ixs ensures ixs[name].Fresh(id) {
      AgreesFresh(ixs[name], rows, id);
    }
  }

  /** After an update that failed part-way, removing the new row and inserting the old one succeeds and restores every
      index. */
  lemma FailedUpdateRestored(ixs: Indexes, rows: map<RowId, Row>, id: RowId, row: Row, after: Indexes)
    requires AllAgree(ixs, rows) && id in rows && AllWellFormed(ixs)
    requires PartlyInserted(RemovedAll(ixs, id, rows[id]), after, id, row)
    ensures AllWellFormed(after)
    ensures !Rejected(RemovedAll(after, id, row), id, rows[id])
    ensures FullyInserted(RemovedAll(after, id, row), ixs, id, rows[id])
  {
    hide BuildKey, PairsOf, Index.Agrees, Index.WellFormed, Index.Fresh, PartlyInserted, InsertOne, RemoveOne;
    var mid := RemovedAll(ixs, id, rows[id]);
    RemovedAgree(ixs, rows, id);
    RemovedWellFormed(ixs, id, rows[id]);
    AgreeFresh(mid, rows - {id}, id);
    InsertRowUndone(mid, after, id, row);
    forall name | name in ixs ensures InsertOne(mid[name], id, rows[id]) == Ok(ixs[name]) {
      Reinserted(ixs[name], rows, id);
    }
  }

  /** Taking a row out of an agreeing index and putting it back. */
  lemma Reinserted(ix: Index, rows: map<RowId, Row>, id: RowId)
    requires ix.Agrees(rows) && ix.WellFormed() && id in rows
    ensures InsertOne(RemoveOne(ix, id, rows[id]), id, rows[id]) == Ok(ix)
  {
    hide BuildKey, PairsOf;
    RemoveAgrees(ix, rows, id);
    RemoveUndone(ix, BuildKey(ix.columns, rows[id]), id);
  }

  // ---------------------------------------------------------------------------
  // Runs
  // ---------------------------------------------------------------------------

  datatype Table = Table(btree: Indexes, hash: Indexes, rows: map<RowId, Row>)

  datatype Op = InsertRow(id: RowId, row: Row) | RemoveRow(id: RowId) | UpdateRow(id: RowId, row: Row)

  ghost predicate Agreeing(t: Table) {
    AllAgree(t.btree, t.rows) && AllAgree(t.hash, t.rows)
  }

  /** A row operation that succeeds on the table and on every index. */
  ghost predicate Step(t: Table, op: Op, t': Table) {
    && AllWellFormed(t.btree) && AllWellFormed(t.hash)
    && match op
       case InsertRow(id, row) =>
         && id !in t.rows && t'.rows == t.rows[id := row]
         && FullyInserted(t.btree, t'.btree, id, row) && FullyInserted(t.hash, t'.hash, id, row)
       case RemoveRow(id) =>
         && id in t.rows && t'.rows == t.rows - {id}
         && t'.btree == RemovedAll(t.btree, id, t.rows[id]) && t'.hash == RemovedAll(t.hash, id, t.rows[id])
       case UpdateRow(id, row) =>
         && id in t.rows && t'.rows == t.rows[id := row]
         && FullyInserted(RemovedAll(t.btree, id, t.rows[id]), t'.btree, id, row)
         && FullyInserted(RemovedAll(t.hash, id, t.rows[id]), t'.hash, id, row)
  }

  lemma StepAgrees(t: Table, op: Op, t': Table)
    requires Agreeing(t) && Step(t, op, t')
    ensures Agreeing(t')
  {
    match op
    case InsertRow(id, row) =>
      InsertedAgree(t.btree, t'.btree, t.rows, id, row);
      InsertedAgree(t.hash, t'.hash, t.rows, id, row);
    case RemoveRow(id) =>
      RemovedAgree(t.btree, t.rows, id);
      RemovedAgree(t.hash, t.rows, id);
    case UpdateRow(id, row) =>
      RemovedAgree(t.btree, t.rows, id);
      RemovedAgree(t.hash, t.rows, id);
      assert (t.rows - {id})[id := row] == t.rows[id := row];
      InsertedAgree(RemovedAll(t.btree, id, t.rows[id]), t'.btree, t.rows - {id}, id, row);
      InsertedAgree(RemovedAll(t.hash, id, t.rows[id]), t'.hash, t.rows - {id}, id, row);
  }

  ghost predicate Run(tables: seq<Table>, ops: seq<Op>) {
    |tables| == |ops| + 1 && forall i | 0 <= i < |ops| :: Step(tables[i], ops[i], tables[i + 1])
  }

  /** Along every run of successful row operations, every index agrees with the rows at every point. */
  lemma {:induction false} RunAgrees(tables: seq<Table>, ops: seq<Op>, n: nat)
    requires Run(tables, ops) && Agreeing(tables[0]) && n <= |ops|
    ensures Agreeing(tables[n])
  {
    if n > 0 {
      RunAgrees(tables, ops, n - 1);
      StepAgrees(tables[n - 1], ops[n - 1], tables[n]);
    }
  }
}
