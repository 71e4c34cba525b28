/**
 Secondary indexes of a SQL table: composite keys, the unique constraint, and the
 index manager that keeps every index of a table in step with its rows.
 */
module SqlIndex {
  import opened Common
  import opened Ranking
  import opened Ieee
  import opened Strings

  // ---------------------------------------------------------------------------
  // Keys
  // ---------------------------------------------------------------------------

  datatype Ordering = Less | Equal | Greater

  function CompareInt(a: int, b: int): Ordering {
    if a < b then Less else if a == b then Equal else Greater
  }

  /** `OrderedFloat::cmp`: an incomparable pair counts as equal. */
  function CompareFloat(a: Bits, b: Bits): Ordering {
    if IsNaN(a) || IsNaN(b) then Equal else CompareInt(Ordinal(a), Ordinal(b))
  }

  /** Where the B-tree's notion of equal keys departs from the hash map's, which compares bits. */
  lemma FloatKeysConfused(a: Bits, b: Bits)
    ensures CompareFloat(a, b) == Equal && a != b <==>
            a != b && (IsNaN(a) || IsNaN(b) || (IsZero(a) && IsZero(b)))
  {
  }

  predicate FloatLess(a: Bits, b: Bits) {
    CompareFloat(a, b) == Less
  }

  predicate Confusable(a: Bits, b: Bits) {
    a != b && (IsNaN(a) || IsNaN(b) || (IsZero(a) && IsZero(b)))
  }

  lemma FloatLessIs(a: Bits, b: Bits)
    ensures FloatLess(a, b) <==> !IsNaN(a) && !IsNaN(b) && Ordinal(a) < Ordinal(b)
    ensures Confusable(a, b) <==> a != b && !FloatLess(a, b) && !FloatLess(b, a)
  {
    FloatKeysConfused(a, b);
  }

  /** A set of float keys is strictly ordered, as a B-tree needs, if and only if no two of them are confusable. */
  lemma FloatKeysOrderedExactly(keys: set<Bits>)
    ensures StrictOrderOn(FloatLess, keys) <==> forall a, b | a in keys && b in keys :: !Confusable(a, b)
  {
    forall a, b | a in keys && b in keys
      ensures FloatLess(a, b) <==> !IsNaN(a) && !IsNaN(b) && Ordinal(a) < Ordinal(b)
      ensures Confusable(a, b) <==> a != b && !FloatLess(a, b) && !FloatLess(b, a)
    {
      FloatLessIs(a, b);
    }
    hide FloatLess, Confusable, IsNaN, Ordinal;
  }

  /** Floats on which the two notions agree: no NaN, and only one zero. */
  type KeyBits = b: Bits | !IsNaN(b) && b != NEG_ZERO witness 0

  datatype IndexValue = Null | Bool(b: bool) | Int(n: int) | Str(s: string) | Float(f: KeyBits)

  type Key = seq<IndexValue>

  /** The declaration order of the variants. */
  function VariantRank(v: IndexValue): nat {
    match v
    case Null => 0
    case Bool(_) => 1
    case Int(_) => 2
    case Str(_) => 3
    case Float(_) => 4
  }

  predicate ValueLess(a: IndexValue, b: IndexValue) {
    match (a, b)
    case (Bool(x), Bool(y)) => !x && y
    case (Int(x), Int(y)) => x < y
    case (Str(x), Str(y)) => StringLess(x, y)
    case (Float(x), Float(y)) => CompareFloat(x, y) == Less
    case _ => VariantRank(a) < VariantRank(b)
  }

  /** Composite keys compare column by column. */
  predicate KeyLess(a: Key, b: Key) {
    b != [] && (a == [] || ValueLess(a[0], b[0]) || (a[0] == b[0] && KeyLess(a[1..], b[1..])))
  }

  lemma ValueTrichotomy(a: IndexValue, b: IndexValue)
    ensures !ValueLess(a, a)
    ensures a != b ==> (ValueLess(a, b) <==> !ValueLess(b, a))
  {
    if a.Str? {
      StringIrreflexive(a.s);
      if b.Str? && a != b {
        StringTrichotomy(a.s, b.s);
      }
    }
  }

  lemma ValueTransitive(a: IndexValue, b: IndexValue, c: IndexValue)
    requires ValueLess(a, b) && ValueLess(b, c)
    ensures ValueLess(a, c)
  {
    if a.Str? && b.Str? && c.Str? {
      StringTransitive(a.s, b.s, c.s);
    }
  }

  lemma {:induction false} KeyIrreflexive(a: Key)
    ensures !KeyLess(a, a)
  {
    if a != [] {
      ValueTrichotomy(a[0], a[0]);
      KeyIrreflexive(a[1..]);
    }
  }

  lemma {:induction false} KeyTrichotomy(a: Key, b: Key)
    requires a != b
    ensures KeyLess(a, b) <==> !KeyLess(b, a)
  {
    if a != [] && b != [] {
      ValueTrichotomy(a[0], b[0]);
      if a[0] == b[0] {
        assert a == [a[0]] + a[1..] && b == [b[0]] + b[1..];
        KeyTrichotomy(a[1..], b[1..]);
      }
    }
  }

  lemma {:induction false} KeyTransitive(a: Key, b: Key, c: Key)
    requires KeyLess(a, b) && KeyLess(b, c)
    ensures KeyLess(a, c)
  {
    if a != [] {
      if ValueLess(a[0], b[0]) && ValueLess(b[0], c[0]) {
        ValueTransitive(a[0], b[0], c[0]);
      } else if a[0] == b[0] && b[0] == c[0] {
        KeyTransitive(a[1..], b[1..], c[1..]);
      }
    }
  }

  /** The composite key order is a strict total order, which is what a B-tree map needs of it. */
  lemma KeysOrdered(keys: set<Key>)
    ensures StrictOrderOn(KeyLess, keys)
  {
    forall a, b | a in keys && b in keys ensures !KeyLess(a, a) && (a != b ==> KeyLess(a, b) || KeyLess(b, a)) {
      KeyIrreflexive(a);
      if a != b {
        KeyTrichotomy(a, b);
      }
    }
    forall a, b, c | a in keys && b in keys && c in keys && KeyLess(a, b) && KeyLess(b, c) ensures KeyLess(a, c) {
      KeyTransitive(a, b, c);
    }
  }

  // ---------------------------------------------------------------------------
  // Rows
  // ---------------------------------------------------------------------------

  type RowId = nat

  /** A SQL value; byte strings, arrays and objects are keyed by their debug rendering. */
  datatype Value =
    | VNull
    | VBool(b: bool)
    | VInt(n: int)
    | VFloat(f: KeyBits)
    | VString(s: string)
    | VTimestamp(seconds: int)
    | VDebug(rendering: string)

  type Row = map<string, Value>

  function FromValue(v: Value): IndexValue {
    match v
    case VNull => Null
    case VBool(b) => Bool(b)
    case VInt(n) => Int(n)
    case VFloat(f) => Float(f)
    case VString(s) => Str(s)
    case VTimestamp(t) => Int(t)
    case VDebug(r) => Str(r)
  }

  /** The key of a row; a missing column counts as null. */
  function BuildKey(columns: seq<string>, row: Row): Key {
    seq(|columns|, i requires 0 <= i < |columns| => if columns[i] in row then FromValue(row[columns[i]]) else Null)
  }

  // ---------------------------------------------------------------------------
  // What keys mean
  // ---------------------------------------------------------------------------

  /** The value of a column, null when the row lacks it. */
  function Cell(row: Row, column: string): Value {
    if column in row then row[column] else VNull
  }

  /** The values that a key part stands for. */
  predicate StandsFor(part: IndexValue, v: Value) {
    match part
    case Null => v.VNull?
    case Bool(b) => v == VBool(b)
    case Int(n) => v == VInt(n) || v == VTimestamp(n)
    case Str(s) => v == VString(s) || v == VDebug(s)
    case Float(f) => v == VFloat(f)
  }

  lemma PartIs(v: Value, part: IndexValue)
    ensures FromValue(v) == part <==> StandsFor(part, v)
  {
  }

  /** The key has, column by column, what stands for the row's values. */
  ghost predicate KeyFits(columns: seq<string>, row: Row, key: Key) {
    |key| == |columns| && forall i | 0 <= i < |columns| :: StandsFor(key[i], Cell(row, columns[i]))
  }

  lemma KeyIs(columns: seq<string>, row: Row, key: Key)
    ensures BuildKey(columns, row) == key <==> KeyFits(columns, row, key)
  {
    var built := BuildKey(columns, row);
    forall i | 0 <= i < |columns| && i < |key|
        ensures built[i] == key[i] <==> StandsFor(key[i], Cell(row, columns[i])) {
      PartIs(Cell(row, columns[i]), key[i]);
    }
    hide FromValue, StandsFor;
    if KeyFits(columns, row, key) {
      assert built == key;
    }
  }

  /** Two values share a key part when equal, or as a timestamp and its seconds, or as a text and a rendering. */
  predicate SharePart(a: Value, b: Value) {
    || a == b
    || (a.VInt? && b == VTimestamp(a.n)) || (b.VInt? && a == VTimestamp(b.n))
    || (a.VString? && b == VDebug(a.s)) || (b.VString? && a == VDebug(b.s))
  }

  /** Two rows have one key exactly when they share it column by column. */
  lemma SameKeyExactly(columns: seq<string>, a: Row, b: Row)
    ensures BuildKey(columns, a) == BuildKey(columns, b) <==>
            forall i | 0 <= i < |columns| :: SharePart(Cell(a, columns[i]), Cell(b, columns[i]))
  {
    var x, y := BuildKey(columns, a), BuildKey(columns, b);
    forall i | 0 <= i < |columns| ensures x[i] == y[i] <==> SharePart(Cell(a, columns[i]), Cell(b, columns[i])) {
    }
    hide FromValue, SharePart;
    if forall i | 0 <= i < |columns| :: x[i] == y[i] {
      assert x == y;
    }
  }

  /** Nulls, then booleans, numbers and timestamps, texts, floats. */
  function Kind(v: Value): nat {
    match v
    case VNull => 0
    case VBool(_) => 1
    case VInt(_) => 2
    case VTimestamp(_) => 2
    case VString(_) => 3
    case VDebug(_) => 3
    case VFloat(_) => 4
  }

  function NumberOf(v: Value): int {
    match v
    case VInt(n) => n
    case VTimestamp(t) => t
    case _ => 0
  }

  function TextOf(v: Value): string {
    match v
    case VString(s) => s
    case VDebug(r) => r
    case _ => ""
  }

  /** The order of SQL values in an index: by kind, and within a kind by its own order. */
  ghost predicate SqlLess(a: Value, b: Value) {
    || Kind(a) < Kind(b)
    || (Kind(a) == Kind(b) == 1 && a == VBool(false) && b == VBool(true))
    || (Kind(a) == Kind(b) == 2 && NumberOf(a) < NumberOf(b))
    || (Kind(a) == Kind(b) == 3 && exists i: nat :: FirstDiffers(TextOf(a), TextOf(b), i))
    || (a.VFloat? && b.VFloat? && Ordinal(a.f) < Ordinal(b.f))
  }

  lemma PartOrder(a: Value, b: Value)
    ensures ValueLess(FromValue(a), FromValue(b)) <==> SqlLess(a, b)
  {
    StringLessIs(TextOf(a), TextOf(b));
    if a.VFloat? && b.VFloat? {
      FloatLessIs(a.f, b.f);
    }
    hide FirstDiffers, StringLess;
  }

  /** `a` and `b` agree before position `i`, where `a` ends or has the smaller part. */
  ghost predicate KeyDiffers(a: Key, b: Key, i: nat) {
    i <= |a| && i < |b| && a[..i] == b[..i] && (i == |a| || ValueLess(a[i], b[i]))
  }

  lemma {:induction false} KeyLessDiffers(a: Key, b: Key)
    requires KeyLess(a, b)
    ensures exists i: nat :: KeyDiffers(a, b, i)
  {
    if a == [] || ValueLess(a[0], b[0]) {
      assert a[..0] == b[..0];
      assert KeyDiffers(a, b, 0);
    } else {
      KeyLessDiffers(a[1..], b[1..]);
      var i: nat :| KeyDiffers(a[1..], b[1..], i);
      assert a[..i + 1] == [a[0]] + a[1..][..i] && b[..i + 1] == [b[0]] + b[1..][..i];
      assert KeyDiffers(a, b, i + 1);
    }
  }

  lemma {:induction false} KeyDiffersLess(a: Key, b: Key, i: nat)
    requires KeyDiffers(a, b, i)
    ensures KeyLess(a, b)
    decreases i
  {
    if i > 0 {
      assert a[..i][0] == b[..i][0];
      assert a[1..][..i - 1] == a[..i][1..] && b[1..][..i - 1] == b[..i][1..];
      KeyDiffersLess(a[1..], b[1..], i - 1);
    }
  }

  /** The order of composite keys is told by the first column that differs. */
  lemma KeyLessIs(a: Key, b: Key)
    ensures KeyLess(a, b) <==> exists i: nat :: KeyDiffers(a, b, i)
  {
    if KeyLess(a, b) {
      KeyLessDiffers(a, b);
    }
    if i: nat :| KeyDiffers(a, b, i) {
      KeyDiffersLess(a, b, i);
    }
  }

  /** Rows in key order are in the order of their first column. */
  lemma FirstColumnOrder(columns: seq<string>, a: Row, b: Row)
    requires columns != [] && !KeyLess(BuildKey(columns, b), BuildKey(columns, a))
    ensures !SqlLess(Cell(b, columns[0]), Cell(a, columns[0]))
  {
    var x, y := BuildKey(columns, a), BuildKey(columns, b);
    PartOrder(Cell(b, columns[0]), Cell(a, columns[0]));
    assert x[0] == FromValue(Cell(a, columns[0])) && y[0] == FromValue(Cell(b, columns[0]));
  }

  // ---------------------------------------------------------------------------
  // One index
  // ---------------------------------------------------------------------------

  datatype IndexError = DuplicateKey

  /** Every key with every row id under it. */
  ghost function PairsOf(entries: map<Key, set<RowId>>): set<(Key, RowId)> {
    set key, id | key in entries && id in entries[key] :: (key, id)
  }

  /** The contents of a B-tree or a hash index: key to row ids, with a running entry count. */
  datatype Index = Index(columns: seq<string>, unique: bool, entries: map<Key, set<RowId>>, count: nat) {
    function Bucket(key: Key): set<RowId> {
      if key in entries then entries[key] else {}
    }

    function Insert(key: Key, id: RowId): Result<Index, IndexError> {
      if unique && Bucket(key) != {} then Err(DuplicateKey)
      else Ok(this.(entries := entries[key := Bucket(key) + {id}],
                    count := if id in Bucket(key) then count else count + 1))
    }

    function Remove(key: Key, id: RowId): Index
      requires WellFormed()
    {
      if id !in Bucket(key) then this
      else
        RemoveDefined(this, key, id);
        var rest := Bucket(key) - {id};
        this.(entries := if rest == {} then entries - {key} else entries[key := rest], count := count - 1)
    }

    /** No bucket is empty, and the entry count is the total of the bucket sizes. */
    ghost predicate WellFormed() {
      && (forall key | key in entries :: entries[key] != {})
      && count == |PairsOf(entries)|
    }

    ghost predicate Fresh(id: RowId) {
      forall key | key in entries :: id !in entries[key]
    }

    /** The index holds exactly the rows of the table, each under its own key. */
    ghost predicate Agrees(rows: map<RowId, Row>) {
      && WellFormed()
      && (forall key, id :: id in Bucket(key) <==> id in rows && BuildKey(columns, rows[id]) == key)
      && (unique ==> forall key :: |Bucket(key)| <= 1)
    }
  }

  lemma PairsAre(ix: Index, s: set<(Key, RowId)>)
    requires forall key, id :: (key, id) in s <==> id in ix.Bucket(key)
    ensures PairsOf(ix.entries) == s
  {
    forall p: (Key, RowId) ensures p in PairsOf(ix.entries) <==> p in s {
      assert p == (p.0, p.1);
    }
  }

  lemma InPairs(ix: Index)
    ensures forall key, id :: (key, id) in PairsOf(ix.entries) <==> id in ix.Bucket(key)
  {
  }

  lemma RemoveDefined(ix: Index, key: Key, id: RowId)
    requires ix.WellFormed()
    ensures id in ix.Bucket(key) ==> ix.count > 0
  {
    InPairs(ix);
    if id in ix.Bucket(key) {
      assert (key, id) in PairsOf(ix.entries);
    }
  }

  lemma PairsAfterInsert(ix: Index, after: Index, key: Key, id: RowId)
    requires after.entries == ix.entries[key := ix.Bucket(key) + {id}]
    ensures PairsOf(after.entries) == PairsOf(ix.entries) + {(key, id)}
  {
    InPairs(ix);
    assert forall k :: after.Bucket(k) == if k == key then ix.Bucket(k) + {id} else ix.Bucket(k);
    PairsAre(after, PairsOf(ix.entries) + {(key, id)});
  }

  lemma InsertWellFormed(ix: Index, key: Key, id: RowId)
    requires ix.WellFormed() && ix.Insert(key, id).Ok?
    ensures ix.Insert(key, id).value.WellFormed()
  {
    InPairs(ix);
    hide PairsOf;
    var after := ix.Insert(key, id).value;
    PairsAfterInsert(ix, after, key, id);
    assert id in ix.Bucket(key) <==> (key, id) in PairsOf(ix.entries);
  }

  lemma RemoveWellFormed(ix: Index, key: Key, id: RowId)
    requires ix.WellFormed()
    ensures ix.Remove(key, id).WellFormed()
  {
    if id in ix.Bucket(key) {
      InPairs(ix);
      PairsAre(ix.Remove(key, id), PairsOf(ix.entries) - {(key, id)});
    }
  }

  lemma InsertAgrees(ix: Index, rows: map<RowId, Row>, id: RowId, row: Row)
    requires ix.Agrees(rows) && id !in rows
    requires ix.Insert(BuildKey(ix.columns, row), id).Ok?
    ensures ix.Insert(BuildKey(ix.columns, row), id).value.Agrees(rows[id := row])
  {
    hide BuildKey, PairsOf;
    var key := BuildKey(ix.columns, row);
    var after := ix.Insert(key, id).value;
    InsertWellFormed(ix, key, id);
    forall k
      ensures after.Bucket(k) == if k == key then ix.Bucket(k) + {id} else ix.Bucket(k)
      ensures ix.unique ==> |after.Bucket(k)| <= 1
    {
      assert ix.unique ==> |ix.Bucket(k)| <= 1;
    }
    assert id !in ix.Bucket(key);
  }

  lemma RemoveAgrees(ix: Index, rows: map<RowId, Row>, id: RowId)
    requires ix.Agrees(rows) && id in rows
    ensures id in ix.Bucket(BuildKey(ix.columns, rows[id]))
    ensures ix.Remove(BuildKey(ix.columns, rows[id]), id).Agrees(rows - {id})
  {
    hide BuildKey, PairsOf;
    var key := BuildKey(ix.columns, rows[id]);
    assert id in ix.Bucket(key);
    RemoveWellFormed(ix, key, id);
    var after := ix.Remove(key, id);
    forall k
      ensures after.Bucket(k) == if k == key then ix.Bucket(k) - {id} else ix.Bucket(k)
      ensures ix.unique ==> |after.Bucket(k)| <= 1
    {
      assert ix.unique ==> |ix.Bucket(k)| <= 1;
    }
  }

  /** A successful insert of a fresh row is undone by removing it. */
  lemma InsertUndone(ix: Index, key: Key, id: RowId)
    requires ix.WellFormed() && ix.Fresh(id) && ix.Insert(key, id).Ok?
    ensures var after := ix.Insert(key, id).value;
            after.WellFormed() && after.Remove(key, id) == ix
  {
    InsertWellFormed(ix, key, id);
    hide PairsOf;
    var after := ix.Insert(key, id).value;
    assert id !in ix.Bucket(key) && after.Bucket(key) - {id} == ix.Bucket(key);
    EntriesRestored(ix.entries, key, ix.Bucket(key), id);
  }

  lemma EntriesRestored(entries: map<Key, set<RowId>>, key: Key, bucket: set<RowId>, id: RowId)
    requires bucket == (if key in entries then entries[key] else {}) && (key in entries ==> entries[key] != {})
    ensures var after := entries[key := bucket + {id}];
            (if bucket == {} then after - {key} else after[key := bucket]) == entries
  {
  }

  /** Removing a row that sits under its key, alone there if the index is unique, is undone by inserting it. */
  lemma RemoveUndone(ix: Index, key: Key, id: RowId)
    requires ix.WellFormed() && id in ix.Bucket(key)
    requires ix.unique ==> |ix.Bucket(key)| <= 1
    ensures ix.Remove(key, id).Insert(key, id) == Ok(ix)
  {
    RemoveDefined(ix, key, id);
    hide PairsOf;
    var mid := ix.Remove(key, id);
    assert mid.Bucket(key) == ix.Bucket(key) - {id};
    assert ix.Bucket(key) == mid.Bucket(key) + {id};
    assert ix.unique ==> mid.Bucket(key) == {};
    assert mid.Insert(key, id).value.entries == ix.entries;
  }

  lemma AgreesFresh(ix: Index, rows: map<RowId, Row>, id: RowId)
    requires ix.Agrees(rows) && id !in rows
    ensures ix.Fresh(id)
  {
    forall key | key in ix.entries ensures id !in ix.entries[key] {
      assert ix.Bucket(key) == ix.entries[key];
    }
  }

  ghost function KeyedRows(columns: seq<string>, rows: map<RowId, Row>): set<(Key, RowId)> {
    set id | id in rows :: (BuildKey(columns, rows[id]), id)
  }

  lemma {:induction false} KeyedCount(columns: seq<string>, rows: map<RowId, Row>)
    ensures |KeyedRows(columns, rows)| == |rows|
    decreases |rows|
  {
    hide BuildKey;
    if rows != map[] {
      var id :| id in rows;
      var rest := rows - {id};
      KeyedCount(columns, rest);
      assert rows.Keys == rest.Keys + {id};
      assert KeyedRows(columns, rows) == KeyedRows(columns, rest) + {(BuildKey(columns, rows[id]), id)};
    }
  }

  /** An agreeing index has one entry per row. */
  lemma AgreesCount(ix: Index, rows: map<RowId, Row>)
    requires ix.Agrees(rows)
    ensures ix.count == |rows|
  {
    forall key, id ensures (key, id) in KeyedRows(ix.columns, rows) <==> id in ix.Bucket(key) {
      assert id in rows ==> (BuildKey(ix.columns, rows[id]), id) in KeyedRows(ix.columns, rows);
    }
    PairsAre(ix, KeyedRows(ix.columns, rows));
    KeyedCount(ix.columns, rows);
  }
}
