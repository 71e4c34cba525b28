/**
 What conditions, cells and aggregates of the columnar engine mean, said of integers, texts and JSON values
 rather than of the engine's own operations.
 */
module ColumnarMeaning {
  import opened Common
  import opened Metadata
  import opened Strings
  import opened GroupKeys
  import opened Columnar
  import opened ColumnarTable

  function IntOrder(a: int, b: int): Ordering {
    if a < b then Less else if a == b then Equal else Greater
  }

  function SmallerInt(a: int, b: int): int {
    if a <= b then a else b
  }

  function LargerInt(a: int, b: int): int {
    if a >= b then a else b
  }

  ghost predicate ExactOn<N, F>(num: Numbers<N, F>, a: int, b: int) {
    && num.compare(num.ofInt(a), num.ofInt(b)) == Some(IntOrder(a, b))
    && num.add(num.ofInt(a), num.ofInt(b)) == num.ofInt(a + b)
    && num.min(num.ofInt(a), num.ofInt(b)) == num.ofInt(SmallerInt(a, b))
    && num.max(num.ofInt(a), num.ofInt(b)) == num.ofInt(LargerInt(a, b))
  }

  /** On floats that stand for integers, the float operations are the integer ones: rounding aside. */
  ghost predicate WithoutRounding<N, F>(num: Numbers<N, F>) {
    && num.zero == num.ofInt(0) && num.one == num.ofInt(1)
    && (forall a: int, b: int :: ExactOn(num, a, b))
  }

  // ---------------------------------------------------------------------------
  // Conditions
  // ---------------------------------------------------------------------------

  predicate IntHolds(a: int, op: CompareOp, b: int) {
    match op
    case OpEq => a == b
    case OpNe => a != b
    case OpLt => a < b
    case OpLte => a <= b
    case OpGt => a > b
    case OpGte => a >= b
  }

  /** On integer cells the six operators are the integer comparisons. */
  lemma IntCondition<N, F>(num: Numbers<N, F>, a: int, op: CompareOp, b: int)
    requires WithoutRounding(num)
    ensures Compare(num, Value.Int(a), op, Value.Int(b)) <==> IntHolds(a, op, b)
  {
    assert ExactOn(num, a, b);
  }

  ghost predicate TextHolds(a: string, op: CompareOp, b: string) {
    match op
    case OpEq => a == b
    case OpNe => a != b
    case OpLt => exists i: nat :: FirstDiffers(a, b, i)
    case OpLte => a == b || exists i: nat :: FirstDiffers(a, b, i)
    case OpGt => exists i: nat :: FirstDiffers(b, a, i)
    case OpGte => a == b || exists i: nat :: FirstDiffers(b, a, i)
  }

  /** On text cells they are equality and the order told by the first character that differs. */
  lemma TextCondition<N, F>(num: Numbers<N, F>, a: string, op: CompareOp, b: string)
    ensures Compare(num, Value<F>.Text(a), op, Text(b)) <==> TextHolds(a, op, b)
  {
    StringLessIs(a, b);
    StringLessIs(b, a);
    StringIrreflexive(a);
    if a != b {
      StringTrichotomy(a, b);
    }
    hide FirstDiffers, StringLess;
  }

  /** Null satisfies `=`, `<=` and `>=` with null and `!=` with a value, from either side, and nothing else. */
  lemma NullCondition<N, F>(num: Numbers<N, F>, v: Value<F>, op: CompareOp)
    ensures Compare(num, Value.Null, op, v) <==> if v.Null? then op.OpEq? || op.OpLte? || op.OpGte? else op.OpNe?
    ensures Compare(num, v, op, Value.Null) <==> if v.Null? then op.OpEq? || op.OpLte? || op.OpGte? else op.OpNe?
  {
  }

  /** The operators are related as their names say, whatever the cells. */
  lemma Operators<N, F>(num: Numbers<N, F>, a: Value<F>, b: Value<F>)
    ensures Compare(num, a, OpNe, b) <==> !Compare(num, a, OpEq, b)
    ensures Compare(num, a, OpLte, b) <==> Compare(num, a, OpLt, b) || Compare(num, a, OpEq, b)
    ensures Compare(num, a, OpGte, b) <==> Compare(num, a, OpGt, b) || Compare(num, a, OpEq, b)
    ensures !(Compare(num, a, OpLt, b) && Compare(num, a, OpGt, b))
    ensures !(Compare(num, a, OpLt, b) && Compare(num, a, OpEq, b))
  {
  }

  /** An integer cell by its number; a null cell only differs from a number. */
  predicate CellHolds<F>(cell: Value<F>, op: CompareOp, b: int) {
    match cell
    case Int(a) => IntHolds(a, op, b)
    case _ => op.OpNe?
  }

  /** The rows whose cell in column `c` satisfies the condition, in order. */
  function RowsWhere<F>(rows: seq<Row<F>>, c: nat, op: CompareOp, b: int): seq<Row<F>>
    requires forall row | row in rows :: c < |row|
  {
    if rows == [] then []
    else
      var last := rows[|rows| - 1];
      assert last in rows && forall row | row in rows[..|rows| - 1] :: row in rows;
      RowsWhere(rows[..|rows| - 1], c, op, b) + if CellHolds(last[c], op, b) then [last] else []
  }

  ghost predicate IntColumn<F>(rows: seq<Row<F>>, c: nat) {
    forall row: Row<F> | row in rows :: c < |row| && (row[c].Int? || row[c].Null?)
  }

  lemma CellCondition<N, F>(num: Numbers<N, F>, cell: Value<F>, op: CompareOp, b: int)
    requires WithoutRounding(num) && (cell.Int? || cell.Null?)
    ensures Compare(num, cell, op, Value.Int(b)) <==> CellHolds(cell, op, b)
  {
    if cell.Int? {
      IntCondition(num, cell.n, op, b);
    } else {
      NullCondition(num, Value.Int(b), op);
    }
  }

  lemma OneResolved<N, F>(num: Numbers<N, F>, row: Row<F>, r: Resolved<F>)
    requires r.column < |row|
    ensures RowMatches(num, row, [r]) <==> Compare(num, row[r.column], r.op, r.value)
  {
    hide Compare;
    assert [r][0] == r;
  }

  lemma {:induction false} MatchingIsWhere<N, F>(num: Numbers<N, F>, rows: seq<Row<F>>, c: nat, op: CompareOp, b: int)
    requires WithoutRounding(num) && IntColumn(rows, c)
    ensures MatchingOf(num, rows, [Resolved(c, op, Value.Int(b))]) == RowsWhere(rows, c, op, b)
  {
    if rows != [] {
      var init, last := rows[..|rows| - 1], rows[|rows| - 1];
      assert last in rows && forall row | row in init :: row in rows;
      hide Compare, WithoutRounding;
      MatchingIsWhere(num, init, c, op, b);
      CellCondition(num, last[c], op, b);
      OneResolved(num, last, Resolved(c, op, Value.Int(b)));
    }
  }

  /** A condition on an integer column keeps exactly the rows whose integer satisfies it. */
  lemma IntFilter<N, F>(num: Numbers<N, F>, schema: seq<ColumnDef>, nameIdx: map<string, nat>, rows: seq<Row<F>>,
      c: nat, op: CompareOp, n: N, b: int)
    requires WithoutRounding(num) && NamesIndexed(schema, nameIdx) && c < |schema| && schema[c].ty == TInt
    requires IntColumn(rows, c) && num.asInt(n) == Some(b) && forall row | row in rows :: |row| == |schema|
    ensures var filter := [Condition(schema[c].name, op, Number(n))];
            && ResolveOne(num, schema, nameIdx, filter[0]).Ok?
            && MatchingOf(num, rows, Conditions(num, schema, nameIdx, filter)) == RowsWhere(rows, c, op, b)
  {
    hide WithoutRounding, MatchingOf, RowsWhere;
    var filter := [Condition(schema[c].name, op, Number(n))];
    assert ResolveOne(num, schema, nameIdx, filter[0]) == Ok(Resolved(c, op, Value.Int(b)));
    assert Conditions(num, schema, nameIdx, filter) == [Resolved(c, op, Value.Int(b))];
    MatchingIsWhere(num, rows, c, op, b);
  }

  // ---------------------------------------------------------------------------
  // Cells
  // ---------------------------------------------------------------------------

  /** The JSON values a column takes. */
  predicate JsonFits<N, F>(num: Numbers<N, F>, json: Json<N>, ty: ColumnType) {
    match json
    case Null => true
    case Bool(_) => ty == TBool
    case String(_) => ty == TText
    case Number(n) => (ty == TInt && (num.asInt(n).Some? || num.asFloat(n).Some?))
        || (ty == TFloat && num.asFloat(n).Some?)
    case _ => false
  }

  /** Reading a number and writing it again gives the number. */
  ghost predicate NumbersKept<N(!new), F>(num: Numbers<N, F>) {
    && (forall n: N | num.asInt(n).Some? :: num.fromInt(num.asInt(n).value) == n)
    && (forall n: N | num.asFloat(n).Some? :: num.fromFloat(num.asFloat(n).value) == n)
  }

  /** The cell is of the column's type, or null. */
  predicate CellOfType<F>(v: Value<F>, ty: ColumnType) {
    match v
    case Int(_) => ty == TInt
    case Float(_) => ty == TFloat
    case Bool(_) => ty == TBool
    case Text(_) => ty == TText
    case Null => true
  }

  /** A fraction in an integer column is cut. */
  predicate IsCut<N, F>(num: Numbers<N, F>, json: Json<N>, ty: ColumnType) {
    ty == TInt && json.Number? && num.asInt(json.n).None?
  }

  /** A value is taken exactly when it fits; the cell is of the column's type and reads back as the value, unless cut.
      */
  lemma CoerceReads<N(!new), F>(num: Numbers<N, F>, json: Json<N>, ty: ColumnType)
    requires NumbersKept(num)
    ensures Coerce(num, json, ty).Ok? <==> JsonFits(num, json, ty)
    ensures Coerce(num, json, ty).Ok? ==> CellOfType(Coerce(num, json, ty).value, ty)
    ensures Coerce(num, json, ty).Ok? && !IsCut(num, json, ty) ==> ToJson(num, Coerce(num, json, ty).value) == json
    ensures Coerce(num, json, ty).Ok? && IsCut(num, json, ty) ==>
            Coerce(num, json, ty).value == Value.Int(num.truncate(num.asFloat(json.n).value))
  {
  }

  /** What a row that was inserted shows of a column: the given value, or null when it gave none. */
  lemma InsertedReads<N(!new), F>(num: Numbers<N, F>, def: ColumnDef, row: map<string, Json<N>>)
    requires NumbersKept(num) && CellFor(num, def, row).Ok? && (def.name in row ==> !IsCut(num, row[def.name], def.ty))
    ensures ToJson(num, CellFor(num, def, row).value) == if def.name in row then row[def.name] else Json.Null
  {
    if def.name in row {
      CoerceReads(num, row[def.name], def.ty);
    }
  }

  // ---------------------------------------------------------------------------
  // Aggregates
  // ---------------------------------------------------------------------------

  /** Integers as they are, booleans as one and zero. */
  function IntOf<F>(cell: Option<Value<F>>): Option<int> {
    match cell
    case Some(Int(n)) => Some(n)
    case Some(Bool(b)) => Some(if b then 1 else 0)
    case _ => None
  }

  function IntsOf<F>(cells: Cells<F>): seq<int> {
    if cells == [] then []
    else
      IntsOf(cells[..|cells| - 1])
      + match IntOf(cells[|cells| - 1]) case None => [] case Some(n) => [n]
  }

  function Total(xs: seq<int>): int {
    if xs == [] then 0 else Total(xs[..|xs| - 1]) + xs[|xs| - 1]
  }

  function Floats<N, F>(num: Numbers<N, F>, xs: seq<int>): seq<F> {
    seq(|xs|, i requires 0 <= i < |xs| => num.ofInt(xs[i]))
  }

  ghost predicate NoFloats<F>(cells: Cells<F>) {
    forall c | c in cells :: c.None? || !c.value.Float?
  }

  lemma {:induction false} NumericInts<N, F>(num: Numbers<N, F>, cells: Cells<F>)
    requires num.zero == num.ofInt(0) && num.one == num.ofInt(1) && NoFloats(cells)
    ensures Numeric(num, cells) == Floats(num, IntsOf(cells))
  {
    if cells != [] {
      var init, last := cells[..|cells| - 1], cells[|cells| - 1];
      assert last in cells && forall c | c in init :: c in cells;
      NumericInts(num, init);
    }
  }

  lemma FloatsInit<N, F>(num: Numbers<N, F>, xs: seq<int>)
    requires xs != []
    ensures Floats(num, xs)[..|xs| - 1] == Floats(num, xs[..|xs| - 1])
    ensures Floats(num, xs)[1..] == Floats(num, xs[1..])
  {
  }

  lemma {:induction false} SumInts<N, F>(num: Numbers<N, F>, xs: seq<int>)
    requires WithoutRounding(num)
    ensures FoldLeft(num.add, num.zero, Floats(num, xs)) == num.ofInt(Total(xs))
  {
    if xs != [] {
      var init := xs[..|xs| - 1];
      SumInts(num, init);
      FloatsInit(num, xs);
      assert ExactOn(num, Total(init), xs[|xs| - 1]);
    }
  }

  /** The least of `first` and the list. */
  ghost predicate IsMinimum(m: int, first: int, xs: seq<int>) {
    (m == first || m in xs) && m <= first && forall x | x in xs :: m <= x
  }

  ghost predicate IsMaximum(m: int, first: int, xs: seq<int>) {
    (m == first || m in xs) && m >= first && forall x | x in xs :: m >= x
  }

  lemma {:induction false} MinInts<N, F>(num: Numbers<N, F>, first: int, xs: seq<int>) returns (m: int)
    requires WithoutRounding(num)
    ensures FoldLeft(num.min, num.ofInt(first), Floats(num, xs)) == num.ofInt(m) && IsMinimum(m, first, xs)
  {
    if xs == [] {
      m := first;
    } else {
      var init, last := xs[..|xs| - 1], xs[|xs| - 1];
      var before := MinInts(num, first, init);
      FloatsInit(num, xs);
      m := SmallerInt(before, last);
      assert ExactOn(num, before, last);
      assert xs == init + [last];
    }
  }

  lemma {:induction false} MaxInts<N, F>(num: Numbers<N, F>, first: int, xs: seq<int>) returns (m: int)
    requires WithoutRounding(num)
    ensures FoldLeft(num.max, num.ofInt(first), Floats(num, xs)) == num.ofInt(m) && IsMaximum(m, first, xs)
  {
    if xs == [] {
      m := first;
    } else {
      var init, last := xs[..|xs| - 1], xs[|xs| - 1];
      var before := MaxInts(num, first, init);
      FloatsInit(num, xs);
      m := LargerInt(before, last);
      assert ExactOn(num, before, last);
      assert xs == init + [last];
    }
  }

  /** Sum, count and average of cells without floats, nulls and texts left out, booleans as one and zero. */
  lemma IntAggregates<N, F>(num: Numbers<N, F>, cells: Cells<F>)
    requires WithoutRounding(num) && NoFloats(cells)
    ensures var xs := IntsOf(cells);
            && Aggregated(num, Sum, cells) == Float(num.ofInt(Total(xs)))
            && Aggregated(num, Avg, cells)
               == if xs == [] then Value.Null else Float(num.divide(num.ofInt(Total(xs)), num.ofInt(|xs|)))
  {
    NumericInts(num, cells);
    SumInts(num, IntsOf(cells));
  }

  /** Least and greatest of the same, null when there is none. */
  lemma IntExtremes<N, F>(num: Numbers<N, F>, cells: Cells<F>) returns (least: int, greatest: int)
    requires WithoutRounding(num) && NoFloats(cells)
    ensures var xs := IntsOf(cells);
            if xs == [] then
              Aggregated(num, MinOf, cells) == Value.Null == Aggregated(num, MaxOf, cells)
            else
              && Aggregated(num, MinOf, cells) == Float(num.ofInt(least)) && IsMinimum(least, xs[0], xs[1..])
              && Aggregated(num, MaxOf, cells) == Float(num.ofInt(greatest)) && IsMaximum(greatest, xs[0], xs[1..])
  {
    var xs := IntsOf(cells);
    NumericInts(num, cells);
    least, greatest := 0, 0;
    if xs != [] {
      FloatsInit(num, xs);
      least := MinInts(num, xs[0], xs[1..]);
      greatest := MaxInts(num, xs[0], xs[1..]);
    }
  }

  /** count of a column is the number of its cells that are not null. */
  lemma CountIs<F>(cells: Cells<F>, cell: Option<Value<F>>)
    ensures Present<F>([]) == 0
    ensures Present(cells + [cell]) == Present(cells) + if cell == Some(Value.Null) then 0 else 1
  {
    assert (cells + [cell])[..|cells|] == cells;
  }
}
