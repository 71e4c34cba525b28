/**
 A column-major table with predicate scans and group-by aggregation.  JSON numbers and
 floats are abstract: every float operation the engine performs is a field of `Numbers`.
 */
module Columnar {
  import opened Common
  import opened Metadata
  import opened GroupKeys
  import opened Strings

  datatype Ordering = Less | Equal | Greater

  /** JSON numbers `N` and floats `F`. */
  datatype Numbers<!N, !F> = Numbers(
    asInt: N -> Option<int>, asFloat: N -> Option<F>, truncate: F -> int, ofInt: int -> F, fromInt: int -> N,
        fromFloat: F -> N,
    zero: F, one: F, add: (F, F) -> F, min: (F, F) -> F, max: (F, F) -> F, divide: (F, F) -> F,
    compare: (F, F) -> Option<Ordering>, show: F -> string)

  datatype ColumnType = TInt | TFloat | TText | TBool

  datatype ColumnDef = ColumnDef(name: string, ty: ColumnType)

  datatype ColumnarError = UnknownColumn(name: string) | TypeMismatch | EmptySchema | DuplicateColumn(name: string)

  datatype CompareOp = OpEq | OpNe | OpLt | OpLte | OpGt | OpGte

  datatype Condition<N> = Condition(column: string, op: CompareOp, value: Json<N>)

  datatype AggFunc = CountRows | Sum | MinOf | MaxOf | Avg

  datatype AggSpec = AggSpec(func: AggFunc, column: string)

  datatype GroupRow<F> = GroupRow(keys: seq<Value<F>>, values: seq<Value<F>>)

  type Row<F> = seq<Value<F>>

  // ---------------------------------------------------------------------------
  // Cells
  // ---------------------------------------------------------------------------

  function AsFloat<N, F>(num: Numbers<N, F>, v: Value<F>): Option<F> {
    match v
    case Int(n) => Some(num.ofInt(n))
    case Float(f) => Some(f)
    case Bool(b) => Some(if b then num.one else num.zero)
    case _ => None
  }

  function Coerce<N, F>(num: Numbers<N, F>, json: Json<N>, ty: ColumnType): Result<Value<F>, ColumnarError> {
    if json.Null? then Ok(Value.Null)
    else
      match ty
      case TInt =>
        if !json.Number? then Err(TypeMismatch)
        else if num.asInt(json.n).Some? then Ok(Int(num.asInt(json.n).value))
        else if num.asFloat(json.n).Some? then Ok(Int(num.truncate(num.asFloat(json.n).value)))
        else Err(TypeMismatch)
      case TFloat =>
        if json.Number? && num.asFloat(json.n).Some? then Ok(Float(num.asFloat(json.n).value)) else Err(TypeMismatch)
      case TBool => if json.Bool? then Ok(Value.Bool(json.b)) else Err(TypeMismatch)
      case TText => if json.String? then Ok(Text(json.s)) else Err(TypeMismatch)
  }

  function CompareText(a: string, b: string): Ordering {
    if a == b then Equal else if StringLess(a, b) then Less else Greater
  }

  function CompareCells<N, F>(num: Numbers<N, F>, cell: Value<F>, rhs: Value<F>): Option<Ordering> {
    if cell.Null? && rhs.Null? then Some(Equal)
    else if cell.Null? || rhs.Null? then None
    else if cell.Text? && rhs.Text? then Some(CompareText(cell.s, rhs.s))
    else if AsFloat(num, cell).Some? && AsFloat(num, rhs).Some?
        then num.compare(AsFloat(num, cell).value, AsFloat(num, rhs).value)
    else None
  }

  predicate Compare<N, F>(num: Numbers<N, F>, cell: Value<F>, op: CompareOp, rhs: Value<F>) {
    var ord := CompareCells(num, cell, rhs);
    match op
    case OpEq => ord == Some(Equal)
    case OpNe => ord != Some(Equal)
    case OpLt => ord == Some(Less)
    case OpLte => ord == Some(Less) || ord == Some(Equal)
    case OpGt => ord == Some(Greater)
    case OpGte => ord == Some(Greater) || ord == Some(Equal)
  }

  function ToJson<N, F>(num: Numbers<N, F>, v: Value<F>): Json<N> {
    match v
    case Int(n) => Number(num.fromInt(n))
    case Float(f) => Number(num.fromFloat(f))
    case Bool(b) => Json.Bool(b)
    case Text(s) => String(s)
    case Null => Json.Null
  }

  // ---------------------------------------------------------------------------
  // Accumulators
  // ---------------------------------------------------------------------------

  datatype Acc<F> = Acc(count: int, sum: F, min: Option<F>, max: Option<F>)

  function NewAcc<N, F>(num: Numbers<N, F>): Acc<F> {
    Acc(0, num.zero, None, None)
  }

  function NewAccs<N, F>(num: Numbers<N, F>, n: nat): (accs: seq<Acc<F>>)
    ensures |accs| == n
  {
    seq(n, i => NewAcc(num))
  }

  /** One row's cell; `None` stands for `count(*)`. */
  function Update<N, F>(num: Numbers<N, F>, acc: Acc<F>, func: AggFunc, cell: Option<Value<F>>): Acc<F> {
    if func.CountRows? then
      if cell.None? || !cell.value.Null? then acc.(count := acc.count + 1) else acc
    else
      var x := if cell.Some? then AsFloat(num, cell.value) else None;
      match x
      case None => acc
      case Some(n) =>
        Acc(acc.count + 1, num.add(acc.sum, n),
            Some(if acc.min.Some? then num.min(acc.min.value, n) else n),
            Some(if acc.max.Some? then num.max(acc.max.value, n) else n))
  }

  function Finish<N, F>(num: Numbers<N, F>, acc: Acc<F>, func: AggFunc): Value<F> {
    match func
    case CountRows => Int(acc.count)
    case Sum => Float(acc.sum)
    case MinOf => if acc.min.Some? then Float(acc.min.value) else Value.Null
    case MaxOf => if acc.max.Some? then Float(acc.max.value) else Value.Null
    case Avg => if acc.count > 0 then Float(num.divide(acc.sum, num.ofInt(acc.count))) else Value.Null
  }

  // ---------------------------------------------------------------------------
  // Meaning of an aggregate: folds over the cells of a group
  // ---------------------------------------------------------------------------

  type Cells<F> = seq<Option<Value<F>>>

  function Fold<N, F>(num: Numbers<N, F>, func: AggFunc, cells: Cells<F>): Acc<F> {
    if cells == [] then NewAcc(num)
    else Update(num, Fold(num, func, cells[..|cells| - 1]), func, cells[|cells| - 1])
  }

  /** The cells that are numbers, in order. */
  function Numeric<N, F>(num: Numbers<N, F>, cells: Cells<F>): seq<F> {
    if cells == [] then []
    else
      var init, last := Numeric(num, cells[..|cells| - 1]), cells[|cells| - 1];
      if last.Some? && AsFloat(num, last.value).Some? then init + [AsFloat(num, last.value).value] else init
  }

  function FoldLeft<F>(op: (F, F) -> F, start: F, xs: seq<F>): F {
    if xs == [] then start else op(FoldLeft(op, start, xs[..|xs| - 1]), xs[|xs| - 1])
  }

  function Best<F>(op: (F, F) -> F, xs: seq<F>): Option<F> {
    if xs == [] then None else Some(FoldLeft(op, xs[0], xs[1..]))
  }

  function Present<F>(cells: Cells<F>): nat {
    if cells == [] then 0
    else
      var last := cells[|cells| - 1];
      Present(cells[..|cells| - 1]) + (if last.None? || !last.value.Null? then 1 else 0)
  }

  /** The value an aggregate should have, straight from the cells. */
  function Aggregated<N, F>(num: Numbers<N, F>, func: AggFunc, cells: Cells<F>): Value<F> {
    var xs := Numeric(num, cells);
    match func
    case CountRows => Int(Present(cells))
    case Sum => Float(FoldLeft(num.add, num.zero, xs))
    case MinOf => (match Best(num.min, xs) case None => Value.Null case Some(m) => Float(m))
    case MaxOf => (match Best(num.max, xs) case None => Value.Null case Some(m) => Float(m))
    case Avg => if xs == [] then Value.Null else Float(num.divide(FoldLeft(num.add, num.zero, xs), num.ofInt(|xs|)))
  }

  lemma BestAppend<F>(op: (F, F) -> F, xs: seq<F>, x: F)
    ensures Best(op, xs + [x]) == Some(if xs == [] then x else op(Best(op, xs).value, x))
  {
    if xs == [] {
      assert ([] + [x])[1..] == [];
    } else {
      var t := (xs + [x])[1..];
      assert t == xs[1..] + [x] && t[..|t| - 1] == xs[1..];
    }
  }

  lemma FoldLeftAppend<F>(op: (F, F) -> F, start: F, xs: seq<F>, x: F)
    ensures FoldLeft(op, start, xs + [x]) == op(FoldLeft(op, start, xs), x)
  {
    assert (xs + [x])[..|xs|] == xs;
  }

  lemma {:induction false} FoldNumeric<N, F>(num: Numbers<N, F>, func: AggFunc, cells: Cells<F>)
    requires !func.CountRows?
    ensures var xs, acc := Numeric(num, cells), Fold(num, func, cells);
            && acc.count == |xs| && acc.sum == FoldLeft(num.add, num.zero, xs)
            && acc.min == Best(num.min, xs) && acc.max == Best(num.max, xs)
  {
    if cells != [] {
      var init := cells[..|cells| - 1];
      FoldNumeric(num, func, init);
      var xs, last := Numeric(num, init), cells[|cells| - 1];
      if last.Some? && AsFloat(num, last.value).Some? {
        var x := AsFloat(num, last.value).value;
        FoldLeftAppend(num.add, num.zero, xs, x);
        BestAppend(num.min, xs, x);
        BestAppend(num.max, xs, x);
      }
    }
  }

  lemma {:induction false} FoldCount<N, F>(num: Numbers<N, F>, cells: Cells<F>)
    ensures Fold(num, CountRows, cells).count == Present(cells)
  {
    if cells != [] {
      FoldCount(num, cells[..|cells| - 1]);
    }
  }

  /** One pass of accumulator updates computes the aggregate. */
  lemma FoldIsAggregate<N, F>(num: Numbers<N, F>, func: AggFunc, cells: Cells<F>)
    ensures Finish(num, Fold(num, func, cells), func) == Aggregated(num, func, cells)
  {
    if func.CountRows? {
      FoldCount(num, cells);
    } else {
      FoldNumeric(num, func, cells);
    }
  }

  // ---------------------------------------------------------------------------
  // Groups
  // ---------------------------------------------------------------------------

  function Pick<F>(row: Row<F>, columns: seq<nat>): seq<Value<F>>
    requires forall c | c in columns :: c < |row|
  {
    seq(|columns|, i requires 0 <= i < |columns| => assert columns[i] in columns; row[columns[i]])
  }

  /** Column of an aggregate: a position, or none for `*`. */
  datatype Agg = Agg(func: AggFunc, column: Option<nat>)

  ghost predicate Fits<F>(rows: seq<Row<F>>, gcols: seq<nat>, aggs: seq<Agg>) {
    && (forall row, c | row in rows && c in gcols :: c < |row|)
    && (forall row, a | row in rows && a in aggs && a.column.Some? :: a.column.value < |row|)
  }

  function CellOf<F>(row: Row<F>, a: Agg): Option<Value<F>>
    requires a.column.Some? ==> a.column.value < |row|
  {
    if a.column.None? then None else Some(row[a.column.value])
  }

  function RowKey<N, F>(num: Numbers<N, F>, row: Row<F>, gcols: seq<nat>): string
    requires forall c | c in gcols :: c < |row|
  {
    TupleKey(num.show, Pick(row, gcols))
  }

  /** The rows of one group, in row order. */
  function Members<N, F>(num: Numbers<N, F>, rows: seq<Row<F>>, gcols: seq<nat>, key: string): seq<Row<F>>
    requires forall row, c | row in rows && c in gcols :: c < |row|
  {
    if rows == [] then []
    else
      var init, last := rows[..|rows| - 1], rows[|rows| - 1];
      assert last in rows;
      assert forall row | row in init :: row in rows;
      Members(num, init, gcols, key) + (if RowKey(num, last, gcols) == key then [last] else [])
  }

  /** Group keys in order of first appearance; a global aggregate has its one group even over no rows. */
  function Order<N, F>(num: Numbers<N, F>, rows: seq<Row<F>>, gcols: seq<nat>): seq<string>
    requires forall row, c | row in rows && c in gcols :: c < |row|
  {
    if rows == [] then (if gcols == [] then [""] else [])
    else
      var init, last := rows[..|rows| - 1], rows[|rows| - 1];
      assert last in rows;
      assert forall row | row in init :: row in rows;
      var before, key := Order(num, init, gcols), RowKey(num, last, gcols);
      if key in before then before else before + [key]
  }

  function LeadingKeys<F>(members: seq<Row<F>>, gcols: seq<nat>): seq<Value<F>>
    requires forall row, c | row in members && c in gcols :: c < |row|
  {
    if members == [] then [] else assert members[0] in members; Pick(members[0], gcols)
  }

  function GroupCells<F>(members: seq<Row<F>>, a: Agg): Cells<F>
    requires forall row | row in members && a.column.Some? :: a.column.value < |row|
  {
    seq(|members|, i requires 0 <= i < |members| => assert members[i] in members; CellOf(members[i], a))
  }

  /** The row that the members of a group should produce. */
  function ResultOf<N, F>(num: Numbers<N, F>, members: seq<Row<F>>, gcols: seq<nat>, aggs: seq<Agg>): GroupRow<F>
    requires Fits(members, gcols, aggs)
  {
    GroupRow(LeadingKeys(members, gcols),
             seq(|aggs|, i requires 0 <= i < |aggs| => assert aggs[i] in aggs;
                 Aggregated(num, aggs[i].func, GroupCells(members, aggs[i]))))
  }

  function GroupResult<N, F>(num: Numbers<N, F>, rows: seq<Row<F>>, gcols: seq<nat>, aggs: seq<Agg>,
      key: string): GroupRow<F>
    requires Fits(rows, gcols, aggs)
  {
    MembersAreRows(num, rows, gcols, key);
    ResultOf(num, Members(num, rows, gcols, key), gcols, aggs)
  }

  lemma {:induction false} MembersAreRows<N, F>(num: Numbers<N, F>, rows: seq<Row<F>>, gcols: seq<nat>, key: string)
    requires forall row, c | row in rows && c in gcols :: c < |row|
    ensures forall row :: row in Members(num, rows, gcols, key) <==> row in rows && RowKey(num, row, gcols) == key
  {
    if rows != [] {
      var init := rows[..|rows| - 1];
      assert rows == init + [rows[|rows| - 1]];
      MembersAreRows(num, init, gcols, key);
    }
  }

  /** The whole answer: one row per group, in order of first appearance. */
  ghost function GroupBy<N, F>(num: Numbers<N, F>, rows: seq<Row<F>>, gcols: seq<nat>, aggs: seq<Agg>): seq<GroupRow<F>>
    requires Fits(rows, gcols, aggs)
  {
    var order := Order(num, rows, gcols);
    seq(|order|, i requires 0 <= i < |order| => GroupResult(num, rows, gcols, aggs, order[i]))
  }

  // ---------------------------------------------------------------------------
  // One pass
  // ---------------------------------------------------------------------------

  /** What the hash table holds for a group. */
  datatype Group<F> = Group(keys: seq<Value<F>>, accs: seq<Acc<F>>)

  ghost function StateOf<N, F>(num: Numbers<N, F>, members: seq<Row<F>>, gcols: seq<nat>, aggs: seq<Agg>): Group<F>
    requires Fits(members, gcols, aggs)
  {
    Group(LeadingKeys(members, gcols),
          seq(|aggs|, i requires 0 <= i < |aggs| => assert aggs[i] in aggs;
              Fold(num, aggs[i].func, GroupCells(members, aggs[i]))))
  }

  ghost function GroupState<N, F>(num: Numbers<N, F>, rows: seq<Row<F>>, gcols: seq<nat>, aggs: seq<Agg>,
      key: string): Group<F>
    requires Fits(rows, gcols, aggs)
  {
    MembersAreRows(num, rows, gcols, key);
    StateOf(num, Members(num, rows, gcols, key), gcols, aggs)
  }

  /** Finishing the accumulators of a group gives its result row. */
  lemma FinishState<N, F>(num: Numbers<N, F>, members: seq<Row<F>>, gcols: seq<nat>, aggs: seq<Agg>)
    requires Fits(members, gcols, aggs)
    ensures var g, r := StateOf(num, members, gcols, aggs), ResultOf(num, members, gcols, aggs);
            && r.keys == g.keys && |r.values| == |g.accs| == |aggs|
            && forall i | 0 <= i < |aggs| :: Finish(num, g.accs[i], aggs[i].func) == r.values[i]
  {
    forall i | 0 <= i < |aggs|
        ensures Finish(num, StateOf(num, members, gcols, aggs).accs[i], aggs[i].func)
        == ResultOf(num, members, gcols, aggs).values[i] {
      assert aggs[i] in aggs;
      FoldIsAggregate(num, aggs[i].func, GroupCells(members, aggs[i]));
    }
  }

  /** A hash table for the rows seen so far. */
  ghost predicate Tabulates<N, F>(num: Numbers<N, F>, rows: seq<Row<F>>, gcols: seq<nat>, aggs: seq<Agg>,
      order: seq<string>, groups: map<string, Group<F>>)
    requires Fits(rows, gcols, aggs)
  {
    && order == Order(num, rows, gcols)
    && (forall key :: key in groups <==> key in order)
    && forall key | key in groups :: groups[key] == GroupState(num, rows, gcols, aggs, key)
  }

  /** The group a row falls into, before the row is counted. */
  function EntryFor<N, F>(num: Numbers<N, F>, groups: map<string, Group<F>>, key: string, keys: seq<Value<F>>,
      aggs: seq<Agg>): Group<F> {
    if key in groups then groups[key] else Group(keys, NewAccs(num, |aggs|))
  }

  ghost predicate Updated<N, F>(num: Numbers<N, F>, before: Group<F>, after: Group<F>, row: Row<F>, aggs: seq<Agg>)
    requires forall a | a in aggs && a.column.Some? :: a.column.value < |row|
  {
    && after.keys == before.keys && |before.accs| == |after.accs| == |aggs|
    && forall i | 0 <= i < |aggs| ::
         assert aggs[i] in aggs; after.accs[i] == Update(num, before.accs[i], aggs[i].func, CellOf(row, aggs[i]))
  }

  lemma MembersAppend<N, F>(num: Numbers<N, F>, rows: seq<Row<F>>, row: Row<F>, gcols: seq<nat>, key: string)
    requires forall r, c | r in rows + [row] && c in gcols :: c < |r|
    ensures row in rows + [row] && (forall r | r in rows :: r in rows + [row])
    ensures Members(num, rows + [row], gcols, key)
        == Members(num, rows, gcols, key) + (if RowKey(num, row, gcols) == key then [row] else [])
    ensures Order(num, rows + [row], gcols)
            == var before, k := Order(num, rows, gcols), RowKey(num, row, gcols);
            if k in before then before else before + [k]
  {
    var all := rows + [row];
    assert all[..|rows|] == rows && all[|rows|] == row;
    assert forall r | r in rows :: r in all;
  }

  /** A key is listed when it has members; the global key is always listed. */
  lemma {:induction false} OrderLists<N, F>(num: Numbers<N, F>, rows: seq<Row<F>>, gcols: seq<nat>, key: string)
    requires forall r, c | r in rows && c in gcols :: c < |r|
    ensures key in Order(num, rows, gcols) <==> Members(num, rows, gcols, key) != [] || (gcols == [] && key == "")
  {
    if rows != [] {
      var n := |rows| - 1;
      assert rows == rows[..n] + [rows[n]];
      MembersAppend(num, rows[..n], rows[n], gcols, key);
      OrderLists(num, rows[..n], gcols, key);
    }
  }

  lemma FoldAppend<N, F>(num: Numbers<N, F>, func: AggFunc, cells: Cells<F>, cell: Option<Value<F>>)
    ensures Fold(num, func, cells + [cell]) == Update(num, Fold(num, func, cells), func, cell)
  {
    assert (cells + [cell])[..|cells|] == cells;
  }

  lemma StateAppend<N, F>(num: Numbers<N, F>, members: seq<Row<F>>, row: Row<F>, gcols: seq<nat>, aggs: seq<Agg>,
      before: Group<F>, after: Group<F>)
    requires Fits(members + [row], gcols, aggs) && Fits(members, gcols, aggs) && row in members + [row]
    requires before == if members == [] then Group(Pick(row, gcols), NewAccs(num, |aggs|))
        else StateOf(num, members, gcols, aggs)
    requires Updated(num, before, after, row, aggs)
    ensures StateOf(num, members + [row], gcols, aggs) == after
  {
    hide Update;
    var now := StateOf(num, members + [row], gcols, aggs);
    forall i | 0 <= i < |aggs| ensures now.accs[i] == after.accs[i] {
      assert aggs[i] in aggs;
      var cells := GroupCells(members, aggs[i]);
      assert GroupCells(members + [row], aggs[i]) == cells + [CellOf(row, aggs[i])];
      FoldAppend(num, aggs[i].func, cells, CellOf(row, aggs[i]));
      assert members == [] ==> cells == [];
    }
    assert now.keys == after.keys by {
      assert (members + [row])[0] == if members == [] then row else members[0];
    }
  }

  /** A row leaves the groups of other keys alone. */
  lemma OtherGroup<N, F>(num: Numbers<N, F>, rows: seq<Row<F>>, row: Row<F>, gcols: seq<nat>, aggs: seq<Agg>,
      key: string)
    requires Fits(rows + [row], gcols, aggs) && Fits(rows, gcols, aggs) && row in rows + [row]
    requires key != RowKey(num, row, gcols)
    ensures GroupState(num, rows + [row], gcols, aggs, key) == GroupState(num, rows, gcols, aggs, key)
  {
    MembersFit(num, rows, gcols, aggs, key);
    MembersFit(num, rows + [row], gcols, aggs, key);
    MembersAppend(num, rows, row, gcols, key);
    hide GroupState, StateOf, RowKey, Members, Order, Fits;
    assert Members(num, rows + [row], gcols, key) == Members(num, rows, gcols, key);
  }

  /** A row updates the group of its key. */
  lemma OwnGroup<N, F>(num: Numbers<N, F>, rows: seq<Row<F>>, row: Row<F>, gcols: seq<nat>, aggs: seq<Agg>,
      groups: map<string, Group<F>>, after: Group<F>, key: string)
    requires Fits(rows + [row], gcols, aggs) && Fits(rows, gcols, aggs) && row in rows + [row]
    requires Tabulates(num, rows, gcols, aggs, Order(num, rows, gcols), groups) && key == RowKey(num, row, gcols)
    requires Updated(num, EntryFor(num, groups, key, Pick(row, gcols), aggs), after, row, aggs)
    ensures GroupState(num, rows + [row], gcols, aggs, key) == after
  {
    MembersFit(num, rows, gcols, aggs, key);
    MembersFit(num, rows + [row], gcols, aggs, key);
    MembersAppend(num, rows, row, gcols, key);
    EntryIsState(num, rows, row, gcols, aggs, groups, key);
    var members := Members(num, rows, gcols, key);
    assert row in members + [row];
    hide GroupState, StateOf, RowKey, Members, Order, Fits, Pick, Updated, Update, Tabulates, EntryFor;
    StateAppend(num, members, row, gcols, aggs, EntryFor(num, groups, key, Pick(row, gcols), aggs), after);
  }

  lemma MembersFit<N, F>(num: Numbers<N, F>, rows: seq<Row<F>>, gcols: seq<nat>, aggs: seq<Agg>, key: string)
    requires Fits(rows, gcols, aggs)
    ensures Fits(Members(num, rows, gcols, key), gcols, aggs)
    ensures GroupState(num, rows, gcols, aggs, key) == StateOf(num, Members(num, rows, gcols, key), gcols, aggs)
  {
    MembersAreRows(num, rows, gcols, key);
    hide StateOf, RowKey, Members;
  }

  /** The entry found or made for a row is the state of its group so far. */
  lemma EntryIsState<N, F>(num: Numbers<N, F>, rows: seq<Row<F>>, row: Row<F>, gcols: seq<nat>, aggs: seq<Agg>,
      groups: map<string, Group<F>>, key: string)
    requires Fits(rows, gcols, aggs) && forall c | c in gcols :: c < |row|
    requires Tabulates(num, rows, gcols, aggs, Order(num, rows, gcols), groups)
    ensures Fits(Members(num, rows, gcols, key), gcols, aggs)
    ensures var members := Members(num, rows, gcols, key);
            EntryFor(num, groups, key, Pick(row, gcols), aggs)
            == if members == [] then Group(Pick(row, gcols), NewAccs(num, |aggs|))
                else StateOf(num, members, gcols, aggs)
  {
    MembersFit(num, rows, gcols, aggs, key);
    OrderLists(num, rows, gcols, key);
    GlobalEntry(num, row, gcols, aggs);
    var members := Members(num, rows, gcols, key);
    assert key in groups <==> members != [] || (gcols == [] && key == "");
    assert key in groups ==> groups[key] == StateOf(num, members, gcols, aggs);
    hide StateOf, Pick, RowKey, Members, Order, NewAccs, Tabulates, Fits, GroupState;
  }

  /** The seeded global group is what a first row would create. */
  lemma GlobalEntry<N, F>(num: Numbers<N, F>, row: Row<F>, gcols: seq<nat>, aggs: seq<Agg>)
    requires forall c | c in gcols :: c < |row|
    ensures gcols == [] ==> StateOf(num, [], gcols, aggs) == Group(Pick(row, gcols), NewAccs(num, |aggs|))
  {
  }

  /** One row further, the hash table tabulates one row more. */
  lemma TabulateRow<N, F>(num: Numbers<N, F>, rows: seq<Row<F>>, row: Row<F>, gcols: seq<nat>, aggs: seq<Agg>,
      order: seq<string>, groups: map<string, Group<F>>, key: string, after: Group<F>)
    requires Fits(rows + [row], gcols, aggs) && Fits(rows, gcols, aggs) && row in rows + [row]
    requires Tabulates(num, rows, gcols, aggs, order, groups) && key == RowKey(num, row, gcols)
    requires Updated(num, EntryFor(num, groups, key, Pick(row, gcols), aggs), after, row, aggs)
    ensures Tabulates(num, rows + [row], gcols, aggs,
                      if key in groups then order else order + [key], groups[key := after])
  {
    MembersAppend(num, rows, row, gcols, key);
    hide GroupState, Updated, RowKey, Fits;
    forall k | k in groups[key := after]
        ensures groups[key := after][k] == GroupState(num, rows + [row], gcols, aggs, k) {
      if k == key {
        OwnGroup(num, rows, row, gcols, aggs, groups, after, key);
      } else {
        OtherGroup(num, rows, row, gcols, aggs, k);
      }
    }
  }

  /** Before any row, only the global group exists. */
  lemma TabulateNone<N, F>(num: Numbers<N, F>, gcols: seq<nat>, aggs: seq<Agg>)
    ensures Fits<F>([], gcols, aggs)
    ensures Tabulates(num, [], gcols, aggs, if gcols == [] then [""] else [],
                      if gcols == [] then map["" := Group([], NewAccs(num, |aggs|))] else map[])
  {
    var none: seq<Row<F>> := [];
    MembersFit(num, none, gcols, aggs, "");
    var g := StateOf(num, none, gcols, aggs);
    assert g.accs == NewAccs(num, |aggs|);
  }

  // ---------------------------------------------------------------------------
  // Groups partition the rows
  // ---------------------------------------------------------------------------

  function Sizes<N, F>(num: Numbers<N, F>, rows: seq<Row<F>>, gcols: seq<nat>, keys: seq<string>): nat
    requires forall row, c | row in rows && c in gcols :: c < |row|
  {
    if keys == [] then 0
        else Sizes(num, rows, gcols, keys[..|keys| - 1]) + |Members(num, rows, gcols, keys[|keys| - 1])|
  }

  lemma {:induction false} SizesAppend<N, F>(num: Numbers<N, F>, rows: seq<Row<F>>, row: Row<F>, gcols: seq<nat>,
      keys: seq<string>)
    requires forall r, c | r in rows + [row] && c in gcols :: c < |r|
    requires row in rows + [row] && forall i, j | 0 <= i < j < |keys| :: keys[i] != keys[j]
    ensures (forall r | r in rows :: r in rows + [row])
    ensures Sizes(num, rows + [row], gcols, keys)
            == Sizes(num, rows, gcols, keys) + (if RowKey(num, row, gcols) in keys then 1 else 0)
  {
    assert forall r | r in rows :: r in rows + [row];
    if keys != [] {
      var n := |keys| - 1;
      assert keys == keys[..n] + [keys[n]];
      SizesAppend(num, rows, row, gcols, keys[..n]);
      MembersAppend(num, rows, row, gcols, keys[n]);
    }
  }

  lemma {:induction false} OrderDistinct<N, F>(num: Numbers<N, F>, rows: seq<Row<F>>, gcols: seq<nat>)
    requires forall r, c | r in rows && c in gcols :: c < |r|
    ensures var order := Order(num, rows, gcols); forall i, j | 0 <= i < j < |order| :: order[i] != order[j]
  {
    if rows != [] {
      var init, last := rows[..|rows| - 1], rows[|rows| - 1];
      assert rows == init + [last];
      OrderDistinct(num, init, gcols);
      MembersAppend(num, init, last, gcols, "");
      var before := Order(num, init, gcols);
      assert forall i | 0 <= i < |before| :: before[i] in before;
    }
  }

  /** Every matching row is in exactly one group: the group sizes add up to the number of rows. */
  lemma {:induction false} GroupsPartition<N, F>(num: Numbers<N, F>, rows: seq<Row<F>>, gcols: seq<nat>)
    requires forall r, c | r in rows && c in gcols :: c < |r|
    ensures Sizes(num, rows, gcols, Order(num, rows, gcols)) == |rows|
  {
    if rows == [] {
      assert forall keys: seq<string> | |keys| <= 1 :: Sizes(num, rows, gcols, keys) == 0;
    } else {
      var n := |rows| - 1;
      var init, row := rows[..n], rows[n];
      assert rows == init + [row];
      GroupsPartition(num, init, gcols);
      OrderDistinct(num, init, gcols);
      var order, key := Order(num, init, gcols), RowKey(num, row, gcols);
      SizesAppend(num, init, row, gcols, order);
      MembersAppend(num, init, row, gcols, key);
      if key !in order {
        OrderLists(num, init, gcols, key);
        assert (order + [key])[..|order|] == order;
      }
    }
  }

  /** `count(*)` of a group is its size. */
  lemma CountStarIsSize<N, F>(num: Numbers<N, F>, members: seq<Row<F>>)
    ensures Aggregated(num, CountRows, GroupCells(members, Agg(CountRows, None))) == Int(|members|)
  {
    AllPresent(GroupCells(members, Agg(CountRows, None)));
  }

  /** The integers of one result column, added up. */
  function ColumnTotal<F>(out: seq<GroupRow<F>>, c: nat): int {
    if out == [] then 0
    else
      var last := out[|out| - 1];
      ColumnTotal(out[..|out| - 1], c) + (if c < |last.values| && last.values[c].Int? then last.values[c].n else 0)
  }

  lemma CountOfGroup<N, F>(num: Numbers<N, F>, rows: seq<Row<F>>, gcols: seq<nat>, aggs: seq<Agg>, key: string, c: nat)
    requires Fits(rows, gcols, aggs) && c < |aggs| && aggs[c] == Agg(CountRows, None)
    ensures var r := GroupResult(num, rows, gcols, aggs, key);
            |r.values| == |aggs| && r.values[c] == Int(|Members(num, rows, gcols, key)|)
  {
    var members := Members(num, rows, gcols, key);
    MembersFit(num, rows, gcols, aggs, key);
    hide Members;
    CountStarIsSize(num, members);
    assert GroupResult(num, rows, gcols, aggs, key) == ResultOf(num, members, gcols, aggs);
    hide GroupResult, Aggregated, Fits;
    assert aggs[c] in aggs;
  }

  /** The results of the first `n` groups in order. */
  ghost function FirstGroups<N, F>(num: Numbers<N, F>, rows: seq<Row<F>>, gcols: seq<nat>, aggs: seq<Agg>,
      keys: seq<string>): seq<GroupRow<F>>
    requires Fits(rows, gcols, aggs)
  {
    seq(|keys|, i requires 0 <= i < |keys| => GroupResult(num, rows, gcols, aggs, keys[i]))
  }

  lemma FirstGroupsInit<N, F>(num: Numbers<N, F>, rows: seq<Row<F>>, gcols: seq<nat>, aggs: seq<Agg>, keys: seq<string>)
    requires Fits(rows, gcols, aggs) && keys != []
    ensures var out, n := FirstGroups(num, rows, gcols, aggs, keys), |keys| - 1;
            && |out| == n + 1 && out[n] == GroupResult(num, rows, gcols, aggs, keys[n])
            && out[..n] == FirstGroups(num, rows, gcols, aggs, keys[..n])
  {
    hide GroupResult, Fits;
  }

  lemma {:induction false} CountsAre<N, F>(num: Numbers<N, F>, rows: seq<Row<F>>, gcols: seq<nat>, aggs: seq<Agg>,
      c: nat, keys: seq<string>)
    requires Fits(rows, gcols, aggs) && c < |aggs| && aggs[c] == Agg(CountRows, None)
    ensures ColumnTotal(FirstGroups(num, rows, gcols, aggs, keys), c) == Sizes(num, rows, gcols, keys)
  {
    if keys != [] {
      var init, key := keys[..|keys| - 1], keys[|keys| - 1];
      CountsAre(num, rows, gcols, aggs, c, init);
      CountOfGroup(num, rows, gcols, aggs, key, c);
      FirstGroupsInit(num, rows, gcols, aggs, keys);
      hide GroupResult, Members, Fits, FirstGroups;
    }
  }

  /** The count(*) column of the answer adds up to the number of matching rows. */
  lemma CountsAddUp<N, F>(num: Numbers<N, F>, rows: seq<Row<F>>, gcols: seq<nat>, aggs: seq<Agg>, c: nat)
    requires Fits(rows, gcols, aggs) && c < |aggs| && aggs[c] == Agg(CountRows, None)
    ensures ColumnTotal(GroupBy(num, rows, gcols, aggs), c) == |rows|
  {
    var order := Order(num, rows, gcols);
    assert GroupBy(num, rows, gcols, aggs) == FirstGroups(num, rows, gcols, aggs, order);
    CountsAre(num, rows, gcols, aggs, c, order);
    hide FirstGroups, Order, Sizes;
    GroupsPartition(num, rows, gcols);
  }

  /** Any other aggregate over `*` sees no value at all. */
  lemma StarIsEmpty<N, F>(num: Numbers<N, F>, func: AggFunc, members: seq<Row<F>>)
    requires !func.CountRows?
    ensures Aggregated(num, func, GroupCells(members, Agg(func, None))) == Aggregated(num, func, [])
  {
    NothingNumeric(num, GroupCells(members, Agg(func, None)));
  }

  lemma {:induction false} NothingNumeric<N, F>(num: Numbers<N, F>, cells: Cells<F>)
    requires forall c | c in cells :: c.None?
    ensures Numeric(num, cells) == []
  {
    if cells != [] {
      assert cells[|cells| - 1] in cells && forall c | c in cells[..|cells| - 1] :: c in cells;
      NothingNumeric(num, cells[..|cells| - 1]);
    }
  }

  lemma {:induction false} AllPresent<F>(cells: Cells<F>)
    requires forall c | c in cells :: c.None?
    ensures Present(cells) == |cells|
  {
    if cells != [] {
      var n := |cells| - 1;
      assert cells[n] in cells;
      assert forall c | c in cells[..n] :: c in cells;
      AllPresent(cells[..n]);
    }
  }

  /** With plain text in the group columns, two rows share a group exactly when their key values are equal. */
  lemma GroupsByValue<N, F(!new)>(num: Numbers<N, F>, a: Row<F>, b: Row<F>, gcols: seq<nat>)
    requires PlainFormat(num.show) && forall c | c in gcols :: c < |a| && c < |b| && PlainText(a[c]) && PlainText(b[c])
    ensures RowKey(num, a, gcols) == RowKey(num, b, gcols) <==> Pick(a, gcols) == Pick(b, gcols)
  {
    var p, q := Pick(a, gcols), Pick(b, gcols);
    forall i | 0 <= i < |gcols| ensures PlainText(p[i]) && PlainText(q[i]) {
      assert gcols[i] in gcols;
    }
    if RowKey(num, a, gcols) == RowKey(num, b, gcols) {
      TupleKeyInjective(num.show, p, q);
    }
  }
}
