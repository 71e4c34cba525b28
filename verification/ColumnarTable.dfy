/** The columnar table as a refinement of a list of rows. */
module ColumnarTable {
  import opened Common
  import opened Metadata
  import opened GroupKeys
  import opened Columnar

  // ---------------------------------------------------------------------------
  // Conditions
  // ---------------------------------------------------------------------------

  datatype Resolved<F> = Resolved(column: nat, op: CompareOp, value: Value<F>)

  function ResolveOne<N, F>(num: Numbers<N, F>, schema: seq<ColumnDef>, nameIdx: map<string, nat>, c: Condition<N>)
    : Result<Resolved<F>, ColumnarError>
    requires forall name | name in nameIdx :: nameIdx[name] < |schema|
  {
    if c.column !in nameIdx then Err(UnknownColumn(c.column))
    else
      match Coerce(num, c.value, schema[nameIdx[c.column]].ty)
      case Err(e) => Err(e)
      case Ok(v) => Ok(Resolved(nameIdx[c.column], c.op, v))
  }

  predicate RowMatches<N, F>(num: Numbers<N, F>, row: Row<F>, resolved: seq<Resolved<F>>)
    requires forall c | c in resolved :: c.column < |row|
  {
    forall i | 0 <= i < |resolved| ::
      assert resolved[i] in resolved;
      Compare(num, row[resolved[i].column], resolved[i].op, resolved[i].value)
  }

  /** The rows that match, in insertion order. */
  function MatchingOf<N, F>(num: Numbers<N, F>, rows: seq<Row<F>>, resolved: seq<Resolved<F>>): seq<Row<F>>
    requires forall row, c | row in rows && c in resolved :: c.column < |row|
  {
    if rows == [] then []
    else
      var init, last := rows[..|rows| - 1], rows[|rows| - 1];
      assert last in rows;
      assert forall row | row in init :: row in rows;
      MatchingOf(num, init, resolved) + (if RowMatches(num, last, resolved) then [last] else [])
  }

  // ---------------------------------------------------------------------------
  // The table
  // ---------------------------------------------------------------------------

  /** The rows that the columns spell out. */
  function RowsOf<F>(columns: seq<seq<Value<F>>>, rows: nat): seq<Row<F>>
    requires forall c | 0 <= c < |columns| :: |columns[c]| == rows
  {
    seq(rows, r requires 0 <= r < rows => seq(|columns|, c requires 0 <= c < |columns| => columns[c][r]))
  }

  ghost predicate NamesIndexed(schema: seq<ColumnDef>, nameIdx: map<string, nat>) {
    && (forall i | 0 <= i < |schema| :: schema[i].name in nameIdx && nameIdx[schema[i].name] == i)
    && (forall name | name in nameIdx :: nameIdx[name] < |schema| && schema[nameIdx[name]].name == name)
  }

  class Table<N, F(==)> {
    const num: Numbers<N, F>
    const schema: seq<ColumnDef>
    const nameIdx: map<string, nat>
    var columns: seq<seq<Value<F>>>
    var rows: nat

    ghost predicate Valid()
      reads this
    {
      && NamesIndexed(schema, nameIdx)
      && |columns| == |schema|
      && forall c | 0 <= c < |columns| :: |columns[c]| == rows
    }

    /** The table as a list of rows. */
    ghost function Rows(): (r: seq<Row<F>>)
      requires Valid()
      reads this
      ensures |r| == rows && forall row | row in r :: |row| == |schema|
    {
      RowsOf(columns, rows)
    }

    constructor (n: Numbers<N, F>, defs: seq<ColumnDef>, names: map<string, nat>)
      requires NamesIndexed(defs, names)
      ensures Valid() && num == n && schema == defs && nameIdx == names && Rows() == []
    {
      num, schema, nameIdx := n, defs, names;
      columns := seq(|defs|, i => []);
      rows := 0;
    }

    /** Appends a row, or reports an unknown key or a value of the wrong type and changes nothing. */
    method InsertRow(row: map<string, Json<N>>) returns (r: Result<(), ColumnarError>)
      requires Valid()
      modifies this
      ensures Valid()
      ensures r.Ok? <==> row.Keys <= nameIdx.Keys && forall i | 0 <= i < |schema| :: CellFor(num, schema[i], row).Ok?
      ensures r.Ok? ==> |Rows()| == |old(Rows())| + 1 && Rows()[..|old(Rows())|] == old(Rows())
                        && forall i | 0 <= i < |schema| :: Ok(Rows()[|old(Rows())|][i]) == CellFor(num, schema[i], row)
      ensures r.Err? ==> Rows() == old(Rows())
    {
      if !(row.Keys <= nameIdx.Keys) {
        var k :| k in row && k !in nameIdx;
        return Err(UnknownColumn(k));
      }
      var coerced: seq<Value<F>> := [];
      for i := 0 to |schema|
        invariant |coerced| == i
        invariant forall j | 0 <= j < i :: CellFor(num, schema[j], row) == Ok(coerced[j])
      {
        var v := CellFor(num, schema[i], row);
        if v.Err? {
          return Err(v.error);
        }
        coerced := coerced + [v.value];
      }
      ghost var before := Rows();
      for c := 0 to |columns|
        invariant |columns| == |schema| && rows == old(rows)
        invariant forall j | 0 <= j < |columns| ::
            columns[j] == if j < c then old(columns)[j] + [coerced[j]] else old(columns)[j]
      {
        columns := columns[c := columns[c] + [coerced[c]]];
      }
      rows := rows + 1;
      Appended(old(columns), columns, coerced, old(rows));
      r := Ok(());
    }

    /** Resolves every condition to a column position and a typed value. */
    method ResolveFilter(filter: seq<Condition<N>>) returns (r: Result<seq<Resolved<F>>, ColumnarError>)
      requires Valid()
      ensures r.Ok? <==> forall i | 0 <= i < |filter| :: ResolveOne(num, schema, nameIdx, filter[i]).Ok?
      ensures r.Ok? ==> r.value == Conditions(num, schema, nameIdx, filter)
    {
      var resolved: seq<Resolved<F>> := [];
      for i := 0 to |filter|
        invariant |resolved| == i
        invariant forall j | 0 <= j < i :: ResolveOne(num, schema, nameIdx, filter[j]) == Ok(resolved[j])
      {
        hide ResolveOne;
        var c := ResolveOne(num, schema, nameIdx, filter[i]);
        if c.Err? {
          return Err(c.error);
        }
        resolved := resolved + [c.value];
      }
      r := Ok(resolved);
    }

    /** Tests one row against every condition. */
    method Keeps(r: nat, resolved: seq<Resolved<F>>) returns (keep: bool)
      requires Valid() && r < rows && forall c | c in resolved :: c.column < |schema|
      ensures keep == RowMatches(num, Rows()[r], resolved)
    {
      for i := 0 to |resolved|
        invariant forall j | 0 <= j < i ::
                    assert resolved[j] in resolved;
                    Compare(num, Rows()[r][resolved[j].column], resolved[j].op, resolved[j].value)
      {
        hide Compare;
        assert resolved[i] in resolved;
        if !Compare(num, columns[resolved[i].column][r], resolved[i].op, resolved[i].value) {
          return false;
        }
      }
      keep := true;
    }

    /** The positions of the rows that satisfy every condition. */
    method SelectRows(resolved: seq<Resolved<F>>) returns (out: seq<nat>)
      requires Valid() && forall c | c in resolved :: c.column < |schema|
      ensures forall i | 0 <= i < |out| :: out[i] < rows
      ensures At(Rows(), out) == MatchingOf(num, Rows(), resolved)
    {
      out := [];
      ghost var all := Rows();
      KeptNone(num, all, resolved);
      hide Kept, RowMatches, RowsOf, Rows, At, MatchingOf;
      for i := 0 to rows
        invariant Kept(num, all, i, resolved, out)
      {
        KeptStep(num, all, i, resolved, out);
        var keep := Keeps(i, resolved);
        if keep {
          out := out + [i];
        }
      }
      KeptAll(num, all, resolved, out);
    }

    /** Resolves every condition, then keeps the positions of the rows that satisfy all of them. */
    method MatchingRows(filter: seq<Condition<N>>) returns (r: Result<seq<nat>, ColumnarError>)
      requires Valid()
      ensures r.Ok? <==> forall i | 0 <= i < |filter| :: ResolveOne(num, schema, nameIdx, filter[i]).Ok?
      ensures r.Ok? ==> && (forall i | 0 <= i < |r.value| :: r.value[i] < rows)
                        && At(Rows(), r.value) == MatchingOf(num, Rows(), Conditions(num, schema, nameIdx, filter))
    {
      hide ResolveOne, Conditions, RowsOf, MatchingOf;
      var resolved := ResolveFilter(filter);
      if resolved.Err? {
        return Err(resolved.error);
      }
      var out := SelectRows(resolved.value);
      r := Ok(out);
    }

    /** The positions of the named columns, or the first name that is none. */
    method ColumnIndexes(names: seq<string>) returns (r: Result<seq<nat>, ColumnarError>)
      requires Valid()
      ensures r.Ok? <==> forall i | 0 <= i < |names| :: names[i] in nameIdx
      ensures r.Ok? ==> r.value == Positions(nameIdx, names)
    {
      var out: seq<nat> := [];
      for i := 0 to |names|
        invariant |out| == i && forall j | 0 <= j < i :: names[j] in nameIdx && out[j] == nameIdx[names[j]]
      {
        if names[i] !in nameIdx {
          return Err(UnknownColumn(names[i]));
        }
        out := out + [nameIdx[names[i]]];
      }
      r := Ok(out);
    }

    /** One row as an object that holds the projected columns. */
    method Project(r: nat, columnsOf: seq<nat>) returns (out: map<string, Json<N>>)
      requires Valid() && r < rows && forall i | 0 <= i < |columnsOf| :: columnsOf[i] < |schema|
      ensures out == Projected(num, schema, Rows()[r], columnsOf)
    {
      out := map[];
      for i := 0 to |columnsOf|
        invariant out.Keys == set j | 0 <= j < i :: schema[columnsOf[j]].name
        invariant forall j | 0 <= j < i :: out[schema[columnsOf[j]].name] == ToJson(num, Rows()[r][columnsOf[j]])
      {
        hide ToJson;
        out := out[schema[columnsOf[i]].name := ToJson(num, columns[columnsOf[i]][r])];
      }
    }

    method ProjectAll(ghost answer: seq<map<string, Json<N>>>, positions: seq<nat>, n: nat, columnsOf: seq<nat>)
      returns (out: seq<map<string, Json<N>>>)
      requires Valid() && n <= |positions| == |answer| && forall i | 0 <= i < |positions| :: positions[i] < rows
      requires forall i | 0 <= i < |columnsOf| :: columnsOf[i] < |schema|
      requires forall i | 0 <= i < |positions| :: answer[i] == Projected(num, schema, Rows()[positions[i]], columnsOf)
      ensures out == answer[..n]
    {
      hide *;
      out := [];
      for i := 0 to n
        invariant out == answer[..i]
      {
        var row := Project(positions[i], columnsOf);
        assert answer[..i + 1] == answer[..i] + [answer[i]];
        out := out + [row];
      }
    }

    /** The first `limit` matching rows, each projected to the named columns, or to all when none is named. */
    method Scan(names: seq<string>, filter: seq<Condition<N>>, limit: Option<nat>)
      returns (r: Result<seq<map<string, Json<N>>>, ColumnarError>)
      requires Valid()
      ensures r.Ok? <==> && (forall i | 0 <= i < |names| :: names[i] in nameIdx)
                         && (forall i | 0 <= i < |filter| :: ResolveOne(num, schema, nameIdx, filter[i]).Ok?)
      ensures r.Ok? ==>
                var matched := MatchingOf(num, Rows(), Conditions(num, schema, nameIdx, filter));
                var proj := if names == [] then AllColumns(|schema|) else Positions(nameIdx, names);
                && (forall row | row in matched :: |row| == |schema|)
                && var cap := if limit.Some? then Min(limit.value, |matched|) else |matched|;
                   r.value == ProjectedRows(num, schema, matched, proj)[..cap]
    {
      var proj := AllColumns(|schema|);
      var named := ColumnIndexes(names);
      if names != [] {
        if named.Err? {
          return Err(named.error);
        }
        proj := named.value;
      }
      hide ResolveOne, Conditions, RowsOf, Rows, MatchingOf, Projected;
      var matching := MatchingRows(filter);
      if matching.Err? {
        return Err(matching.error);
      }
      var cap := if limit.Some? then Min(limit.value, |matching.value|) else |matching.value|;
      ghost var answer := ProjectedRows(num, schema, At(Rows(), matching.value), proj);
      ProjectedAt(num, schema, Rows(), matching.value, proj);
      var out := ProjectAll(answer, matching.value, cap, proj);
      r := Ok(out);
    }

    method AggColumns(aggs: seq<AggSpec>) returns (r: Result<seq<Agg>, ColumnarError>)
      requires Valid()
      ensures r.Ok? <==> forall i | 0 <= i < |aggs| :: aggs[i].column == "*" || aggs[i].column in nameIdx
      ensures r.Ok? ==> r.value == Aggregates(nameIdx, aggs)
    {
      var out: seq<Agg> := [];
      for i := 0 to |aggs|
        invariant |out| == i
        invariant forall j | 0 <= j < i ::
            (aggs[j].column == "*" || aggs[j].column in nameIdx) && out[j] == AggregateOf(nameIdx, aggs[j])
      {
        if aggs[i].column != "*" && aggs[i].column !in nameIdx {
          return Err(UnknownColumn(aggs[i].column));
        }
        var column := if aggs[i].column == "*" then None else Some(nameIdx[aggs[i].column]);
        out := out + [Agg(aggs[i].func, column)];
      }
      r := Ok(out);
    }

    /** The group of one row with the row counted in. */
    method CountRow(entry: Group<F>, aggs: seq<Agg>, r: nat) returns (after: Group<F>)
      requires Valid() && r < rows && |entry.accs| == |aggs|
      requires forall a | a in aggs && a.column.Some? :: a.column.value < |schema|
      ensures Updated(num, entry, after, Rows()[r], aggs)
    {
      var accs := entry.accs;
      for i := 0 to |aggs|
        invariant |accs| == |aggs|
        invariant forall j | i <= j < |aggs| :: accs[j] == entry.accs[j]
        invariant forall j | 0 <= j < i ::
                    assert aggs[j] in aggs;
                    accs[j] == Update(num, entry.accs[j], aggs[j].func, CellOf(Rows()[r], aggs[j]))
      {
        assert aggs[i] in aggs;
        var cell := if aggs[i].column.None? then None else Some(columns[aggs[i].column.value][r]);
        assert cell == CellOf(Rows()[r], aggs[i]);
        accs := accs[i := Update(num, accs[i], aggs[i].func, cell)];
      }
      after := Group(entry.keys, accs);
    }

    /** Hashes one row into its group. */
    method TabulateOne(ghost seen: seq<Row<F>>, r: nat, gcols: seq<nat>, aggs: seq<Agg>, order: seq<string>,
        groups: map<string, Group<F>>)
      returns (order': seq<string>, groups': map<string, Group<F>>)
      requires Valid() && r < rows
      requires forall c | c in gcols :: c < |schema|
      requires forall a | a in aggs && a.column.Some? :: a.column.value < |schema|
      requires Fits(seen, gcols, aggs) && Tabulates(num, seen, gcols, aggs, order, groups)
          && Fits(seen + [Rows()[r]], gcols, aggs)
      ensures Tabulates(num, seen + [Rows()[r]], gcols, aggs, order', groups')
    {
      ghost var row := Rows()[r];
      var cols := columns;
      assert forall c | 0 <= c < |gcols| :: gcols[c] in gcols;
      var keys := seq(|gcols|, c
          requires 0 <= c < |gcols| && gcols[c] < |cols| && r < |cols[gcols[c]]| => cols[gcols[c]][r]);
      assert keys == Pick(row, gcols);
      hide Fits, Tabulates, Updated, Update, NewAccs;
      var key := TupleKey(num.show, keys);
      var entry := EntryFor(num, groups, key, keys, aggs);
      EntryWidth(num, seen, gcols, aggs, order, groups, key, keys);
      var after := CountRow(entry, aggs, r);
      TabulateRow(num, seen, row, gcols, aggs, order, groups, key, after);
      order' := if key in groups then order else order + [key];
      groups' := groups[key := after];
    }

    /** One pass over the given rows. */
    method Tabulate(positions: seq<nat>, gcols: seq<nat>, aggs: seq<Agg>)
      returns (order: seq<string>, groups: map<string, Group<F>>)
      requires Valid() && forall i | 0 <= i < |positions| :: positions[i] < rows
      requires forall c | c in gcols :: c < |schema|
      requires forall a | a in aggs && a.column.Some? :: a.column.value < |schema|
      ensures Fits(At(Rows(), positions), gcols, aggs)
      ensures Tabulates(num, At(Rows(), positions), gcols, aggs, order, groups)
    {
      hide Fits, Tabulates, RowsOf, NewAccs;
      order := if gcols == [] then [""] else [];
      groups := if gcols == [] then map["" := Group([], NewAccs(num, |aggs|))] else map[];
      TabulateNone(num, gcols, aggs);
      ghost var matched := At(Rows(), positions);
      AllFit(Rows(), positions, |schema|, gcols, aggs);
      assert matched[..0] == [];
      for i := 0 to |positions|
        invariant Fits(matched[..i], gcols, aggs)
        invariant Tabulates(num, matched[..i], gcols, aggs, order, groups)
      {
        assert matched[i] == Rows()[positions[i]];
        assert matched[..i + 1] == matched[..i] + [matched[i]];
        PrefixFits(matched, i + 1, gcols, aggs);
        order, groups := TabulateOne(matched[..i], positions[i], gcols, aggs, order, groups);
      }
      assert matched[..|positions|] == matched;
    }

    /** Group-by aggregation over the rows that match the filter. */
    method Aggregate(groupBy: seq<string>, aggs: seq<AggSpec>, filter: seq<Condition<N>>)
      returns (r: Result<seq<GroupRow<F>>, ColumnarError>)
      requires Valid()
      ensures r.Ok? <==> && (forall i | 0 <= i < |groupBy| :: groupBy[i] in nameIdx)
                         && (forall i | 0 <= i < |aggs| :: aggs[i].column == "*" || aggs[i].column in nameIdx)
                         && (forall i | 0 <= i < |filter| :: ResolveOne(num, schema, nameIdx, filter[i]).Ok?)
      ensures r.Ok? ==>
                var matched := MatchingOf(num, Rows(), Conditions(num, schema, nameIdx, filter));
                var gcols, resolved := Positions(nameIdx, groupBy), Aggregates(nameIdx, aggs);
                Fits(matched, gcols, resolved) && r.value == GroupBy(num, matched, gcols, resolved)
    {
      var gcols := ColumnIndexes(groupBy);
      if gcols.Err? {
        return Err(gcols.error);
      }
      var resolved := AggColumns(aggs);
      if resolved.Err? {
        return Err(resolved.error);
      }
      hide Fits, Tabulates, GroupBy, RowsOf, Rows, ResolveOne, Conditions;
      var matching := MatchingRows(filter);
      if matching.Err? {
        return Err(matching.error);
      }
      var order, groups := Tabulate(matching.value, gcols.value, resolved.value);
      var out := FinishAll(num, At(Rows(), matching.value), gcols.value, resolved.value, order, groups);
      r := Ok(out);
    }
  }

  /** A new table, unless the schema is empty or repeats a name. */
  method CreateTable<N, F>(num: Numbers<N, F>, schema: seq<ColumnDef>) returns (r: Result<Table<N, F>, ColumnarError>)
    ensures r.Ok? <==> schema != [] && forall i, j | 0 <= i < j < |schema| :: schema[i].name != schema[j].name
    ensures r.Ok? ==> fresh(r.value) && r.value.Valid() && r.value.num == num && r.value.schema == schema
    ensures r.Ok? ==> r.value.Rows() == []
    ensures r.Err? && schema == [] ==> r.error == EmptySchema
    ensures r.Err? && schema != [] ==> exists i, j :: 0 <= i < j < |schema| && schema[i].name == schema[j].name
                                                      && r.error == DuplicateColumn(schema[j].name)
  {
    if schema == [] {
      return Err(EmptySchema);
    }
    var nameIdx: map<string, nat> := map[];
    for i := 0 to |schema|
      invariant NamesIndexed(schema[..i], nameIdx)
    {
      if schema[i].name in nameIdx {
        assert schema[nameIdx[schema[i].name]].name == schema[i].name;
        return Err(DuplicateColumn(schema[i].name));
      }
      nameIdx := nameIdx[schema[i].name := i];
    }
    assert schema[..|schema|] == schema;
    var table := new Table(num, schema, nameIdx);
    r := Ok(table);
  }

  /** Reads the groups off in order of first appearance. */
  method FinishAll<N, F>(num: Numbers<N, F>, ghost rows: seq<Row<F>>, ghost gcols: seq<nat>, aggs: seq<Agg>,
      order: seq<string>, groups: map<string, Group<F>>) returns (out: seq<GroupRow<F>>)
    requires Fits(rows, gcols, aggs) && Tabulates(num, rows, gcols, aggs, order, groups)
    ensures out == GroupBy(num, rows, gcols, aggs)
  {
    TabulatedOrder(num, rows, gcols, aggs, order, groups);
    ghost var answer := GroupBy(num, rows, gcols, aggs);
    hide *;
    forall i | 0 <= i < |order| ensures Finishes(num, aggs, order, groups, answer, i) {
      TabulatedGroup(num, rows, gcols, aggs, order, groups, i);
    }
    out := FinishEach(num, aggs, order, groups, answer);
  }

  ghost predicate Finishes<N, F>(num: Numbers<N, F>, aggs: seq<Agg>, order: seq<string>, groups: map<string, Group<F>>,
      answer: seq<GroupRow<F>>, i: nat)
    requires i < |order| == |answer|
  {
    order[i] in groups && |groups[order[i]].accs| == |aggs| && Finished(num, groups[order[i]], aggs) == answer[i]
  }

  method FinishEach<N, F>(num: Numbers<N, F>, aggs: seq<Agg>, order: seq<string>, groups: map<string, Group<F>>,
      ghost answer: seq<GroupRow<F>>) returns (out: seq<GroupRow<F>>)
    requires |answer| == |order| && forall i | 0 <= i < |order| :: Finishes(num, aggs, order, groups, answer, i)
    ensures out == answer
  {
    hide Finished;
    out := [];
    for i := 0 to |order|
      invariant out == answer[..i]
    {
      assert Finishes(num, aggs, order, groups, answer, i);
      assert answer[..i + 1] == answer[..i] + [answer[i]];
      out := out + [Finished(num, groups[order[i]], aggs)];
    }
  }

  lemma TabulatedOrder<N, F>(num: Numbers<N, F>, rows: seq<Row<F>>, gcols: seq<nat>, aggs: seq<Agg>,
      order: seq<string>, groups: map<string, Group<F>>)
    requires Fits(rows, gcols, aggs) && Tabulates(num, rows, gcols, aggs, order, groups)
    ensures |GroupBy(num, rows, gcols, aggs)| == |order|
  {
    hide Fits, GroupResult, GroupState, Order;
  }

  lemma TabulatedGroup<N, F>(num: Numbers<N, F>, rows: seq<Row<F>>, gcols: seq<nat>, aggs: seq<Agg>,
      order: seq<string>, groups: map<string, Group<F>>, i: nat)
    requires Fits(rows, gcols, aggs) && Tabulates(num, rows, gcols, aggs, order, groups)
    requires i < |order| == |GroupBy(num, rows, gcols, aggs)|
    ensures Finishes(num, aggs, order, groups, GroupBy(num, rows, gcols, aggs), i)
  {
    hide Fits, GroupResult, GroupState, Order, Finished;
    assert order[i] in order;
    FinishedGroup(num, rows, gcols, aggs, order[i]);
  }

  function AllColumns(n: nat): seq<nat> {
    seq(n, i requires 0 <= i => i)
  }

  /** The object that maps each projected column's name to the row's cell. */
  ghost function Projected<N, F>(num: Numbers<N, F>, schema: seq<ColumnDef>, row: Row<F>,
      columns: seq<nat>): map<string, Json<N>>
    requires |row| == |schema| && forall i | 0 <= i < |columns| :: columns[i] < |schema|
    requires forall i, j | 0 <= i < j < |schema| :: schema[i].name != schema[j].name
  {
    map i | 0 <= i < |columns| :: schema[columns[i]].name := ToJson(num, row[columns[i]])
  }

  ghost function ProjectedRows<N, F>(num: Numbers<N, F>, schema: seq<ColumnDef>, rows: seq<Row<F>>, columns: seq<nat>)
    : (r: seq<map<string, Json<N>>>)
    requires (forall row | row in rows :: |row| == |schema|) && forall i | 0 <= i < |columns| :: columns[i] < |schema|
    requires forall i, j | 0 <= i < j < |schema| :: schema[i].name != schema[j].name
    ensures |r| == |rows|
  {
    seq(|rows|, i requires 0 <= i < |rows| => Projected(num, schema, rows[i], columns))
  }

  lemma ProjectedAt<N, F>(num: Numbers<N, F>, schema: seq<ColumnDef>, rows: seq<Row<F>>, positions: seq<nat>,
      columns: seq<nat>)
    requires (forall row | row in rows :: |row| == |schema|) && forall i | 0 <= i < |columns| :: columns[i] < |schema|
    requires forall i, j | 0 <= i < j < |schema| :: schema[i].name != schema[j].name
    requires forall i | 0 <= i < |positions| :: positions[i] < |rows|
    ensures forall row | row in At(rows, positions) :: |row| == |schema|
    ensures |At(rows, positions)| == |positions|
    ensures forall i | 0 <= i < |positions| ::
      ProjectedRows(num, schema, At(rows, positions), columns)[i] == Projected(num, schema, rows[positions[i]], columns)
  {
    forall row | row in At(rows, positions) ensures |row| == |schema| {
      var i :| 0 <= i < |positions| && row == rows[positions[i]];
    }
    hide Projected;
  }

  function Positions(nameIdx: map<string, nat>, names: seq<string>): seq<nat>
    requires forall i | 0 <= i < |names| :: names[i] in nameIdx
  {
    seq(|names|, i requires 0 <= i < |names| => nameIdx[names[i]])
  }

  /** `*` names no column. */
  function AggregateOf(nameIdx: map<string, nat>, a: AggSpec): Agg
    requires a.column == "*" || a.column in nameIdx
  {
    Agg(a.func, if a.column == "*" then None else Some(nameIdx[a.column]))
  }

  function Aggregates(nameIdx: map<string, nat>, aggs: seq<AggSpec>): seq<Agg>
    requires forall i | 0 <= i < |aggs| :: aggs[i].column == "*" || aggs[i].column in nameIdx
  {
    seq(|aggs|, i requires 0 <= i < |aggs| => AggregateOf(nameIdx, aggs[i]))
  }

  lemma AllFit<F>(rows: seq<Row<F>>, positions: seq<nat>, width: nat, gcols: seq<nat>, aggs: seq<Agg>)
    requires (forall row | row in rows :: |row| == width) && forall i | 0 <= i < |positions| :: positions[i] < |rows|
    requires (forall c | c in gcols :: c < width) && forall a | a in aggs && a.column.Some? :: a.column.value < width
    ensures Fits(At(rows, positions), gcols, aggs)
  {
    forall row | row in At(rows, positions) ensures |row| == width {
      var i :| 0 <= i < |positions| && row == rows[positions[i]];
    }
  }

  lemma PrefixFits<F>(rows: seq<Row<F>>, n: nat, gcols: seq<nat>, aggs: seq<Agg>)
    requires n <= |rows| && Fits(rows, gcols, aggs)
    ensures Fits(rows[..n], gcols, aggs)
  {
    assert forall row | row in rows[..n] :: row in rows;
  }

  lemma EntryWidth<N, F>(num: Numbers<N, F>, rows: seq<Row<F>>, gcols: seq<nat>, aggs: seq<Agg>, order: seq<string>,
      groups: map<string, Group<F>>, key: string, keys: seq<Value<F>>)
    requires Fits(rows, gcols, aggs) && Tabulates(num, rows, gcols, aggs, order, groups)
    ensures |EntryFor(num, groups, key, keys, aggs).accs| == |aggs|
  {
  }

  function Finished<N, F>(num: Numbers<N, F>, group: Group<F>, aggs: seq<Agg>): GroupRow<F>
    requires |group.accs| == |aggs|
  {
    GroupRow(group.keys, seq(|aggs|, k requires 0 <= k < |aggs| => Finish(num, group.accs[k], aggs[k].func)))
  }

  lemma FinishedGroup<N, F>(num: Numbers<N, F>, rows: seq<Row<F>>, gcols: seq<nat>, aggs: seq<Agg>, key: string)
    requires Fits(rows, gcols, aggs)
    ensures |GroupState(num, rows, gcols, aggs, key).accs| == |aggs|
    ensures Finished(num, GroupState(num, rows, gcols, aggs, key), aggs) == GroupResult(num, rows, gcols, aggs, key)
  {
    MembersFit(num, rows, gcols, aggs, key);
    FinishState(num, Members(num, rows, gcols, key), gcols, aggs);
    hide StateOf, ResultOf, Finish;
    assert Finished(num, GroupState(num, rows, gcols, aggs, key), aggs).values
        == GroupResult(num, rows, gcols, aggs, key).values;
  }

  /** The cell a JSON row gives a column; a missing column is null. */
  function CellFor<N, F>(num: Numbers<N, F>, def: ColumnDef, row: map<string, Json<N>>)
    : Result<Value<F>, ColumnarError>
  {
    if def.name in row then Coerce(num, row[def.name], def.ty) else Ok(Value.Null)
  }

  ghost function Conditions<N, F>(num: Numbers<N, F>, schema: seq<ColumnDef>, nameIdx: map<string, nat>,
      filter: seq<Condition<N>>)
    : (r: seq<Resolved<F>>)
    requires NamesIndexed(schema, nameIdx)
    requires forall i | 0 <= i < |filter| :: ResolveOne(num, schema, nameIdx, filter[i]).Ok?
    ensures forall c | c in r :: c.column < |schema|
  {
    seq(|filter|, i requires 0 <= i < |filter| => ResolveOne(num, schema, nameIdx, filter[i]).value)
  }

  ghost function At<F>(rows: seq<Row<F>>, positions: seq<nat>): seq<Row<F>>
    requires forall i | 0 <= i < |positions| :: positions[i] < |rows|
  {
    seq(|positions|, i requires 0 <= i < |positions| => rows[positions[i]])
  }

  /** The positions kept so far spell out the matches among the first n rows. */
  ghost predicate Kept<N, F>(num: Numbers<N, F>, rows: seq<Row<F>>, n: nat, resolved: seq<Resolved<F>>, out: seq<nat>)
    requires n <= |rows| && forall row, c | row in rows && c in resolved :: c.column < |row|
  {
    && (forall i | 0 <= i < |out| :: out[i] < |rows|)
    && At(rows, out) == (assert forall row | row in rows[..n] :: row in rows; MatchingOf(num, rows[..n], resolved))
  }

  lemma KeptNone<N, F>(num: Numbers<N, F>, rows: seq<Row<F>>, resolved: seq<Resolved<F>>)
    requires forall row, c | row in rows && c in resolved :: c.column < |row|
    ensures Kept(num, rows, 0, resolved, [])
  {
    assert rows[..0] == [];
  }

  lemma KeptAll<N, F>(num: Numbers<N, F>, rows: seq<Row<F>>, resolved: seq<Resolved<F>>, out: seq<nat>)
    requires forall row, c | row in rows && c in resolved :: c.column < |row|
    requires Kept(num, rows, |rows|, resolved, out)
    ensures forall i | 0 <= i < |out| :: out[i] < |rows|
    ensures At(rows, out) == MatchingOf(num, rows, resolved)
  {
    assert rows[..|rows|] == rows;
  }

  lemma AtAppend<F>(rows: seq<Row<F>>, positions: seq<nat>, i: nat)
    requires i < |rows| && forall j | 0 <= j < |positions| :: positions[j] < |rows|
    ensures At(rows, positions + [i]) == At(rows, positions) + [rows[i]]
  {
  }

  lemma KeptStep<N, F>(num: Numbers<N, F>, rows: seq<Row<F>>, i: nat, resolved: seq<Resolved<F>>, out: seq<nat>)
    requires i < |rows| && forall row, c | row in rows && c in resolved :: c.column < |row|
    requires Kept(num, rows, i, resolved, out)
    ensures Kept(num, rows, i + 1, resolved, if RowMatches(num, rows[i], resolved) then out + [i] else out)
  {
    hide RowMatches, MatchingOf, At;
    var before, row := rows[..i], rows[i];
    assert rows[..i + 1] == before + [row];
    assert forall r | r in before + [row] :: r in rows;
    MatchingAppend(num, before, row, resolved);
    AtAppend(rows, out, i);
  }

  lemma MatchingAppend<N, F>(num: Numbers<N, F>, rows: seq<Row<F>>, row: Row<F>, resolved: seq<Resolved<F>>)
    requires forall r, c | r in rows + [row] && c in resolved :: c.column < |r|
    ensures row in rows + [row] && forall r | r in rows :: r in rows + [row]
    ensures MatchingOf(num, rows + [row], resolved)
        == MatchingOf(num, rows, resolved) + (if RowMatches(num, row, resolved) then [row] else [])
  {
    var all := rows + [row];
    assert all[..|rows|] == rows && all[|rows|] == row && row in all;
    assert forall r | r in rows :: r in all;
  }

  lemma Appended<F>(columns: seq<seq<Value<F>>>, columns': seq<seq<Value<F>>>, cells: seq<Value<F>>, rows: nat)
    requires |columns| == |columns'| == |cells| && forall c | 0 <= c < |columns| :: |columns[c]| == rows
    requires forall c | 0 <= c < |columns| :: columns'[c] == columns[c] + [cells[c]]
    ensures RowsOf(columns', rows + 1) == RowsOf(columns, rows) + [cells]
  {
    var a, b := RowsOf(columns', rows + 1), RowsOf(columns, rows) + [cells];
    forall r | 0 <= r < rows + 1 ensures a[r] == b[r] {
    }
  }
}
