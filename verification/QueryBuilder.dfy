/**
The client's query builder: SQL text and a parameter list grown together, clause by clause.
*/
module QueryBuilder {
  import opened Common
  import opened Decimal
  import opened SqlText

  /** A `LIKE` pattern becomes a text parameter; other values are opaque. */
  datatype Value<O> = Text(text: string) | Other(value: O)

  datatype Condition<O> =
    | Eq(column: string, value: Value<O>)
    | Ne(column: string, value: Value<O>)
    | Gt(column: string, value: Value<O>)
    | Gte(column: string, value: Value<O>)
    | Lt(column: string, value: Value<O>)
    | Lte(column: string, value: Value<O>)
    | Like(column: string, pattern: string)
    | In(column: string, values: seq<Value<O>>)
    | IsNull(column: string)
    | IsNotNull(column: string)
    | Raw(sql: string)

  datatype JoinType = Inner | Left | Right | Full

  datatype Joined = Joined(joinType: JoinType, table: string, on: string)

  datatype Direction = Asc | Desc

  datatype OrderBy = OrderBy(column: string, direction: Direction)

  datatype Operation = Select | Insert | Update | Delete

  datatype Builder<O> = Builder(
    operation: Operation, table: Option<string>, columns: seq<string>, values: seq<seq<Value<O>>>,
    conditions: seq<Condition<O>>, orderBy: seq<OrderBy>, limit: Option<nat>, offset: Option<nat>,
    joins: seq<Joined>, groupBy: seq<string>, having: seq<Condition<O>>)

  type Sql<O> = Template<Value<O>>

  // ---------------------------------------------------------------------------
  // What the clauses say
  // ---------------------------------------------------------------------------

  function Name<O>(name: string): Sql<O> {
    [Given(name)]
  }

  function Names<O>(names: seq<string>): Sql<O> {
    JoinTemplates(Each(Name, names), ", ")
  }

  function Bound<O>(v: Value<O>): Sql<O> {
    [Param(v)]
  }

  function BoundList<O>(vs: seq<Value<O>>): Sql<O> {
    JoinTemplates(Each(Bound, vs), ", ")
  }

  function Comparison<O>(column: string, op: string, v: Value<O>): Sql<O> {
    [Given(column), Fixed(op), Param(v)]
  }

  function Holds<O>(c: Condition<O>): Sql<O> {
    match c
    case Eq(column, v) => Comparison(column, " = ", v)
    case Ne(column, v) => Comparison(column, " != ", v)
    case Gt(column, v) => Comparison(column, " > ", v)
    case Gte(column, v) => Comparison(column, " >= ", v)
    case Lt(column, v) => Comparison(column, " < ", v)
    case Lte(column, v) => Comparison(column, " <= ", v)
    case Like(column, pattern) => Comparison(column, " LIKE ", Text(pattern))
    case In(column, vs) => [Given(column), Fixed(" IN (")] + BoundList(vs) + [Fixed(")")]
    case IsNull(column) => [Given(column), Fixed(" IS NULL")]
    case IsNotNull(column) => [Given(column), Fixed(" IS NOT NULL")]
    case Raw(sql) => [Given(sql)]
  }

  /** No conditions, no clause. */
  function AllHold<O>(lead: string, cs: seq<Condition<O>>): Sql<O> {
    if cs == [] then [] else [Fixed(lead)] + JoinTemplates(Each(Holds, cs), " AND ")
  }

  function TableName<O>(table: Option<string>): Sql<O> {
    if table.Some? then [Given(table.value)] else []
  }

  function JoinWord(t: JoinType): string {
    match t
    case Inner => "INNER"
    case Left => "LEFT"
    case Right => "RIGHT"
    case Full => "FULL"
  }

  function JoinClause<O>(j: Joined): Sql<O> {
    [Fixed(" " + JoinWord(j.joinType) + " JOIN "), Given(j.table), Fixed(" ON "), Given(j.on)]
  }

  function JoinClauses<O>(joins: seq<Joined>): Sql<O> {
    if joins == [] then [] else JoinClauses(joins[..|joins| - 1]) + JoinClause(joins[|joins| - 1])
  }

  function DirectionWord(d: Direction): string {
    match d
    case Asc => "ASC"
    case Desc => "DESC"
  }

  function Ordering<O>(o: OrderBy): Sql<O> {
    [Given(o.column), Fixed(" " + DirectionWord(o.direction))]
  }

  function GroupClause<O>(columns: seq<string>): Sql<O> {
    if columns == [] then [] else [Fixed(" GROUP BY ")] + Names(columns)
  }

  function OrderClause<O>(orders: seq<OrderBy>): Sql<O> {
    if orders == [] then [] else [Fixed(" ORDER BY ")] + JoinTemplates(Each(Ordering, orders), ", ")
  }

  function NumberClause<O>(word: string, n: Option<nat>): Sql<O> {
    if n.None? then [] else [Fixed(word), Given(ShowNat(n.value))]
  }

  function Selected<O>(columns: seq<string>): Sql<O> {
    [Fixed("SELECT ")] + if columns == [] then [Fixed("*")] else Names(columns)
  }

  function FromClause<O>(table: Option<string>): Sql<O> {
    if table.None? then [] else [Fixed(" FROM "), Given(table.value)]
  }

  function ColumnList<O>(columns: seq<string>): Sql<O> {
    if columns == [] then [] else [Fixed(" (")] + Names(columns) + [Fixed(")")]
  }

  function ValueRow<O>(row: seq<Value<O>>): Sql<O> {
    [Fixed("(")] + BoundList(row) + [Fixed(")")]
  }

  function Assignment<O>(a: (string, Value<O>)): Sql<O> {
    Comparison(a.0, " = ", a.1)
  }

  /** Columns paired with the first row of values, as far as both go. */
  function Assignments<O>(b: Builder<O>): seq<(string, Value<O>)> {
    var first := if b.values == [] then [] else b.values[0];
    seq(Min(|b.columns|, |first|), i requires 0 <= i < Min(|b.columns|, |first|) => (b.columns[i], first[i]))
  }

  function SelectCore<O>(b: Builder<O>): Sql<O> {
    Selected(b.columns) + FromClause(b.table) + JoinClauses(b.joins) + AllHold(" WHERE ", b.conditions)
  }

  function SelectStatement<O>(b: Builder<O>): Sql<O> {
    SelectCore(b) + GroupClause(b.groupBy) + AllHold(" HAVING ", b.having) + OrderClause(b.orderBy)
    + NumberClause(" LIMIT ", b.limit) + NumberClause(" OFFSET ", b.offset)
  }

  function InsertStatement<O>(b: Builder<O>): Sql<O> {
    [Fixed("INSERT INTO ")] + TableName(b.table) + ColumnList(b.columns) + [Fixed(" VALUES ")]
    + JoinTemplates(Each(ValueRow, b.values), ", ")
  }

  function UpdateStatement<O>(b: Builder<O>): Sql<O> {
    [Fixed("UPDATE ")] + TableName(b.table) + [Fixed(" SET ")] + JoinTemplates(Each(Assignment, Assignments(b)), ", ")
    + AllHold(" WHERE ", b.conditions)
  }

  function DeleteStatement<O>(b: Builder<O>): Sql<O> {
    [Fixed("DELETE FROM ")] + TableName(b.table) + AllHold(" WHERE ", b.conditions)
  }

  /** The statement, with its values in place. */
  function Statement<O>(b: Builder<O>): Sql<O> {
    match b.operation
    case Select => SelectStatement(b)
    case Insert => InsertStatement(b)
    case Update => UpdateStatement(b)
    case Delete => DeleteStatement(b)
  }

  // ---------------------------------------------------------------------------
  // Growing the text
  // ---------------------------------------------------------------------------

  /** Text and parameters built so far are the numbered form of the template. */
  ghost predicate Drafts<V>(t: Template<V>, sql: string, params: seq<V>) {
    sql == Numbered(t, 0) && params == Params(t)
  }

  lemma DraftText<V>(t: Template<V>, sql: string, params: seq<V>, p: Piece<V>)
    requires Drafts(t, sql, params) && !p.Param?
    ensures Drafts(t + [p], sql + p.text, params)
  {
    AddText(t, p, 0);
  }

  lemma DraftMore<V>(t: Template<V>, sql: string, params: seq<V>, more: Template<V>, text: string)
    requires Drafts(t, sql, params) && text == Numbered(more, |params|)
    ensures Drafts(t + more, sql + text, params + Params(more))
  {
    hide Numbered, Params;
    NumberedAppend(t, more, 0);
    ParamsAppend(t, more);
  }

  lemma ComparisonText<O>(column: string, op: string, v: Value<O>, offset: nat)
    ensures Numbered(Comparison(column, op, v), offset) == column + op + Placeholder(offset + 1)
    ensures Params(Comparison(column, op, v)) == [v]
  {
    var b: Sql<O> := [Given(column), Fixed(op)];
    assert Comparison(column, op, v) == b + [Param(v)];
    hide Numbered, Params;
    TwoTexts<Value<O>>(Given(column), Fixed(op), offset);
    AddParam(b, v, offset);
  }

  lemma BoundText<O>(v: Value<O>, offset: nat)
    ensures Numbered(Bound(v), offset) == Placeholder(offset + 1) && Params(Bound(v)) == [v]
  {
    assert Bound(v) == [] + [Param(v)];
    AddParam<Value<O>>([], v, offset);
  }

  /** `(a)` around a joined list. */
  lemma WrappedText<V>(before: seq<Piece<V>>, inner: Template<V>, after: string, offset: nat)
    requires Params(before) == []
    ensures Numbered(before + inner + [Fixed(after)], offset)
        == Numbered(before, offset) + Numbered(inner, offset) + after
    ensures Params(before + inner + [Fixed(after)]) == Params(inner)
  {
    hide Numbered, Params;
    NumberedAppend(before, inner, offset);
    ParamsAppend(before, inner);
    AddText(before + inner, Fixed(after), offset);
  }

  lemma OneText<V>(p: Piece<V>, offset: nat)
    requires !p.Param?
    ensures Numbered([p], offset) == p.text && Params([p]) == []
  {
    assert [p] == [] + [p];
    AddText([], p, offset);
  }

  lemma TwoTexts<V>(p: Piece<V>, q: Piece<V>, offset: nat)
    requires !p.Param? && !q.Param?
    ensures Numbered([p, q], offset) == p.text + q.text && Params([p, q]) == []
  {
    hide Numbered, Params;
    assert [p, q] == [p] + [q];
    OneText(p, offset);
    AddText([p], q, offset);
  }

  /** One placeholder per value. */
  method PushAll<O>(vs: seq<Value<O>>, params: seq<Value<O>>) returns (text: string, params': seq<Value<O>>)
    ensures text == Numbered(BoundList(vs), |params|) && params' == params + Params(BoundList(vs))
  {
    hide Listed, Each, Numbered, Params, Placeholder;
    var texts: seq<string> := [];
    params' := params;
    ListNone(Bound<O>, vs, ", ", params);
    for i := 0 to |vs|
      invariant Listed(Each(Bound, vs[..i]), ", ", texts, params, params')
    {
      BoundText(vs[i], |params'|);
      ListStep(Bound<O>, vs, i, ", ", texts, params, params', Placeholder(|params'| + 1));
      params' := params' + [vs[i]];
      texts := texts + [Placeholder(|params'|)];
    }
    ListAll(Bound<O>, vs, ", ", texts, params, params');
    text := Join(texts, ", ");
  }

  method PushComparison<O>(column: string, op: string, v: Value<O>, params: seq<Value<O>>)
    returns (text: string, params': seq<Value<O>>)
    ensures text == Numbered(Comparison(column, op, v), |params|)
        && params' == params + Params(Comparison(column, op, v))
  {
    params' := params + [v];
    text := column + op + Placeholder(|params'|);
    ComparisonText(column, op, v, |params|);
  }

  /** A condition's text, its values appended to the parameters. */
  method ToSql<O>(c: Condition<O>, params: seq<Value<O>>) returns (text: string, params': seq<Value<O>>)
    ensures text == Numbered(Holds(c), |params|) && params' == params + Params(Holds(c))
  {
    hide Numbered, Params, Comparison, BoundList;
    match c {
      case Eq(column, v) => text, params' := PushComparison(column, " = ", v, params);
      case Ne(column, v) => text, params' := PushComparison(column, " != ", v, params);
      case Gt(column, v) => text, params' := PushComparison(column, " > ", v, params);
      case Gte(column, v) => text, params' := PushComparison(column, " >= ", v, params);
      case Lt(column, v) => text, params' := PushComparison(column, " < ", v, params);
      case Lte(column, v) => text, params' := PushComparison(column, " <= ", v, params);
      case Like(column, pattern) => text, params' := PushComparison(column, " LIKE ", Text(pattern), params);
      case In(column, vs) =>
        text, params' := PushAll(vs, params);
        TwoTexts<Value<O>>(Given(column), Fixed(" IN ("), |params|);
        WrappedText([Given(column), Fixed(" IN (")], BoundList(vs), ")", |params|);
        text := column + " IN (" + text + ")";
      case IsNull(column) =>
        TwoTexts<Value<O>>(Given(column), Fixed(" IS NULL"), |params|);
        text, params' := column + " IS NULL", params;
      case IsNotNull(column) =>
        TwoTexts<Value<O>>(Given(column), Fixed(" IS NOT NULL"), |params|);
        text, params' := column + " IS NOT NULL", params;
      case Raw(sql) =>
        OneText<Value<O>>(Given(sql), |params|);
        text, params' := sql, params;
    }
  }

  /** The WHERE and HAVING clauses. */
  method AppendConditions<O>(lead: string, cs: seq<Condition<O>>, ghost t: Sql<O>, sql: string, params: seq<Value<O>>)
    returns (sql': string, params': seq<Value<O>>)
    requires Drafts(t, sql, params)
    ensures Drafts(t + AllHold(lead, cs), sql', params')
  {
    hide Drafts, Listed, Each, Numbered, Params, Holds;
    if cs == [] {
      assert t + AllHold(lead, cs) == t;
      return sql, params;
    }
    DraftText(t, sql, params, Fixed(lead));
    var texts: seq<string> := [];
    params' := params;
    ListNone(Holds<O>, cs, " AND ", params);
    for i := 0 to |cs|
      invariant Listed(Each(Holds, cs[..i]), " AND ", texts, params, params')
    {
      var text, more := ToSql(cs[i], params');
      ListStep(Holds<O>, cs, i, " AND ", texts, params, params', text);
      texts, params' := texts + [text], more;
    }
    ListAll(Holds<O>, cs, " AND ", texts, params, params');
    ghost var list := JoinTemplates(Each(Holds, cs), " AND ");
    DraftMore(t + [Fixed(lead)], sql + lead, params, list, Join(texts, " AND "));
    assert t + [Fixed(lead)] + list == t + ([Fixed(lead)] + list);
    sql' := sql + lead + Join(texts, " AND ");
  }

  /** A list of names has no parameters. */
  lemma {:induction false} NamesText<O>(names: seq<string>, n: nat, start: seq<Value<O>>)
    requires n <= |names|
    ensures Listed(Each(Name<O>, names[..n]), ", ", names[..n], start, start)
  {
    if n == 0 {
      ListNone(Name<O>, names, ", ", start);
    } else {
      NamesText(names, n - 1, start);
      hide Listed, Each;
      OneText<Value<O>>(Given(names[n - 1]), |start|);
      ListStep(Name<O>, names, n - 1, ", ", names[..n - 1], start, start, names[n - 1]);
      assert names[..n - 1] + [names[n - 1]] == names[..n];
    }
  }

  lemma DraftNames<O>(t: Sql<O>, sql: string, params: seq<Value<O>>, names: seq<string>)
    requires Drafts(t, sql, params)
    ensures Drafts(t + Names(names), sql + Join(names, ", "), params)
  {
    NamesText(names, |names|, params);
    hide Drafts, Listed, Each, Numbered, Params;
    assert names[..|names|] == names;
    ListAll(Name<O>, names, ", ", names, params, params);
    DraftMore(t, sql, params, Names<O>(names), Join(names, ", "));
  }

  method AppendGroupBy<O>(columns: seq<string>, ghost t: Sql<O>, sql: string, ghost params: seq<Value<O>>)
    returns (sql': string)
    requires Drafts(t, sql, params)
    ensures Drafts(t + GroupClause(columns), sql', params)
  {
    hide Drafts, Names;
    sql' := sql;
    if columns == [] {
      assert t + GroupClause(columns) == t;
    } else {
      DraftText(t, sql, params, Fixed(" GROUP BY "));
      DraftNames(t + [Fixed(" GROUP BY ")], sql + " GROUP BY ", params, columns);
      assert t + [Fixed(" GROUP BY ")] + Names(columns) == t + GroupClause(columns);
      sql' := sql + " GROUP BY " + Join(columns, ", ");
    }
  }

  method DirectionText(d: Direction) returns (word: string)
    ensures word == DirectionWord(d)
  {
    match d {
      case Asc => word := "ASC";
      case Desc => word := "DESC";
    }
  }

  method JoinText(t: JoinType) returns (word: string)
    ensures word == JoinWord(t)
  {
    match t {
      case Inner => word := "INNER";
      case Left => word := "LEFT";
      case Right => word := "RIGHT";
      case Full => word := "FULL";
    }
  }

  method AppendOrderBy<O>(orders: seq<OrderBy>, ghost t: Sql<O>, sql: string, ghost params: seq<Value<O>>)
    returns (sql': string)
    requires Drafts(t, sql, params)
    ensures Drafts(t + OrderClause(orders), sql', params)
  {
    hide Drafts, Listed, Each, Numbered, Params;
    if orders == [] {
      assert t + OrderClause(orders) == t;
      return sql;
    }
    DraftText(t, sql, params, Fixed(" ORDER BY "));
    var texts: seq<string> := [];
    ListNone(Ordering<O>, orders, ", ", params);
    for i := 0 to |orders|
      invariant Listed(Each(Ordering<O>, orders[..i]), ", ", texts, params, params)
    {
      var word := DirectionText(orders[i].direction);
      var text := orders[i].column + " " + word;
      TwoTexts<Value<O>>(Given(orders[i].column), Fixed(" " + DirectionWord(orders[i].direction)), |params|);
      assert text == orders[i].column + (" " + DirectionWord(orders[i].direction));
      ListStep(Ordering<O>, orders, i, ", ", texts, params, params, text);
      assert params + [] == params;
      texts := texts + [text];
    }
    ListAll(Ordering<O>, orders, ", ", texts, params, params);
    ghost var list: Sql<O> := JoinTemplates(Each(Ordering<O>, orders), ", ");
    DraftMore(t + [Fixed(" ORDER BY ")], sql + " ORDER BY ", params, list, Join(texts, ", "));
    assert t + [Fixed(" ORDER BY ")] + list == t + ([Fixed(" ORDER BY ")] + list);
    sql' := sql + " ORDER BY " + Join(texts, ", ");
  }

  /** LIMIT and OFFSET. */
  method AppendNumber<O>(word: string, n: Option<nat>, ghost t: Sql<O>, sql: string, ghost params: seq<Value<O>>)
    returns (sql': string)
    requires Drafts(t, sql, params)
    ensures Drafts(t + NumberClause(word, n), sql', params)
  {
    hide Drafts;
    sql' := sql;
    if n.None? {
      assert t + NumberClause(word, n) == t;
    } else {
      DraftText(t, sql, params, Fixed(word));
      DraftText(t + [Fixed(word)], sql + word, params, Given(ShowNat(n.value)));
      assert t + [Fixed(word)] + [Given(ShowNat(n.value))] == t + NumberClause(word, n);
      sql' := sql + word + ShowNat(n.value);
    }
  }

  method AppendTable<O>(table: Option<string>, ghost t: Sql<O>, sql: string, ghost params: seq<Value<O>>)
    returns (sql': string)
    requires Drafts(t, sql, params)
    ensures Drafts(t + TableName(table), sql', params)
  {
    hide Drafts;
    sql' := sql;
    if table.None? {
      assert t + TableName(table) == t;
    } else {
      DraftText(t, sql, params, Given(table.value));
      sql' := sql + table.value;
    }
  }

  lemma DraftJoin<O>(t: Sql<O>, sql: string, params: seq<Value<O>>, j: Joined)
    requires Drafts(t, sql, params)
    ensures Drafts(t + JoinClause(j), sql + " " + JoinWord(j.joinType) + " JOIN " + j.table + " ON " + j.on, params)
  {
    hide Drafts;
    var word := " " + JoinWord(j.joinType) + " JOIN ";
    DraftText(t, sql, params, Fixed(word));
    DraftText(t + [Fixed(word)], sql + word, params, Given(j.table));
    DraftText(t + [Fixed(word)] + [Given(j.table)], sql + word + j.table, params, Fixed(" ON "));
    DraftText(t + [Fixed(word)] + [Given(j.table)] + [Fixed(" ON ")], sql + word + j.table + " ON ", params,
        Given(j.on));
    assert t + [Fixed(word)] + [Given(j.table)] + [Fixed(" ON ")] + [Given(j.on)] == t + JoinClause(j);
    assert sql + word == sql + " " + JoinWord(j.joinType) + " JOIN ";
  }

  method AppendJoins<O>(joins: seq<Joined>, ghost t: Sql<O>, sql: string, ghost params: seq<Value<O>>)
    returns (sql': string)
    requires Drafts(t, sql, params)
    ensures Drafts(t + JoinClauses(joins), sql', params)
  {
    hide Drafts, JoinClause, JoinWord;
    sql' := sql;
    assert joins[..0] == [] && t + [] == t;
    for i := 0 to |joins|
      invariant Drafts(t + JoinClauses(joins[..i]), sql', params)
    {
      DraftJoin(t + JoinClauses(joins[..i]), sql', params, joins[i]);
      assert joins[..i + 1][..i] == joins[..i];
      assert t + JoinClauses(joins[..i]) + JoinClause(joins[i]) == t + JoinClauses(joins[..i + 1]);
      var word := JoinText(joins[i].joinType);
      sql' := sql' + " " + word + " JOIN " + joins[i].table + " ON " + joins[i].on;
    }
    assert joins[..|joins|] == joins;
  }

  method StartSelect<O>(columns: seq<string>) returns (sql: string)
    ensures Drafts(Selected<O>(columns), sql, [])
  {
    sql := "SELECT ";
    OneText<Value<O>>(Fixed(sql), 0);
    ghost var t: Sql<O> := [Fixed(sql)];
    assert Drafts(t, sql, []);
    hide Drafts, Names;
    if columns == [] {
      DraftText(t, sql, [], Fixed("*"));
      sql := sql + "*";
    } else {
      DraftNames(t, sql, [], columns);
      sql := sql + Join(columns, ", ");
    }
  }

  method BuildSelect<O>(b: Builder<O>) returns (sql: string, params: seq<Value<O>>)
    ensures Drafts(SelectStatement(b), sql, params)
  {
    hide *;
    params := [];
    sql := StartSelect<O>(b.columns);
    ghost var t := Selected<O>(b.columns);
    if b.table.Some? {
      DraftText(t, sql, params, Fixed(" FROM "));
      DraftText(t + [Fixed(" FROM ")], sql + " FROM ", params, Given(b.table.value));
      sql := sql + " FROM " + b.table.value;
    }
    FromPieces(t, b.table);
    t := t + FromClause(b.table);
    sql := AppendJoins(b.joins, t, sql, params);
    t := t + JoinClauses(b.joins);
    sql, params := AppendConditions(" WHERE ", b.conditions, t, sql, params);
    t := t + AllHold(" WHERE ", b.conditions);
    sql := AppendGroupBy(b.groupBy, t, sql, params);
    t := t + GroupClause(b.groupBy);
    sql, params := AppendConditions(" HAVING ", b.having, t, sql, params);
    t := t + AllHold(" HAVING ", b.having);
    sql := AppendOrderBy(b.orderBy, t, sql, params);
    t := t + OrderClause(b.orderBy);
    sql := AppendNumber(" LIMIT ", b.limit, t, sql, params);
    t := t + NumberClause(" LIMIT ", b.limit);
    sql := AppendNumber(" OFFSET ", b.offset, t, sql, params);
    SelectIs(b);
  }

  lemma FromPieces<O>(t: Sql<O>, table: Option<string>)
    ensures t + FromClause(table) == if table.None? then t else t + [Fixed(" FROM ")] + [Given(table.value)]
  {
  }

  lemma SelectIs<O>(b: Builder<O>)
    ensures SelectStatement(b) ==
      Selected(b.columns) + FromClause(b.table) + JoinClauses(b.joins) + AllHold(" WHERE ", b.conditions)
      + GroupClause(b.groupBy) + AllHold(" HAVING ", b.having) + OrderClause(b.orderBy)
      + NumberClause(" LIMIT ", b.limit) + NumberClause(" OFFSET ", b.offset)
  {
  }

  /** The rows of VALUES. */
  method PushRows<O>(rows: seq<seq<Value<O>>>) returns (text: string, params: seq<Value<O>>)
    ensures text == Numbered(JoinTemplates(Each(ValueRow, rows), ", "), 0)
    ensures params == Params(JoinTemplates(Each(ValueRow, rows), ", "))
  {
    var texts: seq<string> := [];
    params := [];
    ListNone(ValueRow<O>, rows, ", ", []);
    for i := 0 to |rows|
      invariant Listed(Each(ValueRow, rows[..i]), ", ", texts, [], params)
    {
      hide Listed, Each, Numbered, Params, BoundList;
      var inner, more := PushAll(rows[i], params);
      var row := "(" + inner + ")";
      OneText<Value<O>>(Fixed("("), |params|);
      WrappedText([Fixed("(")], BoundList(rows[i]), ")", |params|);
      ListStep(ValueRow<O>, rows, i, ", ", texts, [], params, row);
      texts, params := texts + [row], more;
    }
    ListAll(ValueRow<O>, rows, ", ", texts, [], params);
    text := Join(texts, ", ");
  }

  /** Pairs columns with the first row of values until either runs out. */
  method ZipAssignments<O>(b: Builder<O>) returns (sets: seq<(string, Value<O>)>)
    ensures sets == Assignments(b)
  {
    var first := if b.values == [] then [] else b.values[0];
    sets := [];
    var i := 0;
    while i < |b.columns| && i < |first|
      invariant i <= |b.columns| && i <= |first| && sets == Assignments(b)[..i]
    {
      sets := sets + [(b.columns[i], first[i])];
      i := i + 1;
    }
  }

  /** The assignments of SET. */
  method PushAssignments<O>(sets: seq<(string, Value<O>)>) returns (text: string, params: seq<Value<O>>)
    ensures text == Numbered(JoinTemplates(Each(Assignment, sets), ", "), 0)
    ensures params == Params(JoinTemplates(Each(Assignment, sets), ", "))
  {
    var texts: seq<string> := [];
    params := [];
    ListNone(Assignment<O>, sets, ", ", []);
    for i := 0 to |sets|
      invariant Listed(Each(Assignment, sets[..i]), ", ", texts, [], params)
    {
      hide Listed, Each, Numbered, Params, Comparison;
      var set', more := PushComparison(sets[i].0, " = ", sets[i].1, params);
      ListStep(Assignment<O>, sets, i, ", ", texts, [], params, set');
      texts, params := texts + [set'], more;
    }
    ListAll(Assignment<O>, sets, ", ", texts, [], params);
    text := Join(texts, ", ");
  }

  method Start<O>(word: string, table: Option<string>) returns (sql: string)
    ensures Drafts([Fixed(word)] + TableName<O>(table), sql, [])
  {
    OneText<Value<O>>(Fixed(word), 0);
    sql := AppendTable<O>(table, [Fixed(word)], word, []);
  }

  method BuildInsert<O>(b: Builder<O>) returns (sql: string, params: seq<Value<O>>)
    ensures Drafts(InsertStatement(b), sql, params)
  {
    hide Drafts, Numbered, Params, Names, Each, JoinTemplates, TableName;
    sql := Start<O>("INSERT INTO ", b.table);
    ghost var t: Sql<O> := [Fixed("INSERT INTO ")] + TableName(b.table);
    if b.columns != [] {
      DraftText(t, sql, [], Fixed(" ("));
      DraftNames(t + [Fixed(" (")], sql + " (", [], b.columns);
      DraftText(t + [Fixed(" (")] + Names(b.columns), sql + " (" + Join(b.columns, ", "), [], Fixed(")"));
      assert t + [Fixed(" (")] + Names(b.columns) + [Fixed(")")] == t + ColumnList(b.columns);
      sql := sql + " (" + Join(b.columns, ", ") + ")";
    } else {
      assert t + ColumnList(b.columns) == t;
    }
    t := t + ColumnList(b.columns);
    DraftText(t, sql, [], Fixed(" VALUES "));
    sql := sql + " VALUES ";
    t := t + [Fixed(" VALUES ")];
    var text, values := PushRows(b.values);
    DraftMore(t, sql, [], JoinTemplates(Each(ValueRow, b.values), ", "), text);
    assert [] + values == values;
    sql, params := sql + text, values;
  }

  method BuildUpdate<O>(b: Builder<O>) returns (sql: string, params: seq<Value<O>>)
    ensures Drafts(UpdateStatement(b), sql, params)
  {
    hide Drafts, Numbered, Params, Each, JoinTemplates, TableName, AllHold, Assignments;
    sql := Start<O>("UPDATE ", b.table);
    ghost var t: Sql<O> := [Fixed("UPDATE ")] + TableName(b.table);
    DraftText(t, sql, [], Fixed(" SET "));
    sql := sql + " SET ";
    t := t + [Fixed(" SET ")];
    var sets := ZipAssignments(b);
    var text, values := PushAssignments(sets);
    DraftMore(t, sql, [], JoinTemplates(Each(Assignment, Assignments(b)), ", "), text);
    assert [] + values == values;
    t := t + JoinTemplates(Each(Assignment, Assignments(b)), ", ");
    sql, params := AppendConditions(" WHERE ", b.conditions, t, sql + text, values);
  }

  method BuildDelete<O>(b: Builder<O>) returns (sql: string, params: seq<Value<O>>)
    ensures Drafts(DeleteStatement(b), sql, params)
  {
    hide Drafts, TableName, AllHold;
    sql := Start<O>("DELETE FROM ", b.table);
    sql, params := AppendConditions(" WHERE ", b.conditions, [Fixed("DELETE FROM ")] + TableName(b.table), sql, []);
  }

  // ---------------------------------------------------------------------------
  // Supplied texts
  // ---------------------------------------------------------------------------

  /** The text a condition supplies. */
  function SuppliedBy<O>(c: Condition<O>): string {
    if c.Raw? then c.sql else c.column
  }

  ghost predicate CleanConditions<O>(cs: seq<Condition<O>>) {
    forall c | c in cs :: !Marked(SuppliedBy(c))
  }

  predicate CleanNames(names: seq<string>) {
    forall name | name in names :: !Marked(name)
  }

  predicate CleanTable(table: Option<string>) {
    table.Some? ==> !Marked(table.value)
  }

  predicate CleanJoins(joins: seq<Joined>) {
    forall j | j in joins :: !Marked(j.table) && !Marked(j.on)
  }

  predicate CleanOrders(orders: seq<OrderBy>) {
    forall o | o in orders :: !Marked(o.column)
  }

  ghost predicate CleanAssignments<O>(sets: seq<(string, Value<O>)>) {
    forall a | a in sets :: !Marked(a.0)
  }

  /** None of the texts that the operation uses holds a `$` directly before a digit. */
  ghost predicate Clean<O>(b: Builder<O>) {
    && CleanTable(b.table)
    && match b.operation
       case Select =>
         && CleanNames(b.columns) && CleanJoins(b.joins) && CleanConditions(b.conditions)
         && CleanNames(b.groupBy) && CleanConditions(b.having) && CleanOrders(b.orderBy)
       case Insert => CleanNames(b.columns)
       case Update => CleanAssignments(Assignments(b)) && CleanConditions(b.conditions)
       case Delete => CleanConditions(b.conditions)
  }

  /** A clause is well formed, and unmarked exactly under the given condition. */
  ghost predicate Sound<V>(t: Template<V>, clean: bool) {
    WellFormed(t) && (Unmarked(t) <==> clean)
  }

  lemma SoundAppend<V>(a: Template<V>, b: Template<V>, p: bool, q: bool)
    requires Sound(a, p) && Sound(b, q)
    ensures Sound(a + b, p && q)
  {
    FollowsAppend(a, b);
    UnmarkedAppend(a, b);
  }

  /** Fixed text before anything whose supplied texts follow fixed text. */
  lemma SoundLead<V>(lead: string, t: Template<V>, clean: bool)
    requires Plainly(lead) && Follows(t) && (Unmarked(t) <==> clean)
    ensures Sound([Fixed(lead)] + t, clean)
  {
    var l: Template<V> := [Fixed(lead)];
    FollowsAppend(l, t);
    UnmarkedAppend(l, t);
  }

  lemma SoundText<V>(text: string)
    requires Plainly(text)
    ensures Sound<V>([Fixed(text)], true)
  {
  }

  lemma BoundListSound<O>(vs: seq<Value<O>>)
    ensures Follows(BoundList(vs)) && Unmarked(BoundList(vs))
    ensures BoundList(vs) != [] ==> BoundList(vs)[0].Param?
  {
    EachFollows(Bound<O>, vs, ", ");
    EachUnmarked(Bound<O>, vs, ", ");
    BoundListHead(vs);
  }

  lemma {:induction false} BoundListHead<O>(vs: seq<Value<O>>)
    ensures vs == [] <==> BoundList(vs) == []
    ensures vs != [] ==> BoundList(vs)[0].Param?
  {
    if |vs| > 1 {
      var init, last := vs[..|vs| - 1], vs[|vs| - 1];
      BoundListHead(init);
      EachMore(Bound<O>, vs, |vs| - 1);
      assert vs[..|vs| - 1 + 1] == vs;
      JoinTemplatesMore(Each(Bound<O>, init), Bound(last), ", ");
      assert Each(Bound<O>, init) != [];
      assert BoundList(vs) == BoundList(init) + [Fixed(", ")] + Bound(last);
    } else if |vs| == 1 {
      assert Each(Bound<O>, vs) == [Bound(vs[0])];
    }
  }

  lemma InSound<O>(column: string, vs: seq<Value<O>>)
    ensures Follows(Holds(In(column, vs))) && (Unmarked(Holds(In(column, vs))) <==> !Marked(column))
  {
    var lead: Sql<O> := [Given(column), Fixed(" IN (")];
    var list := BoundList(vs);
    var last: Sql<O> := [Fixed(")")];
    BoundListSound(vs);
    assert Unmarked(lead) <==> !Marked(column) by {
      assert lead[0] == Given(column);
    }
    assert Follows(lead) && Follows(last) && Unmarked(last);
    assert Holds(In(column, vs)) == lead + list + last;
    hide BoundList, Holds, Marked, Unmarked, Follows, Plainly;
    FollowsAppend(lead, list);
    FollowsAppend(lead + list, last);
    UnmarkedAppend(lead, list);
    UnmarkedAppend(lead + list, last);
  }

  lemma ComparisonSound<O>(column: string, op: string, v: Value<O>)
    requires Plainly(op)
    ensures Follows(Comparison(column, op, v)) && (Unmarked(Comparison(column, op, v)) <==> !Marked(column))
  {
    assert Comparison(column, op, v)[0] == Given(column);
  }

  lemma HoldsSound<O>(c: Condition<O>)
    ensures Follows(Holds(c)) && (Unmarked(Holds(c)) <==> !Marked(SuppliedBy(c)))
  {
    hide Comparison, BoundList, Marked;
    match c {
      case Eq(column, v) => ComparisonSound(column, " = ", v);
      case Ne(column, v) => ComparisonSound(column, " != ", v);
      case Gt(column, v) => ComparisonSound(column, " > ", v);
      case Gte(column, v) => ComparisonSound(column, " >= ", v);
      case Lt(column, v) => ComparisonSound(column, " < ", v);
      case Lte(column, v) => ComparisonSound(column, " <= ", v);
      case Like(column, pattern) => ComparisonSound<O>(column, " LIKE ", Text(pattern));
      case In(column, vs) => InSound(column, vs);
      case IsNull(column) => TextSound<Value<O>>(column, " IS NULL");
      case IsNotNull(column) => TextSound<Value<O>>(column, " IS NOT NULL");
      case Raw(sql) => assert Holds(c)[0] == Given(sql);
    }
  }

  lemma TextSound<V>(given: string, after: string)
    requires Plainly(after)
    ensures Follows<V>([Given(given), Fixed(after)])
    ensures Unmarked<V>([Given(given), Fixed(after)]) <==> !Marked(given)
  {
    var t: Template<V> := [Given(given), Fixed(after)];
    assert t[0] == Given(given);
  }

  lemma AllHoldSound<O>(lead: string, cs: seq<Condition<O>>)
    requires Plainly(lead)
    ensures Sound(AllHold(lead, cs), CleanConditions(cs))
  {
    forall c | c in cs ensures Follows(Holds(c)) && (Unmarked(Holds(c)) <==> !Marked(SuppliedBy(c))) {
      HoldsSound(c);
    }
    hide Follows, Unmarked, Holds;
    EachFollows(Holds<O>, cs, " AND ");
    EachUnmarked(Holds<O>, cs, " AND ");
    if cs != [] {
      SoundLead(lead, JoinTemplates(Each(Holds<O>, cs), " AND "), CleanConditions(cs));
    } else {
      SoundNone<Value<O>>();
    }
  }

  lemma SoundNone<V>()
    ensures Sound<V>([], true)
  {
  }

  lemma NamesSound<O>(names: seq<string>)
    ensures Follows(Names<O>(names)) && (Unmarked(Names<O>(names)) <==> CleanNames(names))
  {
    EachFollows(Name<O>, names, ", ");
    EachUnmarked(Name<O>, names, ", ");
    forall name: string ensures Unmarked(Name<O>(name)) <==> !Marked(name) {
      assert Name<O>(name)[0] == Given(name);
    }
  }

  lemma OrderSound<O>(orders: seq<OrderBy>)
    ensures Sound(OrderClause<O>(orders), CleanOrders(orders))
  {
    forall o: OrderBy ensures Follows(Ordering<O>(o)) && (Unmarked(Ordering<O>(o)) <==> !Marked(o.column)) {
      assert Ordering<O>(o)[0] == Given(o.column);
    }
    hide Follows, Unmarked, Ordering;
    EachFollows(Ordering<O>, orders, ", ");
    EachUnmarked(Ordering<O>, orders, ", ");
    if orders != [] {
      SoundLead(" ORDER BY ", JoinTemplates(Each(Ordering<O>, orders), ", "), CleanOrders(orders));
    } else {
      SoundNone<Value<O>>();
    }
  }

  lemma {:induction false} JoinsSound<O>(joins: seq<Joined>)
    ensures Sound(JoinClauses<O>(joins), CleanJoins(joins))
  {
    if joins == [] {
      SoundNone<Value<O>>();
    } else {
      var init, last := joins[..|joins| - 1], joins[|joins| - 1];
      assert joins == init + [last];
      JoinsSound<O>(init);
      JoinSound<O>(last);
      hide Sound, JoinClause;
      SoundAppend(JoinClauses<O>(init), JoinClause<O>(last), CleanJoins(init),
        !Marked(last.table) && !Marked(last.on));
    }
  }

  lemma JoinWordPlain(word: string)
    requires word in {"INNER", "LEFT", "RIGHT", "FULL"}
    ensures Plainly(" " + word + " JOIN ")
  {
  }

  lemma JoinSound<O>(j: Joined)
    ensures Sound(JoinClause<O>(j), !Marked(j.table) && !Marked(j.on))
  {
    var word := " " + JoinWord(j.joinType) + " JOIN ";
    JoinWordPlain(JoinWord(j.joinType));
    assert Plainly(" ON ");
    hide Plainly, Sound, Marked, JoinWord;
    GivenSound<Value<O>>(word, j.table);
    GivenSound<Value<O>>(" ON ", j.on);
    SoundAppend<Value<O>>([Fixed(word), Given(j.table)], [Fixed(" ON "), Given(j.on)], !Marked(j.table), !Marked(j.on));
    assert JoinClause<O>(j) == [Fixed(word), Given(j.table)] + [Fixed(" ON "), Given(j.on)];
  }

  lemma GivenSound<V>(lead: string, text: string)
    requires Plainly(lead)
    ensures Sound<V>([Fixed(lead), Given(text)], !Marked(text))
  {
    var t: Template<V> := [Fixed(lead), Given(text)];
    assert t[1] == Given(text);
  }

  lemma NumberSound<O>(word: string, n: Option<nat>)
    requires Plainly(word)
    ensures Sound(NumberClause<O>(word, n), true)
  {
    if n.Some? {
      var digits := ShowNat(n.value);
      assert forall i | 0 <= i < |digits| :: digits[i] in digits;
      assert !Marked(digits);
      GivenSound<Value<O>>(word, digits);
    }
  }

  lemma TableSound<O>(word: string, table: Option<string>)
    requires Plainly(word)
    ensures Sound([Fixed(word)] + TableName<O>(table), CleanTable(table))
  {
    if table.Some? {
      GivenSound<Value<O>>(word, table.value);
      assert [Fixed(word)] + TableName<O>(table) == [Fixed(word), Given(table.value)];
    }
  }

  lemma SelectedSound<O>(columns: seq<string>)
    ensures Sound(Selected<O>(columns), CleanNames(columns))
  {
    NamesSound<O>(columns);
    SoundLead("SELECT ", if columns == [] then [Fixed("*")] else Names<O>(columns), CleanNames(columns));
  }

  lemma ColumnListSound<O>(columns: seq<string>)
    ensures Sound(ColumnList<O>(columns), CleanNames(columns))
  {
    if columns != [] {
      NamesSound<O>(columns);
      SoundLead(" (", Names<O>(columns), CleanNames(columns));
      SoundText<Value<O>>(")");
      SoundAppend([Fixed(" (")] + Names<O>(columns), [Fixed(")")], CleanNames(columns), true);
    }
  }

  lemma GroupSound<O>(columns: seq<string>)
    ensures Sound(GroupClause<O>(columns), CleanNames(columns))
  {
    if columns != [] {
      NamesSound<O>(columns);
      SoundLead(" GROUP BY ", Names<O>(columns), CleanNames(columns));
    }
  }

  lemma FromSound<O>(table: Option<string>)
    ensures Sound(FromClause<O>(table), CleanTable(table))
  {
    if table.Some? {
      GivenSound<Value<O>>(" FROM ", table.value);
    }
  }

  lemma SelectCoreSound<O>(b: Builder<O>)
    ensures Sound(SelectCore(b), CleanTable(b.table) && CleanNames(b.columns) && CleanJoins(b.joins)
        && CleanConditions(b.conditions))
  {
    assert Plainly(" WHERE ");
    hide Sound, CleanTable, CleanNames, CleanJoins, CleanConditions, Plainly, Selected, FromClause, JoinClauses,
        AllHold;
    var t := Selected<O>(b.columns);
    SelectedSound<O>(b.columns);
    FromSound<O>(b.table);
    SoundAppend(t, FromClause(b.table), CleanNames(b.columns), CleanTable(b.table));
    t := t + FromClause(b.table);
    JoinsSound<O>(b.joins);
    SoundAppend(t, JoinClauses(b.joins), CleanNames(b.columns) && CleanTable(b.table), CleanJoins(b.joins));
    t := t + JoinClauses(b.joins);
    AllHoldSound(" WHERE ", b.conditions);
    SoundAppend(t, AllHold(" WHERE ", b.conditions), CleanNames(b.columns) && CleanTable(b.table)
        && CleanJoins(b.joins),
      CleanConditions(b.conditions));
  }

  lemma SelectRestSound<O>(b: Builder<O>, t: Sql<O>, clean: bool)
    requires Sound(t, clean)
    ensures Sound(t + GroupClause(b.groupBy) + AllHold(" HAVING ", b.having) + OrderClause(b.orderBy),
                  clean && CleanNames(b.groupBy) && CleanConditions(b.having) && CleanOrders(b.orderBy))
  {
    assert Plainly(" HAVING ");
    hide Sound, CleanNames, CleanConditions, CleanOrders, Plainly, GroupClause, AllHold, OrderClause;
    GroupSound<O>(b.groupBy);
    SoundAppend(t, GroupClause(b.groupBy), clean, CleanNames(b.groupBy));
    var u := t + GroupClause(b.groupBy);
    AllHoldSound(" HAVING ", b.having);
    SoundAppend(u, AllHold(" HAVING ", b.having), clean && CleanNames(b.groupBy), CleanConditions(b.having));
    u := u + AllHold(" HAVING ", b.having);
    OrderSound<O>(b.orderBy);
    SoundAppend(u, OrderClause(b.orderBy), clean && CleanNames(b.groupBy)
        && CleanConditions(b.having), CleanOrders(b.orderBy));
  }

  lemma NumbersSound<O>(t: Sql<O>, clean: bool, limit: Option<nat>, offset: Option<nat>)
    requires Sound(t, clean)
    ensures Sound(t + NumberClause(" LIMIT ", limit) + NumberClause(" OFFSET ", offset), clean)
  {
    assert Plainly(" LIMIT ");
    assert Plainly(" OFFSET ");
    hide Sound, Plainly, NumberClause;
    NumberSound<O>(" LIMIT ", limit);
    SoundAppend(t, NumberClause(" LIMIT ", limit), clean, true);
    NumberSound<O>(" OFFSET ", offset);
    SoundAppend(t + NumberClause(" LIMIT ", limit), NumberClause(" OFFSET ", offset), clean, true);
  }

  lemma SelectSound<O>(b: Builder<O>)
    requires b.operation.Select?
    ensures Sound(SelectStatement(b), Clean(b))
  {
    hide Sound, CleanTable, CleanNames, CleanJoins, CleanConditions, CleanOrders, SelectCore, GroupClause, AllHold,
        OrderClause,
      NumberClause;
    SelectCoreSound(b);
    var core := CleanTable(b.table) && CleanNames(b.columns) && CleanJoins(b.joins) && CleanConditions(b.conditions);
    SelectRestSound(b, SelectCore(b), core);
    NumbersSound(SelectCore(b) + GroupClause(b.groupBy) + AllHold(" HAVING ", b.having) + OrderClause(b.orderBy),
      Clean(b), b.limit, b.offset);
  }

  lemma RowSound<O>(row: seq<Value<O>>)
    ensures Follows(ValueRow(row)) && Unmarked(ValueRow(row))
  {
    BoundListSound(row);
    hide BoundList;
    SoundLead("(", BoundList(row), true);
    SoundText<Value<O>>(")");
    SoundAppend([Fixed("(")] + BoundList(row), [Fixed(")")], true, true);
  }

  lemma RowsSound<O>(values: seq<seq<Value<O>>>)
    ensures Sound([Fixed(" VALUES ")] + JoinTemplates(Each(ValueRow<O>, values), ", "), true)
  {
    forall row: seq<Value<O>> ensures Follows(ValueRow(row)) && Unmarked(ValueRow(row)) {
      RowSound(row);
    }
    hide Follows, Unmarked, ValueRow, Each, JoinTemplates, Sound;
    EachFollows(ValueRow<O>, values, ", ");
    EachUnmarked(ValueRow<O>, values, ", ");
    SoundLead(" VALUES ", JoinTemplates(Each(ValueRow<O>, values), ", "), true);
  }

  lemma InsertSound<O>(b: Builder<O>)
    requires b.operation.Insert?
    ensures Sound(InsertStatement(b), Clean(b))
  {
    assert Plainly("INSERT INTO ");
    hide Plainly, ValueRow, Each, JoinTemplates, Sound, CleanTable, CleanNames, ColumnList, TableName;
    var head: Sql<O> := [Fixed("INSERT INTO ")] + TableName(b.table);
    var rows := JoinTemplates(Each(ValueRow<O>, b.values), ", ");
    TableSound<O>("INSERT INTO ", b.table);
    ColumnListSound<O>(b.columns);
    SoundAppend(head, ColumnList(b.columns), CleanTable(b.table), CleanNames(b.columns));
    RowsSound(b.values);
    SoundAppend(head + ColumnList(b.columns), [Fixed(" VALUES ")] + rows, Clean(b), true);
    assert head + ColumnList(b.columns) + ([Fixed(" VALUES ")] + rows) == InsertStatement(b);
  }

  lemma AssignmentSound<O>(a: (string, Value<O>))
    ensures Follows(Assignment(a)) && (Unmarked(Assignment(a)) <==> !Marked(a.0))
  {
    assert Assignment(a)[0] == Given(a.0);
  }

  lemma SetsSound<O>(sets: seq<(string, Value<O>)>)
    ensures Sound([Fixed(" SET ")] + JoinTemplates(Each(Assignment<O>, sets), ", "), CleanAssignments(sets))
  {
    forall a: (string, Value<O>) ensures Follows(Assignment(a)) && (Unmarked(Assignment(a)) <==> !Marked(a.0)) {
      AssignmentSound(a);
    }
    hide Follows, Unmarked, Assignment, Each, JoinTemplates, Sound, Marked;
    EachFollows(Assignment<O>, sets, ", ");
    EachUnmarked(Assignment<O>, sets, ", ");
    SoundLead(" SET ", JoinTemplates(Each(Assignment<O>, sets), ", "), CleanAssignments(sets));
  }

  lemma UpdateSound<O>(b: Builder<O>)
    requires b.operation.Update?
    ensures Sound(UpdateStatement(b), Clean(b))
  {
    assert Plainly("UPDATE ");
    assert Plainly(" WHERE ");
    hide Plainly, Sound, CleanTable, CleanConditions, CleanAssignments, AllHold, TableName, Assignments, JoinTemplates,
        Each;
    var head: Sql<O> := [Fixed("UPDATE ")] + TableName(b.table);
    var list := Assignments(b);
    var sets := JoinTemplates(Each(Assignment<O>, list), ", ");
    TableSound<O>("UPDATE ", b.table);
    SetsSound(list);
    SoundAppend(head, [Fixed(" SET ")] + sets, CleanTable(b.table), CleanAssignments(list));
    AllHoldSound(" WHERE ", b.conditions);
    assert head + ([Fixed(" SET ")] + sets) == head + [Fixed(" SET ")] + sets;
    SoundAppend(head + [Fixed(" SET ")] + sets, AllHold(" WHERE ", b.conditions),
      CleanTable(b.table) && CleanAssignments(list), CleanConditions(b.conditions));
  }

  lemma DeleteSound<O>(b: Builder<O>)
    requires b.operation.Delete?
    ensures Sound(DeleteStatement(b), Clean(b))
  {
    assert Plainly("DELETE FROM ");
    assert Plainly(" WHERE ");
    hide Plainly, Sound, CleanTable, CleanConditions, AllHold, TableName;
    TableSound<O>("DELETE FROM ", b.table);
    AllHoldSound(" WHERE ", b.conditions);
    SoundAppend([Fixed("DELETE FROM ")] + TableName<O>(b.table), AllHold(" WHERE ", b.conditions),
      CleanTable(b.table), CleanConditions(b.conditions));
  }

  lemma StatementSound<O>(b: Builder<O>)
    ensures Sound(Statement(b), Clean(b))
  {
    hide Sound, Clean, SelectStatement, InsertStatement, UpdateStatement, DeleteStatement;
    match b.operation {
      case Select => SelectSound(b);
      case Insert => InsertSound(b);
      case Update => UpdateSound(b);
      case Delete => DeleteSound(b);
    }
  }

  // ---------------------------------------------------------------------------
  // The built query
  // ---------------------------------------------------------------------------

  /**
  The placeholders read `$1`, `$2`, ... up to the parameter count exactly when the texts in use are
  clean, and filling them in then gives the statement with its values in place.
  */
  lemma BuiltReads<O>(b: Builder<O>, sql: string, params: seq<Value<O>>, write: Value<O> -> string)
    requires Drafts(Statement(b), sql, params)
    ensures Refs(Tokens(sql)) == CountUp(|params|) <==> Clean(b)
    ensures Clean(b) ==> Substitute(sql, params, write) == Direct(Statement(b), write)
  {
    StatementSound(b);
    hide Statement, Clean, Numbered, Params, Substitute, Direct, Refs, Tokens, CountUp;
    RefsExact(Statement(b));
    if Clean(b) {
      SubstituteIsDirect(Statement(b), params, write);
    }
  }

  method Build<O>(b: Builder<O>) returns (sql: string, params: seq<Value<O>>)
    ensures sql == Numbered(Statement(b), 0) && params == Params(Statement(b))
    ensures Refs(Tokens(sql)) == CountUp(|params|) <==> Clean(b)
    ensures Clean(b) ==> forall write: Value<O> -> string ::
        Substitute(sql, params, write) == Direct(Statement(b), write)
  {
    hide Clean, SelectStatement, InsertStatement, UpdateStatement, DeleteStatement, Numbered, Params, Substitute,
        Direct, Refs,
      Tokens, CountUp;
    match b.operation {
      case Select => sql, params := BuildSelect(b);
      case Insert => sql, params := BuildInsert(b);
      case Update => sql, params := BuildUpdate(b);
      case Delete => sql, params := BuildDelete(b);
    }
    BuiltReads(b, sql, params, v => "");
    forall write: Value<O> -> string | Clean(b) ensures Substitute(sql, params, write) == Direct(Statement(b), write) {
      BuiltReads(b, sql, params, write);
    }
  }

  /** A bound WHERE condition and a raw HAVING condition, as `where_eq` and `having` leave them. */
  function BoundThenRaw<O>(table: string, column: string, v: Value<O>, raw: string): Builder<O> {
    Builder(Select, Some(table), [], [], [Eq(column, v)], [], None, None, [], [], [Raw(raw)])
  }

  lemma OneCondition<O>(lead: string, c: Condition<O>)
    ensures AllHold(lead, [c]) == [Fixed(lead)] + Holds(c)
  {
    assert Each(Holds<O>, [c]) == [Holds(c)];
  }

  lemma BoundThenRawIs<O>(table: string, column: string, v: Value<O>, raw: string)
    ensures Statement(BoundThenRaw(table, column, v, raw))
         == [Fixed("SELECT "), Fixed("*")] + [Fixed(" FROM "),
             Given(table)] + ([Fixed(" WHERE ")] + Comparison(column, " = ", v))
            + ([Fixed(" HAVING ")] + [Given(raw)])
  {
    var b := BoundThenRaw(table, column, v, raw);
    OneCondition(" WHERE ", Eq(column, v));
    OneCondition<O>(" HAVING ", Raw(raw));
    hide Comparison, Each, JoinTemplates, AllHold;
    assert JoinClauses<O>([]) == [] && GroupClause<O>([]) == [] && OrderClause<O>([]) == [];
    assert SelectCore(b)
        == [Fixed("SELECT "), Fixed("*")] + [Fixed(" FROM "), Given(table)] + AllHold(" WHERE ", b.conditions);
  }

  lemma FourParts<V>(a: Template<V>, b: Template<V>, c: Template<V>, d: Template<V>)
    requires Params(a) == [] && Params(b) == []
    ensures Numbered(a + b + c + d, 0) == Numbered(a, 0) + Numbered(b, 0) + Numbered(c, 0) + Numbered(d, |Params(c)|)
    ensures Params(a + b + c + d) == Params(c) + Params(d)
  {
    hide Numbered, Params;
    NumberedAppend(a, b, 0);
    ParamsAppend(a, b);
    NumberedAppend(a + b, c, 0);
    ParamsAppend(a + b, c);
    NumberedAppend(a + b + c, d, 0);
    ParamsAppend(a + b + c, d);
  }

  lemma LeadText<V>(lead: string, t: Template<V>, offset: nat)
    ensures Numbered([Fixed(lead)] + t, offset) == lead + Numbered(t, offset) && Params([Fixed(lead)] + t) == Params(t)
  {
    hide Numbered, Params;
    var l: Template<V> := [Fixed(lead)];
    OneText<V>(Fixed(lead), offset);
    NumberedAppend(l, t, offset);
    ParamsAppend(l, t);
  }

  /** Whatever the raw text, the bound value is `$1`. */
  lemma BoundThenRawText<O>(table: string, column: string, v: Value<O>, raw: string)
    ensures var b := BoundThenRaw(table, column, v, raw);
            && Params(Statement(b)) == [v]
            && Numbered(Statement(b), 0)
               == "SELECT " + "*" + (" FROM " + table) + (" WHERE " + (column + " = " + Placeholder(1)))
                  + (" HAVING " + raw)
  {
    hide *;
    BoundThenRawIs(table, column, v, raw);
    var star: Sql<O> := [Fixed("SELECT "), Fixed("*")];
    var from: Sql<O> := [Fixed(" FROM "), Given(table)];
    var cond := Comparison(column, " = ", v);
    TwoTexts<Value<O>>(Fixed("SELECT "), Fixed("*"), 0);
    TwoTexts<Value<O>>(Fixed(" FROM "), Given(table), 0);
    ComparisonText(column, " = ", v, 0);
    LeadText(" WHERE ", cond, 0);
    OneText<Value<O>>(Given(raw), 1);
    LeadText<Value<O>>(" HAVING ", [Given(raw)], 1);
    FourParts(star, from, [Fixed(" WHERE ")] + cond, [Fixed(" HAVING ")] + [Given(raw)]);
  }

  lemma RawMarked(raw: string)
    requires raw == "a = " + Placeholder(1)
    ensures Marked(raw)
  {
    assert raw[4] == '$' && IsDigit(raw[5]);
  }

  /** Raw SQL that writes its own `$1` shares it with the first bound value. */
  lemma RawMarkCollides<O>(table: string, column: string, v: Value<O>, raw: string)
    requires raw == "a = " + Placeholder(1)
    ensures var b := BoundThenRaw(table, column, v, raw);
            && !Clean(b) && Params(Statement(b)) == [v]
            && Numbered(Statement(b), 0)
               == "SELECT " + "*" + (" FROM " + table) + (" WHERE " + (column + " = " + Placeholder(1)))
                  + (" HAVING " + ("a = " + Placeholder(1)))
  {
    var b := BoundThenRaw(table, column, v, raw);
    RawMarked(raw);
    hide Numbered, Params, Statement, Marked, Placeholder;
    assert b.having[0] in b.having && !CleanConditions(b.having);
    BoundThenRawText(table, column, v, raw);
  }
}
