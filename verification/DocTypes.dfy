/** Documents, dotted paths, index keys and query filters of the document store. */
module DocTypes {
  import opened Common
  import opened Decimal
  import opened Ieee

  type Id = string

  datatype Value =
    | Null
    | Bool(b: bool)
    | Int(n: int)
    | Float(f: Bits)
    | Str(s: string)
    | Arr(items: seq<Value>)
    | Obj(fields: map<string, Value>)

  datatype Document = Document(id: Id, data: map<string, Value>)

  /** `==` on values: structural, with float equality at the leaves. */
  predicate ValueEq(a: Value, b: Value)
    decreases a
  {
    match (a, b)
    case (Float(x), Float(y)) => NumEq(x, y)
    case (Arr(xs), Arr(ys)) => |xs| == |ys| && forall i | 0 <= i < |xs| :: ValueEq(xs[i], ys[i])
    case (Obj(f), Obj(g)) => f.Keys == g.Keys && forall k | k in f :: ValueEq(f[k], g[k])
    case _ => a == b
  }

  // ---------------------------------------------------------------------------
  // Paths
  // ---------------------------------------------------------------------------

  /** The pieces between dots; a string without dots is one piece. */
  function SplitDots(s: string): (parts: seq<string>)
    ensures parts != []
  {
    if s == [] then [""]
    else if s[0] == '.' then [""] + SplitDots(s[1..])
    else
      var rest := SplitDots(s[1..]);
      [[s[0]] + rest[0]] + rest[1..]
  }

  /** Up to the first dot, and what follows it. */
  function SplitFirst(s: string): (string, string)
    requires '.' in s
  {
    if s[0] == '.' then ("", s[1..])
    else
      var (head, tail) := SplitFirst(s[1..]);
      ([s[0]] + head, tail)
  }

  /** An array position: decimal digits, optionally signed `+`, that fit 64 bits. */
  function ParseUsize(s: string): Option<nat> {
    var digits := if |s| > 0 && s[0] == '+' then s[1..] else s;
    if digits == [] then None
    else
      match DigitsValue(digits)
      case None => None
      case Some(v) => if v < 0x1_0000_0000_0000_0000 then Some(v) else None
  }

  function GetPathParts(v: Value, parts: seq<string>): Option<Value>
    decreases parts
  {
    if parts == [] then Some(v)
    else
      match v
      case Obj(fields) => if parts[0] in fields then GetPathParts(fields[parts[0]], parts[1..]) else None
      case Arr(items) =>
        (match ParseUsize(parts[0])
         case None => None
         case Some(i) => if i < |items| then GetPathParts(items[i], parts[1..]) else None)
      case _ => None
  }

  function GetPath(v: Value, path: string): Option<Value> {
    GetPathParts(v, SplitDots(path))
  }

  /** A field by name, or by path when the name contains a dot. */
  function Get(doc: Document, key: string): Option<Value> {
    if '.' in key then
      var (head, tail) := SplitFirst(key);
      if head in doc.data then GetPath(doc.data[head], tail) else None
    else if key in doc.data then Some(doc.data[key]) else None
  }

  lemma {:induction false} SplitDotsFirst(s: string)
    ensures '.' in s ==> SplitDots(s) == [SplitFirst(s).0] + SplitDots(SplitFirst(s).1)
    ensures '.' !in s ==> SplitDots(s) == [s]
  {
    if s != [] && s[0] != '.' {
      SplitDotsFirst(s[1..]);
      assert s == [s[0]] + s[1..];
    }
  }

  /** Reading a field of a document is reading the path from the whole object. */
  lemma GetIsPath(doc: Document, key: string)
    ensures Get(doc, key) == GetPath(Obj(doc.data), key)
  {
    SplitDotsFirst(key);
    if '.' in key {
      var (head, tail) := SplitFirst(key);
      assert SplitDots(key)[1..] == SplitDots(tail);
    } else {
      assert key in doc.data ==> GetPathParts(doc.data[key], SplitDots(key)[1..]) == Some(doc.data[key]);
    }
  }

  lemma {:induction false} SplitDotsJoin(a: string, b: string)
    ensures SplitDots(a + "." + b) == SplitDots(a) + SplitDots(b)
  {
    if a == [] {
      assert a + "." + b == "." + b && ("." + b)[1..] == b;
    } else {
      assert (a + "." + b)[1..] == a[1..] + "." + b;
      SplitDotsJoin(a[1..], b);
    }
  }

  lemma {:induction false} PartsCompose(v: Value, a: seq<string>, b: seq<string>)
    ensures GetPathParts(v, a + b)
         == match GetPathParts(v, a) case None => None case Some(w) => GetPathParts(w, b)
    decreases a
  {
    if a == [] {
      assert a + b == b;
    } else {
      assert (a + b)[1..] == a[1..] + b;
      match v
      case Obj(fields) =>
        if a[0] in fields {
          PartsCompose(fields[a[0]], a[1..], b);
        }
      case Arr(items) =>
        var i := ParseUsize(a[0]);
        if i.Some? && i.value < |items| {
          PartsCompose(items[i.value], a[1..], b);
        }
      case _ =>
    }
  }

  /** A path with a dot is read in two steps. */
  lemma PathCompose(v: Value, a: string, b: string)
    ensures GetPath(v, a + "." + b) == match GetPath(v, a) case None => None case Some(w) => GetPath(w, b)
  {
    SplitDotsJoin(a, b);
    PartsCompose(v, SplitDots(a), SplitDots(b));
  }

  lemma OneStep(v: Value, part: string)
    requires '.' !in part
    ensures GetPath(v, part) == GetPathParts(v, [part])
  {
    SplitDotsFirst(part);
  }

  /** A path without a dot names a field of an object, and nothing of a plain value. */
  lemma PathField(v: Value, key: string)
    requires '.' !in key && !v.Arr?
    ensures GetPath(v, key) == if v.Obj? && key in v.fields then Some(v.fields[key]) else None
  {
    OneStep(v, key);
    assert [key][1..] == [];
  }

  /** A decimal number names an element of an array. */
  lemma PathElement(items: seq<Value>, i: nat)
    requires i < |items| && i < 0x1_0000_0000_0000_0000
    ensures GetPath(Arr(items), ShowNat(i)) == Some(items[i])
  {
    var part := ShowNat(i);
    assert part[0] in part && '.' !in part;
    ShowNatReads(i);
    OneStep(Arr(items), part);
    assert ParseUsize(part) == Some(i) && [part][1..] == [];
  }

  // ---------------------------------------------------------------------------
  // Index keys
  // ---------------------------------------------------------------------------

  /** Floats are keyed by their bits; arrays and objects share the null key. */
  datatype IndexKey = KNull | KBool(b: bool) | KInt(n: int) | KStr(s: string) | KFloat(bits: Bits)

  function KeyOf(v: Value): IndexKey {
    match v
    case Null => KNull
    case Bool(b) => KBool(b)
    case Int(n) => KInt(n)
    case Float(f) => KFloat(f)
    case Str(s) => KStr(s)
    case Arr(_) => KNull
    case Obj(_) => KNull
  }

  /** Two float zeros of opposite sign. */
  predicate ZeroClash(a: Value, b: Value) {
    a.Float? && b.Float? && IsZero(a.f) && IsZero(b.f) && a.f != b.f
  }

  /** Equal values share a key, except for zeros of opposite sign. */
  lemma EqualValuesShareKey(a: Value, b: Value)
    requires ValueEq(a, b)
    ensures KeyOf(a) == KeyOf(b) <==> !ZeroClash(a, b)
  {
  }

  // ---------------------------------------------------------------------------
  // Filters
  // ---------------------------------------------------------------------------

  /**
   A filter.  `Test` stands for the filters that apply a predicate to a present value and
   fail on an absent one: Gt, Gte, Lt, Lte, Contains, StartsWith, EndsWith and Regex.
   */
  datatype Filter =
    | Eq(field: string, value: Value)
    | Ne(field: string, value: Value)
    | In(field: string, values: seq<Value>)
    | Nin(field: string, values: seq<Value>)
    | Exists(field: string, wanted: bool)
    | Test(field: string, test: Value -> bool)
    | And(filters: seq<Filter>)
    | Or(filters: seq<Filter>)
    | Not(filter: Filter)

  predicate Among(v: Value, values: seq<Value>) {
    exists i | 0 <= i < |values| :: ValueEq(values[i], v)
  }

  predicate Matches(filter: Filter, doc: Document)
    decreases filter
  {
    match filter
    case Eq(field, value) => Get(doc, field).Some? && ValueEq(Get(doc, field).value, value)
    case Ne(field, value) => Get(doc, field).Some? ==> !ValueEq(Get(doc, field).value, value)
    case In(field, values) => Get(doc, field).Some? && Among(Get(doc, field).value, values)
    case Nin(field, values) => Get(doc, field).Some? ==> !Among(Get(doc, field).value, values)
    case Exists(field, wanted) => Get(doc, field).Some? == wanted
    case Test(field, test) => Get(doc, field).Some? && test(Get(doc, field).value)
    case And(fs) => forall i | 0 <= i < |fs| :: Matches(fs[i], doc)
    case Or(fs) => exists i | 0 <= i < |fs| :: Matches(fs[i], doc)
    case Not(f) => !Matches(f, doc)
  }

  /** A query matches when all of its filters do. */
  predicate MatchesAll(filters: seq<Filter>, doc: Document) {
    forall i | 0 <= i < |filters| :: Matches(filters[i], doc)
  }

  // ---------------------------------------------------------------------------
  // What equality means
  // ---------------------------------------------------------------------------

  /** No float inside the value is NaN. */
  predicate NoNaN(v: Value)
    decreases v
  {
    match v
    case Float(f) => !IsNaN(f)
    case Arr(items) => forall i | 0 <= i < |items| :: NoNaN(items[i])
    case Obj(fields) => forall k | k in fields :: NoNaN(fields[k])
    case _ => true
  }

  /** No float inside the value is a negative zero. */
  predicate NoNegativeZero(v: Value)
    decreases v
  {
    match v
    case Float(f) => f != NEG_ZERO
    case Arr(items) => forall i | 0 <= i < |items| :: NoNegativeZero(items[i])
    case Obj(fields) => forall k | k in fields :: NoNegativeZero(fields[k])
    case _ => true
  }

  lemma {:induction false} ValueEqSymmetric(a: Value, b: Value)
    ensures ValueEq(a, b) <==> ValueEq(b, a)
    decreases a
  {
    match (a, b)
    case (Arr(xs), Arr(ys)) =>
      if |xs| == |ys| {
        forall i | 0 <= i < |xs| ensures ValueEq(xs[i], ys[i]) <==> ValueEq(ys[i], xs[i]) {
          ValueEqSymmetric(xs[i], ys[i]);
        }
      }
    case (Obj(f), Obj(g)) =>
      if f.Keys == g.Keys {
        forall k | k in f ensures ValueEq(f[k], g[k]) <==> ValueEq(g[k], f[k]) {
          ValueEqSymmetric(f[k], g[k]);
        }
      }
    case _ =>
  }

  /** A value equals itself if and only if it holds no NaN. */
  lemma {:induction false} ValueEqReflexive(v: Value)
    ensures ValueEq(v, v) <==> NoNaN(v)
    decreases v
  {
    match v
    case Arr(items) =>
      forall i | 0 <= i < |items| ensures ValueEq(items[i], items[i]) <==> NoNaN(items[i]) {
        ValueEqReflexive(items[i]);
      }
    case Obj(fields) =>
      forall k | k in fields ensures ValueEq(fields[k], fields[k]) <==> NoNaN(fields[k]) {
        ValueEqReflexive(fields[k]);
      }
    case _ =>
  }

  lemma ZeroBits(f: Bits)
    ensures IsZero(f) <==> f == 0 || f == NEG_ZERO
  {
  }

  /** Values without negative zeros are equal only when identical. */
  lemma {:induction false} ValueEqIdentical(a: Value, b: Value)
    requires ValueEq(a, b) && NoNegativeZero(a) && NoNegativeZero(b)
    ensures a == b
    decreases a
  {
    match (a, b)
    case (Float(x), Float(y)) =>
      ZeroBits(x);
      ZeroBits(y);
    case (Arr(xs), Arr(ys)) =>
      forall i | 0 <= i < |xs| ensures xs[i] == ys[i] {
        ValueEqIdentical(xs[i], ys[i]);
      }
    case (Obj(f), Obj(g)) =>
      forall k | k in f ensures f[k] == g[k] {
        ValueEqIdentical(f[k], g[k]);
      }
    case _ =>
  }

  // ---------------------------------------------------------------------------
  // What filters mean
  // ---------------------------------------------------------------------------

  function Negated(fs: seq<Filter>): seq<Filter> {
    seq(|fs|, i requires 0 <= i < |fs| => Not(fs[i]))
  }

  function EqualTo(field: string, values: seq<Value>): seq<Filter> {
    seq(|values|, i requires 0 <= i < |values| => Eq(field, values[i]))
  }

  /** And is all of its parts, one after the other. */
  lemma AndIs(f: Filter, fs: seq<Filter>, doc: Document)
    ensures Matches(And([]), doc)
    ensures Matches(And([f] + fs), doc) <==> Matches(f, doc) && Matches(And(fs), doc)
    ensures Matches(And(fs), doc) <==> MatchesAll(fs, doc)
  {
    var all := [f] + fs;
    assert all[0] == f && forall i | 0 <= i < |fs| :: all[i + 1] == fs[i];
  }

  lemma OrParts(f: Filter, fs: seq<Filter>, doc: Document)
    ensures !Matches(Or([]), doc)
    ensures Matches(Or([f] + fs), doc) <==> Matches(f, doc) || Matches(Or(fs), doc)
  {
    var all := [f] + fs;
    assert all[0] == f && forall i | 0 <= i < |fs| :: all[i + 1] == fs[i];
    if Matches(Or(fs), doc) {
      var i :| 0 <= i < |fs| && Matches(fs[i], doc);
      assert Matches(all[i + 1], doc);
    }
  }

  lemma OrNegated(fs: seq<Filter>, doc: Document)
    ensures Matches(Or(fs), doc) <==> Matches(Not(And(Negated(fs))), doc)
  {
    var negated := Negated(fs);
    forall i | 0 <= i < |fs| ensures Matches(negated[i], doc) <==> !Matches(fs[i], doc) {
      assert negated[i] == Not(fs[i]);
    }
    assert Matches(And(negated), doc) <==> forall i | 0 <= i < |fs| :: !Matches(fs[i], doc);
  }

  /** Or is any of its parts, and the negation of the conjunction of the negations. */
  lemma OrIs(f: Filter, fs: seq<Filter>, doc: Document)
    ensures !Matches(Or([]), doc)
    ensures Matches(Or([f] + fs), doc) <==> Matches(f, doc) || Matches(Or(fs), doc)
    ensures Matches(Or(fs), doc) <==> Matches(Not(And(Negated(fs))), doc)
  {
    hide Matches;
    OrParts(f, fs, doc);
    OrNegated(fs, doc);
  }

  /** The negative filters are the negations of the positive ones, also on a missing field. */
  lemma NotIs(field: string, value: Value, values: seq<Value>, f: Filter, doc: Document)
    ensures Matches(Not(f), doc) <==> !Matches(f, doc)
    ensures Matches(Ne(field, value), doc) <==> !Matches(Eq(field, value), doc)
    ensures Matches(Nin(field, values), doc) <==> !Matches(In(field, values), doc)
    ensures Matches(Exists(field, false), doc) <==> !Matches(Exists(field, true), doc)
  {
  }

  /** In is equality with one of the values. */
  lemma InIs(field: string, values: seq<Value>, doc: Document)
    ensures Matches(In(field, values), doc) <==> Matches(Or(EqualTo(field, values)), doc)
  {
    var found, equal := Get(doc, field), EqualTo(field, values);
    hide Get;
    if found.Some? {
      forall i | 0 <= i < |values| ensures Matches(equal[i], doc) <==> ValueEq(values[i], found.value) {
        ValueEqSymmetric(values[i], found.value);
      }
    } else {
      assert forall i | 0 <= i < |values| :: !Matches(equal[i], doc);
    }
  }

  /** Equality and presence are about the value at the path; a test applies to it. */
  lemma FieldIs(field: string, value: Value, test: Value -> bool, doc: Document)
    ensures var found := GetPath(Obj(doc.data), field);
            && (Matches(Exists(field, true), doc) <==> found.Some?)
            && (Matches(Eq(field, value), doc) <==> found.Some? && ValueEq(found.value, value))
            && (Matches(Test(field, test), doc) <==> found.Some? && test(found.value))
  {
    GetIsPath(doc, field);
  }

  /** A document matches equality with its own value, unless there is a NaN inside. */
  lemma OwnValueMatches(field: string, doc: Document)
    requires Get(doc, field).Some?
    ensures Matches(Eq(field, Get(doc, field).value), doc) <==> NoNaN(Get(doc, field).value)
  {
    ValueEqReflexive(Get(doc, field).value);
  }
}
