/** Cell values of the columnar engine and the string keys that group-by hashes. */
module GroupKeys {
  import opened Decimal

  datatype Value<F> = Int(n: int) | Float(f: F) | Bool(b: bool) | Text(s: string) | Null

  const SEP := '\U{0001}'

  function GroupKey<F>(show: F -> string, v: Value<F>): string {
    match v
    case Int(n) => "i:" + ShowInt(n)
    case Float(f) => "f:" + show(f)
    case Bool(b) => "b:" + (if b then "true" else "false")
    case Text(s) => "s:" + s
    case Null => "n:"
  }

  function Join(parts: seq<string>): string {
    if parts == [] then []
    else if |parts| == 1 then parts[0]
    else parts[0] + [SEP] + Join(parts[1..])
  }

  function KeyParts<F>(show: F -> string, vs: seq<Value<F>>): seq<string> {
    seq(|vs|, i requires 0 <= i < |vs| => GroupKey(show, vs[i]))
  }

  /** The key of a group: the keys of its columns, joined by U+0001. */
  function TupleKey<F>(show: F -> string, vs: seq<Value<F>>): string {
    Join(KeyParts(show, vs))
  }

  // ---------------------------------------------------------------------------
  // Injectivity
  // ---------------------------------------------------------------------------

  /** Float formatting is one-to-one and never prints the separator. */
  ghost predicate PlainFormat<F(!new)>(show: F -> string) {
    && (forall x: F, y: F | show(x) == show(y) :: x == y)
    && (forall x: F :: SEP !in show(x))
  }

  predicate PlainText<F>(v: Value<F>) {
    v.Text? ==> SEP !in v.s
  }

  lemma KeyShape<F>(show: F -> string, v: Value<F>)
    ensures var k := GroupKey(show, v);
            && |k| >= 2 && k[1] == ':'
            && (k[0] == 'i' <==> v.Int?) && (k[0] == 'f' <==> v.Float?) && (k[0] == 'b' <==> v.Bool?)
            && (k[0] == 's' <==> v.Text?) && (k[0] == 'n' <==> v.Null?)
            && (v.Int? ==> k[2..] == ShowInt(v.n)) && (v.Float? ==> k[2..] == show(v.f))
            && (v.Bool? ==> k[2..] == if v.b then "true" else "false") && (v.Text? ==> k[2..] == v.s)
  {
  }

  /** One column: the key determines the value, with no restriction on text. */
  lemma GroupKeyInjective<F(!new)>(show: F -> string, a: Value<F>, b: Value<F>)
    requires forall x: F, y: F | show(x) == show(y) :: x == y
    requires GroupKey(show, a) == GroupKey(show, b)
    ensures a == b
  {
    KeyShape(show, a);
    KeyShape(show, b);
    if a.Int? {
      ShowIntInjective(a.n, b.n);
    } else if a.Bool? {
      assert "true"[0] != "false"[0];
    }
  }

  lemma KeyWithoutSeparator<F(!new)>(show: F -> string, v: Value<F>)
    requires PlainFormat(show) && PlainText(v)
    ensures SEP !in GroupKey(show, v)
  {
    assert SEP !in "true" && SEP !in "false" && SEP !in "i:" && SEP !in "f:" && SEP !in "b:" && SEP !in "s:"
        && SEP !in "n:";
    if v.Int? {
      assert !IsDigit(SEP) && SEP != '-';
      assert SEP !in ShowInt(v.n);
    }
  }

  /** Two strings around their first separators. */
  lemma SplitUnique(a: string, b: string, x: string, y: string)
    requires SEP !in a && SEP !in b && a + [SEP] + x == b + [SEP] + y
    ensures a == b && x == y
  {
    var s, t := a + [SEP] + x, b + [SEP] + y;
    assert s[|a|] == SEP && t[|b|] == SEP;
    assert forall i | 0 <= i < |a| :: s[i] == a[i] && a[i] in a;
    assert forall i | 0 <= i < |b| :: t[i] == b[i] && b[i] in b;
    assert |a| == |b|;
    assert s[..|a|] == a && t[..|b|] == b;
    assert s[|a| + 1..] == x && t[|b| + 1..] == y;
  }

  lemma {:induction false} JoinInjective(a: seq<string>, b: seq<string>)
    requires |a| == |b| && (forall p | p in a :: SEP !in p) && (forall p | p in b :: SEP !in p)
    requires Join(a) == Join(b)
    ensures a == b
  {
    if |a| > 1 {
      SplitUnique(a[0], b[0], Join(a[1..]), Join(b[1..]));
      JoinInjective(a[1..], b[1..]);
      assert a == [a[0]] + a[1..] && b == [b[0]] + b[1..];
    }
  }

  /** Any number of columns: the joined key determines the tuple when no text contains the separator. */
  lemma TupleKeyInjective<F(!new)>(show: F -> string, a: seq<Value<F>>, b: seq<Value<F>>)
    requires PlainFormat(show) && |a| == |b|
    requires (forall v | v in a :: PlainText(v)) && (forall v | v in b :: PlainText(v))
    requires TupleKey(show, a) == TupleKey(show, b)
    ensures a == b
  {
    var p, q := KeyParts(show, a), KeyParts(show, b);
    forall i | 0 <= i < |a| ensures SEP !in p[i] && SEP !in q[i] {
      assert a[i] in a && b[i] in b;
      KeyWithoutSeparator(show, a[i]);
      KeyWithoutSeparator(show, b[i]);
    }
    JoinInjective(p, q);
    forall i | 0 <= i < |a| ensures a[i] == b[i] {
      assert p[i] == q[i];
      GroupKeyInjective(show, a[i], b[i]);
    }
  }

  // ---------------------------------------------------------------------------
  // Which text alphabets are safe
  // ---------------------------------------------------------------------------

  function Texts<F>(ss: seq<string>): seq<Value<F>> {
    seq(|ss|, i requires 0 <= i < |ss| => Text(ss[i]))
  }

  ghost predicate Over(ss: seq<string>, alphabet: set<char>) {
    forall s, c | s in ss && c in s :: c in alphabet
  }

  /** Distinct tuples of `n` texts over the alphabet never share a key. */
  ghost predicate InjectiveOver<F>(show: F -> string, n: nat, alphabet: set<char>) {
    forall a: seq<string>, b: seq<string> |
      |a| == |b| == n && Over(a, alphabet) && Over(b, alphabet)
          && TupleKey(show, Texts(a)) == TupleKey(show, Texts(b)) :: a == b
  }

  /** Two texts that trade a separator across their boundary, padded to `n` columns. */
  function Trade(n: nat, first: bool): seq<string>
    requires n >= 2
  {
    (if first then ["", [SEP, 's', ':']] else [[SEP, 's', ':'], ""]) + seq(n - 2, i => "")
  }

  /** Two leading parts, alone or before others. */
  lemma JoinTwo(x: string, y: string, rest: seq<string>)
    ensures Join([x, y] + rest) == x + [SEP] + (if rest == [] then y else y + [SEP] + Join(rest))
  {
    var tail := [y] + rest;
    assert ([x, y] + rest)[1..] == tail && tail[1..] == rest;
  }

  lemma TradeParts<F>(show: F -> string, n: nat, first: bool, x: string, y: string, rest: seq<string>)
    requires n >= 2 && rest == seq(n - 2, (i: nat) => "s:")
    requires x == "s:" + Trade(n, first)[0] && y == "s:" + Trade(n, first)[1]
    ensures KeyParts(show, Texts(Trade(n, first))) == [x, y] + rest
  {
    var texts := Trade(n, first);
    var parts, all := KeyParts(show, Texts(texts)), [x, y] + rest;
    forall i | 0 <= i < n ensures parts[i] == all[i] {
      assert parts[i] == "s:" + texts[i];
      assert i >= 2 ==> texts[i] == "" && all[i] == rest[i - 2];
    }
  }

  /** Parts that join alike in either order do so before any others. */
  lemma JoinSwapped(x: string, y: string, rest: seq<string>)
    requires x + [SEP] + y == y + [SEP] + x
    ensures Join([x, y] + rest) == Join([y, x] + rest)
  {
    hide Join;
    JoinTwo(x, y, rest);
    JoinTwo(y, x, rest);
    if rest != [] {
      Regrouped(x, y, Join(rest));
      Regrouped(y, x, Join(rest));
    }
  }

  lemma Regrouped(x: string, y: string, z: string)
    ensures x + [SEP] + (y + [SEP] + z) == (x + [SEP] + y) + ([SEP] + z)
  {
  }

  lemma TradeCollides<F>(show: F -> string, n: nat)
    requires n >= 2
    ensures TupleKey(show, Texts(Trade(n, true))) == TupleKey(show, Texts(Trade(n, false)))
    ensures Trade(n, true) != Trade(n, false)
  {
    var x, y := "s:", "s:" + [SEP, 's', ':'];
    var rest := seq(n - 2, (i: nat) => "s:");
    assert x + [SEP] + y == y + [SEP] + x;
    assert Trade(n, true)[0] == "" == Trade(n, false)[1] && Trade(n, true)[1] == [SEP, 's', ':'] == Trade(n, false)[0];
    hide Join, KeyParts, Texts, Trade;
    TradeParts(show, n, true, x, y, rest);
    TradeParts(show, n, false, y, x, rest);
    JoinSwapped(x, y, rest);
  }

  /** With two or more text columns, the joined key is safe exactly for the alphabets without U+0001. */
  lemma SafeAlphabets<F(!new)>(show: F -> string, n: nat, alphabet: set<char>)
    requires PlainFormat(show) && n >= 2 && 's' in alphabet && ':' in alphabet
    ensures InjectiveOver(show, n, alphabet) <==> SEP !in alphabet
  {
    if SEP in alphabet {
      TradeCollides(show, n);
      assert Over(Trade(n, true), alphabet) && Over(Trade(n, false), alphabet);
    } else {
      forall a: seq<string>, b: seq<string> |
        |a| == |b| == n && Over(a, alphabet) && Over(b, alphabet)
            && TupleKey(show, Texts(a)) == TupleKey(show, Texts(b))
        ensures a == b
      {
        TupleKeyInjective(show, Texts(a), Texts(b));
        forall i | 0 <= i < n ensures a[i] == b[i] {
          assert Texts<F>(a)[i] == Texts<F>(b)[i];
        }
      }
    }
  }
}
