/**
SQL text with numbered placeholders.  A template is a list of pieces; its numbered form
writes `$1`, `$2`, ... for its parameters, and its direct form writes the parameters out.
*/
module SqlText {
  import opened Common
  import opened Decimal

  /** Fixed SQL, text the caller supplied, or a parameter. */
  datatype Piece<V> = Fixed(text: string) | Given(text: string) | Param(value: V)

  type Template<V> = seq<Piece<V>>

  function Params<V>(t: Template<V>): seq<V> {
    if t == [] then []
    else Params(t[..|t| - 1]) + (var last := t[|t| - 1]; if last.Param? then [last.value] else [])
  }

  function Placeholder(n: nat): string {
    "$" + ShowNat(n)
  }

  /** The text whose parameters are numbered from `offset + 1`. */
  function Numbered<V>(t: Template<V>, offset: nat): string {
    if t == [] then []
    else
      var last := t[|t| - 1];
      Numbered(t[..|t| - 1], offset) + if last.Param? then Placeholder(offset + |Params(t)|) else last.text
  }

  /** The text with every parameter written out. */
  function Direct<V>(t: Template<V>, write: V -> string): string {
    if t == [] then []
    else
      var last := t[|t| - 1];
      Direct(t[..|t| - 1], write) + if last.Param? then write(last.value) else last.text
  }

  // ---------------------------------------------------------------------------
  // Reading SQL text
  // ---------------------------------------------------------------------------

  /** A character, or a `$` with the digits that follow it. */
  datatype Token = Plain(c: char) | Ref(digits: string)

  function DigitRun(s: string): (n: nat)
    ensures n <= |s| && (forall i | 0 <= i < n :: IsDigit(s[i])) && (n < |s| ==> !IsDigit(s[n]))
  {
    if s == [] || !IsDigit(s[0]) then 0 else 1 + DigitRun(s[1..])
  }

  predicate StartsRef(s: string) {
    |s| >= 2 && s[0] == '$' && IsDigit(s[1])
  }

  /** The first token; a reference takes as many digits as it can. */
  function First(s: string): Token
    requires s != []
  {
    if StartsRef(s) then Ref(s[1..1 + DigitRun(s[1..])]) else Plain(s[0])
  }

  function Rest(s: string): (r: string)
    requires s != []
    ensures |r| < |s|
  {
    if StartsRef(s) then s[1 + DigitRun(s[1..])..] else s[1..]
  }

  /** One left-to-right pass. */
  function Tokens(s: string): seq<Token>
    decreases |s|
  {
    if s == [] then [] else [First(s)] + Tokens(Rest(s))
  }

  function Refs(tokens: seq<Token>): seq<string> {
    if tokens == [] then []
    else Refs(tokens[..|tokens| - 1]) + (var last := tokens[|tokens| - 1]; if last.Ref? then [last.digits] else [])
  }

  function Fill<V>(token: Token, params: seq<V>, write: V -> string): string {
    match token
    case Plain(c) => [c]
    case Ref(digits) =>
      match DigitsValue(digits)
      case Some(n) => if 1 <= n <= |params| then write(params[n - 1]) else "$" + digits
      case None => "$" + digits
  }

  function FillAll<V>(tokens: seq<Token>, params: seq<V>, write: V -> string): string {
    if tokens == [] then []
        else FillAll(tokens[..|tokens| - 1], params, write) + Fill(tokens[|tokens| - 1], params, write)
  }

  /** Replaces every reference by the parameter it numbers. */
  function Substitute<V>(sql: string, params: seq<V>, write: V -> string): string {
    FillAll(Tokens(sql), params, write)
  }

  /** The text holds a `$` directly before a digit. */
  predicate Marked(s: string) {
    exists i | 0 <= i < |s| - 1 :: s[i] == '$' && IsDigit(s[i + 1])
  }

  // ---------------------------------------------------------------------------
  // Reading is compositional
  // ---------------------------------------------------------------------------

  predicate Loose(c: char) {
    c != '$' && !IsDigit(c)
  }

  /** No reference can straddle the boundary. */
  predicate Splits(s: string, t: string) {
    s == [] || t == [] || !IsDigit(t[0]) || Loose(s[|s| - 1])
  }

  lemma {:induction false} DigitRunExtends(s: string, t: string)
    requires Splits(s, t)
    ensures s != [] ==> DigitRun(s + t) == DigitRun(s)
  {
    if s != [] && IsDigit(s[0]) {
      assert (s + t)[1..] == s[1..] + t;
      if |s| > 1 {
        DigitRunExtends(s[1..], t);
      } else {
        assert s[1..] == [] && [] + t == t;
      }
    }
  }

  /** What follows a split changes no token before it. */
  lemma FirstExtends(s: string, t: string)
    requires s != [] && Splits(s, t)
    ensures First(s + t) == First(s) && Rest(s + t) == Rest(s) + t && Splits(Rest(s), t)
  {
    assert (s + t)[1..] == s[1..] + t;
    if StartsRef(s) {
      var n := DigitRun(s[1..]);
      DigitRunExtends(s[1..], t);
      assert (s + t)[1..1 + n] == s[1..1 + n];
      assert (s + t)[1 + n..] == s[1 + n..] + t;
    }
  }

  lemma {:induction false} TokensAppend(s: string, t: string)
    requires Splits(s, t)
    ensures Tokens(s + t) == Tokens(s) + Tokens(t)
    decreases |s|
  {
    if s == [] {
      assert s + t == t;
    } else {
      hide First, Rest, Splits;
      FirstExtends(s, t);
      TokensAppend(Rest(s), t);
      Prepend(First(s), Tokens(Rest(s)), Tokens(t));
    }
  }

  lemma Prepend<T>(x: T, a: seq<T>, b: seq<T>)
    ensures [x] + (a + b) == [x] + a + b
  {
  }

  lemma {:induction false} RefsAppend(a: seq<Token>, b: seq<Token>)
    ensures Refs(a + b) == Refs(a) + Refs(b)
  {
    if b == [] {
      assert a + b == a;
    } else {
      assert (a + b)[..|a + b| - 1] == a + b[..|b| - 1];
      RefsAppend(a, b[..|b| - 1]);
    }
  }

  lemma {:induction false} FillAppend<V>(a: seq<Token>, b: seq<Token>, params: seq<V>, write: V -> string)
    ensures FillAll(a + b, params, write) == FillAll(a, params, write) + FillAll(b, params, write)
  {
    hide Fill;
    if b == [] {
      assert a + b == a;
    } else {
      assert (a + b)[..|a + b| - 1] == a + b[..|b| - 1];
      FillAppend(a, b[..|b| - 1], params, write);
    }
  }

  lemma {:induction false} AllDigits(s: string)
    requires forall c | c in s :: IsDigit(c)
    ensures DigitRun(s) == |s|
  {
    if s != [] {
      assert s[0] in s && forall c | c in s[1..] :: c in s;
      AllDigits(s[1..]);
    }
  }

  /** A placeholder is read as one reference. */
  lemma PlaceholderToken(n: nat)
    ensures Tokens(Placeholder(n)) == [Ref(ShowNat(n))]
  {
    var s := Placeholder(n);
    assert s[1..] == ShowNat(n) && ShowNat(n)[0] in ShowNat(n);
    AllDigits(ShowNat(n));
    assert s[1..1 + |ShowNat(n)|] == ShowNat(n) && s[1 + |ShowNat(n)|..] == [];
  }

  /** A text holds a reference exactly when it is marked. */
  lemma {:induction false} RefsOfText(s: string)
    ensures Refs(Tokens(s)) == [] <==> !Marked(s)
    decreases |s|
  {
    if s != [] {
      MarkedTail(s);
      var head := First(s);
      assert Refs([head]) == (if head.Ref? then [head.digits] else []) by {
        assert [head][..0] == [];
      }
      RefsAppend([head], Tokens(Rest(s)));
      if !StartsRef(s) {
        RefsOfText(Rest(s));
      }
    }
  }

  lemma MarkedTail(s: string)
    requires s != []
    ensures Marked(s) <==> StartsRef(s) || Marked(s[1..])
  {
    var rest := s[1..];
    if Marked(rest) {
      var i :| 0 <= i < |rest| - 1 && rest[i] == '$' && IsDigit(rest[i + 1]);
      assert s[i + 1] == '$' && IsDigit(s[i + 2]);
    }
    if Marked(s) && !StartsRef(s) {
      var i :| 0 <= i < |s| - 1 && s[i] == '$' && IsDigit(s[i + 1]);
      assert rest[i - 1] == '$' && IsDigit(rest[i]);
    }
  }

  /** Text without references is left alone. */
  lemma {:induction false} FillText<V>(s: string, params: seq<V>, write: V -> string)
    requires !Marked(s)
    ensures FillAll(Tokens(s), params, write) == s
  {
    if s != [] {
      MarkedTail(s);
      FillText(s[1..], params, write);
      FillAppend([Plain(s[0])], Tokens(s[1..]), params, write);
      FillOne(Plain(s[0]), params, write);
    }
  }

  lemma FillOne<V>(token: Token, params: seq<V>, write: V -> string)
    ensures FillAll([token], params, write) == Fill(token, params, write)
  {
    assert [token][..0] == [];
  }

  // ---------------------------------------------------------------------------
  // Templates
  // ---------------------------------------------------------------------------

  /** Fixed text opens with no digit, ends loosely and holds no `$`. */
  predicate Plainly(s: string) {
    s != [] && !IsDigit(s[0]) && Loose(s[|s| - 1]) && '$' !in s
  }

  /** Every supplied text stands after fixed text, or first. */
  ghost predicate Follows<V>(t: Template<V>) {
    forall i | 0 <= i < |t| :: (t[i].Fixed? ==> Plainly(t[i].text)) && (t[i].Given? && i > 0 ==> t[i - 1].Fixed?)
  }

  /** Every supplied text stands after fixed text. */
  ghost predicate WellFormed<V>(t: Template<V>) {
    Follows(t) && (t != [] ==> !t[0].Given?)
  }

  /** No supplied text holds a `$` directly before a digit. */
  ghost predicate Unmarked<V>(t: Template<V>) {
    forall i | 0 <= i < |t| && t[i].Given? :: !Marked(t[i].text)
  }

  lemma {:induction false} ParamsAppend<V>(a: Template<V>, b: Template<V>)
    ensures Params(a + b) == Params(a) + Params(b)
  {
    if b == [] {
      assert a + b == a;
    } else {
      assert (a + b)[..|a + b| - 1] == a + b[..|b| - 1];
      ParamsAppend(a, b[..|b| - 1]);
    }
  }

  /** Numbering continues where the text before it stopped. */
  lemma {:induction false} NumberedAppend<V>(a: Template<V>, b: Template<V>, offset: nat)
    ensures Numbered(a + b, offset) == Numbered(a, offset) + Numbered(b, offset + |Params(a)|)
  {
    if b == [] {
      assert a + b == a;
    } else {
      assert (a + b)[..|a + b| - 1] == a + b[..|b| - 1];
      NumberedAppend(a, b[..|b| - 1], offset);
      ParamsAppend(a, b);
    }
  }

  lemma FollowsAppend<V>(a: Template<V>, b: Template<V>)
    requires Follows(a) && Follows(b)
    requires b != [] && b[0].Given? ==> a == [] || a[|a| - 1].Fixed?
    ensures Follows(a + b)
  {
  }

  function PieceText<V>(p: Piece<V>, n: nat): string {
    if p.Param? then Placeholder(n) else p.text
  }

  /** A piece of a well-formed template never splits a reference. */
  lemma PieceSplits<V>(t: Template<V>)
    requires WellFormed(t) && t != []
    ensures WellFormed(t[..|t| - 1])
    ensures Splits(Numbered(t[..|t| - 1], 0), PieceText(t[|t| - 1], |Params(t)|))
  {
    var init, last := t[..|t| - 1], t[|t| - 1];
    if last.Given? {
      var before := init[|init| - 1];
      assert before == t[|t| - 2] && before.Fixed? && Plainly(before.text);
      var sql := Numbered(init, 0);
      assert sql[|sql| - 1] == before.text[|before.text| - 1];
    }
  }

  function CountUp(n: nat): seq<string> {
    if n == 0 then [] else CountUp(n - 1) + [ShowNat(n)]
  }

  lemma {:induction false} CountUpLength(n: nat)
    ensures |CountUp(n)| == n
  {
    if n > 0 {
      CountUpLength(n - 1);
    }
  }

  /** What the last piece adds to the references. */
  lemma RefsStep<V>(t: Template<V>)
    requires WellFormed(t) && t != []
    ensures Refs(Tokens(Numbered(t, 0)))
        == Refs(Tokens(Numbered(t[..|t| - 1], 0))) + Refs(Tokens(PieceText(t[|t| - 1], |Params(t)|)))
  {
    PieceSplits(t);
    var init, piece := Numbered(t[..|t| - 1], 0), PieceText(t[|t| - 1], |Params(t)|);
    TokensAppend(init, piece);
    RefsAppend(Tokens(init), Tokens(piece));
  }

  lemma RefsOfPlaceholder(n: nat)
    ensures Refs(Tokens(Placeholder(n))) == [ShowNat(n)]
  {
    PlaceholderToken(n);
    assert [Ref(ShowNat(n))][..0] == [];
  }

  lemma {:induction false} RefsOfUnmarked<V>(t: Template<V>)
    requires WellFormed(t) && Unmarked(t)
    ensures Refs(Tokens(Numbered(t, 0))) == CountUp(|Params(t)|)
  {
    if t != [] {
      var last := t[|t| - 1];
      PieceSplits(t);
      RefsOfUnmarked(t[..|t| - 1]);
      RefsStep(t);
      if last.Param? {
        RefsOfPlaceholder(|Params(t)|);
      } else {
        RefsOfText(last.text);
      }
    }
  }

  /** A parameter, and a marked text, shows as at least one reference. */
  lemma PieceRefs<V>(p: Piece<V>, n: nat)
    ensures p.Param? || (p.Given? && Marked(p.text)) ==> |Refs(Tokens(PieceText(p, n)))| >= 1
  {
    hide Tokens, Refs, Marked, Placeholder;
    if p.Param? {
      RefsOfPlaceholder(n);
    } else {
      RefsOfText(p.text);
    }
  }

  lemma LastPiece<V>(t: Template<V>)
    requires t != []
    ensures var init, last := t[..|t| - 1], t[|t| - 1];
            && |Params(t)| == |Params(init)| + (if last.Param? then 1 else 0)
            && (Unmarked(t) <==> Unmarked(init) && !(last.Given? && Marked(last.text)))
  {
    var init, last := t[..|t| - 1], t[|t| - 1];
    var tail := [last];
    assert t == init + tail;
    assert Unmarked(tail) <==> !(last.Given? && Marked(last.text)) by {
      assert tail[0] == last;
    }
    hide Unmarked, Marked;
    UnmarkedAppend(init, tail);
  }

  /** There is at least one reference per parameter, and one more when some text is marked. */
  lemma {:induction false} RefsAtLeast<V>(t: Template<V>)
    requires WellFormed(t)
    ensures |Refs(Tokens(Numbered(t, 0)))| >= |Params(t)| + if Unmarked(t) then 0 else 1
  {
    if t != [] {
      PieceSplits(t);
      hide Tokens, Refs, Numbered, Params, WellFormed, Unmarked, Marked, PieceText;
      RefsAtLeast(t[..|t| - 1]);
      RefsStep(t);
      PieceRefs(t[|t| - 1], |Params(t)|);
      LastPiece(t);
    }
  }

  /** The references read `$1`, `$2`, ... up to the parameter count exactly when no supplied text is marked. */
  lemma RefsExact<V>(t: Template<V>)
    requires WellFormed(t)
    ensures Refs(Tokens(Numbered(t, 0))) == CountUp(|Params(t)|) <==> Unmarked(t)
  {
    CountUpLength(|Params(t)|);
    if Unmarked(t) {
      RefsOfUnmarked(t);
    } else {
      RefsAtLeast(t);
    }
  }

  lemma FillPlaceholder<V>(n: nat, params: seq<V>, write: V -> string)
    requires 1 <= n <= |params|
    ensures FillAll(Tokens(Placeholder(n)), params, write) == write(params[n - 1])
  {
    PlaceholderToken(n);
    FillOne(Ref(ShowNat(n)), params, write);
    ShowNatReads(n);
  }

  function DirectPiece<V>(p: Piece<V>, write: V -> string): string {
    if p.Param? then write(p.value) else p.text
  }

  lemma PieceFills<V>(p: Piece<V>, n: nat, params: seq<V>, write: V -> string)
    requires if p.Param? then 1 <= n <= |params| && params[n - 1] == p.value else !Marked(p.text)
    ensures FillAll(Tokens(PieceText(p, n)), params, write) == DirectPiece(p, write)
  {
    hide Tokens, FillAll, Marked, Placeholder;
    if p.Param? {
      FillPlaceholder(n, params, write);
    } else {
      FillText(p.text, params, write);
    }
  }

  /** What the last piece adds to the substituted text. */
  lemma SubstituteStep<V>(t: Template<V>, params: seq<V>, write: V -> string)
    requires WellFormed(t) && t != []
    ensures Substitute(Numbered(t, 0), params, write)
         == Substitute(Numbered(t[..|t| - 1], 0), params, write) + FillAll(Tokens(PieceText(t[|t| - 1], |Params(t)|)),
             params, write)
  {
    PieceSplits(t);
    var before, piece := Numbered(t[..|t| - 1], 0), PieceText(t[|t| - 1], |Params(t)|);
    assert Numbered(t, 0) == before + piece;
    hide Numbered, Tokens, FillAll, PieceText, WellFormed, Splits;
    TokensAppend(before, piece);
    FillAppend(Tokens(before), Tokens(piece), params, write);
  }

  lemma FixedUnmarked(s: string)
    requires Plainly(s)
    ensures !Marked(s)
  {
    assert forall i | 0 <= i < |s| :: s[i] in s;
  }

  /** The last piece of a clean template is one that fills in. */
  lemma LastFills<V>(t: Template<V>, params: seq<V>)
    requires WellFormed(t) && Unmarked(t) && Params(t) <= params && t != []
    ensures Unmarked(t[..|t| - 1]) && Params(t[..|t| - 1]) <= params
    ensures var last, n := t[|t| - 1], |Params(t)|;
            if last.Param? then 1 <= n <= |params| && params[n - 1] == last.value else !Marked(last.text)
  {
    var init, last, n := t[..|t| - 1], t[|t| - 1], |Params(t)|;
    LastPiece(t);
    if last.Fixed? {
      FixedUnmarked(last.text);
    } else if last.Param? {
      assert Params(t)[n - 1] == last.value;
    }
  }

  /** Substituting the parameters gives the direct text; further parameters do not matter. */
  lemma {:induction false} SubstituteIsDirect<V>(t: Template<V>, params: seq<V>, write: V -> string)
    requires WellFormed(t) && Unmarked(t) && Params(t) <= params
    ensures Substitute(Numbered(t, 0), params, write) == Direct(t, write)
  {
    if t != [] {
      PieceSplits(t);
      LastFills(t, params);
      hide Substitute, Numbered, Params, WellFormed, Unmarked, Tokens, FillAll, PieceText;
      SubstituteIsDirect(t[..|t| - 1], params, write);
      SubstituteStep(t, params, write);
      PieceFills(t[|t| - 1], |Params(t)|, params, write);
    }
  }

  // ---------------------------------------------------------------------------
  // Joining
  // ---------------------------------------------------------------------------

  function Join(parts: seq<string>, sep: string): string {
    if parts == [] then []
    else if |parts| == 1 then parts[0]
    else Join(parts[..|parts| - 1], sep) + sep + parts[|parts| - 1]
  }

  function JoinTemplates<V>(parts: seq<Template<V>>, sep: string): Template<V> {
    if parts == [] then []
    else if |parts| == 1 then parts[0]
    else JoinTemplates(parts[..|parts| - 1], sep) + [Fixed(sep)] + parts[|parts| - 1]
  }

  lemma JoinMore(texts: seq<string>, text: string, sep: string)
    ensures Join(texts + [text], sep) == if texts == [] then text else Join(texts, sep) + sep + text
  {
    assert (texts + [text])[..|texts|] == texts;
  }

  lemma JoinTemplatesMore<V>(parts: seq<Template<V>>, part: Template<V>, sep: string)
    ensures JoinTemplates(parts + [part], sep) == if parts == [] then part
        else JoinTemplates(parts, sep) + [Fixed(sep)] + part
  {
    assert (parts + [part])[..|parts|] == parts;
  }

  lemma AddText<V>(t: Template<V>, p: Piece<V>, offset: nat)
    requires !p.Param?
    ensures Numbered(t + [p], offset) == Numbered(t, offset) + p.text && Params(t + [p]) == Params(t)
  {
    assert (t + [p])[..|t|] == t;
  }

  lemma AddParam<V>(t: Template<V>, v: V, offset: nat)
    ensures Numbered(t + [Param(v)], offset) == Numbered(t, offset) + Placeholder(offset + |Params(t)| + 1)
    ensures Params(t + [Param(v)]) == Params(t) + [v]
  {
    assert (t + [Param(v)])[..|t|] == t;
  }

  lemma AddPart<V>(t: Template<V>, sep: string, part: Template<V>, offset: nat)
    ensures Numbered(t + [Fixed(sep)] + part, offset)
        == Numbered(t, offset) + sep + Numbered(part, offset + |Params(t)|)
    ensures Params(t + [Fixed(sep)] + part) == Params(t) + Params(part)
  {
    hide Numbered, Params;
    AddText(t, Fixed(sep), offset);
    NumberedAppend(t + [Fixed(sep)], part, offset);
    ParamsAppend(t + [Fixed(sep)], part);
  }

  /** Joined texts are the numbered form of the joined templates, and their parameters follow `start`. */
  ghost predicate Listed<V>(parts: seq<Template<V>>, sep: string, texts: seq<string>, start: seq<V>, params: seq<V>) {
    var joined := JoinTemplates(parts, sep);
    |texts| == |parts| && Join(texts, sep) == Numbered(joined, |start|) && params == start + Params(joined)
  }

  lemma ListedFirst<V>(sep: string, start: seq<V>, params: seq<V>, part: Template<V>, text: string)
    requires Listed([], sep, [], start, params) && text == Numbered(part, |params|)
    ensures Listed([part], sep, [text], start, params + Params(part))
  {
    assert params == start;
  }

  lemma ListedNext<V>(parts: seq<Template<V>>, sep: string, texts: seq<string>, start: seq<V>, params: seq<V>,
      part: Template<V>, text: string)
    requires Listed(parts, sep, texts, start, params) && text == Numbered(part, |params|) && parts != []
    ensures Listed(parts + [part], sep, texts + [text], start, params + Params(part))
  {
    hide Join, JoinTemplates, Numbered, Params;
    var joined := JoinTemplates(parts, sep);
    JoinMore(texts, text, sep);
    JoinTemplatesMore(parts, part, sep);
    AddPart(joined, sep, part, |start|);
    assert params + Params(part) == start + (Params(joined) + Params(part));
  }

  /** One more part, numbered after the ones before it. */
  lemma ListedMore<V>(parts: seq<Template<V>>, sep: string, texts: seq<string>, start: seq<V>, params: seq<V>,
      part: Template<V>, text: string)
    requires Listed(parts, sep, texts, start, params) && text == Numbered(part, |params|)
    ensures Listed(parts + [part], sep, texts + [text], start, params + Params(part))
  {
    if parts == [] {
      assert texts == [] && parts + [part] == [part] && texts + [text] == [text];
      hide *;
      ListedFirst(sep, start, params, part, text);
    } else {
      hide *;
      ListedNext(parts, sep, texts, start, params, part, text);
    }
  }

  function Each<A, V>(f: A -> Template<V>, xs: seq<A>): seq<Template<V>> {
    seq(|xs|, i requires 0 <= i < |xs| => f(xs[i]))
  }

  lemma EachMore<A, V>(f: A -> Template<V>, xs: seq<A>, i: nat)
    requires i < |xs|
    ensures Each(f, xs[..i + 1]) == Each(f, xs[..i]) + [f(xs[i])]
  {
  }

  lemma ListNone<A, V>(f: A -> Template<V>, xs: seq<A>, sep: string, start: seq<V>)
    ensures Listed(Each(f, xs[..0]), sep, [], start, start)
  {
  }

  lemma ListStep<A, V>(f: A -> Template<V>, xs: seq<A>, i: nat, sep: string, texts: seq<string>, start: seq<V>,
      params: seq<V>,
      text: string)
    requires i < |xs| && Listed(Each(f, xs[..i]), sep, texts, start, params) && text == Numbered(f(xs[i]), |params|)
    ensures Listed(Each(f, xs[..i + 1]), sep, texts + [text], start, params + Params(f(xs[i])))
  {
    EachMore(f, xs, i);
    hide Listed, Each, Numbered, Params;
    ListedMore(Each(f, xs[..i]), sep, texts, start, params, f(xs[i]), text);
  }

  lemma ListAll<A, V>(f: A -> Template<V>, xs: seq<A>, sep: string, texts: seq<string>, start: seq<V>, params: seq<V>)
    requires Listed(Each(f, xs[..|xs|]), sep, texts, start, params)
    ensures Join(texts, sep) == Numbered(JoinTemplates(Each(f, xs), sep), |start|)
    ensures params == start + Params(JoinTemplates(Each(f, xs), sep))
  {
    assert xs[..|xs|] == xs;
  }

  lemma {:induction false} JoinFollows<V>(parts: seq<Template<V>>, sep: string)
    requires Plainly(sep) && forall p | p in parts :: Follows(p)
    ensures Follows(JoinTemplates(parts, sep))
  {
    if |parts| > 1 {
      var init, last := parts[..|parts| - 1], parts[|parts| - 1];
      assert last in parts && forall p | p in init :: p in parts;
      JoinFollows(init, sep);
      var s: Template<V> := [Fixed(sep)];
      FollowsAppend(JoinTemplates(init, sep), s);
      FollowsAppend(JoinTemplates(init, sep) + s, last);
    } else if |parts| == 1 {
      assert parts[0] in parts;
    }
  }

  lemma UnmarkedAppend<V>(a: Template<V>, b: Template<V>)
    ensures Unmarked(a + b) <==> Unmarked(a) && Unmarked(b)
  {
    var ab := a + b;
    if Unmarked(ab) {
      assert forall i | 0 <= i < |a| :: ab[i] == a[i];
      assert forall i | 0 <= i < |b| :: ab[|a| + i] == b[i];
    }
  }

  lemma {:induction false} JoinUnmarked<V>(parts: seq<Template<V>>, sep: string)
    ensures Unmarked(JoinTemplates(parts, sep)) <==> forall p | p in parts :: Unmarked(p)
  {
    if |parts| > 1 {
      var init, last := parts[..|parts| - 1], parts[|parts| - 1];
      assert parts == init + [last];
      JoinUnmarked(init, sep);
      var s: Template<V> := [Fixed(sep)];
      UnmarkedAppend(JoinTemplates(init, sep), s);
      UnmarkedAppend(JoinTemplates(init, sep) + s, last);
    } else if |parts| == 1 {
      assert parts[0] in parts;
    }
  }

  lemma EachFollows<A, V>(f: A -> Template<V>, xs: seq<A>, sep: string)
    requires Plainly(sep) && forall x | x in xs :: Follows(f(x))
    ensures Follows(JoinTemplates(Each(f, xs), sep))
  {
    forall p | p in Each(f, xs) ensures Follows(p) {
      var i :| 0 <= i < |xs| && p == f(xs[i]);
    }
    JoinFollows(Each(f, xs), sep);
  }

  lemma EachUnmarked<A, V>(f: A -> Template<V>, xs: seq<A>, sep: string)
    ensures Unmarked(JoinTemplates(Each(f, xs), sep)) <==> forall x | x in xs :: Unmarked(f(x))
  {
    JoinUnmarked(Each(f, xs), sep);
    hide Unmarked, JoinTemplates;
    forall x | x in xs ensures f(x) in Each(f, xs) {
      var i :| 0 <= i < |xs| && x == xs[i];
      assert Each(f, xs)[i] == f(x);
    }
    forall p | p in Each(f, xs) ensures exists x | x in xs :: p == f(x) {
      var i :| 0 <= i < |xs| && p == f(xs[i]);
    }
  }
}
