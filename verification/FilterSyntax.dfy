/**
 What the compiler means to write, how it writes it, and what a reader with the usual precedence
 (NOT before AND before OR) makes of the text.
 */
module FilterSyntax {
  import opened FilterSql

  /** A condition as the compiler builds it. */
  datatype Sql<P> =
    | Nothing                                  // an expression for which nothing is written
    | Single(atom: Atom<P>)
    | Negation(of: Sql<P>)
    | Both(left: Sql<P>, right: Sql<P>)
    | Either(left: Sql<P>, right: Sql<P>)
    | AnyOf(atoms: seq<Atom<P>>)               // one condition per list element

  function JoinOr<P>(atoms: seq<Atom<P>>): seq<Token<P>> {
    if atoms == [] then []
    else if |atoms| == 1 then [Leaf(atoms[0])]
    else JoinOr(atoms[..|atoms| - 1]) + [Or, Leaf(atoms[|atoms| - 1])]
  }

  /** The text of a condition. */
  function Show<P>(s: Sql<P>): seq<Token<P>> {
    match s
    case Nothing => []
    case Single(a) => [Leaf(a)]
    case Negation(x) => [Not, LeftParen] + Show(x) + [RightParen]
    case Both(x, y) => [LeftParen] + Show(x) + [And] + Show(y) + [RightParen]
    case Either(x, y) => [LeftParen] + Show(x) + [Or] + Show(y) + [RightParen]
    case AnyOf(atoms) => if |atoms| == 1 then [Leaf(atoms[0])] else [LeftParen] + JoinOr(atoms) + [RightParen]
  }

  /** A condition as it is read. */
  datatype Cond<P> =
    | Test(atom: Atom<P>)
    | Neither(of: Cond<P>)
    | AndAlso(left: Cond<P>, right: Cond<P>)
    | OrElse(left: Cond<P>, right: Cond<P>)
    | Among(name: string, of: Cond<P>)

  // ---------- Reading ----------

  datatype Parse<P> = NoParse | Parsed(cond: Cond<P>, rest: seq<Token<P>>)

  function ParsePrimary<P>(ts: seq<Token<P>>): (r: Parse<P>)
    ensures r.Parsed? ==> |r.rest| < |ts|
    decreases |ts|, 0
  {
    if ts == [] then NoParse
    else
      match ts[0]
      case Leaf(a) => Parsed(Test(a), ts[1..])
      case LeftParen =>
        var inner := ParseOr(ts[1..]);
        if inner.Parsed? && inner.rest != [] && inner.rest[0] == RightParen then Parsed(inner.cond, inner.rest[1..])
        else NoParse
      case Subquery(name) =>
        var inner := ParseOr(ts[1..]);
        if inner.Parsed? && inner.rest != [] && inner.rest[0] == RightParen then
          Parsed(Among(name, inner.cond), inner.rest[1..])
        else NoParse
      case _ => NoParse
  }

  function ParseNot<P>(ts: seq<Token<P>>): (r: Parse<P>)
    ensures r.Parsed? ==> |r.rest| < |ts|
    decreases |ts|, 1
  {
    if ts != [] && ts[0] == Not then
      var inner := ParseNot(ts[1..]);
      if inner.Parsed? then Parsed(Neither(inner.cond), inner.rest) else NoParse
    else ParsePrimary(ts)
  }

  function ParseAnd<P>(ts: seq<Token<P>>): (r: Parse<P>)
    ensures r.Parsed? ==> |r.rest| < |ts|
    decreases |ts|, 3
  {
    var first := ParseNot(ts);
    if first.Parsed? then AndTail(first.cond, first.rest) else NoParse
  }

  function AndTail<P>(left: Cond<P>, ts: seq<Token<P>>): (r: Parse<P>)
    ensures r.Parsed? ==> |r.rest| <= |ts|
    decreases |ts|, 2
  {
    if ts != [] && ts[0] == And then
      var next := ParseNot(ts[1..]);
      if next.Parsed? then AndTail(AndAlso(left, next.cond), next.rest) else NoParse
    else Parsed(left, ts)
  }

  function ParseOr<P>(ts: seq<Token<P>>): (r: Parse<P>)
    ensures r.Parsed? ==> |r.rest| < |ts|
    decreases |ts|, 5
  {
    var first := ParseAnd(ts);
    if first.Parsed? then OrTail(first.cond, first.rest) else NoParse
  }

  function OrTail<P>(left: Cond<P>, ts: seq<Token<P>>): (r: Parse<P>)
    ensures r.Parsed? ==> |r.rest| <= |ts|
    decreases |ts|, 4
  {
    if ts != [] && ts[0] == Or then
      var next := ParseAnd(ts[1..]);
      if next.Parsed? then OrTail(OrElse(left, next.cond), next.rest) else NoParse
    else Parsed(left, ts)
  }

  // ---------- Reading what was written ----------

  /** Something is written for every part, and every list has an element. */
  predicate Complete<P>(s: Sql<P>) {
    match s
    case Nothing => false
    case Single(_) => true
    case Negation(x) => Complete(x)
    case Both(x, y) => Complete(x) && Complete(y)
    case Either(x, y) => Complete(x) && Complete(y)
    case AnyOf(atoms) => atoms != []
  }

  function Chain<P>(atoms: seq<Atom<P>>): Cond<P>
    requires atoms != []
  {
    if |atoms| == 1 then Test(atoms[0])
    else OrElse(Chain(atoms[..|atoms| - 1]), Test(atoms[|atoms| - 1]))
  }

  /** The structure the compiler meant. */
  function Structure<P>(s: Sql<P>): Cond<P>
    requires Complete(s)
  {
    match s
    case Single(a) => Test(a)
    case Negation(x) => Neither(Structure(x))
    case Both(x, y) => AndAlso(Structure(x), Structure(y))
    case Either(x, y) => OrElse(Structure(x), Structure(y))
    case AnyOf(atoms) => Chain(atoms)
  }

  /** A text that reads as one unit, whatever follows it. */
  ghost predicate Unit<P(!new)>(ts: seq<Token<P>>, c: Cond<P>) {
    forall rest :: ParseNot(ts + rest) == Parsed(c, rest)
  }

  /** What a parenthesised text may end with. */
  predicate Closed<P>(rest: seq<Token<P>>) {
    rest == [] || rest[0] == RightParen
  }

  lemma AndUnit<P(!new)>(ts: seq<Token<P>>, c: Cond<P>, rest: seq<Token<P>>)
    requires Unit(ts, c) && (rest == [] || rest[0] != And)
    ensures ParseAnd(ts + rest) == Parsed(c, rest)
  {
  }

  lemma OrUnit<P(!new)>(ts: seq<Token<P>>, c: Cond<P>, rest: seq<Token<P>>)
    requires Unit(ts, c) && Closed(rest)
    ensures ParseOr(ts + rest) == Parsed(c, rest)
  {
    AndUnit(ts, c, rest);
  }

  lemma ParenthesesUnit<P(!new)>(ts: seq<Token<P>>, c: Cond<P>)
    requires forall rest :: Closed(rest) ==> ParseOr(ts + rest) == Parsed(c, rest)
    ensures Unit([LeftParen] + ts + [RightParen], c)
  {
    hide ParseOr;
    forall rest ensures ParseNot([LeftParen] + ts + [RightParen] + rest) == Parsed(c, rest) {
      var all := [LeftParen] + ts + [RightParen] + rest;
      var inner := [RightParen] + rest;
      assert all[1..] == ts + inner && inner[1..] == rest;
      assert Closed(inner);
    }
  }

  lemma NotUnit<P(!new)>(ts: seq<Token<P>>, c: Cond<P>)
    requires Unit(ts, c)
    ensures Unit([Not] + ts, Neither(c))
  {
    forall rest ensures ParseNot([Not] + ts + rest) == Parsed(Neither(c), rest) {
      assert ([Not] + ts + rest)[1..] == ts + rest;
    }
  }

  lemma LeafUnit<P(!new)>(a: Atom<P>)
    ensures Unit([Leaf(a)], Test(a))
  {
    forall rest ensures ParseNot([Leaf(a)] + rest) == Parsed(Test(a), rest) {
      assert ([Leaf(a)] + rest)[1..] == rest;
    }
  }

  lemma AndPair<P(!new)>(xs: seq<Token<P>>, x: Cond<P>, ys: seq<Token<P>>, y: Cond<P>, rest: seq<Token<P>>)
    requires Unit(xs, x) && Unit(ys, y) && Closed(rest)
    ensures ParseOr(xs + [And] + ys + rest) == Parsed(AndAlso(x, y), rest)
  {
    var tail := [And] + (ys + rest);
    assert xs + [And] + ys + rest == xs + tail && tail[1..] == ys + rest;
    assert ParseNot(xs + tail) == Parsed(x, tail);
    assert AndTail(x, tail) == Parsed(AndAlso(x, y), rest);
  }

  lemma OrPair<P(!new)>(xs: seq<Token<P>>, x: Cond<P>, ys: seq<Token<P>>, y: Cond<P>, rest: seq<Token<P>>)
    requires Unit(xs, x) && Unit(ys, y) && Closed(rest)
    ensures ParseOr(xs + [Or] + ys + rest) == Parsed(OrElse(x, y), rest)
  {
    var tail := [Or] + (ys + rest);
    assert xs + [Or] + ys + rest == xs + tail && tail[1..] == ys + rest;
    AndUnit(xs, x, tail);
    AndUnit(ys, y, rest);
    assert OrTail(x, tail) == Parsed(OrElse(x, y), rest);
  }

  lemma {:induction false} ChainParses<P(!new)>(atoms: seq<Atom<P>>, rest: seq<Token<P>>)
    requires atoms != [] && (rest == [] || rest[0] != And)
    ensures ParseOr(JoinOr(atoms) + rest) == OrTail(Chain(atoms), rest)
    decreases |atoms|
  {
    var last := atoms[|atoms| - 1];
    LeafUnit(last);
    AndUnit([Leaf(last)], Test(last), rest);
    if |atoms| > 1 {
      var init := atoms[..|atoms| - 1];
      var tail := [Or] + ([Leaf(last)] + rest);
      ChainParses(init, tail);
      assert JoinOr(atoms) + rest == JoinOr(init) + tail && tail[1..] == [Leaf(last)] + rest;
    }
  }

  lemma NegationUnit<P(!new)>(xs: seq<Token<P>>, x: Cond<P>)
    requires Unit(xs, x)
    ensures Unit([Not, LeftParen] + xs + [RightParen], Neither(x))
  {
    hide Unit, ParseOr;
    forall rest | Closed(rest) ensures ParseOr(xs + rest) == Parsed(x, rest) { OrUnit(xs, x, rest); }
    ParenthesesUnit(xs, x);
    NotUnit([LeftParen] + xs + [RightParen], x);
    assert [Not, LeftParen] + xs + [RightParen] == [Not] + ([LeftParen] + xs + [RightParen]);
  }

  lemma BothUnit<P(!new)>(xs: seq<Token<P>>, x: Cond<P>, ys: seq<Token<P>>, y: Cond<P>)
    requires Unit(xs, x) && Unit(ys, y)
    ensures Unit([LeftParen] + xs + [And] + ys + [RightParen], AndAlso(x, y))
  {
    hide Unit, ParseOr;
    var inner := xs + [And] + ys;
    forall rest | Closed(rest) ensures ParseOr(inner + rest) == Parsed(AndAlso(x, y), rest) {
      AndPair(xs, x, ys, y, rest);
    }
    ParenthesesUnit(inner, AndAlso(x, y));
    assert [LeftParen] + xs + [And] + ys + [RightParen] == [LeftParen] + inner + [RightParen];
  }

  lemma EitherUnit<P(!new)>(xs: seq<Token<P>>, x: Cond<P>, ys: seq<Token<P>>, y: Cond<P>)
    requires Unit(xs, x) && Unit(ys, y)
    ensures Unit([LeftParen] + xs + [Or] + ys + [RightParen], OrElse(x, y))
  {
    hide Unit, ParseOr;
    var inner := xs + [Or] + ys;
    forall rest | Closed(rest) ensures ParseOr(inner + rest) == Parsed(OrElse(x, y), rest) {
      OrPair(xs, x, ys, y, rest);
    }
    ParenthesesUnit(inner, OrElse(x, y));
    assert [LeftParen] + xs + [Or] + ys + [RightParen] == [LeftParen] + inner + [RightParen];
  }

  lemma ListUnit<P(!new)>(atoms: seq<Atom<P>>)
    requires atoms != []
    ensures Unit(Show(AnyOf(atoms)), Chain(atoms))
  {
    hide Unit, ParseOr, JoinOr;
    if |atoms| == 1 {
      LeafUnit(atoms[0]);
    } else {
      forall rest | Closed(rest) ensures ParseOr(JoinOr(atoms) + rest) == Parsed(Chain(atoms), rest) {
        ChainParses(atoms, rest);
      }
      ParenthesesUnit(JoinOr(atoms), Chain(atoms));
    }
  }

  /** What is written for a condition reads as one unit with the structure that was meant. */
  lemma {:induction false} ShowIsUnit<P(!new)>(s: Sql<P>)
    requires Complete(s)
    ensures Unit(Show(s), Structure(s))
  {
    hide Unit, ParseOr, JoinOr;
    match s
    case Single(a) => LeafUnit(a);
    case Negation(x) =>
      ShowIsUnit(x);
      NegationUnit(Show(x), Structure(x));
    case Both(x, y) =>
      ShowIsUnit(x);
      ShowIsUnit(y);
      BothUnit(Show(x), Structure(x), Show(y), Structure(y));
    case Either(x, y) =>
      ShowIsUnit(x);
      ShowIsUnit(y);
      EitherUnit(Show(x), Structure(x), Show(y), Structure(y));
    case AnyOf(atoms) => ListUnit(atoms);
  }

  /** Reading the whole text of a condition gives its structure back, with nothing left over. */
  lemma ParseOfShow<P(!new)>(s: Sql<P>)
    requires Complete(s)
    ensures ParseOr(Show(s)) == Parsed(Structure(s), [])
  {
    ShowIsUnit(s);
    OrUnit(Show(s), Structure(s), []);
    assert Show(s) + [] == Show(s);
  }

  // ---------- Texts that are no condition ----------

  /** What can follow a part of a text. */
  predicate Follows<P>(rest: seq<Token<P>>) {
    rest == [] || rest[0] == RightParen || rest[0] == And || rest[0] == Or
  }

  lemma NoneFollows<P>(rest: seq<Token<P>>)
    requires Follows(rest)
    ensures ParseNot(rest) == NoParse && ParseOr(rest) == NoParse
  {
  }

  /** A text in parentheses is unreadable when what is inside is. */
  lemma ParenthesesUnread<P>(ts: seq<Token<P>>, rest: seq<Token<P>>)
    requires ParseOr(ts + [RightParen] + rest) == NoParse
    ensures ParseNot([LeftParen] + ts + [RightParen] + rest) == NoParse
    ensures ParseNot([Not, LeftParen] + ts + [RightParen] + rest) == NoParse
  {
    var inner := ts + [RightParen] + rest;
    var closed, negated := [LeftParen] + ts + [RightParen] + rest, [Not, LeftParen] + ts + [RightParen] + rest;
    assert closed[1..] == inner && negated[1..] == closed;
    assert ParsePrimary(closed) == NoParse;
  }

  /** Two operands are unreadable when the first can be read and the second cannot. */
  lemma SecondUnread<P(!new)>(xs: seq<Token<P>>, x: Cond<P>, op: Token<P>, ys: seq<Token<P>>, rest: seq<Token<P>>)
    requires (op == And || op == Or) && Unit(xs, x) && ParseNot(ys + rest) == NoParse
    ensures ParseOr(xs + [op] + ys + rest) == NoParse
  {
    var tail := [op] + (ys + rest);
    assert xs + [op] + ys + rest == xs + tail && tail[1..] == ys + rest;
    assert ParseNot(xs + tail) == Parsed(x, tail);
    if op == And {
      assert AndTail(x, tail) == NoParse;
    } else {
      assert ParseAnd(ys + rest) == NoParse;
      assert AndTail(x, tail) == Parsed(x, tail) && OrTail(x, tail) == NoParse;
    }
  }

  lemma UnreadOperand<P>(ts: seq<Token<P>>)
    requires ParseNot(ts) == NoParse
    ensures ParseOr(ts) == NoParse
  {
  }

  lemma {:induction false} IncompleteUnread<P(!new)>(s: Sql<P>, rest: seq<Token<P>>)
    requires !Complete(s) && Follows(rest)
    ensures ParseNot(Show(s) + rest) == NoParse
  {
    hide Unit, ParseNot, ParseOr;
    match s
    case Nothing =>
      assert Show(s) + rest == rest;
      NoneFollows(rest);
    case Negation(x) =>
      var tail := [RightParen] + rest;
      IncompleteUnread(x, tail);
      UnreadOperand(Show(x) + tail);
      assert Show(x) + tail == Show(x) + [RightParen] + rest;
      ParenthesesUnread(Show(x), rest);
    case Both(x, y) => PairUnread(x, And, y, rest);
    case Either(x, y) => PairUnread(x, Or, y, rest);
    case AnyOf(atoms) =>
      NoneFollows([RightParen] + rest);
      assert [] + [RightParen] + rest == [RightParen] + rest;
      ParenthesesUnread([], rest);
      assert JoinOr(atoms) == [] && Show(s) == [LeftParen] + [] + [RightParen];
  }

  lemma {:induction false} PairUnread<P(!new)>(x: Sql<P>, op: Token<P>, y: Sql<P>, rest: seq<Token<P>>)
    requires (op == And || op == Or) && !(Complete(x) && Complete(y)) && Follows(rest)
    ensures ParseNot([LeftParen] + Show(x) + [op] + Show(y) + [RightParen] + rest) == NoParse
    decreases if x < y then y else x
  {
    hide Unit, ParseNot, ParseOr;
    var xs, ys, tail := Show(x), Show(y), [RightParen] + rest;
    if Complete(x) {
      ShowIsUnit(x);
      IncompleteUnread(y, tail);
      SecondUnread(xs, Structure(x), op, ys, tail);
    } else {
      IncompleteUnread(x, [op] + ys + tail);
      assert xs + ([op] + ys + tail) == xs + [op] + ys + tail;
      UnreadOperand(xs + [op] + ys + tail);
    }
    var inner := xs + [op] + ys;
    assert inner + tail == inner + [RightParen] + rest;
    ParenthesesUnread(inner, rest);
    assert [LeftParen] + xs + [op] + ys + [RightParen] + rest == [LeftParen] + inner + [RightParen] + rest;
  }

  /** The text of a condition can be read exactly when something is written for every part. */
  lemma ReadableIffComplete<P(!new)>(s: Sql<P>)
    ensures ParseOr(Show(s)).Parsed? <==> Complete(s)
  {
    hide ParseOr, ParseNot;
    assert Show(s) + [] == Show(s);
    if Complete(s) {
      ParseOfShow(s);
    } else {
      IncompleteUnread(s, []);
      UnreadOperand(Show(s));
    }
  }

  // ---------- Conjunctions of clauses ----------

  function JoinAnd<P>(clauses: seq<seq<Token<P>>>): seq<Token<P>> {
    if clauses == [] then []
    else if |clauses| == 1 then clauses[0]
    else JoinAnd(clauses[..|clauses| - 1]) + [And] + clauses[|clauses| - 1]
  }

  function Conjunction<P>(conds: seq<Cond<P>>): Cond<P>
    requires conds != []
  {
    if |conds| == 1 then conds[0]
    else AndAlso(Conjunction(conds[..|conds| - 1]), conds[|conds| - 1])
  }

  lemma {:induction false} ClausesParse<P(!new)>(clauses: seq<seq<Token<P>>>, conds: seq<Cond<P>>, rest: seq<Token<P>>)
    requires clauses != [] && |conds| == |clauses|
    requires forall i | 0 <= i < |clauses| :: Unit(clauses[i], conds[i])
    ensures ParseAnd(JoinAnd(clauses) + rest) == AndTail(Conjunction(conds), rest)
    decreases |clauses|
  {
    var n := |clauses| - 1;
    var last, tail := clauses[n], [And] + (clauses[n] + rest);
    if n > 0 {
      ClausesParse(clauses[..n], conds[..n], tail);
      assert JoinAnd(clauses) + rest == JoinAnd(clauses[..n]) + tail && tail[1..] == last + rest;
      assert ParseNot(last + rest) == Parsed(conds[n], rest);
    } else {
      assert ParseNot(clauses[0] + rest) == Parsed(conds[0], rest);
    }
  }

  /** Clauses that are units, joined by AND, read as their conjunction. */
  lemma ParseOfClauses<P(!new)>(clauses: seq<seq<Token<P>>>, conds: seq<Cond<P>>)
    requires clauses != [] && |conds| == |clauses|
    requires forall i | 0 <= i < |clauses| :: Unit(clauses[i], conds[i])
    ensures ParseOr(JoinAnd(clauses)) == Parsed(Conjunction(conds), [])
  {
    ClausesParse(clauses, conds, []);
    assert JoinAnd(clauses) + [] == JoinAnd(clauses);
  }
}
