/**
 The conditions that the filter compiler and the query builders write: a sequence of tokens whose
 leaves have placeholders (`P` is `Placeholder`) or, for the claims, the bound arguments themselves
 (`P` is `Arg`). A small parser with the usual precedence gives them their structure back.
 */
module FilterSql {
  import opened Wrappers

  // ---------- Leaves ----------

  datatype Value = VString(s: string) | VInt(i: int) | VUint(u: nat) | VDouble(d: real) | VBool(b: bool)

  /** A bound argument: a plain value, or the text that a format makes of one. */
  datatype Arg =
    | Plain(v: Value)
    | Flag(b: bool)        // 1 or 0
    | Quoted(v: Value)     // "v"
    | LikeQuoted(v: Value) // %"v"%
    | LikeInside(v: Value) // %v%

  /** `?`, or `$n`. */
  datatype Placeholder = Positional | Numbered(n: int)

  datatype Column = CreatorID | CreatedTs | UpdatedTs | Visibility | Content | Pinned | ContentID | MemoID | Username

  datatype Property = HasTaskList | HasLink | HasCode | HasIncompleteTasks

  datatype Comparison = Eq | Ne | Lt | Gt | Le | Ge

  datatype Atom<P> =
    | Compare(column: Column, op: Comparison, arg: P)
    | TagCount(op: Comparison, arg: P)
    | TagsMatch(arg: P)                                              // LIKE, JSON_CONTAINS or @> on the tags
    | ContentMatches(arg: P)                                         // LIKE or ILIKE on the content
    | InList(column: Column, args: seq<P>)
    | PinnedIsTrue
    | PropertyIsTrue(property: Property)                             // IS TRUE
    | PropertyCompare(property: Property, op: Comparison, b: bool)   // against a literal
    | PropertyParam(property: Property, op: Comparison, arg: P)      // against an argument
    | Field(name: string, arg: P)                                    // name = arg, in a query builder
    | FieldIn(name: string, args: seq<P>)
    | Fixed(text: string)

  function AtomArgs<P>(a: Atom<P>): seq<P> {
    match a
    case Compare(_, _, arg) => [arg]
    case TagCount(_, arg) => [arg]
    case TagsMatch(arg) => [arg]
    case ContentMatches(arg) => [arg]
    case InList(_, args) => args
    case PinnedIsTrue => []
    case PropertyIsTrue(_) => []
    case PropertyCompare(_, _, _) => []
    case PropertyParam(_, _, arg) => [arg]
    case Field(_, arg) => [arg]
    case FieldIn(_, args) => args
    case Fixed(_) => []
  }

  /** The same leaf with other arguments. */
  function WithArgs<P, Q>(a: Atom<P>, args: seq<Q>): Atom<Q>
    requires |args| == |AtomArgs(a)|
  {
    match a
    case Compare(c, op, _) => Compare(c, op, args[0])
    case TagCount(op, _) => TagCount(op, args[0])
    case TagsMatch(_) => TagsMatch(args[0])
    case ContentMatches(_) => ContentMatches(args[0])
    case InList(c, _) => InList(c, args)
    case PinnedIsTrue => PinnedIsTrue
    case PropertyIsTrue(p) => PropertyIsTrue(p)
    case PropertyCompare(p, op, b) => PropertyCompare(p, op, b)
    case PropertyParam(p, op, _) => PropertyParam(p, op, args[0])
    case Field(name, _) => Field(name, args[0])
    case FieldIn(name, _) => FieldIn(name, args)
    case Fixed(text) => Fixed(text)
  }

  lemma ArgsOfWithArgs<P, Q>(a: Atom<P>, args: seq<Q>)
    requires |args| == |AtomArgs(a)|
    ensures AtomArgs(WithArgs(a, args)) == args
    ensures WithArgs(WithArgs(a, args), AtomArgs(a)) == a
  {
  }

  // ---------- Tokens ----------

  datatype Token<P> =
    | LeftParen
    | RightParen
    | And
    | Or
    | Not
    | Subquery(name: string) // name IN (SELECT id FROM memo WHERE, closed by a right parenthesis
    | Leaf(atom: Atom<P>)

  function TokenArgs<P>(t: Token<P>): seq<P> {
    if t.Leaf? then AtomArgs(t.atom) else []
  }

  /** Every argument of a text, from left to right. */
  function ArgsOf<P>(ts: seq<Token<P>>): seq<P> {
    if ts == [] then [] else ArgsOf(ts[..|ts| - 1]) + TokenArgs(ts[|ts| - 1])
  }

  function TokenWithArgs<P, Q>(t: Token<P>, args: seq<Q>): Token<Q>
    requires |args| == |TokenArgs(t)|
  {
    match t
    case LeftParen => LeftParen
    case RightParen => RightParen
    case And => And
    case Or => Or
    case Not => Not
    case Subquery(name) => Subquery(name)
    case Leaf(a) => Leaf(WithArgs(a, args))
  }

  lemma ArgsOfSnoc<P>(ts: seq<Token<P>>, t: Token<P>)
    ensures ArgsOf(ts + [t]) == ArgsOf(ts) + TokenArgs(t)
  {
    assert (ts + [t])[..|ts|] == ts;
  }

  lemma ArgsOfNone<P>()
    ensures ArgsOf<P>([]) == []
  {
  }

  lemma {:induction false} ArgsOfConcat<P>(a: seq<Token<P>>, b: seq<Token<P>>)
    ensures ArgsOf(a + b) == ArgsOf(a) + ArgsOf(b)
    decreases |b|
  {
    hide ArgsOf, TokenArgs;
    if b == [] {
      assert a + b == a;
      ArgsOfNone<P>();
    } else {
      var init, last := b[..|b| - 1], b[|b| - 1];
      ArgsOfConcat(a, init);
      ArgsOfSnoc(a + init, last);
      ArgsOfSnoc(init, last);
      assert a + b == a + init + [last] && b == init + [last];
    }
  }

  // ---------- Placeholders ----------

  datatype Dialect = SQLite | MySQL | PostgreSQL

  function PlaceholderAt(d: Dialect, n: int): Placeholder {
    if d == PostgreSQL then Numbered(n) else Positional
  }

  /** `count` placeholders, the first with index `n`. */
  function PlaceholdersFrom(d: Dialect, n: int, count: nat): seq<Placeholder> {
    seq(count, i requires 0 <= i < count => PlaceholderAt(d, n + i))
  }

  /** The text with a placeholder for each argument, numbered from left to right beginning with `n`. */
  function Number(d: Dialect, ts: seq<Token<Arg>>, n: int): seq<Token<Placeholder>> {
    if ts == [] then []
    else
      var before, t := ts[..|ts| - 1], ts[|ts| - 1];
      Number(d, before, n) + [TokenWithArgs(t, PlaceholdersFrom(d, n + |ArgsOf(before)|, |TokenArgs(t)|))]
  }

  lemma NumberSnoc(d: Dialect, ts: seq<Token<Arg>>, t: Token<Arg>, n: int)
    ensures Number(d, ts + [t], n) ==
            Number(d, ts, n) + [TokenWithArgs(t, PlaceholdersFrom(d, n + |ArgsOf(ts)|, |TokenArgs(t)|))]
  {
    assert (ts + [t])[..|ts|] == ts;
  }

  lemma {:induction false} NumberConcat(d: Dialect, a: seq<Token<Arg>>, b: seq<Token<Arg>>, n: int)
    ensures Number(d, a + b, n) == Number(d, a, n) + Number(d, b, n + |ArgsOf(a)|)
    decreases |b|
  {
    hide Number, TokenWithArgs, PlaceholdersFrom, ArgsOf;
    if b == [] {
      assert a + b == a;
      NumberNone(d, n + |ArgsOf(a)|);
    } else {
      var init, last := b[..|b| - 1], b[|b| - 1];
      NumberConcat(d, a, init, n);
      ArgsOfConcat(a, init);
      NumberSnoc(d, a + init, last, n);
      NumberSnoc(d, init, last, n + |ArgsOf(a)|);
      assert a + b == a + init + [last] && b == init + [last];
    }
  }

  lemma NumberNone(d: Dialect, n: int)
    ensures Number(d, [], n) == [] && ArgsOf<Arg>([]) == [] && ArgsOf<Placeholder>([]) == []
  {
  }

  /** Replacing the arguments of a token and reading them gives them back. */
  lemma ArgsOfToken<P, Q>(t: Token<P>, args: seq<Q>)
    requires |args| == |TokenArgs(t)|
    ensures TokenArgs(TokenWithArgs(t, args)) == args
    ensures TokenWithArgs(TokenWithArgs(t, args), TokenArgs(t)) == t
  {
    if t.Leaf? { ArgsOfWithArgs(t.atom, args); }
  }

  /** The placeholders of a numbered text are the next ones, in order, each once. */
  lemma {:induction false} PlaceholdersInOrder(d: Dialect, ts: seq<Token<Arg>>, n: int)
    ensures ArgsOf(Number(d, ts, n)) == PlaceholdersFrom(d, n, |ArgsOf(ts)|)
  {
    hide Number, TokenWithArgs, TokenArgs, ArgsOf;
    if ts == [] {
      NumberNone(d, n);
    } else {
      var before, t := ts[..|ts| - 1], ts[|ts| - 1];
      var holders := PlaceholdersFrom(d, n + |ArgsOf(before)|, |TokenArgs(t)|);
      assert ts == before + [t];
      PlaceholdersInOrder(d, before, n);
      NumberSnoc(d, before, t, n);
      ArgsOfSnoc(before, t);
      ArgsOfSnoc(Number(d, before, n), TokenWithArgs(t, holders));
      ArgsOfToken(t, holders);
    }
  }

  // ---------- Binding ----------

  /** The argument a placeholder stands for: by number, or by its position in the text. */
  function Resolve(p: Placeholder, position: nat, args: seq<Arg>): Option<Arg> {
    var k := if p.Numbered? then p.n - 1 else position;
    if 0 <= k < |args| then Some(args[k]) else None
  }

  function ResolveAll(ps: seq<Placeholder>, position: nat, args: seq<Arg>): (r: Option<seq<Arg>>)
    ensures r.Some? ==> |r.value| == |ps|
  {
    if ps == [] then Some([])
    else
      match (ResolveAll(ps[..|ps| - 1], position, args), Resolve(ps[|ps| - 1], position + |ps| - 1, args))
      case (Some(before), Some(a)) => Some(before + [a])
      case _ => None
  }

  /** A statement as the database sees it: the text with each placeholder replaced by its argument. */
  function Bind(ts: seq<Token<Placeholder>>, args: seq<Arg>): Option<seq<Token<Arg>>> {
    if ts == [] then Some([])
    else
      var before, t := ts[..|ts| - 1], ts[|ts| - 1];
      match (Bind(before, args), ResolveAll(TokenArgs(t), |ArgsOf(before)|, args))
      case (Some(bound), Some(own)) => Some(bound + [TokenWithArgs(t, own)])
      case _ => None
  }

  lemma BindSnoc(ts: seq<Token<Placeholder>>, t: Token<Placeholder>, args: seq<Arg>)
    ensures Bind(ts + [t], args) ==
            match (Bind(ts, args), ResolveAll(TokenArgs(t), |ArgsOf(ts)|, args))
            case (Some(bound), Some(own)) => Some(bound + [TokenWithArgs(t, own)])
            case _ => None
  {
    assert (ts + [t])[..|ts|] == ts;
  }

  lemma {:induction false} ResolveRange(d: Dialect, n: int, count: nat, position: nat, args: seq<Arg>, own: seq<Arg>)
    requires |own| == count
    requires forall k | 0 <= k < count :: Resolve(PlaceholderAt(d, n + k), position + k, args) == Some(own[k])
    ensures ResolveAll(PlaceholdersFrom(d, n, count), position, args) == Some(own)
  {
    var ps := PlaceholdersFrom(d, n, count);
    if count > 0 {
      ResolveRange(d, n, count - 1, position, args, own[..count - 1]);
      assert ps[..count - 1] == PlaceholdersFrom(d, n, count - 1);
      assert own == own[..count - 1] + [own[count - 1]];
    } else {
      assert ps == [] && own == [];
    }
  }

  /** The placeholders of a numbered text resolve to its own arguments, when it begins at `position`. */
  ghost predicate Aligned(d: Dialect, ts: seq<Token<Arg>>, n: int, position: nat, args: seq<Arg>) {
    forall k | 0 <= k < |ArgsOf(ts)| :: Resolve(PlaceholderAt(d, n + k), position + k, args) == Some(ArgsOf(ts)[k])
  }

  lemma AlignedInit(d: Dialect, ts: seq<Token<Arg>>, t: Token<Arg>, n: int, position: nat, args: seq<Arg>)
    requires Aligned(d, ts + [t], n, position, args)
    ensures Aligned(d, ts, n, position, args)
    ensures ResolveAll(PlaceholdersFrom(d, n + |ArgsOf(ts)|, |TokenArgs(t)|), position + |ArgsOf(ts)|, args) ==
        Some(TokenArgs(t))
  {
    hide ArgsOf, TokenArgs, ResolveAll, Resolve;
    ArgsOfSnoc(ts, t);
    var all, m := ArgsOf(ts + [t]), |ArgsOf(ts)|;
    forall k | 0 <= k < m ensures Resolve(PlaceholderAt(d, n + k), position + k, args) == Some(ArgsOf(ts)[k]) {
      assert all[k] == ArgsOf(ts)[k];
    }
    forall k | 0 <= k < |TokenArgs(t)|
      ensures Resolve(PlaceholderAt(d, n + m + k), position + m + k, args) == Some(TokenArgs(t)[k])
    {
      assert all[m + k] == TokenArgs(t)[k];
      assert Resolve(PlaceholderAt(d, n + (m + k)), position + (m + k), args) == Some(all[m + k]);
    }
    ResolveRange(d, n + m, |TokenArgs(t)|, position + m, args, TokenArgs(t));
  }

  /** A numbered text behind a bound one binds to itself where its placeholders resolve to its arguments. */
  lemma {:induction false} BindBehind(d: Dialect, a: seq<Token<Placeholder>>, bound: seq<Token<Arg>>,
                                      ts: seq<Token<Arg>>, n: int, args: seq<Arg>)
    requires Bind(a, args) == Some(bound) && Aligned(d, ts, n, |ArgsOf(a)|, args)
    ensures Bind(a + Number(d, ts, n), args) == Some(bound + ts)
    decreases |ts|
  {
    hide Number, TokenWithArgs, TokenArgs, ArgsOf, Aligned, ResolveAll, Bind;
    if ts == [] {
      NumberNone(d, n);
      assert a + [] == a && bound + [] == bound;
    } else {
      var before, t := ts[..|ts| - 1], ts[|ts| - 1];
      assert ts == before + [t];
      AlignedInit(d, before, t, n, |ArgsOf(a)|, args);
      BindBehind(d, a, bound, before, n, args);
      NumberSnoc(d, before, t, n);
      var holders := PlaceholdersFrom(d, n + |ArgsOf(before)|, |TokenArgs(t)|);
      PlaceholdersInOrder(d, before, n);
      ArgsOfConcat(a, Number(d, before, n));
      ArgsOfToken(t, holders);
      BindSnoc(a + Number(d, before, n), TokenWithArgs(t, holders), args);
      assert a + Number(d, ts, n) == a + Number(d, before, n) + [TokenWithArgs(t, holders)];
      assert bound + before + [t] == bound + ts;
    }
  }

  /** Numbering a text from 1 and binding exactly its arguments gives the text back, in every dialect. */
  lemma BindOfNumber(d: Dialect, ts: seq<Token<Arg>>)
    ensures Bind(Number(d, ts, 1), ArgsOf(ts)) == Some(ts)
  {
    NumberNone(d, 1);
    BindBehind(d, [], [], ts, 1, ArgsOf(ts));
    assert [] + Number(d, ts, 1) == Number(d, ts, 1) && [] + ts == ts;
  }
}
