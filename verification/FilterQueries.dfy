/**
 The query builders that splice compiled filters between conditions of their own: `ListMemos` and
 `UpdateMemo` of `store/db/postgres/memo.go`, and `ListMemoRelations` of `store/db/postgres` and
 `store/db/sqlite`. A filter is given as the outcome of parsing its text.
 */
module FilterQueries {
  import opened Wrappers
  import opened FilterSql
  import opened FilterSyntax
  import opened FilterExpr
  import opened FilterTranslate
  import opened FilterConverter

  type Text<P> = seq<Token<P>>

  datatype QueryError = ParseFailed | ConversionFailed(error: FilterError) | MarshalFailed

  /** The variables `where` and `args` of a builder; `where` is joined by AND. */
  datatype Query = Query(where: seq<Text<Placeholder>>, args: seq<Arg>)

  // ---------- What a builder keeps ----------

  /** So far `q` is the numbered form of `clauses`, with exactly their arguments. */
  ghost predicate Builds(d: Dialect, q: Query, clauses: seq<Text<Arg>>) {
    && q.where != [] && clauses != []
    && JoinAnd(q.where) == Number(d, JoinAnd(clauses), 1)
    && q.args == ArgsOf(JoinAnd(clauses))
  }

  lemma JoinAndSnoc<P>(clauses: seq<Text<P>>, c: Text<P>)
    requires clauses != []
    ensures JoinAnd(clauses + [c]) == JoinAnd(clauses) + ([And] + c)
  {
    assert (clauses + [c])[..|clauses|] == clauses;
  }

  lemma NumberToken(d: Dialect, t: Token<Arg>, n: int)
    requires TokenArgs(t) == []
    ensures Number(d, [t], n) == [TokenWithArgs<Arg, Placeholder>(t, [])] && ArgsOf([t]) == []
  {
    NumberNone(d, n);
    NumberSnoc(d, [], t, n);
    ArgsOfSnoc([], t);
    OnePlaceholder(d, n);
    assert [] + [t] == [t];
  }

  /** A token without arguments in front of a text. */
  lemma NumberBehind(d: Dialect, t: Token<Arg>, ts: Text<Arg>, n: int)
    requires TokenArgs(t) == []
    ensures Number(d, [t] + ts, n) == [TokenWithArgs<Arg, Placeholder>(t, [])] + Number(d, ts, n)
    ensures ArgsOf([t] + ts) == ArgsOf(ts)
  {
    hide Number, ArgsOf, TokenWithArgs, TokenArgs;
    NumberToken(d, t, n);
    NumberConcat(d, [t], ts, n);
    ArgsOfConcat([t], ts);
  }

  /** A text closed by a token without arguments. */
  lemma NumberClosed(d: Dialect, ts: Text<Arg>, t: Token<Arg>, n: int)
    requires TokenArgs(t) == []
    ensures Number(d, ts + [t], n) == Number(d, ts, n) + [TokenWithArgs<Arg, Placeholder>(t, [])]
    ensures ArgsOf(ts + [t]) == ArgsOf(ts)
  {
    hide Number, ArgsOf, TokenWithArgs, TokenArgs;
    var m := n + |ArgsOf(ts)|;
    NumberToken(d, t, m);
    NumberConcat(d, ts, [t], n);
    ArgsOfConcat(ts, [t]);
  }

  /** Appending a clause numbered behind the arguments so far, together with its arguments. */
  lemma ClauseAppended(d: Dialect, q: Query, clauses: seq<Text<Arg>>, c: Text<Arg>)
    requires Builds(d, q, clauses)
    ensures Builds(d, Query(q.where + [Number(d, c, |q.args| + 1)], q.args + ArgsOf(c)), clauses + [c])
  {
    hide Number, ArgsOf, JoinAnd;
    var n := |q.args| + 1;
    JoinAndSnoc(q.where, Number(d, c, n));
    JoinAndSnoc(clauses, c);
    NumberBehind(d, And, c, n);
    NumberConcat(d, JoinAnd(clauses), [And] + c, 1);
    ArgsOfConcat(JoinAnd(clauses), [And] + c);
  }

  /**
   What the database makes of a built query: its placeholders are `?`, or $1, $2 and so on in order,
   each once and as many as there are arguments, and each stands for the value of its own clause.
   */
  lemma BuiltQueryIsBound(d: Dialect, q: Query, clauses: seq<Text<Arg>>)
    requires Builds(d, q, clauses)
    ensures ArgsOf(JoinAnd(q.where)) == PlaceholdersFrom(d, 1, |q.args|)
    ensures Bind(JoinAnd(q.where), q.args) == Some(JoinAnd(clauses))
  {
    PlaceholdersInOrder(d, JoinAnd(clauses), 1);
    BindOfNumber(d, JoinAnd(clauses));
  }

  // ---------- Clauses ----------

  function FixedClause(text: string): Text<Arg> {
    [Leaf(Fixed(text))]
  }

  function FieldClause(name: string, v: Option<Value>): seq<Text<Arg>> {
    if v.Some? then [[Leaf(Field(name, Plain(v.value)))]] else []
  }

  method Begin(d: Dialect, text: string) returns (q: Query)
    ensures Builds(d, q, [FixedClause(text)]) && q.args == []
  {
    q := Query([[Leaf(Fixed(text))]], []);
    NumberToken(d, Leaf(Fixed(text)), 1);
  }

  /** Appending a single leaf with the next placeholders. */
  lemma LeafAppended(d: Dialect, q: Query, clauses: seq<Text<Arg>>, a: Atom<Arg>)
    requires Builds(d, q, clauses)
    ensures var holders := PlaceholdersFrom(d, |q.args| + 1, |AtomArgs(a)|);
            Builds(d, Query(q.where + [[Leaf(WithArgs(a, holders))]], q.args + AtomArgs(a)), clauses + [[Leaf(a)]])
  {
    hide Builds, Number, ArgsOf, AtomArgs, WithArgs;
    var n, t := |q.args| + 1, Leaf(a);
    var numbered := TokenWithArgs(t, PlaceholdersFrom(d, n, |TokenArgs(t)|));
    NumberNone(d, n);
    NumberSnoc(d, [], t, n);
    ArgsOfSnoc([], t);
    assert [] + [t] == [t] && [] + [numbered] == [numbered] && [] + AtomArgs(a) == AtomArgs(a);
    ClauseAppended(d, q, clauses, [t]);
  }

  method AppendFixed(d: Dialect, q: Query, text: string, ghost clauses: seq<Text<Arg>>) returns (r: Query)
    requires Builds(d, q, clauses)
    ensures Builds(d, r, clauses + [FixedClause(text)])
  {
    hide Builds;
    r := Query(q.where + [[Leaf(Fixed(text))]], q.args);
    LeafAppended(d, q, clauses, Fixed(text));
    assert q.args + [] == q.args;
  }

  /** `name = placeholder`, when the value is there. */
  method AppendField(d: Dialect, q: Query, name: string, v: Option<Value>, ghost clauses: seq<Text<Arg>>)
    returns (r: Query)
    requires Builds(d, q, clauses)
    ensures Builds(d, r, clauses + FieldClause(name, v))
  {
    hide Builds;
    if v.None? {
      assert clauses + FieldClause(name, v) == clauses;
      return q;
    }
    r := Query(q.where + [[Leaf(Field(name, PlaceholderAt(d, |q.args| + 1)))]], q.args + [Plain(v.value)]);
    OnePlaceholder(d, |q.args| + 1);
    LeafAppended(d, q, clauses, Field(name, Plain(v.value)));
  }

  function StringArgs(texts: seq<string>): seq<Arg> {
    seq(|texts|, i requires 0 <= i < |texts| => Plain(VString(texts[i])))
  }

  function VisibilityClause(visibilities: seq<string>): seq<Text<Arg>> {
    if visibilities == [] then []
    else [[Leaf(FieldIn("memo.visibility", StringArgs(visibilities)))]]
  }

  /** One placeholder per visibility. */
  method AppendVisibilities(d: Dialect, q: Query, visibilities: seq<string>, ghost clauses: seq<Text<Arg>>)
    returns (r: Query)
    requires Builds(d, q, clauses)
    ensures Builds(d, r, clauses + VisibilityClause(visibilities))
  {
    hide Builds;
    if visibilities == [] {
      assert clauses + VisibilityClause(visibilities) == clauses;
      return q;
    }
    ghost var n := |q.args| + 1;
    ghost var own := StringArgs(visibilities);
    var holders: seq<Placeholder>, args := [], q.args;
    for i := 0 to |visibilities|
      invariant args == q.args + own[..i] && holders == PlaceholdersFrom(d, n, |own|)[..i]
    {
      holders := holders + [PlaceholderAt(d, |args| + 1)];
      args := args + [Plain(VString(visibilities[i]))];
    }
    assert own[..|visibilities|] == own && holders == PlaceholdersFrom(d, n, |own|);
    r := Query(q.where + [[Leaf(FieldIn("memo.visibility", holders))]], args);
    LeafAppended(d, q, clauses, FieldIn("memo.visibility", own));
  }

  /** A compiled filter: its numbered text and its arguments. */
  datatype Compiled = Compiled(condition: Text<Placeholder>, args: seq<Arg>)

  function Compiles(d: Dialect, filter: Option<Expr>, now: int): Result<Sql<Arg>, QueryError> {
    if filter.None? then Err(ParseFailed)
    else
      match Translate(MemoConfig(d), filter.value, now)
      case Err(x) => Err(ConversionFailed(x))
      case Ok(s) => Ok(s)
  }

  /** Parses and converts a filter whose placeholders begin behind `offset` arguments. */
  method CompileFilter(d: Dialect, filter: Option<Expr>, offset: nat, now: int)
      returns (r: Result<Compiled, QueryError>)
    ensures match Compiles(d, filter, now) {
              case Err(x) => r == Err(x)
              case Ok(s) => r == Ok(Compiled(Number(d, Show(s), offset + 1), ArgsOf(Show(s))))
            }
  {
    hide Number, ArgsOf, Show, Translate;
    if filter.None? {
      return Err(ParseFailed);
    }
    var ctx := new ConvertContext();
    var converter := new CommonSQLConverter(MemoConfig(d), offset + |ctx.args|, now);
    ghost var start := converter.Out(ctx);
    var err := converter.ConvertExprToSQL(ctx, filter.value);
    if err.Some? {
      return Err(ConversionFailed(err.value));
    }
    ghost var ts := Show(Translate(MemoConfig(d), filter.value, now).value);
    assert converter.Out(ctx) == Written(d, start, ts);
    assert [] + Number(d, ts, offset + 1) == Number(d, ts, offset + 1) && [] + ArgsOf(ts) == ArgsOf(ts);
    r := Ok(Compiled(ctx.buffer, ctx.args));
  }

  /** A numbered text is as long as the text. */
  lemma {:induction false} NumberLength(d: Dialect, ts: Text<Arg>, n: int)
    ensures |Number(d, ts, n)| == |ts|
  {
    if ts != [] {
      NumberLength(d, ts[..|ts| - 1], n);
    }
  }

  // ---------- PostgreSQL ListMemos ----------

  datatype FindMemo = FindMemo(
    filters: seq<Option<Expr>>, id: Option<int>, uid: Option<string>, creatorID: Option<int>,
    rowStatus: Option<string>, visibilityList: seq<string>, excludeComments: bool)

  function IntValue(v: Option<int>): Option<Value> {
    if v.Some? then Some(VInt(v.value)) else None
  }

  function StringValueOf(v: Option<string>): Option<Value> {
    if v.Some? then Some(VString(v.value)) else None
  }

  /** A filter for which nothing is written has no clause. */
  function FilterClause(s: Sql<Arg>): seq<Text<Arg>> {
    if Show(s) == [] then [] else [[LeftParen] + Show(s) + [RightParen]]
  }

  function FilterClauses(filters: seq<Option<Expr>>, now: int): Result<seq<Text<Arg>>, QueryError> {
    if filters == [] then Ok([])
    else
      var before := FilterClauses(filters[..|filters| - 1], now);
      if before.Err? then before
      else
        match Compiles(PostgreSQL, filters[|filters| - 1], now)
        case Err(x) => Err(x)
        case Ok(s) => Ok(before.value + FilterClause(s))
  }

  /** The clauses of the other find options. */
  function OptionClauses(find: FindMemo): seq<Text<Arg>> {
    FieldClause("memo.id", IntValue(find.id)) + FieldClause("memo.uid", StringValueOf(find.uid))
    + FieldClause("memo.creator_id", IntValue(find.creatorID)) + FieldClause("memo.row_status",
        StringValueOf(find.rowStatus))
    + VisibilityClause(find.visibilityList)
    + if find.excludeComments then [FixedClause("memo_relation.related_memo_id IS NULL")] else []
  }

  /** The first filter that does not compile decides the error. */
  lemma {:induction false} FirstFilterError(filters: seq<Option<Expr>>, i: nat, now: int)
    requires i <= |filters| && FilterClauses(filters[..i], now).Err?
    ensures FilterClauses(filters, now) == FilterClauses(filters[..i], now)
    decreases |filters|
  {
    if i < |filters| {
      var init := filters[..|filters| - 1];
      assert init[..i] == filters[..i];
      FirstFilterError(init, i, now);
    } else {
      assert filters[..i] == filters;
    }
  }

  method AppendFilter(q: Query, filter: Option<Expr>, now: int, ghost clauses: seq<Text<Arg>>)
    returns (r: Result<Query, QueryError>)
    requires Builds(PostgreSQL, q, clauses)
    ensures match Compiles(PostgreSQL, filter, now) {
              case Err(x) => r == Err(x)
              case Ok(s) => r.Ok? && Builds(PostgreSQL, r.value, clauses + FilterClause(s))
            }
  {
    hide Builds, Number, ArgsOf, Show, Translate;
    var compiled := CompileFilter(PostgreSQL, filter, |q.args|, now);
    if compiled.Err? {
      return Err(compiled.error);
    }
    var condition := compiled.value.condition;
    ghost var ts, n := Show(Compiles(PostgreSQL, filter, now).value), |q.args| + 1;
    NumberLength(PostgreSQL, ts, n);
    if condition != [] {
      r := Ok(Query(q.where + [[LeftParen] + condition + [RightParen]], q.args + compiled.value.args));
      NumberBehind(PostgreSQL, LeftParen, ts, n);
      NumberClosed(PostgreSQL, [LeftParen] + ts, RightParen, n);
      ClauseAppended(PostgreSQL, q, clauses, [LeftParen] + ts + [RightParen]);
    } else {
      r := Ok(q);
      assert clauses + [] == clauses;
    }
  }

  /** The condition and the arguments with which `ListMemos` queries. */
  method ListMemos(find: FindMemo, now: int) returns (r: Result<Query, QueryError>)
    ensures match FilterClauses(find.filters, now) {
              case Err(x) => r == Err(x)
              case Ok(fs) => r.Ok? && Builds(PostgreSQL, r.value, [FixedClause("1 = 1")] + fs + OptionClauses(find))
            }
  {
    hide Builds, FieldClause, VisibilityClause, FixedClause, FilterClause, Compiles;
    ghost var clauses := [FixedClause("1 = 1")];
    var q := Begin(PostgreSQL, "1 = 1");
    for i := 0 to |find.filters|
      invariant FilterClauses(find.filters[..i], now).Ok?
      invariant clauses == [FixedClause("1 = 1")] + FilterClauses(find.filters[..i], now).value
      invariant Builds(PostgreSQL, q, clauses)
    {
      assert find.filters[..i + 1][..i] == find.filters[..i];
      var next := AppendFilter(q, find.filters[i], now, clauses);
      if next.Err? {
        FirstFilterError(find.filters, i + 1, now);
        return Err(next.error);
      }
      q := next.value;
      clauses := clauses + FilterClause(Compiles(PostgreSQL, find.filters[i], now).value);
    }
    assert find.filters[..|find.filters|] == find.filters;
    ghost var start := clauses;
    q := AppendField(PostgreSQL, q, "memo.id", IntValue(find.id), clauses);
    clauses := clauses + FieldClause("memo.id", IntValue(find.id));
    q := AppendField(PostgreSQL, q, "memo.uid", StringValueOf(find.uid), clauses);
    clauses := clauses + FieldClause("memo.uid", StringValueOf(find.uid));
    q := AppendField(PostgreSQL, q, "memo.creator_id", IntValue(find.creatorID), clauses);
    clauses := clauses + FieldClause("memo.creator_id", IntValue(find.creatorID));
    q := AppendField(PostgreSQL, q, "memo.row_status", StringValueOf(find.rowStatus), clauses);
    clauses := clauses + FieldClause("memo.row_status", StringValueOf(find.rowStatus));
    q := AppendVisibilities(PostgreSQL, q, find.visibilityList, clauses);
    clauses := clauses + VisibilityClause(find.visibilityList);
    if find.excludeComments {
      q := AppendFixed(PostgreSQL, q, "memo_relation.related_memo_id IS NULL", clauses);
      clauses := clauses + [FixedClause("memo_relation.related_memo_id IS NULL")];
    }
    assert clauses == start + OptionClauses(find);
    r := Ok(q);
  }

  // ---------- Reading a query ----------

  /** Clause by clause, the text reads as a unit with the given condition. */
  ghost predicate Reads(clauses: seq<Text<Arg>>, conds: seq<Cond<Arg>>) {
    |clauses| == |conds| && forall i | 0 <= i < |clauses| :: Unit(clauses[i], conds[i])
  }

  lemma ParenthesesRead(s: Sql<Arg>)
    requires Complete(s)
    ensures Show(s) != [] && Unit([LeftParen] + Show(s) + [RightParen], Structure(s))
  {
    hide Unit, ParseOr, Structure;
    ShowIsUnit(s);
    forall rest | Closed(rest) ensures ParseOr(Show(s) + rest) == Parsed(Structure(s), rest) {
      OrUnit(Show(s), Structure(s), rest);
    }
    ParenthesesUnit(Show(s), Structure(s));
  }

  lemma SubqueryReads(name: string, s: Sql<Arg>)
    requires Complete(s)
    ensures Unit([Subquery(name)] + Show(s) + [RightParen], Among(name, Structure(s)))
  {
    hide Structure, Show, ParseOr, Complete;
    var open: Token<Arg>, close: Token<Arg> := Subquery(name), RightParen;
    ShowIsUnit(s);
    forall rest ensures ParseNot([open] + Show(s) + [close] + rest) == Parsed(Among(name, Structure(s)), rest) {
      var all, inner := [open] + Show(s) + [close] + rest, [close] + rest;
      assert all[1..] == Show(s) + inner && inner[1..] == rest;
      OrUnit(Show(s), Structure(s), inner);
    }
  }

  predicate AllLeaves(clauses: seq<seq<Token<Arg>>>) {
    forall i | 0 <= i < |clauses| :: |clauses[i]| == 1 && clauses[i][0].Leaf?
  }

  /** The tests that single leaves make. */
  function Tests(clauses: seq<Text<Arg>>): seq<Cond<Arg>>
    requires AllLeaves(clauses)
  {
    seq(|clauses|, i requires 0 <= i < |clauses| => Test(clauses[i][0].atom))
  }

  lemma LeavesRead(clauses: seq<Text<Arg>>)
    requires AllLeaves(clauses)
    ensures Reads(clauses, Tests(clauses))
  {
    hide Unit;
    forall i | 0 <= i < |clauses| ensures Unit(clauses[i], Test(clauses[i][0].atom)) {
      LeafUnit(clauses[i][0].atom);
      assert clauses[i] == [Leaf(clauses[i][0].atom)];
    }
  }

  /** Every filter compiles and holds a test in every boolean position. */
  predicate AllHandled(filters: seq<Option<Expr>>, now: int) {
    forall f <- filters :: f.Some? && Handled(f.value) && Translate(MemoConfig(PostgreSQL), f.value, now).Ok?
  }

  function FilterConditions(filters: seq<Option<Expr>>, now: int): seq<Cond<Arg>>
    requires AllHandled(filters, now)
  {
    seq(|filters|, i requires 0 <= i < |filters| =>
      HandledIsComplete(MemoConfig(PostgreSQL), filters[i].value, now);
      Structure(Translate(MemoConfig(PostgreSQL), filters[i].value, now).value))
  }

  lemma {:induction false} FiltersRead(filters: seq<Option<Expr>>, now: int)
    requires AllHandled(filters, now)
    ensures FilterClauses(filters, now).Ok? && Reads(FilterClauses(filters, now).value, FilterConditions(filters, now))
  {
    hide Unit, Structure, Complete, Show, Translate, Handled;
    if filters != [] {
      var init, last := filters[..|filters| - 1], filters[|filters| - 1].value;
      FiltersRead(init, now);
      HandledIsComplete(MemoConfig(PostgreSQL), last, now);
      ParenthesesRead(Translate(MemoConfig(PostgreSQL), last, now).value);
      assert forall i | 0 <= i < |init| :: FilterConditions(filters, now)[i] == FilterConditions(init, now)[i];
    }
  }

  lemma LeavesConcat(a: seq<Text<Arg>>, b: seq<Text<Arg>>)
    requires AllLeaves(a) && AllLeaves(b)
    ensures AllLeaves(a + b)
  {
  }

  lemma FieldIsLeaf(name: string, v: Option<Value>)
    ensures AllLeaves(FieldClause(name, v))
  {
  }

  lemma VisibilityIsLeaf(visibilities: seq<string>)
    ensures AllLeaves(VisibilityClause(visibilities))
  {
  }

  lemma OptionsAreLeaves(find: FindMemo)
    ensures AllLeaves(OptionClauses(find))
  {
    hide AllLeaves, FieldClause, VisibilityClause, FixedClause, IntValue, StringValueOf;
    var id, uid := FieldClause("memo.id", IntValue(find.id)), FieldClause("memo.uid", StringValueOf(find.uid));
    var creator := FieldClause("memo.creator_id", IntValue(find.creatorID));
    var status := FieldClause("memo.row_status", StringValueOf(find.rowStatus));
    var visibilities := VisibilityClause(find.visibilityList);
    var comments := if find.excludeComments then [FixedClause("memo_relation.related_memo_id IS NULL")] else [];
    FieldIsLeaf("memo.id", IntValue(find.id));
    FieldIsLeaf("memo.uid", StringValueOf(find.uid));
    FieldIsLeaf("memo.creator_id", IntValue(find.creatorID));
    FieldIsLeaf("memo.row_status", StringValueOf(find.rowStatus));
    VisibilityIsLeaf(find.visibilityList);
    FixedIsLeaf("memo_relation.related_memo_id IS NULL");
    LeavesConcat(id, uid);
    LeavesConcat(id + uid, creator);
    LeavesConcat(id + uid + creator, status);
    LeavesConcat(id + uid + creator + status, visibilities);
    LeavesConcat(id + uid + creator + status + visibilities, comments);
  }

  lemma FixedIsLeaf(text: string)
    ensures AllLeaves([FixedClause(text)]) && AllLeaves([])
  {
  }

  /** The condition of `ListMemos` reads as the conjunction of every filter and every find option. */
  lemma MemoQueryReads(find: FindMemo, now: int)
    requires AllHandled(find.filters, now)
    ensures FilterClauses(find.filters, now).Ok? && AllLeaves(OptionClauses(find))
    ensures ParseOr(JoinAnd([FixedClause("1 = 1")] + FilterClauses(find.filters, now).value + OptionClauses(find))) ==
            Parsed(Conjunction([Test(Fixed("1 = 1"))] + FilterConditions(find.filters,
                now) + Tests(OptionClauses(find))), [])
  {
    OptionsAreLeaves(find);
    hide Unit, ParseOr, JoinAnd, Conjunction, FilterConditions, FilterClauses, OptionClauses;
    var first := [FixedClause("1 = 1")];
    FiltersRead(find.filters, now);
    LeavesRead(first);
    LeavesRead(OptionClauses(find));
    assert Tests(first) == [Test(Fixed("1 = 1"))];
    ParseOfClauses(first + FilterClauses(find.filters, now).value + OptionClauses(find),
                   Tests(first) + FilterConditions(find.filters, now) + Tests(OptionClauses(find)));
  }

  // ---------- ListMemoRelations ----------

  /** The filter, where it is given, is the outcome of parsing its text. */
  datatype FindMemoRelation = FindMemoRelation(
    memoID: Option<int>, relatedMemoID: Option<int>, relationType: Option<string>, memoFilter: Option<Option<Expr>>)

  function RelationClauses(d: Dialect, find: FindMemoRelation): seq<Text<Arg>> {
    [FixedClause(if d == SQLite then "TRUE" else "1 = 1")]
    + FieldClause("memo_id", IntValue(find.memoID)) + FieldClause("related_memo_id", IntValue(find.relatedMemoID))
    + FieldClause("type", StringValueOf(find.relationType))
  }

  function Spliced<P>(name: string, condition: Text<P>): Text<P> {
    [Subquery(name)] + condition + [RightParen]
  }

  /** The filter as a condition on both memos of a relation. */
  function SpliceClauses(s: Sql<Arg>): seq<Text<Arg>> {
    if Show(s) == [] then [] else [Spliced("memo_id", Show(s)), Spliced("related_memo_id", Show(s))]
  }

  lemma NumberSpliced(d: Dialect, name: string, ts: Text<Arg>, n: int)
    ensures Number(d, Spliced(name, ts), n) == Spliced(name, Number(d, ts, n))
    ensures ArgsOf(Spliced(name, ts)) == ArgsOf(ts)
  {
    NumberBehind(d, Subquery(name), ts, n);
    NumberClosed(d, [Subquery(name)] + ts, RightParen, n);
  }

  method BeginRelations(d: Dialect, find: FindMemoRelation) returns (q: Query)
    ensures Builds(d, q, RelationClauses(d, find))
  {
    hide Builds, FieldClause, FixedClause;
    var first := if d == SQLite then "TRUE" else "1 = 1";
    ghost var clauses := [FixedClause(first)];
    q := Begin(d, first);
    q := AppendField(d, q, "memo_id", IntValue(find.memoID), clauses);
    clauses := clauses + FieldClause("memo_id", IntValue(find.memoID));
    q := AppendField(d, q, "related_memo_id", IntValue(find.relatedMemoID), clauses);
    clauses := clauses + FieldClause("related_memo_id", IntValue(find.relatedMemoID));
    q := AppendField(d, q, "type", StringValueOf(find.relationType), clauses);
  }

  lemma SamePlaceholders(m: int, n: int, count: nat)
    ensures PlaceholdersFrom(SQLite, m, count) == PlaceholdersFrom(SQLite, n, count)
  {
    forall i | 0 <= i < count ensures PlaceholdersFrom(SQLite, m, count)[i] == PlaceholdersFrom(SQLite, n, count)[i] {
      assert PlaceholderAt(SQLite, m + i) == Positional == PlaceholderAt(SQLite, n + i);
    }
  }

  /** In a dialect with `?` a text is numbered the same from everywhere. */
  lemma {:induction false} PositionalAnywhere(ts: Text<Arg>, m: int, n: int)
    ensures Number(SQLite, ts, m) == Number(SQLite, ts, n)
  {
    if ts != [] {
      var before, count := ts[..|ts| - 1], |TokenArgs(ts[|ts| - 1])|;
      PositionalAnywhere(before, m, n);
      SamePlaceholders(m + |ArgsOf(before)|, n + |ArgsOf(before)|, count);
    }
  }

  /** With `?` the condition is spliced in twice, and its arguments are given twice. */
  method ListMemoRelationsSQLite(find: FindMemoRelation, now: int) returns (r: Result<Query, QueryError>)
    ensures find.memoFilter.None? ==> r.Ok? && Builds(SQLite, r.value, RelationClauses(SQLite, find))
    ensures find.memoFilter.Some? ==>
              match Compiles(SQLite, find.memoFilter.value, now) {
                case Err(x) => r == Err(x)
                case Ok(s) => r.Ok? && Builds(SQLite, r.value, RelationClauses(SQLite, find) + SpliceClauses(s))
              }
  {
    hide Builds, Number, ArgsOf, Show, Compiles, RelationClauses, Spliced;
    var q := BeginRelations(SQLite, find);
    if find.memoFilter.None? {
      return Ok(q);
    }
    var compiled := CompileFilter(SQLite, find.memoFilter.value, 0, now);
    if compiled.Err? {
      return Err(compiled.error);
    }
    var condition, own := compiled.value.condition, compiled.value.args;
    ghost var ts, clauses := Show(Compiles(SQLite, find.memoFilter.value, now).value), RelationClauses(SQLite, find);
    NumberLength(SQLite, ts, 1);
    if condition == [] {
      assert clauses + [] == clauses;
      return Ok(q);
    }
    r := Ok(Query(q.where + [Spliced("memo_id", condition)] + [Spliced("related_memo_id", condition)],
        q.args + (own + own)));
    ghost var once := Query(q.where + [Spliced("memo_id", condition)], q.args + own);
    PositionalAnywhere(ts, 1, |q.args| + 1);
    PositionalAnywhere(ts, 1, |once.args| + 1);
    NumberSpliced(SQLite, "memo_id", ts, |q.args| + 1);
    NumberSpliced(SQLite, "related_memo_id", ts, |once.args| + 1);
    ClauseAppended(SQLite, q, clauses, Spliced("memo_id", ts));
    ClauseAppended(SQLite, once, clauses + [Spliced("memo_id", ts)], Spliced("related_memo_id", ts));
    assert once.args + own == q.args + (own + own);
    assert clauses + [Spliced("memo_id", ts)] + [Spliced("related_memo_id", ts)] ==
           clauses + SpliceClauses(Compiles(SQLite, find.memoFilter.value, now).value);
  }

  /** A clause that repeats the placeholders of the last one, without further arguments, binds to the same values. */
  lemma RepeatedClause(q: Query, clauses: seq<Text<Arg>>, c: Text<Arg>, n: int)
    requires Builds(PostgreSQL, q, clauses)
    requires n + |ArgsOf(c)| == |q.args| + 1 && n >= 1 && q.args[n - 1..] == ArgsOf(c)
    ensures Bind(JoinAnd(q.where + [Number(PostgreSQL, c, n)]), q.args) == Some(JoinAnd(clauses + [c]))
  {
    hide Number, ArgsOf, JoinAnd, Bind;
    var a, ts := JoinAnd(q.where), [And] + c;
    JoinAndSnoc(q.where, Number(PostgreSQL, c, n));
    JoinAndSnoc(clauses, c);
    NumberBehind(PostgreSQL, And, c, n);
    BuiltQueryIsBound(PostgreSQL, q, clauses);
    forall k | 0 <= k < |ArgsOf(ts)|
      ensures Resolve(PlaceholderAt(PostgreSQL, n + k), |ArgsOf(a)| + k, q.args) == Some(ArgsOf(ts)[k])
    {
      assert q.args[n - 1..][k] == q.args[n + k - 1];
    }
    BindBehind(PostgreSQL, a, JoinAnd(clauses), ts, n, q.args);
  }

  /** With $n the condition is spliced in twice with the same placeholders, and its arguments are given once. */
  method ListMemoRelationsPostgreSQL(find: FindMemoRelation, now: int) returns (r: Result<Query, QueryError>)
    ensures find.memoFilter.None? ==> r.Ok? && Builds(PostgreSQL, r.value, RelationClauses(PostgreSQL, find))
    ensures find.memoFilter.Some? ==>
              match Compiles(PostgreSQL, find.memoFilter.value, now) {
                case Err(x) => r == Err(x)
                case Ok(s) =>
                  && r.Ok?
                  && r.value.args == ArgsOf(JoinAnd(RelationClauses(PostgreSQL, find))) + ArgsOf(Show(s))
                  && Bind(JoinAnd(r.value.where), r.value.args) ==
                     Some(JoinAnd(RelationClauses(PostgreSQL, find) + SpliceClauses(s)))
              }
  {
    hide Number, ArgsOf, Show, Compiles, RelationClauses, Spliced, JoinAnd, Bind;
    var q := BeginRelations(PostgreSQL, find);
    if find.memoFilter.None? {
      return Ok(q);
    }
    var compiled := CompileFilter(PostgreSQL, find.memoFilter.value, |q.args|, now);
    if compiled.Err? {
      return Err(compiled.error);
    }
    var condition, own := compiled.value.condition, compiled.value.args;
    ghost var ts := Show(Compiles(PostgreSQL, find.memoFilter.value, now).value);
    ghost var clauses, n := RelationClauses(PostgreSQL, find), |q.args| + 1;
    NumberLength(PostgreSQL, ts, n);
    if condition == [] {
      assert clauses + [] == clauses && ts == [];
      NumberNone(PostgreSQL, 1);
      assert q.args + [] == q.args;
      BuiltQueryIsBound(PostgreSQL, q, clauses);
      return Ok(q);
    }
    r := Ok(Query(q.where + [Spliced("memo_id", condition)] + [Spliced("related_memo_id", condition)], q.args + own));
    ghost var once := Query(q.where + [Spliced("memo_id", condition)], q.args + own);
    NumberSpliced(PostgreSQL, "memo_id", ts, n);
    NumberSpliced(PostgreSQL, "related_memo_id", ts, n);
    ClauseAppended(PostgreSQL, q, clauses, Spliced("memo_id", ts));
    assert once.args[n - 1..] == own;
    RepeatedClause(once, clauses + [Spliced("memo_id", ts)], Spliced("related_memo_id", ts), n);
    assert clauses + [Spliced("memo_id", ts)] + [Spliced("related_memo_id", ts)] ==
           clauses + SpliceClauses(Compiles(PostgreSQL, find.memoFilter.value, now).value);
  }

  /** In both dialects the bound statement asks both memos of a relation for the filter. */
  lemma RelationQueryReads(d: Dialect, find: FindMemoRelation, e: Expr, now: int)
    requires Handled(e) && Translate(MemoConfig(d), e, now).Ok?
    ensures var s := Translate(MemoConfig(d), e, now).value;
            && Complete(s) && AllLeaves(RelationClauses(d, find))
            && ParseOr(JoinAnd(RelationClauses(d, find) + SpliceClauses(s))) ==
               Parsed(Conjunction(Tests(RelationClauses(d, find))
                                  + [Among("memo_id", Structure(s)), Among("related_memo_id", Structure(s))]), [])
  {
    hide Unit, ParseOr, JoinAnd, Conjunction, Structure, Complete, Show, Translate, Handled;
    var s := Translate(MemoConfig(d), e, now).value;
    HandledIsComplete(MemoConfig(d), e, now);
    LeavesRead(RelationClauses(d, find));
    ParenthesesRead(s);
    SubqueryReads("memo_id", s);
    SubqueryReads("related_memo_id", s);
    ParseOfClauses(RelationClauses(d, find) + SpliceClauses(s),
                   Tests(RelationClauses(d, find)) + [Among("memo_id", Structure(s)), Among("related_memo_id",
                       Structure(s))]);
  }

  // ---------- PostgreSQL UpdateMemo ----------

  /** The outcome of marshalling a payload. */
  datatype Payload = Json(text: string) | Unmarshallable

  datatype UpdateMemo = UpdateMemo(
    id: int, uid: Option<string>, createdTs: Option<int>, updatedTs: Option<int>, rowStatus: Option<string>,
    content: Option<string>, visibility: Option<string>, pinned: Option<bool>, payload: Option<Payload>)

  /** SET with a list of assignments, WHERE id is a placeholder. */
  datatype Statement = Statement(sets: seq<Atom<Placeholder>>, id: Placeholder, args: seq<Arg>)

  datatype Assignment = Assignment(column: string, value: Value)

  function Assign(column: string, v: Option<Value>): seq<Assignment> {
    if v.Some? then [Assignment(column, v.value)] else []
  }

  function BoolValueOf(v: Option<bool>): Option<Value> {
    if v.Some? then Some(VBool(v.value)) else None
  }

  function PayloadValue(v: Option<Payload>): Option<Value> {
    if v.Some? && v.value.Json? then Some(VString(v.value.text)) else None
  }

  /** What an update asks for. */
  function Assignments(u: UpdateMemo): seq<Assignment> {
    Assign("uid", StringValueOf(u.uid)) + Assign("created_ts", IntValue(u.createdTs))
    + Assign("updated_ts", IntValue(u.updatedTs)) + Assign("row_status", StringValueOf(u.rowStatus))
    + Assign("content", StringValueOf(u.content)) + Assign("visibility", StringValueOf(u.visibility))
    + Assign("pinned", BoolValueOf(u.pinned)) + Assign("payload", PayloadValue(u.payload))
  }

  function One<T>(v: Option<T>): nat {
    if v.Some? then 1 else 0
  }

  /** An update assigns each column that is given its own value, once, and no other. */
  lemma AssignmentsGiven(u: UpdateMemo)
    requires u.payload != Some(Unmarshallable)
    ensures forall a :: a in Assignments(u) <==>
              || (u.uid.Some? && a == Assignment("uid", VString(u.uid.value)))
              || (u.createdTs.Some? && a == Assignment("created_ts", VInt(u.createdTs.value)))
              || (u.updatedTs.Some? && a == Assignment("updated_ts", VInt(u.updatedTs.value)))
              || (u.rowStatus.Some? && a == Assignment("row_status", VString(u.rowStatus.value)))
              || (u.content.Some? && a == Assignment("content", VString(u.content.value)))
              || (u.visibility.Some? && a == Assignment("visibility", VString(u.visibility.value)))
              || (u.pinned.Some? && a == Assignment("pinned", VBool(u.pinned.value)))
              || (u.payload.Some? && a == Assignment("payload", VString(u.payload.value.text)))
    ensures |Assignments(u)| == One(u.uid) + One(u.createdTs) + One(u.updatedTs) + One(u.rowStatus) + One(u.content)
                                + One(u.visibility) + One(u.pinned) + One(u.payload)
  {
    forall a { AssignmentsInTurn(u, a); }
    hide Assign, Assignments;
    AssignsOne("uid", StringValueOf(u.uid));
    AssignsOne("created_ts", IntValue(u.createdTs));
    AssignsOne("updated_ts", IntValue(u.updatedTs));
    AssignsOne("row_status", StringValueOf(u.rowStatus));
    AssignsOne("content", StringValueOf(u.content));
    AssignsOne("visibility", StringValueOf(u.visibility));
    AssignsOne("pinned", BoolValueOf(u.pinned));
    AssignsOne("payload", PayloadValue(u.payload));
    AssignmentsInTurn(u, Assignment("", VInt(0)));
  }

  lemma AssignmentsInTurn(u: UpdateMemo, a: Assignment)
    ensures a in Assignments(u) <==>
            || a in Assign("uid", StringValueOf(u.uid)) || a in Assign("created_ts", IntValue(u.createdTs))
            || a in Assign("updated_ts", IntValue(u.updatedTs)) || a in Assign("row_status", StringValueOf(u.rowStatus))
            || a in Assign("content", StringValueOf(u.content))
            || a in Assign("visibility", StringValueOf(u.visibility))
            || a in Assign("pinned", BoolValueOf(u.pinned)) || a in Assign("payload", PayloadValue(u.payload))
    ensures |Assignments(u)| ==
            |Assign("uid", StringValueOf(u.uid))| + |Assign("created_ts", IntValue(u.createdTs))|
            + |Assign("updated_ts", IntValue(u.updatedTs))| + |Assign("row_status", StringValueOf(u.rowStatus))|
            + |Assign("content", StringValueOf(u.content))| + |Assign("visibility", StringValueOf(u.visibility))|
            + |Assign("pinned", BoolValueOf(u.pinned))| + |Assign("payload", PayloadValue(u.payload))|
  {
    hide Assign, StringValueOf, IntValue, BoolValueOf, PayloadValue;
  }

  lemma AssignsOne(column: string, v: Option<Value>)
    ensures |Assign(column, v)| == One(v)
    ensures forall a :: a in Assign(column, v) <==> v.Some? && a == Assignment(column, v.value)
  {
  }

  /** Each assignment has the next placeholder, which stands for its own value. */
  predicate Assigns(sets: seq<Atom<Placeholder>>, args: seq<Arg>, asked: seq<Assignment>) {
    && |sets| == |asked| <= |args|
    && forall i | 0 <= i < |asked| ::
         && sets[i] == Field(asked[i].column, Numbered(i + 1))
         && Resolve(Numbered(i + 1), i, args) == Some(Plain(asked[i].value))
  }

  method AppendAssignment(sets: seq<Atom<Placeholder>>, args: seq<Arg>, column: string, v: Option<Value>,
                          ghost asked: seq<Assignment>)
    returns (sets': seq<Atom<Placeholder>>, args': seq<Arg>)
    requires Assigns(sets, args, asked) && |args| == |asked|
    ensures Assigns(sets', args', asked + Assign(column, v)) && |args'| == |asked + Assign(column, v)|
  {
    sets', args' := sets, args;
    if v.Some? {
      sets', args' := sets + [Field(column, PlaceholderAt(PostgreSQL, |args| + 1))], args + [Plain(v.value)];
    }
  }

  /** The statement of an update, or none when nothing is asked for. */
  method UpdateMemoStatement(u: UpdateMemo) returns (r: Result<Option<Statement>, QueryError>)
    ensures u.payload == Some(Unmarshallable) ==> r == Err(MarshalFailed)
    ensures u.payload != Some(Unmarshallable) ==> r.Ok? && (r.value.None? <==> Assignments(u) == [])
    ensures r.Ok? && r.value.Some? ==>
              var s := r.value.value;
              && Assigns(s.sets, s.args, Assignments(u)) && |s.args| == |Assignments(u)| + 1
              && s.id == Numbered(|s.args|) && Resolve(s.id, |s.sets|, s.args) == Some(Plain(VInt(u.id)))
  {
    ghost var asked: seq<Assignment> := [];
    var sets: seq<Atom<Placeholder>>, args: seq<Arg> := [], [];
    assert Assigns(sets, args, asked);
    hide Assign, Assigns, StringValueOf, IntValue, BoolValueOf, Resolve;
    sets, args := AppendAssignment(sets, args, "uid", StringValueOf(u.uid), asked);
    asked := asked + Assign("uid", StringValueOf(u.uid));
    assert asked == Assign("uid", StringValueOf(u.uid));
    sets, args := AppendAssignment(sets, args, "created_ts", IntValue(u.createdTs), asked);
    asked := asked + Assign("created_ts", IntValue(u.createdTs));
    sets, args := AppendAssignment(sets, args, "updated_ts", IntValue(u.updatedTs), asked);
    asked := asked + Assign("updated_ts", IntValue(u.updatedTs));
    sets, args := AppendAssignment(sets, args, "row_status", StringValueOf(u.rowStatus), asked);
    asked := asked + Assign("row_status", StringValueOf(u.rowStatus));
    sets, args := AppendAssignment(sets, args, "content", StringValueOf(u.content), asked);
    asked := asked + Assign("content", StringValueOf(u.content));
    sets, args := AppendAssignment(sets, args, "visibility", StringValueOf(u.visibility), asked);
    asked := asked + Assign("visibility", StringValueOf(u.visibility));
    sets, args := AppendAssignment(sets, args, "pinned", BoolValueOf(u.pinned), asked);
    asked := asked + Assign("pinned", BoolValueOf(u.pinned));
    if u.payload == Some(Unmarshallable) {
      return Err(MarshalFailed);
    }
    sets, args := AppendAssignment(sets, args, "payload", PayloadValue(u.payload), asked);
    asked := asked + Assign("payload", PayloadValue(u.payload));
    assert asked == Assignments(u);
    AssignsLength(sets, args, asked);
    if sets == [] {
      return Ok(None);
    }
    r := Ok(Some(Statement(sets, PlaceholderAt(PostgreSQL, |args| + 1), args + [Plain(VInt(u.id))])));
    AssignsMore(sets, args, asked, Plain(VInt(u.id)));
  }

  lemma AssignsLength(sets: seq<Atom<Placeholder>>, args: seq<Arg>, asked: seq<Assignment>)
    requires Assigns(sets, args, asked)
    ensures |sets| == |asked|
  {
  }

  lemma AssignsMore(sets: seq<Atom<Placeholder>>, args: seq<Arg>, asked: seq<Assignment>, a: Arg)
    requires Assigns(sets, args, asked)
    ensures Assigns(sets, args + [a], asked)
  {
  }
}
