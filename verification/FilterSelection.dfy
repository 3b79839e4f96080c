/** Which memos and relations the built queries select: find options, compiled filters and their meaning together. */
module FilterSelection {
  import opened Wrappers
  import opened FilterSql
  import opened FilterSyntax
  import opened FilterExpr
  import opened FilterTranslate
  import opened FilterCel
  import opened FilterMeaning
  import opened FilterQueries

  // ---------- Conjunctions ----------

  lemma {:induction false} ConjunctionIsYes(conds: seq<Cond<Arg>>, r: Row)
    requires conds != []
    ensures Eval(Conjunction(conds), r) == Yes <==> forall c <- conds :: Eval(c, r) == Yes
  {
    var n := |conds| - 1;
    assert conds[n] in conds;
    if n > 0 {
      ConjunctionIsYes(conds[..n], r);
      assert conds == conds[..n] + [conds[n]];
      assert forall c :: c in conds <==> c in conds[..n] || c == conds[n];
    } else {
      assert forall c :: c in conds <==> c == conds[0];
    }
  }

  // ---------- Find options ----------

  predicate MeetsOptions(find: FindMemo, r: Row) {
    && (find.id.Some? ==> r.id == find.id.value)
    && (find.uid.Some? ==> r.uid == find.uid.value)
    && (find.creatorID.Some? ==> r.creatorID == find.creatorID.value)
    && (find.rowStatus.Some? ==> r.rowStatus == find.rowStatus.value)
    && (find.visibilityList != [] ==> r.visibility in find.visibilityList)
    && (find.excludeComments ==> !r.isComment)
  }

  /** Every clause is true of the memo. */
  predicate Pass(clauses: seq<Text<Arg>>, r: Row)
    requires AllLeaves(clauses)
  {
    forall i | 0 <= i < |clauses| :: EvalAtom(clauses[i][0].atom, r) == Yes
  }

  lemma PassBoth(a: seq<Text<Arg>>, b: seq<Text<Arg>>, r: Row)
    requires AllLeaves(a) && AllLeaves(b)
    ensures AllLeaves(a + b) && (Pass(a + b, r) <==> Pass(a, r) && Pass(b, r))
  {
    hide EvalAtom;
    if Pass(a + b, r) {
      forall i | 0 <= i < |a| ensures EvalAtom(a[i][0].atom, r) == Yes {
        assert (a + b)[i] == a[i];
      }
      forall i | 0 <= i < |b| ensures EvalAtom(b[i][0].atom, r) == Yes {
        assert (a + b)[|a| + i] == b[i];
      }
    }
  }

  lemma FieldPasses(name: string, v: Option<Value>, r: Row)
    ensures AllLeaves(FieldClause(name, v))
    ensures Pass(FieldClause(name, v), r) <==> v.None? || OptionColumn(r, name) == v
  {
    if v.Some? {
      assert FieldClause(name, v)[0] == [Leaf(Field(name, Plain(v.value)))];
    }
  }

  lemma VisibilityPasses(visibilities: seq<string>, r: Row)
    ensures AllLeaves(VisibilityClause(visibilities))
    ensures Pass(VisibilityClause(visibilities), r) <==> visibilities == [] || r.visibility in visibilities
  {
    if visibilities != [] {
      var args := StringArgs(visibilities);
      assert VisibilityClause(visibilities)[0] == [Leaf(FieldIn("memo.visibility", args))];
      if r.visibility in visibilities {
        var i :| 0 <= i < |visibilities| && visibilities[i] == r.visibility;
        assert args[i] in args && ArgValue(args[i]) == VString(r.visibility);
      }
      if arg :| arg in args && ArgValue(arg) == VString(r.visibility) {
        var i :| 0 <= i < |args| && args[i] == arg;
        assert visibilities[i] in visibilities;
      }
    }
  }

  lemma CommentsPass(exclude: bool, r: Row)
    ensures var clauses := if exclude then [FixedClause("memo_relation.related_memo_id IS NULL")] else [];
            AllLeaves(clauses) && (Pass(clauses, r) <==> (exclude ==> !r.isComment))
  {
    var a: Atom<Arg> := Fixed("memo_relation.related_memo_id IS NULL");
    assert EvalAtom(a, r) == Known(!r.isComment);
    if exclude {
      assert [FixedClause("memo_relation.related_memo_id IS NULL")][0][0].atom == a;
    }
  }

  /** The clauses of the find options are true of exactly the memos that meet them. */
  lemma OptionsPass(find: FindMemo, r: Row)
    ensures AllLeaves(OptionClauses(find)) && (Pass(OptionClauses(find), r) <==> MeetsOptions(find, r))
  {
    hide AllLeaves, Pass, FieldClause, VisibilityClause, FixedClause;
    var id, uid := FieldClause("memo.id", IntValue(find.id)), FieldClause("memo.uid", StringValueOf(find.uid));
    var creator := FieldClause("memo.creator_id", IntValue(find.creatorID));
    var status := FieldClause("memo.row_status", StringValueOf(find.rowStatus));
    var visibilities := VisibilityClause(find.visibilityList);
    var comments := if find.excludeComments then [FixedClause("memo_relation.related_memo_id IS NULL")] else [];
    FieldPasses("memo.id", IntValue(find.id), r);
    FieldPasses("memo.uid", StringValueOf(find.uid), r);
    FieldPasses("memo.creator_id", IntValue(find.creatorID), r);
    FieldPasses("memo.row_status", StringValueOf(find.rowStatus), r);
    VisibilityPasses(find.visibilityList, r);
    CommentsPass(find.excludeComments, r);
    PassBoth(id, uid, r);
    PassBoth(id + uid, creator, r);
    PassBoth(id + uid + creator, status, r);
    PassBoth(id + uid + creator + status, visibilities, r);
    PassBoth(id + uid + creator + status + visibilities, comments, r);
  }

  // ---------- Memos ----------

  /** Every filter asks something of memos, but nothing of their tags. */
  predicate AllMeant(filters: seq<Option<Expr>>, now: int) {
    forall f <- filters :: f.Some? && Handled(f.value) && IsMemoFilter(f.value, now) && !TestsTags(f.value)
  }

  /** What `ListMemos` of PostgreSQL asks for, as the database reads and evaluates it. */
  ghost predicate Selected(q: Query, r: Row) {
    var bound := Bind(JoinAnd(q.where), q.args);
    && bound.Some? && ParseOr(bound.value).Parsed? && ParseOr(bound.value).rest == []
    && Eval(ParseOr(bound.value).cond, r) == Yes
  }

  lemma MeantIsHandled(filters: seq<Option<Expr>>, now: int)
    requires AllMeant(filters, now)
    ensures AllHandled(filters, now)
  {
    hide Handled, IsMemoFilter, TestsTags, Translate;
    forall f <- filters ensures Translate(MemoConfig(PostgreSQL), f.value, now).Ok? {
      AcceptedExactly(PostgreSQL, f.value, now);
    }
  }

  lemma FiltersPass(filters: seq<Option<Expr>>, r: Row, now: int)
    requires AllMeant(filters, now) && AllHandled(filters, now)
    ensures (forall c <- FilterConditions(filters, now) :: Eval(c, r) == Yes) <==>
            forall f <- filters :: Decided(PostgreSQL, f.value, r, now) && Holds(f.value, r, now)
  {
    hide Handled, IsMemoFilter, TestsTags, Translate, Eval, Structure, Decided, Holds, Complete;
    var conds := FilterConditions(filters, now);
    forall i | 0 <= i < |filters|
      ensures Eval(conds[i], r) == Yes <==>
              Decided(PostgreSQL, filters[i].value, r, now) && Holds(filters[i].value, r, now)
    {
      assert filters[i] in filters;
      FilterValue(PostgreSQL, filters[i].value, r, now);
    }
    if forall c <- conds :: Eval(c, r) == Yes {
      forall f <- filters ensures Decided(PostgreSQL, f.value, r, now) && Holds(f.value, r, now) {
        var i :| 0 <= i < |filters| && filters[i] == f;
        assert conds[i] in conds;
      }
    }
    if forall f <- filters :: Decided(PostgreSQL, f.value, r, now) && Holds(f.value, r, now) {
      forall c <- conds ensures Eval(c, r) == Yes {
        var i :| 0 <= i < |conds| && conds[i] == c;
        assert filters[i] in filters;
      }
    }
  }

  lemma TestsPass(clauses: seq<Text<Arg>>, r: Row)
    requires AllLeaves(clauses)
    ensures (forall c <- Tests(clauses) :: Eval(c, r) == Yes) <==> Pass(clauses, r)
  {
    hide EvalAtom;
    var tests := Tests(clauses);
    if forall c <- tests :: Eval(c, r) == Yes {
      forall i | 0 <= i < |clauses| ensures EvalAtom(clauses[i][0].atom, r) == Yes {
        assert tests[i] in tests;
      }
    }
  }

  /**
   The memos that a query of `ListMemos` selects: those that meet the find options and, for every filter, leave
   it decided and satisfy it in CEL.
   */
  lemma MemosSelected(find: FindMemo, q: Query, r: Row, now: int)
    requires AllMeant(find.filters, now) && FilterClauses(find.filters, now).Ok?
    requires Builds(PostgreSQL, q,
                    [FixedClause("1 = 1")] + FilterClauses(find.filters, now).value + OptionClauses(find))
    ensures Selected(q, r) <==>
            && MeetsOptions(find, r)
            && forall f <- find.filters :: Decided(PostgreSQL, f.value, r, now) && Holds(f.value, r, now)
  {
    hide Builds, AllMeant, AllHandled, AllLeaves, FilterClauses, OptionClauses, FilterConditions, JoinAnd, Eval, Bind;
    hide Decided, Holds, MeetsOptions, ParseOr, Conjunction, Tests, Pass;
    MeantIsHandled(find.filters, now);
    MemoQueryReads(find, now);
    var first, filters := [Test(Fixed("1 = 1"))], FilterConditions(find.filters, now);
    var options := Tests(OptionClauses(find));
    BuiltQueryIsBound(PostgreSQL, q,
                      [FixedClause("1 = 1")] + FilterClauses(find.filters, now).value + OptionClauses(find));
    ConjunctionIsYes(first + filters + options, r);
    FirstIsYes(r);
    FiltersPass(find.filters, r, now);
    TestsPass(OptionClauses(find), r);
    OptionsPass(find, r);
    assert forall c :: c in first + filters + options <==> c in first || c in filters || c in options;
  }

  lemma FirstIsYes(r: Row)
    ensures Eval(Test(Fixed("1 = 1")), r) == Yes
  {
  }

  // ---------- Relations ----------

  datatype Relation = Relation(memoID: int, relatedMemoID: int, relationType: string)

  predicate MeetsRelation(find: FindMemoRelation, rel: Relation) {
    && (find.memoID.Some? ==> rel.memoID == find.memoID.value)
    && (find.relatedMemoID.Some? ==> rel.relatedMemoID == find.relatedMemoID.value)
    && (find.relationType.Some? ==> rel.relationType == find.relationType.value)
  }

  function RelationColumn(rel: Relation, name: string): Option<Value> {
    match name
    case "memo_id" => Some(VInt(rel.memoID))
    case "related_memo_id" => Some(VInt(rel.relatedMemoID))
    case "type" => Some(VString(rel.relationType))
    case _ => None
  }

  /** A conjunction on a relation; a subquery lists the memos of which its condition is true. */
  ghost predicate TrueOf(c: Cond<Arg>, rel: Relation, memos: seq<Row>) {
    match c
    case Test(Field(name, arg)) => RelationColumn(rel, name) == Some(ArgValue(arg))
    case Test(Fixed(text)) => text == "1 = 1" || text == "TRUE"
    case AndAlso(x, y) => TrueOf(x, rel, memos) && TrueOf(y, rel, memos)
    case Among(name, of) => exists m <- memos :: RelationColumn(rel, name) == Some(VInt(m.id)) && Eval(of, m) == Yes
    case _ => false
  }

  lemma {:induction false} ConjunctionIsTrue(conds: seq<Cond<Arg>>, rel: Relation, memos: seq<Row>)
    requires conds != []
    ensures TrueOf(Conjunction(conds), rel, memos) <==> forall c <- conds :: TrueOf(c, rel, memos)
  {
    hide Eval, RelationColumn;
    var n := |conds| - 1;
    assert conds[n] in conds;
    if n > 0 {
      ConjunctionIsTrue(conds[..n], rel, memos);
      assert conds == conds[..n] + [conds[n]];
      assert forall c :: c in conds <==> c in conds[..n] || c == conds[n];
    } else {
      assert forall c :: c in conds <==> c == conds[0];
    }
  }

  ghost predicate AllTrue(conds: seq<Cond<Arg>>, rel: Relation, memos: seq<Row>) {
    forall c <- conds :: TrueOf(c, rel, memos)
  }

  lemma FieldIsTrue(name: string, v: Option<Value>, rel: Relation, memos: seq<Row>)
    ensures AllLeaves(FieldClause(name, v))
    ensures AllTrue(Tests(FieldClause(name, v)), rel, memos) <==>
            v.None? || RelationColumn(rel, name) == v
  {
    if v.Some? {
      var c: Cond<Arg> := Test(Field(name, Plain(v.value)));
      assert Tests(FieldClause(name, v)) == [c] && c in [c];
      assert TrueOf(c, rel, memos) <==> RelationColumn(rel, name) == v;
    }
  }

  lemma BothTrue(a: seq<Text<Arg>>, b: seq<Text<Arg>>, rel: Relation, memos: seq<Row>)
    requires AllLeaves(a) && AllLeaves(b)
    ensures AllLeaves(a + b)
    ensures AllTrue(Tests(a + b), rel, memos) <==> AllTrue(Tests(a), rel, memos) && AllTrue(Tests(b), rel, memos)
  {
    hide TrueOf;
    assert Tests(a + b) == Tests(a) + Tests(b);
  }

  lemma RelationOptions(d: Dialect, find: FindMemoRelation, rel: Relation, memos: seq<Row>)
    ensures AllLeaves(RelationClauses(d, find))
    ensures AllTrue(Tests(RelationClauses(d, find)), rel, memos) <==> MeetsRelation(find, rel)
  {
    hide AllLeaves, FieldClause, Tests, TrueOf, AllTrue;
    var first := [FixedClause(if d == SQLite then "TRUE" else "1 = 1")];
    var id := FieldClause("memo_id", IntValue(find.memoID));
    var related := FieldClause("related_memo_id", IntValue(find.relatedMemoID));
    var kind := FieldClause("type", StringValueOf(find.relationType));
    FirstIsTrue(d, rel, memos);
    FieldIsTrue("memo_id", IntValue(find.memoID), rel, memos);
    FieldIsTrue("related_memo_id", IntValue(find.relatedMemoID), rel, memos);
    FieldIsTrue("type", StringValueOf(find.relationType), rel, memos);
    BothTrue(first, id, rel, memos);
    BothTrue(first + id, related, rel, memos);
    BothTrue(first + id + related, kind, rel, memos);
  }

  lemma FirstIsTrue(d: Dialect, rel: Relation, memos: seq<Row>)
    ensures var first := [FixedClause(if d == SQLite then "TRUE" else "1 = 1")];
            AllLeaves(first) && AllTrue(Tests(first), rel, memos)
  {
  }

  /** A memo of the ID is there that satisfies the filter, which it leaves decided. */
  ghost predicate Satisfies(d: Dialect, e: Expr, id: int, memos: seq<Row>, now: int) {
    exists m <- memos :: m.id == id && Decided(d, e, m, now) && Holds(e, m, now)
  }

  lemma SubqueryIsTrue(d: Dialect, e: Expr, rel: Relation, memos: seq<Row>, now: int)
    requires Handled(e) && Translate(MemoConfig(d), e, now).Ok? && (d == SQLite || !TestsTags(e))
    ensures var s := Translate(MemoConfig(d), e, now).value;
            && Complete(s)
            && (TrueOf(Among("memo_id", Structure(s)), rel, memos) <==> Satisfies(d, e, rel.memoID, memos, now))
            && (TrueOf(Among("related_memo_id", Structure(s)), rel, memos) <==>
                Satisfies(d, e, rel.relatedMemoID, memos, now))
  {
    hide Handled, TestsTags, Translate, Eval, Structure, Decided, Holds, Complete;
    var s := Translate(MemoConfig(d), e, now).value;
    HandledIsComplete(MemoConfig(d), e, now);
    forall m <- memos ensures Eval(Structure(s), m) == Yes <==> Decided(d, e, m, now) && Holds(e, m, now) {
      FilterValue(d, e, m, now);
    }
    assert forall m: Row :: RelationColumn(rel, "memo_id") == Some(VInt(m.id)) <==> m.id == rel.memoID;
    assert forall m: Row :: RelationColumn(rel, "related_memo_id") == Some(VInt(m.id)) <==> m.id == rel.relatedMemoID;
  }

  /**
   The relations that the bound text of `ListMemoRelations` with a filter selects: those that meet the find
   options, between two memos that satisfy the filter.
   */
  lemma RelationsSelected(d: Dialect, find: FindMemoRelation, e: Expr, rel: Relation, memos: seq<Row>, now: int)
    requires Handled(e) && IsMemoFilter(e, now) && (d == SQLite || !TestsTags(e))
    ensures Translate(MemoConfig(d), e, now).Ok?
    ensures var parse := ParseOr(JoinAnd(RelationClauses(d, find)
                                         + SpliceClauses(Translate(MemoConfig(d), e, now).value)));
            && parse.Parsed? && parse.rest == []
            && (TrueOf(parse.cond, rel, memos) <==>
                && MeetsRelation(find, rel)
                && Satisfies(d, e, rel.memoID, memos, now) && Satisfies(d, e, rel.relatedMemoID, memos, now))
  {
    hide Handled, IsMemoFilter, TestsTags, Translate, Structure, Complete, ParseOr, JoinAnd, TrueOf, Satisfies;
    hide RelationClauses, SpliceClauses, Conjunction, AllLeaves, Tests, MeetsRelation;
    AcceptedExactly(d, e, now);
    RelationQueryReads(d, find, e, now);
    RelationOptions(d, find, rel, memos);
    SubqueryIsTrue(d, e, rel, memos, now);
    var c := Structure(Translate(MemoConfig(d), e, now).value);
    var options, splices := Tests(RelationClauses(d, find)), [Among("memo_id", c), Among("related_memo_id", c)];
    ConjunctionIsTrue(options + splices, rel, memos);
    assert forall x :: x in options + splices <==> x in options || x == splices[0] || x == splices[1];
  }
}
