/**
 What a filter means: CEL on the memo, with two truth values, against the database on its row, with three.
 A property or tag list that the payload does not have is NULL in SQL.
 */
module FilterMeaning {
  import opened Wrappers
  import opened FilterSql
  import opened FilterSyntax
  import opened FilterExpr
  import opened FilterTranslate
  import opened FilterCel

  // ---------- SQL ----------

  function ColumnValue(r: Row, c: Column): Value {
    match c
    case CreatorID => VInt(r.creatorID)
    case CreatedTs => VInt(r.createdTs)
    case UpdatedTs => VInt(r.updatedTs)
    case Visibility => VString(r.visibility)
    case Content => VString(r.content)
    case Pinned => VBool(r.pinned)
    case ContentID => VString(r.contentID)
    case MemoID => VString(r.memoID)
    case Username => VString(r.username)
  }

  function CompareInts(a: int, op: Comparison, b: int): bool {
    match op
    case Eq => a == b
    case Ne => a != b
    case Lt => a < b
    case Gt => a > b
    case Le => a <= b
    case Ge => a >= b
  }

  /** Integers are ordered; other values are only compared for equality. */
  function CompareValues(a: Value, op: Comparison, b: Value): bool {
    if a.VInt? && b.VInt? then CompareInts(a.i, op, b.i) else if op == Ne then a != b else op == Eq && a == b
  }

  datatype Truth = Yes | No | Unknown

  function Known(b: bool): Truth { if b then Yes else No }

  function Not3(a: Truth): Truth {
    match a case Yes => No case No => Yes case Unknown => Unknown
  }

  function And3(a: Truth, b: Truth): Truth {
    if a == No || b == No then No else if a == Yes && b == Yes then Yes else Unknown
  }

  function Or3(a: Truth, b: Truth): Truth {
    if a == Yes || b == Yes then Yes else if a == No && b == No then No else Unknown
  }

  function ArgValue(a: Arg): Value {
    match a
    case Plain(v) => v
    case Flag(b) => VBool(b)   // booleans are 1 and 0 in SQLite
    case Quoted(v) => v
    case LikeQuoted(v) => v
    case LikeInside(v) => v
  }

  function EvalAtom(a: Atom<Arg>, r: Row): Truth {
    match a
    case Compare(c, op, arg) => Known(CompareValues(ColumnValue(r, c), op, ArgValue(arg)))
    case TagCount(op, arg) => Known(CompareValues(VInt(TagCountOf(r)), op, ArgValue(arg)))
    case TagsMatch(arg) => if r.tags.None? then Unknown else Known(r.tagsLike(arg))
    case ContentMatches(arg) => Known(r.contentLike(arg))
    case InList(c, args) => Known(exists arg <- args :: ColumnValue(r, c) == ArgValue(arg))
    case PinnedIsTrue => Known(r.pinned)
    case PropertyIsTrue(p) => Known(p in r.properties && r.properties[p])
    case PropertyCompare(p, op, b) => PropertyTest(r, p, op, b)
    case PropertyParam(p, op, arg) => PropertyTest(r, p, op, ArgValue(arg) == VBool(true))
    case Field(name, arg) => Known(OptionColumn(r, name) == Some(ArgValue(arg)))
    case FieldIn(name, args) => Known(exists arg <- args :: OptionColumn(r, name) == Some(ArgValue(arg)))
    case Fixed(text) => FixedValue(r, text)
  }

  /** The columns by the names that query builders have for them. */
  function OptionColumn(r: Row, name: string): Option<Value> {
    match name
    case "memo.id" => Some(VInt(r.id))
    case "memo.uid" => Some(VString(r.uid))
    case "memo.creator_id" => Some(VInt(r.creatorID))
    case "memo.row_status" => Some(VString(r.rowStatus))
    case "memo.visibility" => Some(VString(r.visibility))
    case _ => None
  }

  function FixedValue(r: Row, text: string): Truth {
    match text
    case "1 = 1" => Yes
    case "memo_relation.related_memo_id IS NULL" => Known(!r.isComment)
    case _ => Unknown
  }

  /** `=` and `!=` with NULL are NULL. */
  function PropertyTest(r: Row, p: Property, op: Comparison, b: bool): Truth {
    if p !in r.properties then Unknown else Known((r.properties[p] == b) == (op == Eq))
  }

  function Eval(c: Cond<Arg>, r: Row): Truth {
    match c
    case Test(a) => EvalAtom(a, r)
    case Neither(x) => Not3(Eval(x, r))
    case AndAlso(x, y) => And3(Eval(x, r), Eval(y, r))
    case OrElse(x, y) => Or3(Eval(x, r), Eval(y, r))
    case Among(_, _) => Unknown   // a condition on relations, not on memos
  }

  // ---------- The names of the source, and CEL's ----------

  lemma ComparisonAgrees(fn: string, a: Value, b: Value)
    ensures fn in COMPARISONS <==> IsCelComparison(fn)
    ensures IsEquality(ComparisonOf(fn)) <==> IsEqualityTest(fn) || !IsCelComparison(fn)
    ensures IsCelComparison(fn) ==> CompareValues(a, ComparisonOf(fn), b) == CelCompare(fn, a, b)
  {
  }

  lemma PropertyAgrees(name: string)
    ensures PropertyOf(name) == CelProperty(name)
  {
  }

  lemma ValueAgrees(e: Expr, now: int)
    ensures match CelValue(e, now)
            case Some(v) => GetExprValue(e, now) == Ok(v)
            case None => GetExprValue(e, now).Err?
  {
    hide Wrap64;
    FoldsArithmetic(e, now);
    if IsArithmetic(e) {
      FoldingWrapsOnce(e, now);
    }
  }

  lemma ConstAgrees(e: Expr)
    ensures match CelConst(e)
            case Some(v) => GetConstValue(e) == Ok(v)
            case None => GetConstValue(e).Err?
  {
  }

  lemma {:induction false} ConstsAgree(es: seq<Expr>)
    ensures ConstValues(es).Ok? <==> forall x <- es :: CelConst(x).Some?
    ensures ConstValues(es).Ok? ==>
              && |ConstValues(es).value| == |es|
              && forall i :: 0 <= i < |es| ==> CelConst(es[i]) == Some(ConstValues(es).value[i])
  {
    if es != [] {
      var n := |es| - 1;
      ConstsAgree(es[..n]);
      ConstAgrees(es[n]);
      assert es == es[..n] + [es[n]];
      assert es[n] in es;
      assert forall x :: x in es <==> x in es[..n] || x == es[n];
    }
  }

  // ---------- Which filters are accepted ----------

  lemma FieldAccepted(d: Dialect, name: string, fn: string, v: Value)
    requires IsCelComparison(fn)
    ensures name in MEMO_FIELDS && TranslateField(MemoConfig(d), name, ComparisonOf(fn), v).Ok? <==>
            Comparable(name, fn, v)
  {
    hide TranslateBoolean, ComparisonOf;
    ComparisonAgrees(fn, v, v);
  }

  lemma ComparisonAccepted(d: Dialect, e: Expr, now: int)
    requires e.CallExpr? && IsCelComparison(e.fn)
    ensures TranslateComparison(MemoConfig(d), e, now).Ok? <==> IsMemoFilter(e, now)
  {
    hide TranslateField, ComparisonOf, Comparable, GetExprValue;
    if |e.args| == 2 {
      ValueAgrees(e.args[1], now);
      if e.args[0].IdentExpr? && CelValue(e.args[1], now).Some? {
        FieldAccepted(d, e.args[0].name, e.fn, CelValue(e.args[1], now).value);
      }
    }
  }

  lemma MembershipAccepted(d: Dialect, e: Expr, now: int)
    requires e.CallExpr? && e.fn == "@in"
    ensures TranslateIn(MemoConfig(d), e).Ok? <==> IsMemoFilter(e, now)
  {
    if |e.args| == 2 {
      ConstAgrees(e.args[0]);
      ConstsAgree(Elements(e.args[1]));
    }
  }

  /** In every dialect a filter is accepted exactly when each of its leaves can be asked of a memo. */
  lemma {:induction false} AcceptedExactly(d: Dialect, e: Expr, now: int)
    ensures Translate(MemoConfig(d), e, now).Ok? <==> IsMemoFilter(e, now)
  {
    hide TranslateComparison, TranslateIn;
    if e.CallExpr? {
      ComparisonAgrees(e.fn, VInt(0), VInt(0));
      if e.fn == "_||_" || e.fn == "_&&_" {
        if |e.args| == 2 {
          AcceptedExactly(d, e.args[0], now);
          AcceptedExactly(d, e.args[1], now);
        }
      } else if e.fn == "!_" {
        if |e.args| == 1 {
          AcceptedExactly(d, e.args[0], now);
        }
      } else if IsCelComparison(e.fn) {
        ComparisonAccepted(d, e, now);
      } else if e.fn == "@in" {
        MembershipAccepted(d, e, now);
      } else if |e.args| == 1 {
        ConstAgrees(e.args[0]);
      }
    } else if e.IdentExpr? {
      PropertyAgrees(e.name);
    }
  }

  // ---------- When the condition is not NULL ----------

  /** `... in tags` or `tag in [...]`. */
  predicate IsTagTest(e: Expr) {
    && e.CallExpr? && e.fn == "@in" && |e.args| == 2
    && (e.args[1].IdentExpr? || e.args[0] == IdentExpr("tag"))
  }

  /**
   The property that a test compares with a boolean, which is NULL without the property. IS TRUE is not; it
   stands for a property by itself, except in MySQL, and for comparisons in SQLite, except of `has_task_list`.
   */
  function Compared(d: Dialect, e: Expr): Option<Property> {
    match e
    case IdentExpr(name) => if d == MySQL then CelProperty(name) else None
    case CallExpr(fn, _, args) =>
      if IsCelComparison(fn) && |args| == 2 && args[0].IdentExpr? && (d == SQLite ==> args[0].name == "has_task_list")
      then CelProperty(args[0].name)
      else None
    case _ => None
  }

  /** The payload has what a leaf reads. */
  predicate LeafDecided(d: Dialect, e: Expr, r: Row) {
    && (IsTagTest(e) ==> r.tags.Some?)
    && (Compared(d, e).Some? ==> Compared(d, e).value in r.properties)
  }

  /** The row decides the filter: a conjunction or disjunction by both operands, or by one that settles it. */
  predicate Decided(d: Dialect, e: Expr, r: Row, now: int) {
    match e
    case CallExpr(fn, _, args) =>
      if fn == "!_" then |args| == 1 ==> Decided(d, args[0], r, now)
      else if (fn == "_&&_" || fn == "_||_") && |args| == 2 then
        var a, b := Decided(d, args[0], r, now), Decided(d, args[1], r, now);
        var settles := fn == "_||_";
        || (a && b) || (a && Holds(args[0], r, now) == settles) || (b && Holds(args[1], r, now) == settles)
      else LeafDecided(d, e, r)
    case _ => LeafDecided(d, e, r)
  }

  /** What the database makes of a test that is NULL unless the row decides it. */
  function TestValue(decided: bool, holds: bool): Truth {
    if decided then Known(holds) else Unknown
  }

  // ---------- Leaves ----------

  lemma IdentifierValue(d: Dialect, name: string, r: Row)
    requires TranslateIdentifier(MemoConfig(d), name).Ok?
    ensures var s := TranslateIdentifier(MemoConfig(d), name).value;
            && Complete(s)
            && Eval(Structure(s), r) ==
               TestValue(LeafDecided(d, IdentExpr(name), r), FieldValue(r, name) == VBool(true))
  {
    PropertyAgrees(name);
  }

  /** A comparison of a property is NULL without it where the dialect compares; IS TRUE never is. */
  lemma PropertyValue(d: Dialect, p: Property, op: Comparison, b: bool, r: Row)
    requires IsEquality(op)
    ensures var s := TranslateBoolean(d, p, op, b);
            && Complete(s)
            && Eval(Structure(s), r) ==
               TestValue((d == SQLite && p != HasTaskList) || p in r.properties, (HasProperty(r, p) == b) == (op == Eq))
  {
  }

  /** A comparison of a column is never NULL, and right. */
  lemma ColumnTest(d: Dialect, name: string, op: Comparison, v: Value, r: Row)
    requires TranslateField(MemoConfig(d), name, op, v).Ok? && CelProperty(name).None?
    ensures var s := TranslateField(MemoConfig(d), name, op, v).value;
            Complete(s) && Eval(Structure(s), r) == Known(CompareValues(FieldValue(r, name), op, v))
  {
    PropertyAgrees(name);
  }

  lemma FieldTest(d: Dialect, name: string, op: Comparison, v: Value, r: Row)
    requires TranslateField(MemoConfig(d), name, op, v).Ok?
    ensures var s := TranslateField(MemoConfig(d), name, op, v).value;
            var p := CelProperty(name);
            && Complete(s)
            && Eval(Structure(s), r) == TestValue(
                 p.Some? && (d == SQLite ==> name == "has_task_list") ==> p.value in r.properties,
                 CompareValues(FieldValue(r, name), op, v))
  {
    PropertyAgrees(name);
    if CelProperty(name).None? {
      ColumnTest(d, name, op, v, r);
    } else {
      var p := CelProperty(name).value;
      assert TranslateField(MemoConfig(d), name, op, v) == Ok(TranslateBoolean(d, p, op, v.b)) && IsEquality(op);
      assert FieldValue(r, name) == VBool(HasProperty(r, p));
      PropertyValue(d, p, op, v.b, r);
    }
  }

  lemma ComparisonValue(d: Dialect, e: Expr, r: Row, now: int)
    requires e.CallExpr? && IsCelComparison(e.fn) && TranslateComparison(MemoConfig(d), e, now).Ok?
    ensures var s := TranslateComparison(MemoConfig(d), e, now).value;
            && Complete(s)
            && Eval(Structure(s), r) == TestValue(Decided(d, e, r, now), Holds(e, r, now))
  {
    hide TranslateField, FieldValue, ComparisonOf, CelProperty, GetExprValue, CelValue, CompareValues, CelCompare;
    ValueAgrees(e.args[1], now);
    var v := CelValue(e.args[1], now).value;
    if IsTagCount(e.args[0]) {
      ComparisonAgrees(e.fn, VInt(TagCountOf(r)), v);
    } else {
      var name := e.args[0].name;
      ComparisonAgrees(e.fn, FieldValue(r, name), v);
      FieldTest(d, name, ComparisonOf(e.fn), v, r);
    }
  }

  /** A list of tag tests: NULL without a tag list, otherwise true when one of the tags is there. */
  lemma {:induction false} TagListValue(vs: seq<Value>, r: Row)
    requires vs != []
    ensures Eval(Chain(TagAtoms(SQLite, vs)), r) == TestValue(r.tags.Some?, exists v <- vs :: HasTag(r, v))
  {
    var n := |vs| - 1;
    var atoms := TagAtoms(SQLite, vs);
    assert vs[n] in vs;
    if n > 0 {
      TagListValue(vs[..n], r);
      assert atoms[..n] == TagAtoms(SQLite, vs[..n]);
      assert vs == vs[..n] + [vs[n]];
      assert forall v :: v in vs <==> v in vs[..n] || v == vs[n];
    } else {
      assert forall v :: v in vs <==> v == vs[0];
    }
  }

  lemma InListValue(c: Column, vs: seq<Value>, r: Row)
    ensures EvalAtom(InList(c, PlainArgs(vs)), r) == Known(ColumnValue(r, c) in vs)
  {
    var args := PlainArgs(vs);
    if v :| v in vs && v == ColumnValue(r, c) {
      var i :| 0 <= i < |vs| && vs[i] == v;
      assert args[i] in args;
    }
    if a :| a in args && ColumnValue(r, c) == ArgValue(a) {
      var i :| 0 <= i < |args| && args[i] == a;
      assert vs[i] in vs;
    }
  }

  /** A list of constants, once as expressions and once as their values. */
  lemma MemberOfConsts(name: string, es: seq<Expr>, vs: seq<Value>, r: Row)
    requires |es| == |vs| && forall i :: 0 <= i < |es| ==> CelConst(es[i]) == Some(vs[i])
    ensures (exists x <- es :: CelConst(x).Some? && IsOneOf(name, CelConst(x).value, r)) <==>
            (exists v <- vs :: IsOneOf(name, v, r))
  {
    hide IsOneOf, CelConst;
    if x :| x in es && CelConst(x).Some? && IsOneOf(name, CelConst(x).value, r) {
      var i :| 0 <= i < |es| && es[i] == x;
      assert vs[i] in vs;
    }
    if v :| v in vs && IsOneOf(name, v, r) {
      var i :| 0 <= i < |vs| && vs[i] == v;
      assert es[i] in es;
    }
  }

  lemma OneTag(vs: seq<Value>)
    requires vs != []
    ensures Complete(AnyOf(TagAtoms(SQLite, vs)))
    ensures Structure(AnyOf(TagAtoms(SQLite, vs))) == Chain(TagAtoms(SQLite, vs))
  {
  }

  lemma ElementValue(d: Dialect, e: Expr, r: Row, now: int)
    requires e.CallExpr? && e.fn == "@in" && |e.args| == 2 && e.args[1].IdentExpr?
    requires d == SQLite && TranslateIn(MemoConfig(d), e).Ok?
    ensures var s := TranslateIn(MemoConfig(d), e).value;
            && Complete(s)
            && Eval(Structure(s), r) == TestValue(Decided(d, e, r, now), Holds(e, r, now))
  {
    ConstAgrees(e.args[0]);
  }

  lemma ListValue(d: Dialect, name: string, es: seq<Expr>, r: Row)
    requires es != [] && (d == SQLite || name != "tag")
    requires TranslateIn(MemoConfig(d), CallExpr("@in", None, [IdentExpr(name), ListExpr(es)])).Ok?
    ensures var s := TranslateIn(MemoConfig(d), CallExpr("@in", None, [IdentExpr(name), ListExpr(es)])).value;
            && Complete(s)
            && Eval(Structure(s), r) ==
               TestValue(name == "tag" ==> r.tags.Some?, IsMember(IdentExpr(name), ListExpr(es), r))
  {
    hide ConstValues, TagAtoms, CelConst, HasTag;
    var vs := ConstValues(es).value;
    ConstsAgree(es);
    MemberOfConsts(name, es, vs, r);
    if name == "tag" {
      TagListValue(vs, r);
      OneTag(vs);
    } else {
      InListValue(InColumn(name).value, vs, r);
    }
  }

  lemma InValue(d: Dialect, e: Expr, r: Row, now: int)
    requires e.CallExpr? && e.fn == "@in" && Handled(e) && TranslateIn(MemoConfig(d), e).Ok?
    requires d == SQLite || !IsTagTest(e)
    ensures var s := TranslateIn(MemoConfig(d), e).value;
            && Complete(s)
            && Eval(Structure(s), r) == TestValue(Decided(d, e, r, now), Holds(e, r, now))
  {
    hide Eval, Structure, IsMember;
    if e.args[1].IdentExpr? {
      ElementValue(d, e, r, now);
    } else {
      var name, es := e.args[0].name, e.args[1].elements;
      ListValue(d, name, es, r);
      assert TranslateIn(MemoConfig(d), e) ==
             TranslateIn(MemoConfig(d), CallExpr("@in", None, [IdentExpr(name), ListExpr(es)]));
    }
  }

  // ---------- Filters ----------

  predicate TestsTags(e: Expr) {
    IsTagTest(e) || (e.CallExpr? && exists a <- e.args :: TestsTags(a))
  }

  /**
   On every row a handled filter is NULL unless the row decides it, and then it is what CEL says. MySQL and
   PostgreSQL compare tags as JSON, of which the oracle says nothing.
   */
  lemma {:induction false} FilterValue(d: Dialect, e: Expr, r: Row, now: int)
    requires Handled(e) && Translate(MemoConfig(d), e, now).Ok? && (d == SQLite || !TestsTags(e))
    ensures var s := Translate(MemoConfig(d), e, now).value;
            && Complete(s)
            && Eval(Structure(s), r) == TestValue(Decided(d, e, r, now), Holds(e, r, now))
  {
    hide TranslateComparison, TranslateIn, TranslateIdentifier, FieldValue, Compared, IsMember, ComparisonHolds;
    match e
    case IdentExpr(name) => IdentifierValue(d, name, r);
    case CallExpr(fn, target, args) =>
      ComparisonAgrees(fn, VInt(0), VInt(0));
      if fn == "_||_" || fn == "_&&_" {
        FilterValue(d, args[0], r, now);
        FilterValue(d, args[1], r, now);
      } else if fn == "!_" {
        assert args[0] in args;
        FilterValue(d, args[0], r, now);
      } else if IsCelComparison(fn) {
        ComparisonValue(d, e, r, now);
      } else if fn == "@in" {
        InValue(d, e, r, now);
      } else {
        ContainsValue(d, e, r, now);
      }
    case _ =>
  }

  lemma ContainsValue(d: Dialect, e: Expr, r: Row, now: int)
    requires e.CallExpr? && e.fn == "contains" && TranslateContains(MemoConfig(d), e).Ok?
    ensures var s := TranslateContains(MemoConfig(d), e).value;
            && Complete(s)
            && Eval(Structure(s), r) == TestValue(Decided(d, e, r, now), Holds(e, r, now))
  {
    ConstAgrees(e.args[0]);
  }

  /**
   The filter as the database runs it: the numbered text of the translation with its arguments bound, read
   with the usual precedence. It never selects a memo that CEL does not, and it selects exactly those that
   CEL does unless the memo leaves a filter undecided that holds.
   */
  lemma MeaningPreserved(d: Dialect, e: Expr, r: Row, now: int)
    requires Handled(e) && IsMemoFilter(e, now) && (d == SQLite || !TestsTags(e))
    ensures Translate(MemoConfig(d), e, now).Ok?
    ensures var text := Show(Translate(MemoConfig(d), e, now).value);
            var bound := Bind(Number(d, text, 1), ArgsOf(text));
            && bound.Some? && ParseOr(bound.value).Parsed? && ParseOr(bound.value).rest == []
            && var selected := Eval(ParseOr(bound.value).cond, r) == Yes;
               && (selected ==> Holds(e, r, now))
               && ((selected <==> Holds(e, r, now)) <==> Decided(d, e, r, now) || !Holds(e, r, now))
  {
    hide Translate, Show, Eval, Holds, Bind, Number, ArgsOf, ParseOr, Decided, IsMemoFilter, TestsTags;
    AcceptedExactly(d, e, now);
    var s := Translate(MemoConfig(d), e, now).value;
    BindOfNumber(d, Show(s));
    FilterValue(d, e, r, now);
    ParseOfShow(s);
  }

  /** No test that a missing property makes NULL, and every tag test under an even number of negations. */
  predicate NeverMissed(d: Dialect, e: Expr, positive: bool) {
    match e
    case CallExpr(fn, _, args) =>
      if fn == "!_" then forall a <- args :: NeverMissed(d, a, !positive)
      else if fn == "_&&_" || fn == "_||_" then forall a <- args :: NeverMissed(d, a, positive)
      else if IsTagTest(e) then positive
      else Compared(d, e).None?
    case _ => Compared(d, e).None?
  }

  /** Such a filter is right on every memo: where it is undecided it does not hold. */
  lemma {:induction false} NeverMissedIsRight(d: Dialect, e: Expr, r: Row, now: int, positive: bool)
    requires Handled(e) && IsMemoFilter(e, now) && NeverMissed(d, e, positive)
    ensures Decided(d, e, r, now) || Holds(e, r, now) != positive
  {
    if e.CallExpr? && (e.fn == "_&&_" || e.fn == "_||_") {
      NeverMissedIsRight(d, e.args[0], r, now, positive);
      NeverMissedIsRight(d, e.args[1], r, now, positive);
    } else if e.CallExpr? && e.fn == "!_" {
      assert e.args[0] in e.args;
      NeverMissedIsRight(d, e.args[0], r, now, !positive);
    }
  }

  // ---------- Where they differ ----------

  /** A memo without a tag list satisfies `!("x" in tags)` in CEL, but is not found. */
  lemma NegatedTagIsMissed(v: string, r: Row, now: int)
    requires r.tags.None?
    ensures var e := CallExpr("!_", None, [CallExpr("@in", None, [ConstExpr(StringValue(v)), IdentExpr("tags")])]);
            && IsMemoFilter(e, now) && Translate(MemoConfig(SQLite), e, now).Ok?
            && Holds(e, r, now) && Complete(Translate(MemoConfig(SQLite), e, now).value)
            && Eval(Structure(Translate(MemoConfig(SQLite), e, now).value), r) == Unknown
  {
    var test := CallExpr("@in", None, [ConstExpr(StringValue(v)), IdentExpr("tags")]);
    var e := CallExpr("!_", None, [test]);
    assert IsMemoFilter(test, now) && Handled(test) && !Holds(test, r, now);
    assert IsTagTest(test) && !LeafDecided(SQLite, test, r);
    assert !Decided(SQLite, test, r, now);
    AcceptedExactly(SQLite, e, now);
    FilterValue(SQLite, e, r, now);
  }

  /** Another operand can decide: a pinned memo without the property is found by `has_task_list == false || pinned`. */
  lemma OtherOperandDecides(r: Row, now: int)
    requires HasTaskList !in r.properties && r.pinned
    ensures var test := CallExpr("_==_", None, [IdentExpr("has_task_list"), ConstExpr(BoolValue(false))]);
            var e := CallExpr("_||_", None, [test, IdentExpr("pinned")]);
            && IsMemoFilter(e, now) && Translate(MemoConfig(SQLite), e, now).Ok?
            && Holds(e, r, now) && Decided(SQLite, e, r, now) && !Decided(SQLite, test, r, now)
            && Complete(Translate(MemoConfig(SQLite), e, now).value)
            && Eval(Structure(Translate(MemoConfig(SQLite), e, now).value), r) == Yes
  {
    hide Eval, Structure, Translate;
    var test := CallExpr("_==_", None, [IdentExpr("has_task_list"), ConstExpr(BoolValue(false))]);
    var pinned := IdentExpr("pinned");
    var e := CallExpr("_||_", None, [test, pinned]);
    assert CelValue(test.args[1], now) == Some(VBool(false));
    assert IsMemoFilter(test, now) && IsMemoFilter(pinned, now);
    assert Handled(test) && Handled(pinned) && Compared(SQLite, test) == Some(HasTaskList);
    assert Holds(pinned, r, now) && Decided(SQLite, pinned, r, now);
    AcceptedExactly(SQLite, e, now);
    FilterValue(SQLite, e, r, now);
  }

  /** A memo whose payload has no properties satisfies `has_task_list == false` in CEL, but is found in no database. */
  lemma AbsentTaskListIsMissed(d: Dialect, r: Row, now: int)
    requires HasTaskList !in r.properties
    ensures var e := CallExpr("_==_", None, [IdentExpr("has_task_list"), ConstExpr(BoolValue(false))]);
            && IsMemoFilter(e, now) && Translate(MemoConfig(d), e, now).Ok?
            && Holds(e, r, now) && Complete(Translate(MemoConfig(d), e, now).value)
            && Eval(Structure(Translate(MemoConfig(d), e, now).value), r) == Unknown
  {
    hide Eval, Structure, Translate;
    var e := CallExpr("_==_", None, [IdentExpr("has_task_list"), ConstExpr(BoolValue(false))]);
    assert CelValue(e.args[1], now) == Some(VBool(false));
    assert Compared(d, e) == Some(HasTaskList);
    assert FieldValue(r, "has_task_list") == VBool(false);
    AcceptedExactly(d, e, now);
    FilterValue(d, e, r, now);
  }
}
