/** What `plugin/filter/common_converter.go` translates an expression to, apart from placeholders. */
module FilterTranslate {
  import opened Wrappers
  import opened FilterSql
  import opened FilterSyntax
  import opened FilterExpr

  datatype Entity = MemoEntity | UserEntity

  datatype Config = Config(dialect: Dialect, allowedFields: seq<string>, entity: Entity)

  const MEMO_FIELDS := [
    "creator_id", "created_ts", "updated_ts", "visibility", "content", "pinned",
    "has_task_list", "has_link", "has_code", "has_incomplete_tasks"]

  function MemoConfig(d: Dialect): Config { Config(d, MEMO_FIELDS, MemoEntity) }

  const COMPARISONS := {"_==_", "_!=_", "_<_", "_>_", "_<=_", "_>=_"}

  function ComparisonOf(fn: string): Comparison {
    match fn
    case "_==_" => Eq
    case "_!=_" => Ne
    case "_<_" => Lt
    case "_>_" => Gt
    case "_<=_" => Le
    case "_>=_" => Ge
    case _ => Eq
  }

  predicate IsEquality(op: Comparison) {
    op == Eq || op == Ne
  }

  function PropertyOf(name: string): Option<Property> {
    match name
    case "has_task_list" => Some(HasTaskList)
    case "has_link" => Some(HasLink)
    case "has_code" => Some(HasCode)
    case "has_incomplete_tasks" => Some(HasIncompleteTasks)
    case _ => None
  }

  // ---------- Leaves ----------

  function TranslateIdentifier(cfg: Config, name: string): Result<Sql<Arg>, FilterError> {
    if cfg.entity != MemoEntity then Err(InvalidIdentifier(name))
    else if name == "pinned" then Ok(Single(PinnedIsTrue))
    else
      match PropertyOf(name)
      case None => Err(InvalidIdentifier(name))
      case Some(p) => Ok(Single(BooleanCheck(cfg.dialect, p)))
  }

  /** `GetBooleanCheck` of the dialect. */
  function BooleanCheck(d: Dialect, p: Property): Atom<Arg> {
    if d == MySQL then PropertyCompare(p, Eq, true) else PropertyIsTrue(p)
  }

  function TranslateBoolean(d: Dialect, p: Property, op: Comparison, b: bool): Sql<Arg> {
    match d
    case SQLite =>
      if p == HasTaskList then Single(PropertyCompare(p, op, b))
      else if (op == Eq) == b then Single(PropertyIsTrue(p))
      else Negation(Single(PropertyIsTrue(p)))
    case MySQL => Single(PropertyCompare(p, op, b))
    case PostgreSQL => Single(PropertyParam(p, op, Plain(VBool(b))))
  }

  /** `column op value`, for an operator and a value that suit the column. */
  function TranslateField(cfg: Config, name: string, op: Comparison, v: Value): Result<Sql<Arg>, FilterError> {
    match (cfg.entity, name)
    case (MemoEntity, "created_ts") => TranslateTimestamp(CreatedTs, name, op, v)
    case (MemoEntity, "updated_ts") => TranslateTimestamp(UpdatedTs, name, op, v)
    case (MemoEntity, "visibility") => TranslateString(Visibility, name, op, v)
    case (MemoEntity, "content") => TranslateString(Content, name, op, v)
    case (MemoEntity, "creator_id") =>
      if !IsEquality(op) then Err(InvalidOperator(name))
      else if !v.VInt? then Err(InvalidValue(name))
      else Ok(Single(Compare(CreatorID, op, Plain(v))))
    case (MemoEntity, "pinned") =>
      if !IsEquality(op) then Err(InvalidOperator(name))
      else if !v.VBool? then Err(InvalidValue(name))
      else Ok(Single(Compare(Pinned, op, if cfg.dialect == SQLite then Flag(v.b) else Plain(v))))
    case (MemoEntity, _) =>
      (match PropertyOf(name)
       case None => Err(InvalidIdentifier(name))
       case Some(p) =>
         if !IsEquality(op) then Err(InvalidOperator(name))
         else if !v.VBool? then Err(InvalidValue(name))
         else Ok(TranslateBoolean(cfg.dialect, p, op, v.b)))
    case (UserEntity, "username") => TranslateString(Username, name, op, v)
    case (UserEntity, _) => Err(InvalidIdentifier(name))
  }

  function TranslateTimestamp(c: Column, name: string, op: Comparison, v: Value): Result<Sql<Arg>, FilterError> {
    if !v.VInt? then Err(InvalidValue(name)) else Ok(Single(Compare(c, op, Plain(v))))
  }

  function TranslateString(c: Column, name: string, op: Comparison, v: Value): Result<Sql<Arg>, FilterError> {
    if !IsEquality(op) then Err(InvalidOperator(name))
    else if !v.VString? then Err(InvalidValue(name))
    else Ok(Single(Compare(c, op, Plain(v))))
  }

  function TranslateSize(e: Expr, size: Expr, now: int): Result<Sql<Arg>, FilterError>
    requires e.CallExpr? && |e.args| == 2 && size.CallExpr?
  {
    if |size.args| != 1 then Err(SizeNeedsOneArgument)
    else
      var name := GetIdentExprName(size.args[0]);
      if name.Err? then Err(name.error)
      else if name.value != "tags" then Err(SizeSupportsTagsOnly(name.value))
      else
        var v := GetExprValue(e.args[1], now);
        if v.Err? then Err(v.error)
        else if !v.value.VInt? then Err(InvalidValue("size"))
        else Ok(Single(TagCount(ComparisonOf(e.fn), Plain(v.value))))
  }

  function TranslateComparison(cfg: Config, e: Expr, now: int): Result<Sql<Arg>, FilterError>
    requires e.CallExpr?
  {
    if |e.args| != 2 then Err(WrongArgumentCount(e.fn))
    else if e.args[0].CallExpr? && e.args[0].fn == "size" then TranslateSize(e, e.args[0], now)
    else
      var name := GetIdentExprName(e.args[0]);
      if name.Err? then Err(name.error)
      else if name.value !in cfg.allowedFields then Err(InvalidIdentifier(name.value))
      else
        var v := GetExprValue(e.args[1], now);
        if v.Err? then Err(v.error)
        else TranslateField(cfg, name.value, ComparisonOf(e.fn), v.value)
  }

  function ConstValues(es: seq<Expr>): Result<seq<Value>, FilterError> {
    if es == [] then Ok([])
    else
      var before := ConstValues(es[..|es| - 1]);
      if before.Err? then before
      else
        var v := GetConstValue(es[|es| - 1]);
        if v.Err? then Err(v.error) else Ok(before.value + [v.value])
  }

  function TagAtom(d: Dialect, v: Value): Atom<Arg> {
    TagsMatch(if d == SQLite then LikeQuoted(v) else Quoted(v))
  }

  function TagAtoms(d: Dialect, vs: seq<Value>): seq<Atom<Arg>> {
    seq(|vs|, i requires 0 <= i < |vs| => TagAtom(d, vs[i]))
  }

  function PlainArgs(vs: seq<Value>): seq<Arg> {
    seq(|vs|, i requires 0 <= i < |vs| => Plain(vs[i]))
  }

  function InColumn(name: string): Option<Column> {
    match name
    case "visibility" => Some(Visibility)
    case "content_id" => Some(ContentID)
    case "memo_id" => Some(MemoID)
    case _ => None
  }

  function Elements(e: Expr): seq<Expr> {
    if e.ListExpr? then e.elements else []
  }

  function TranslateIn(cfg: Config, e: Expr): Result<Sql<Arg>, FilterError>
    requires e.CallExpr?
  {
    if |e.args| != 2 then Err(WrongArgumentCount(e.fn))
    else if e.args[1].IdentExpr? then
      if e.args[1].name == "tags" then TranslateElementInTags(cfg, e.args[0])
      else Err(InvalidCollection(e.args[1].name))
    else
      var name := GetIdentExprName(e.args[0]);
      if name.Err? then Err(name.error)
      else if name.value != "tag" && InColumn(name.value).None? then Err(InvalidIdentifier(name.value))
      else if !e.args[1].ListExpr? then Err(NotAList)
      else
        var vs := ConstValues(Elements(e.args[1]));
        if vs.Err? then Err(vs.error)
        else if name.value == "tag" then Ok(AnyOf(TagAtoms(cfg.dialect, vs.value)))
        else Ok(Single(InList(InColumn(name.value).value, PlainArgs(vs.value))))
  }

  function TranslateElementInTags(cfg: Config, element: Expr): Result<Sql<Arg>, FilterError> {
    match GetConstValue(element)
    case Err(_) => Err(ElementMustBeConstant)
    case Ok(v) => Ok(Single(TagsMatch(if cfg.dialect == SQLite then LikeQuoted(v) else Plain(v))))
  }

  function TranslateContains(cfg: Config, e: Expr): Result<Sql<Arg>, FilterError>
    requires e.CallExpr?
  {
    if |e.args| != 1 then Err(WrongArgumentCount(e.fn))
    else if e.target.None? || !e.target.value.IdentExpr? then Err(InvalidIdentifierExpression)
    else if e.target.value.name != "content" then Err(InvalidIdentifier(e.target.value.name))
    else
      match GetConstValue(e.args[0])
      case Err(x) => Err(x)
      case Ok(v) => Ok(Single(ContentMatches(LikeInside(v))))
  }

  // ---------- Expressions ----------

  function Translate(cfg: Config, e: Expr, now: int): Result<Sql<Arg>, FilterError> {
    match e
    case IdentExpr(name) => TranslateIdentifier(cfg, name)
    case CallExpr(fn, target, args) =>
      if fn == "_||_" || fn == "_&&_" then
        if |args| != 2 then Err(WrongArgumentCount(fn))
        else
          var left := Translate(cfg, args[0], now);
          if left.Err? then left
          else
            var right := Translate(cfg, args[1], now);
            if right.Err? then right
            else if fn == "_||_" then Ok(Either(left.value, right.value))
            else Ok(Both(left.value, right.value))
      else if fn == "!_" then
        if |args| != 1 then Err(WrongArgumentCount(fn))
        else
          var of := Translate(cfg, args[0], now);
          if of.Err? then of else Ok(Negation(of.value))
      else if fn in COMPARISONS then TranslateComparison(cfg, e, now)
      else if fn == "@in" then TranslateIn(cfg, e)
      else if fn == "contains" then TranslateContains(cfg, e)
      else Err(UnsupportedCall(fn))
    case _ => Ok(Nothing)
  }

  /** Every boolean position holds a call or an identifier, and every list of tags has an element. */
  predicate Handled(e: Expr) {
    match e
    case IdentExpr(_) => true
    case CallExpr(fn, _, args) =>
      if fn in {"_||_", "_&&_", "!_"} then forall a <- args :: Handled(a)
      else if fn == "@in" then |args| == 2 && (args[1].IdentExpr? || Elements(args[1]) != [])
      else true
    case _ => false
  }

  lemma {:induction false} ConstValuesLength(es: seq<Expr>)
    ensures ConstValues(es).Ok? ==> |ConstValues(es).value| == |es|
  {
    if es != [] {
      ConstValuesLength(es[..|es| - 1]);
    }
  }

  /** A handled expression translates to a condition with every part in place. */
  lemma {:induction false} HandledIsComplete(cfg: Config, e: Expr, now: int)
    requires Handled(e) && Translate(cfg, e, now).Ok?
    ensures Complete(Translate(cfg, e, now).value)
  {
    if e.CallExpr? {
      if e.fn == "_||_" || e.fn == "_&&_" {
        HandledIsComplete(cfg, e.args[0], now);
        HandledIsComplete(cfg, e.args[1], now);
      } else if e.fn == "!_" {
        HandledIsComplete(cfg, e.args[0], now);
      } else if e.fn == "@in" {
        ConstValuesLength(Elements(e.args[1]));
      }
    }
  }
}
