/**
 What a filter means in CEL, on a memo and with two truth values. Nothing here is taken from the converter:
 functions, fields and operators are told apart by the names that CEL has for them.
 */
module FilterCel {
  import opened Wrappers
  import opened FilterSql
  import opened FilterExpr

  /**
   A memo and its row. The columns are NOT NULL; `tags` and `properties` come from the payload, and a comment
   has a relation to another memo. What the database finds in the content and in the tags is a shared oracle.
   */
  datatype Row = Row(
    id: int, uid: string, rowStatus: string, isComment: bool,
    creatorID: int, createdTs: int, updatedTs: int, visibility: string, content: string, pinned: bool,
    contentID: string, memoID: string, username: string,
    tags: Option<seq<string>>, properties: map<Property, bool>,
    contentLike: Arg -> bool, tagsLike: Arg -> bool)

  function TagCountOf(r: Row): nat {
    if r.tags.Some? then |r.tags.value| else 0
  }

  // ---------- Fields and values ----------

  function CelProperty(name: string): Option<Property> {
    match name
    case "has_task_list" => Some(HasTaskList)
    case "has_link" => Some(HasLink)
    case "has_code" => Some(HasCode)
    case "has_incomplete_tasks" => Some(HasIncompleteTasks)
    case _ => None
  }

  /** An absent property is false. */
  predicate HasProperty(r: Row, p: Property) {
    p in r.properties && r.properties[p]
  }

  function FieldValue(r: Row, name: string): Value {
    match name
    case "created_ts" => VInt(r.createdTs)
    case "updated_ts" => VInt(r.updatedTs)
    case "visibility" => VString(r.visibility)
    case "content" => VString(r.content)
    case "creator_id" => VInt(r.creatorID)
    case "pinned" => VBool(r.pinned)
    case "content_id" => VString(r.contentID)
    case "memo_id" => VString(r.memoID)
    case _ => if CelProperty(name).Some? then VBool(HasProperty(r, CelProperty(name).value)) else VString("")
  }

  /** A memo has a tag when the database finds it in its tag list; a memo without a tag list has none. */
  predicate HasTag(r: Row, v: Value) {
    r.tags.Some? && r.tagsLike(LikeQuoted(v))
  }

  function CelConst(e: Expr): Option<Value> {
    match e
    case ConstExpr(StringValue(s)) => Some(VString(s))
    case ConstExpr(Int64Value(i)) => Some(VInt(i))
    case ConstExpr(Uint64Value(u)) => Some(VUint(u))
    case ConstExpr(DoubleValue(d)) => Some(VDouble(d))
    case ConstExpr(BoolValue(b)) => Some(VBool(b))
    case _ => None
  }

  /** A constant, the clock, or the exact value of an arithmetic expression as a 64-bit integer. */
  function CelValue(e: Expr, now: int): Option<Value> {
    if e.ConstExpr? then CelConst(e)
    else if !IsArithmetic(e) then None
    else if e.fn == "now" then Some(VInt(now))
    else Some(VInt(Wrap64(Exact(e, now))))
  }

  // ---------- Comparisons ----------

  predicate IsEqualityTest(fn: string) {
    fn == "_==_" || fn == "_!=_"
  }

  predicate IsCelComparison(fn: string) {
    IsEqualityTest(fn) || fn == "_<_" || fn == "_>_" || fn == "_<=_" || fn == "_>=_"
  }

  /** Integers are ordered; other values are only compared for equality. */
  predicate CelCompare(fn: string, a: Value, b: Value) {
    match fn
    case "_==_" => a == b
    case "_!=_" => a != b
    case "_<_" => a.VInt? && b.VInt? && a.i < b.i
    case "_>_" => a.VInt? && b.VInt? && a.i > b.i
    case "_<=_" => a.VInt? && b.VInt? && a.i <= b.i
    case "_>=_" => a.VInt? && b.VInt? && a.i >= b.i
    case _ => false
  }

  /** `size(tags)` */
  predicate IsTagCount(e: Expr) {
    e.CallExpr? && e.fn == "size" && e.args == [IdentExpr("tags")]
  }

  // ---------- Filters ----------

  predicate Holds(e: Expr, r: Row, now: int) {
    match e
    case IdentExpr(name) => FieldValue(r, name) == VBool(true)
    case CallExpr(fn, target, args) =>
      if fn == "_||_" && |args| == 2 then Holds(args[0], r, now) || Holds(args[1], r, now)
      else if fn == "_&&_" && |args| == 2 then Holds(args[0], r, now) && Holds(args[1], r, now)
      else if fn == "!_" && |args| == 1 then !Holds(args[0], r, now)
      else if IsCelComparison(fn) && |args| == 2 then ComparisonHolds(fn, args[0], CelValue(args[1], now), r)
      else if fn == "@in" && |args| == 2 then IsMember(args[0], args[1], r)
      else
        && fn == "contains" && target == Some(IdentExpr("content")) && |args| == 1 && CelConst(args[0]).Some?
        && r.contentLike(LikeInside(CelConst(args[0]).value))
    case _ => false
  }

  predicate ComparisonHolds(fn: string, left: Expr, right: Option<Value>, r: Row) {
    && right.Some?
    && if IsTagCount(left) then CelCompare(fn, VInt(TagCountOf(r)), right.value)
       else left.IdentExpr? && CelCompare(fn, FieldValue(r, left.name), right.value)
  }

  /** `"x" in tags`, `tag in ["x", ...]` or `field in [...]`. */
  predicate IsMember(left: Expr, right: Expr, r: Row) {
    if right == IdentExpr("tags") then CelConst(left).Some? && HasTag(r, CelConst(left).value)
    else
      && left.IdentExpr? && right.ListExpr?
      && exists x <- right.elements :: CelConst(x).Some? && IsOneOf(left.name, CelConst(x).value, r)
  }

  predicate IsOneOf(name: string, v: Value, r: Row) {
    if name == "tag" then HasTag(r, v) else FieldValue(r, name) == v
  }

  // ---------- Which filters there are ----------

  /** The fields of a memo, with the comparisons and values that suit them. */
  predicate Comparable(name: string, fn: string, v: Value) {
    match name
    case "created_ts" => v.VInt?
    case "updated_ts" => v.VInt?
    case "creator_id" => IsEqualityTest(fn) && v.VInt?
    case "visibility" => IsEqualityTest(fn) && v.VString?
    case "content" => IsEqualityTest(fn) && v.VString?
    case "pinned" => IsEqualityTest(fn) && v.VBool?
    case _ => CelProperty(name).Some? && IsEqualityTest(fn) && v.VBool?
  }

  /** A filter of memos: every leaf is one that can be asked of a memo. */
  predicate IsMemoFilter(e: Expr, now: int) {
    match e
    case IdentExpr(name) => name == "pinned" || CelProperty(name).Some?
    case CallExpr(fn, target, args) =>
      if fn == "_||_" || fn == "_&&_" then |args| == 2 && IsMemoFilter(args[0], now) && IsMemoFilter(args[1], now)
      else if fn == "!_" then |args| == 1 && IsMemoFilter(args[0], now)
      else if IsCelComparison(fn) then
        && |args| == 2 && CelValue(args[1], now).Some?
        && var v := CelValue(args[1], now).value;
           (IsTagCount(args[0]) && v.VInt?) || (args[0].IdentExpr? && Comparable(args[0].name, fn, v))
      else if fn == "@in" then |args| == 2 && IsMembership(args[0], args[1])
      else fn == "contains" && target == Some(IdentExpr("content")) && |args| == 1 && CelConst(args[0]).Some?
    case _ => true
  }

  predicate IsMembership(left: Expr, right: Expr) {
    || (right == IdentExpr("tags") && CelConst(left).Some?)
    || (&& left.IdentExpr? && left.name in {"tag", "visibility", "content_id", "memo_id"}
        && right.ListExpr? && forall x <- right.elements :: CelConst(x).Some?)
  }
}
