/** CEL expressions and the constant folder of `plugin/filter/expr.go`. */
module FilterExpr {
  import opened Wrappers
  import opened FilterSql

  datatype Constant =
    | StringValue(s: string)
    | Int64Value(i: int)
    | Uint64Value(u: nat)
    | DoubleValue(d: real)
    | BoolValue(b: bool)
    | OtherConstant

  datatype Expr =
    | ConstExpr(constant: Constant)
    | IdentExpr(name: string)
    | CallExpr(fn: string, target: Option<Expr>, args: seq<Expr>)
    | ListExpr(elements: seq<Expr>)
    | OtherExpr

  datatype FilterError =
    | InvalidConstant
    | UnexpectedConstantType
    | InvalidIdentifierExpression
    | InvalidFunctionCall
    | UnsupportedFunction(fn: string)
    | WrongArgumentCount(fn: string)
    | OperandsMustBeIntegers(fn: string)
    | UnsupportedCall(fn: string)
    | InvalidIdentifier(name: string)
    | InvalidCollection(name: string)
    | InvalidOperator(name: string)
    | InvalidValue(name: string)
    | SizeNeedsOneArgument
    | SizeSupportsTagsOnly(name: string)
    | ElementMustBeConstant
    | NotAList // the source reads through a nil pointer

  // ---------- 64-bit integers ----------

  const WORD := 0x1_0000_0000_0000_0000
  const HALF := 0x8000_0000_0000_0000

  /** The int64 that Go's arithmetic leaves of an exact result. */
  function Wrap64(i: int): (r: int)
    ensures -HALF <= r < HALF
  {
    (i + HALF) % WORD - HALF
  }

  // ---------- The folder ----------

  function GetConstValue(e: Expr): Result<Value, FilterError> {
    if !e.ConstExpr? then Err(InvalidConstant)
    else
      match e.constant
      case StringValue(s) => Ok(VString(s))
      case Int64Value(i) => Ok(VInt(i))
      case Uint64Value(u) => Ok(VUint(u))
      case DoubleValue(d) => Ok(VDouble(d))
      case BoolValue(b) => Ok(VBool(b))
      case OtherConstant => Err(UnexpectedConstantType)
  }

  function GetIdentExprName(e: Expr): Result<string, FilterError> {
    if e.IdentExpr? then Ok(e.name) else Err(InvalidIdentifierExpression)
  }

  /** `now` is the reading of the clock, in seconds. */
  function GetFunctionValue(e: Expr, now: int): Result<Value, FilterError>
    decreases e, 0
  {
    if !e.CallExpr? then Err(InvalidFunctionCall)
    else if e.fn == "now" then
      if e.args != [] then Err(WrongArgumentCount(e.fn)) else Ok(VInt(now))
    else if e.fn in {"_-_", "_*_", "_+_"} then
      if |e.args| != 2 then Err(WrongArgumentCount(e.fn))
      else
        var left, right := GetExprValue(e.args[0], now), GetExprValue(e.args[1], now);
        if left.Err? then left
        else if right.Err? then right
        else if !left.value.VInt? || !right.value.VInt? then Err(OperandsMustBeIntegers(e.fn))
        else Ok(VInt(Wrap64(Apply(e.fn, left.value.i, right.value.i))))
    else Err(UnsupportedFunction(e.fn))
  }

  function Apply(fn: string, a: int, b: int): int {
    if fn == "_-_" then a - b else if fn == "_*_" then a * b else a + b
  }

  /** A constant, or else a function of constants. */
  function GetExprValue(e: Expr, now: int): Result<Value, FilterError>
    decreases e, 1
  {
    var c := GetConstValue(e);
    if c.Ok? then c else GetFunctionValue(e, now)
  }

  // ---------- What it computes ----------

  /** `now()`, an integer constant, or a difference, product or sum of such expressions. */
  predicate IsArithmetic(e: Expr) {
    match e
    case ConstExpr(Int64Value(_)) => true
    case CallExpr(fn, _, args) =>
      if fn == "now" then args == []
      else (fn == "_-_" || fn == "_*_" || fn == "_+_") && |args| == 2 && IsArithmetic(args[0]) && IsArithmetic(args[1])
    case _ => false
  }

  /** Its value over the unbounded integers. */
  function Exact(e: Expr, now: int): int
    requires IsArithmetic(e)
  {
    match e
    case ConstExpr(Int64Value(i)) => i
    case CallExpr("now", _, _) => now
    case CallExpr("_-_", _, args) => Exact(args[0], now) - Exact(args[1], now)
    case CallExpr("_*_", _, args) => Exact(args[0], now) * Exact(args[1], now)
    case CallExpr("_+_", _, args) => Exact(args[0], now) + Exact(args[1], now)
  }

  lemma WrapTwice(i: int, k: int)
    ensures Wrap64(i + k * WORD) == Wrap64(i)
  {
  }

  lemma WrapIsCongruent(i: int) returns (k: int)
    ensures i == Wrap64(i) + k * WORD
  {
    k := (i + HALF) / WORD;
  }

  /** The one number within 64 bits that differs from the exact one by a multiple of 2 to the power of 64. */
  lemma WrapIsUnique(i: int, r: int, k: int)
    requires i == r + k * 0x1_0000_0000_0000_0000 && -0x8000_0000_0000_0000 <= r < 0x8000_0000_0000_0000
    ensures Wrap64(i) == r
  {
    WrapTwice(r, k);
  }

  lemma ProductOfSums(x: int, y: int, k: int, l: int)
    ensures (x + k * WORD) * (y + l * WORD) == x * y + (x * l + k * y + k * l * WORD) * WORD
  {
  }

  /** Wrapping the operands first does not change the wrapped difference, product or sum. */
  lemma WrapCommutes(a: int, b: int)
    ensures Wrap64(Wrap64(a) - Wrap64(b)) == Wrap64(a - b)
    ensures Wrap64(Wrap64(a) * Wrap64(b)) == Wrap64(a * b)
    ensures Wrap64(Wrap64(a) + Wrap64(b)) == Wrap64(a + b)
  {
    hide Wrap64;
    var k := WrapIsCongruent(a);
    var l := WrapIsCongruent(b);
    var x, y := Wrap64(a), Wrap64(b);
    assert a - b == x - y + (k - l) * WORD;
    WrapTwice(x - y, k - l);
    ProductOfSums(x, y, k, l);
    WrapTwice(x * y, x * l + k * y + k * l * WORD);
    assert a + b == x + y + (k + l) * WORD;
    WrapTwice(x + y, k + l);
  }

  /** The folder gives an integer for exactly the arithmetic expressions. */
  lemma {:induction false} FoldsArithmetic(e: Expr, now: int)
    ensures GetExprValue(e, now).Ok? && GetExprValue(e, now).value.VInt? <==> IsArithmetic(e)
    ensures GetExprValue(e, now).Ok? ==> e.ConstExpr? || IsArithmetic(e)
  {
    if e.CallExpr? && |e.args| == 2 {
      FoldsArithmetic(e.args[0], now);
      FoldsArithmetic(e.args[1], now);
    }
  }

  /** Wrapping at every operation, as the folder does, is the same as wrapping the exact result once. */
  lemma {:induction false} FoldingWrapsOnce(e: Expr, now: int)
    requires IsArithmetic(e)
    ensures GetExprValue(e, now).Ok? && GetExprValue(e, now).value.VInt?
    ensures Wrap64(GetExprValue(e, now).value.i) == Wrap64(Exact(e, now))
    ensures var v := GetExprValue(e, now).value.i;
            (e.CallExpr? && e.fn != "now") || -HALF <= v < HALF ==> v == Wrap64(Exact(e, now))
  {
    if e.CallExpr? && e.fn != "now" {
      FoldingWrapsOnce(e.args[0], now);
      FoldingWrapsOnce(e.args[1], now);
      var x, y := GetExprValue(e.args[0], now).value.i, GetExprValue(e.args[1], now).value.i;
      WrapCommutes(x, y);
      WrapCommutes(Exact(e.args[0], now), Exact(e.args[1], now));
      WrapOfWrap(Exact(e, now));
    }
  }

  lemma WrapOfWrap(i: int)
    ensures Wrap64(Wrap64(i)) == Wrap64(i)
  {
  }
}
