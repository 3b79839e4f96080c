/**
 The converter of `plugin/filter/common_converter.go`: it writes into a buffer, appends to an
 argument list and counts placeholders as it goes. Whatever it converts, the outcome is the text of
 the translation, numbered from the counter on.
 */
module FilterConverter {
  import opened Wrappers
  import opened FilterSql
  import opened FilterSyntax
  import opened FilterExpr
  import opened FilterTranslate

  // ---------- What converting leaves behind ----------

  datatype Output = Output(buffer: seq<Token<Placeholder>>, args: seq<Arg>, paramIndex: int)

  /** The output `o` with the text `ts` written behind it. */
  function Written(d: Dialect, o: Output, ts: seq<Token<Arg>>): Output {
    Output(o.buffer + Number(d, ts, o.paramIndex), o.args + ArgsOf(ts), o.paramIndex + |ArgsOf(ts)|)
  }

  lemma WrittenTwice(d: Dialect, o: Output, a: seq<Token<Arg>>, b: seq<Token<Arg>>)
    ensures Written(d, Written(d, o, a), b) == Written(d, o, a + b)
  {
    hide Number, ArgsOf;
    NumberConcat(d, a, b, o.paramIndex);
    ArgsOfConcat(a, b);
    var m := o.paramIndex + |ArgsOf(a)|;
    assert o.buffer + Number(d, a, o.paramIndex) + Number(d, b, m) ==
        o.buffer + (Number(d, a, o.paramIndex) + Number(d, b, m));
    assert o.args + ArgsOf(a) + ArgsOf(b) == o.args + (ArgsOf(a) + ArgsOf(b));
  }

  lemma WrittenNothing(d: Dialect, o: Output)
    ensures Written(d, o, []) == o
  {
    assert o.buffer + [] == o.buffer && o.args + [] == o.args;
  }

  /** Writing one token takes the next placeholders. */
  lemma WrittenToken(d: Dialect, o: Output, t: Token<Arg>)
    ensures Written(d, o, [t]) ==
            Output(o.buffer + [TokenWithArgs(t, PlaceholdersFrom(d, o.paramIndex, |TokenArgs(t)|))],
                   o.args + TokenArgs(t), o.paramIndex + |TokenArgs(t)|)
  {
    NumberNone(d, o.paramIndex);
    NumberSnoc(d, [], t, o.paramIndex);
    ArgsOfSnoc([], t);
    assert [] + [t] == [t];
  }

  lemma OnePlaceholder(d: Dialect, n: int)
    ensures PlaceholdersFrom(d, n, 1) == [PlaceholderAt(d, n)] && PlaceholdersFrom(d, n, 0) == []
  {
  }

  lemma ShowLeaf(a: Atom<Arg>)
    ensures Show(Single(a)) == [Leaf(a)]
  {
  }

  lemma ShowParts(x: Sql<Arg>, y: Sql<Arg>)
    ensures Show(Negation(x)) == [Not, LeftParen] + Show(x) + [RightParen]
    ensures Show(Both(x, y)) == [LeftParen] + Show(x) + [And] + Show(y) + [RightParen]
    ensures Show(Either(x, y)) == [LeftParen] + Show(x) + [Or] + Show(y) + [RightParen]
  {
  }

  lemma WrittenPair(d: Dialect, o: Output, x: Sql<Arg>, op: Token<Arg>, y: Sql<Arg>)
    ensures Written(d, Written(d, Written(d, o, [LeftParen] + Show(x)), [op] + Show(y)), [RightParen]) ==
            Written(d, o, [LeftParen] + Show(x) + [op] + Show(y) + [RightParen])
  {
    hide Written, Show;
    var left, right: seq<Token<Arg>> := [LeftParen] + Show(x), [op] + Show(y);
    WrittenTwice(d, o, left, right);
    WrittenTwice(d, o, left + right, [RightParen]);
    assert left + right == [LeftParen] + Show(x) + [op] + Show(y);
  }

  lemma WrittenNegation(d: Dialect, o: Output, x: Sql<Arg>)
    ensures Written(d, Written(d, Written(d, o, [Not]), [LeftParen] + Show(x)), [RightParen]) ==
            Written(d, o, [Not, LeftParen] + Show(x) + [RightParen])
  {
    hide Written, Show;
    var not: seq<Token<Arg>>, of: seq<Token<Arg>> := [Not], [LeftParen] + Show(x);
    WrittenTwice(d, o, not, of);
    WrittenTwice(d, o, not + of, [RightParen]);
    assert not + of == [Not, LeftParen] + Show(x);
  }

  // ---------- Lists ----------

  /** The conditions of a tag list, each with its own placeholder. */
  function NumberedTags(d: Dialect, vs: seq<Value>, n: int): seq<Atom<Placeholder>> {
    seq(|vs|, i requires 0 <= i < |vs| => TagsMatch(PlaceholderAt(d, n + i)))
  }

  function TagArgs(d: Dialect, vs: seq<Value>): seq<Arg> {
    seq(|vs|, i requires 0 <= i < |vs| => if d == SQLite then LikeQuoted(vs[i]) else Quoted(vs[i]))
  }

  // ---------- The converter ----------

  class ConvertContext {
    var buffer: seq<Token<Placeholder>>
    var args: seq<Arg>

    constructor ()
      ensures buffer == [] && args == []
    {
      buffer, args := [], [];
    }
  }

  class CommonSQLConverter {
    const cfg: Config
    const now: int
    var paramIndex: int

    constructor (cfg: Config, offset: int, now: int)
      ensures this.cfg == cfg && this.now == now && paramIndex == offset + 1
    {
      this.cfg, this.now, paramIndex := cfg, now, offset + 1;
    }

    ghost function Out(ctx: ConvertContext): Output
      reads this, ctx
    {
      Output(ctx.buffer, ctx.args, paramIndex)
    }

    /** Writes a token without placeholders. */
    method WriteToken(ctx: ConvertContext, t: Token<Placeholder>, ghost spec: Token<Arg>)
      requires TokenArgs(spec) == [] && TokenWithArgs<Arg, Placeholder>(spec, []) == t
      modifies ctx`buffer
      ensures Out(ctx) == Written(cfg.dialect, old(Out(ctx)), [spec])
    {
      WrittenToken(cfg.dialect, Out(ctx), spec);
      OnePlaceholder(cfg.dialect, paramIndex);
      assert ctx.args + [] == ctx.args;
      ctx.buffer := ctx.buffer + [t];
    }

    method ConvertExprToSQL(ctx: ConvertContext, e: Expr) returns (err: Option<FilterError>)
      modifies this, ctx
      ensures match Translate(cfg, e, now) {
                case Err(x) => err == Some(x)
                case Ok(s) => err == None && Out(ctx) == Written(cfg.dialect, old(Out(ctx)), Show(s))
              }
      decreases e, 1
    {
      match e {
        case CallExpr(fn, _, _) =>
          if fn == "_||_" || fn == "_&&_" {
            err := HandleLogicalOperator(ctx, e);
          } else if fn == "!_" {
            err := HandleNotOperator(ctx, e);
          } else if fn in COMPARISONS {
            err := HandleComparisonOperator(ctx, e);
          } else if fn == "@in" {
            err := HandleInOperator(ctx, e);
          } else if fn == "contains" {
            err := HandleContainsOperator(ctx, e);
          } else {
            err := Some(UnsupportedCall(fn));
          }
        case IdentExpr(name) =>
          err := HandleIdentifier(ctx, name);
        case _ =>
          WrittenNothing(cfg.dialect, Out(ctx));
          err := None;
      }
    }

    /** Writes a token and then an operand. */
    method WriteOperand(ctx: ConvertContext, t: Token<Placeholder>, ghost spec: Token<Arg>, e: Expr)
      returns (err: Option<FilterError>)
      requires TokenArgs(spec) == [] && TokenWithArgs<Arg, Placeholder>(spec, []) == t
      modifies this, ctx
      ensures match Translate(cfg, e, now) {
                case Err(x) => err == Some(x)
                case Ok(s) => err == None && Out(ctx) == Written(cfg.dialect, old(Out(ctx)), [spec] + Show(s))
              }
      decreases e, 2
    {
      hide Written, Show, Translate, TokenWithArgs;
      WriteToken(ctx, t, spec);
      err := ConvertExprToSQL(ctx, e);
      if err == None {
        WrittenTwice(cfg.dialect, old(Out(ctx)), [spec], Show(Translate(cfg, e, now).value));
      }
    }

    method HandleLogicalOperator(ctx: ConvertContext, e: Expr) returns (err: Option<FilterError>)
      requires e.CallExpr? && (e.fn == "_||_" || e.fn == "_&&_")
      modifies this, ctx
      ensures match Translate(cfg, e, now) {
                case Err(x) => err == Some(x)
                case Ok(s) => err == None && Out(ctx) == Written(cfg.dialect, old(Out(ctx)), Show(s))
              }
      decreases e, 0
    {
      hide Written, Show, TranslateComparison, TranslateIn, TranslateContains, TranslateIdentifier;
      if |e.args| != 2 {
        return Some(WrongArgumentCount(e.fn));
      }
      ghost var d, start := cfg.dialect, Out(ctx);
      err := WriteOperand(ctx, LeftParen, LeftParen, e.args[0]);
      if err.Some? {
        return;
      }
      ghost var left := Translate(cfg, e.args[0], now).value;
      ghost var op: Token<Arg> := if e.fn == "_||_" then Or else And;
      if e.fn == "_||_" {
        err := WriteOperand(ctx, Or, op, e.args[1]);
      } else {
        err := WriteOperand(ctx, And, op, e.args[1]);
      }
      if err.Some? {
        return;
      }
      ghost var right := Translate(cfg, e.args[1], now).value;
      WriteToken(ctx, RightParen, RightParen);
      WrittenPair(d, start, left, op, right);
      ShowParts(left, right);
    }

    method HandleNotOperator(ctx: ConvertContext, e: Expr) returns (err: Option<FilterError>)
      requires e.CallExpr? && e.fn == "!_"
      modifies this, ctx
      ensures match Translate(cfg, e, now) {
                case Err(x) => err == Some(x)
                case Ok(s) => err == None && Out(ctx) == Written(cfg.dialect, old(Out(ctx)), Show(s))
              }
      decreases e, 0
    {
      hide Written, Show, TranslateComparison, TranslateIn, TranslateContains, TranslateIdentifier;
      if |e.args| != 1 {
        return Some(WrongArgumentCount(e.fn));
      }
      ghost var d, start := cfg.dialect, Out(ctx);
      WriteToken(ctx, Not, Not);
      err := WriteOperand(ctx, LeftParen, LeftParen, e.args[0]);
      if err.Some? {
        return;
      }
      WriteToken(ctx, RightParen, RightParen);
      WrittenNegation(d, start, Translate(cfg, e.args[0], now).value);
      ShowParts(Translate(cfg, e.args[0], now).value, Nothing);
    }

    /** Writes a leaf with one placeholder, appends its argument and counts it. */
    method WriteLeaf(ctx: ConvertContext, leaf: Atom<Placeholder>, arg: Arg, ghost spec: Atom<Arg>)
      requires AtomArgs(spec) == [arg] && WithArgs(spec, [PlaceholderAt(cfg.dialect, paramIndex)]) == leaf
      modifies this`paramIndex, ctx
      ensures Out(ctx) == Written(cfg.dialect, old(Out(ctx)), [Leaf(spec)])
    {
      WrittenToken(cfg.dialect, Out(ctx), Leaf(spec));
      OnePlaceholder(cfg.dialect, paramIndex);
      ctx.buffer := ctx.buffer + [Leaf(leaf)];
      ctx.args := ctx.args + [arg];
      paramIndex := paramIndex + 1;
    }

    /** NOT and a leaf without placeholders in parentheses. */
    method WriteNegatedLeaf(ctx: ConvertContext, leaf: Atom<Placeholder>, ghost spec: Atom<Arg>)
      requires AtomArgs(spec) == [] && WithArgs<Arg, Placeholder>(spec, []) == leaf
      modifies ctx`buffer
      ensures Out(ctx) == Written(cfg.dialect, old(Out(ctx)), Show(Negation(Single(spec))))
    {
      hide Written, Show, WithArgs, AtomArgs;
      ghost var d, start := cfg.dialect, Out(ctx);
      WriteToken(ctx, Not, Not);
      WriteToken(ctx, LeftParen, LeftParen);
      ghost var mid := Out(ctx);
      WriteToken(ctx, Leaf(leaf), Leaf(spec));
      ghost var before := Written(d, start, [Not]);
      WrittenTwice(d, before, [LeftParen], [Leaf(spec)]);
      ShowLeaf(spec);
      WriteToken(ctx, RightParen, RightParen);
      WrittenNegation(d, start, Single(spec));
      ShowParts(Single(spec), Nothing);
    }

    method HandleIdentifier(ctx: ConvertContext, name: string) returns (err: Option<FilterError>)
      modifies this, ctx
      ensures match TranslateIdentifier(cfg, name) {
                case Err(x) => err == Some(x)
                case Ok(s) => err == None && Out(ctx) == Written(cfg.dialect, old(Out(ctx)), Show(s))
              }
    {
      if cfg.entity != MemoEntity {
        return Some(InvalidIdentifier(name));
      }
      if name == "pinned" {
        WriteToken(ctx, Leaf(PinnedIsTrue), Leaf(PinnedIsTrue));
        return None;
      }
      var p := PropertyOf(name);
      if p.None? {
        return Some(InvalidIdentifier(name));
      }
      if cfg.dialect == MySQL {
        WriteToken(ctx, Leaf(PropertyCompare(p.value, Eq, true)), Leaf(PropertyCompare(p.value, Eq, true)));
      } else {
        WriteToken(ctx, Leaf(PropertyIsTrue(p.value)), Leaf(PropertyIsTrue(p.value)));
      }
      return None;
    }

    method HandleComparisonOperator(ctx: ConvertContext, e: Expr) returns (err: Option<FilterError>)
      requires e.CallExpr?
      modifies this, ctx
      ensures match TranslateComparison(cfg, e, now) {
                case Err(x) => err == Some(x)
                case Ok(s) => err == None && Out(ctx) == Written(cfg.dialect, old(Out(ctx)), Show(s))
              }
    {
      if |e.args| != 2 {
        return Some(WrongArgumentCount(e.fn));
      }
      if e.args[0].CallExpr? && e.args[0].fn == "size" {
        err := HandleSizeComparison(ctx, e, e.args[0]);
        return;
      }
      var name := GetIdentExprName(e.args[0]);
      if name.Err? {
        return Some(name.error);
      }
      if name.value !in cfg.allowedFields {
        return Some(InvalidIdentifier(name.value));
      }
      var v := GetExprValue(e.args[1], now);
      if v.Err? {
        return Some(v.error);
      }
      err := HandleField(ctx, name.value, ComparisonOf(e.fn), v.value);
    }

    method HandleSizeComparison(ctx: ConvertContext, e: Expr, size: Expr) returns (err: Option<FilterError>)
      requires e.CallExpr? && |e.args| == 2 && size.CallExpr?
      modifies this, ctx
      ensures match TranslateSize(e, size, now) {
                case Err(x) => err == Some(x)
                case Ok(s) => err == None && Out(ctx) == Written(cfg.dialect, old(Out(ctx)), Show(s))
              }
    {
      if |size.args| != 1 {
        return Some(SizeNeedsOneArgument);
      }
      var name := GetIdentExprName(size.args[0]);
      if name.Err? {
        return Some(name.error);
      }
      if name.value != "tags" {
        return Some(SizeSupportsTagsOnly(name.value));
      }
      var v := GetExprValue(e.args[1], now);
      if v.Err? {
        return Some(v.error);
      }
      if !v.value.VInt? {
        return Some(InvalidValue("size"));
      }
      var op := ComparisonOf(e.fn);
      WriteLeaf(ctx, TagCount(op, PlaceholderAt(cfg.dialect, paramIndex)), Plain(v.value), TagCount(op,
          Plain(v.value)));
      return None;
    }

    /** The switch over the field names. */
    method HandleField(ctx: ConvertContext, name: string, op: Comparison, v: Value) returns (err: Option<FilterError>)
      modifies this, ctx
      ensures match TranslateField(cfg, name, op, v) {
                case Err(x) => err == Some(x)
                case Ok(s) => err == None && Out(ctx) == Written(cfg.dialect, old(Out(ctx)), Show(s))
              }
    {
      if cfg.entity == MemoEntity {
        if name == "created_ts" {
          err := HandleTimestampComparison(ctx, CreatedTs, name, op, v);
        } else if name == "updated_ts" {
          err := HandleTimestampComparison(ctx, UpdatedTs, name, op, v);
        } else if name == "visibility" {
          err := HandleStringComparison(ctx, Visibility, name, op, v);
        } else if name == "content" {
          err := HandleStringComparison(ctx, Content, name, op, v);
        } else if name == "creator_id" {
          err := HandleIntComparison(ctx, name, op, v);
        } else if name == "pinned" {
          err := HandlePinnedComparison(ctx, name, op, v);
        } else {
          err := HandleBooleanComparison(ctx, name, op, v);
        }
      } else if name == "username" {
        err := HandleStringComparison(ctx, Username, name, op, v);
      } else {
        err := Some(InvalidIdentifier(name));
      }
    }

    method WriteCompare(ctx: ConvertContext, c: Column, op: Comparison, arg: Arg)
      modifies this`paramIndex, ctx
      ensures Out(ctx) == Written(cfg.dialect, old(Out(ctx)), Show(Single(Compare(c, op, arg))))
    {
      WriteLeaf(ctx, Compare(c, op, PlaceholderAt(cfg.dialect, paramIndex)), arg, Compare(c, op, arg));
    }

    method HandleTimestampComparison(ctx: ConvertContext, c: Column, name: string, op: Comparison, v: Value)
      returns (err: Option<FilterError>)
      modifies this, ctx
      ensures match TranslateTimestamp(c, name, op, v) {
                case Err(x) => err == Some(x)
                case Ok(s) => err == None && Out(ctx) == Written(cfg.dialect, old(Out(ctx)), Show(s))
              }
    {
      if !v.VInt? {
        return Some(InvalidValue(name));
      }
      WriteCompare(ctx, c, op, Plain(v));
      return None;
    }

    method HandleStringComparison(ctx: ConvertContext, c: Column, name: string, op: Comparison, v: Value)
      returns (err: Option<FilterError>)
      modifies this, ctx
      ensures match TranslateString(c, name, op, v) {
                case Err(x) => err == Some(x)
                case Ok(s) => err == None && Out(ctx) == Written(cfg.dialect, old(Out(ctx)), Show(s))
              }
    {
      if !IsEquality(op) {
        return Some(InvalidOperator(name));
      }
      if !v.VString? {
        return Some(InvalidValue(name));
      }
      WriteCompare(ctx, c, op, Plain(v));
      return None;
    }

    method HandleIntComparison(ctx: ConvertContext, name: string, op: Comparison, v: Value)
      returns (err: Option<FilterError>)
      modifies this, ctx
      ensures if !IsEquality(op) then err == Some(InvalidOperator(name))
              else if !v.VInt? then err == Some(InvalidValue(name))
              else
                && err == None
                && Out(ctx) == Written(cfg.dialect, old(Out(ctx)), Show(Single(Compare(CreatorID, op, Plain(v)))))
    {
      if !IsEquality(op) {
        return Some(InvalidOperator(name));
      }
      if !v.VInt? {
        return Some(InvalidValue(name));
      }
      WriteCompare(ctx, CreatorID, op, Plain(v));
      return None;
    }

    method HandlePinnedComparison(ctx: ConvertContext, name: string, op: Comparison, v: Value)
      returns (err: Option<FilterError>)
      modifies this, ctx
      ensures if !IsEquality(op) then err == Some(InvalidOperator(name))
              else if !v.VBool? then err == Some(InvalidValue(name))
              else
                var arg := if cfg.dialect == SQLite then Flag(v.b) else Plain(v);
                err == None && Out(ctx) == Written(cfg.dialect, old(Out(ctx)), Show(Single(Compare(Pinned, op, arg))))
    {
      if !IsEquality(op) {
        return Some(InvalidOperator(name));
      }
      if !v.VBool? {
        return Some(InvalidValue(name));
      }
      WriteCompare(ctx, Pinned, op, if cfg.dialect == SQLite then Flag(v.b) else Plain(v));
      return None;
    }

    method HandleBooleanComparison(ctx: ConvertContext, name: string, op: Comparison, v: Value)
      returns (err: Option<FilterError>)
      modifies this, ctx
      ensures match PropertyOf(name) {
                case None => err == Some(InvalidIdentifier(name))
                case Some(p) =>
                  if !IsEquality(op) then err == Some(InvalidOperator(name))
                  else if !v.VBool? then err == Some(InvalidValue(name))
                  else
                    && err == None
                    && Out(ctx) == Written(cfg.dialect, old(Out(ctx)), Show(TranslateBoolean(cfg.dialect, p, op, v.b)))
              }
    {
      hide Written;
      var found := PropertyOf(name);
      if found.None? {
        return Some(InvalidIdentifier(name));
      }
      var p := found.value;
      if !IsEquality(op) {
        return Some(InvalidOperator(name));
      }
      if !v.VBool? {
        return Some(InvalidValue(name));
      }
      if cfg.dialect == SQLite {
        if p == HasTaskList {
          WriteToken(ctx, Leaf(PropertyCompare(p, op, v.b)), Leaf(PropertyCompare(p, op, v.b)));
        } else if (op == Eq && v.b) || (op == Ne && !v.b) {
          WriteToken(ctx, Leaf(PropertyIsTrue(p)), Leaf(PropertyIsTrue(p)));
        } else {
          WriteNegatedLeaf(ctx, PropertyIsTrue(p), PropertyIsTrue(p));
        }
      } else if cfg.dialect == MySQL {
        WriteToken(ctx, Leaf(PropertyCompare(p, op, v.b)), Leaf(PropertyCompare(p, op, v.b)));
      } else {
        WriteLeaf(ctx, PropertyParam(p, op, PlaceholderAt(cfg.dialect, paramIndex)), Plain(v),
                  PropertyParam(p, op, Plain(v)));
      }
      return None;
    }

    method HandleInOperator(ctx: ConvertContext, e: Expr) returns (err: Option<FilterError>)
      requires e.CallExpr?
      modifies this, ctx
      ensures match TranslateIn(cfg, e) {
                case Err(x) => err == Some(x)
                case Ok(s) => err == None && Out(ctx) == Written(cfg.dialect, old(Out(ctx)), Show(s))
              }
    {
      if |e.args| != 2 {
        return Some(WrongArgumentCount(e.fn));
      }
      if e.args[1].IdentExpr? {
        if e.args[1].name == "tags" {
          err := HandleElementInTags(ctx, e.args[0]);
          return;
        }
        return Some(InvalidCollection(e.args[1].name));
      }
      var name := GetIdentExprName(e.args[0]);
      if name.Err? {
        return Some(name.error);
      }
      if name.value !in ["tag", "visibility", "content_id", "memo_id"] {
        return Some(InvalidIdentifier(name.value));
      }
      if !e.args[1].ListExpr? {
        return Some(NotAList);
      }
      var values: seq<Value> := [];
      var elements := Elements(e.args[1]);
      for i := 0 to |elements|
        invariant ConstValues(elements[..i]) == Ok(values)
      {
        assert elements[..i + 1][..i] == elements[..i];
        var v := GetConstValue(elements[i]);
        if v.Err? {
          FirstConstError(elements, i + 1);
          return Some(v.error);
        }
        values := values + [v.value];
      }
      assert elements[..|elements|] == elements;
      if name.value == "tag" {
        HandleTagInList(ctx, values);
      } else {
        HandleColumnInList(ctx, InColumn(name.value).value, values);
      }
      return None;
    }

    method HandleElementInTags(ctx: ConvertContext, element: Expr) returns (err: Option<FilterError>)
      modifies this, ctx
      ensures match TranslateElementInTags(cfg, element) {
                case Err(x) => err == Some(x)
                case Ok(s) => err == None && Out(ctx) == Written(cfg.dialect, old(Out(ctx)), Show(s))
              }
    {
      var v := GetConstValue(element);
      if v.Err? {
        return Some(ElementMustBeConstant);
      }
      var arg := if cfg.dialect == SQLite then LikeQuoted(v.value) else Plain(v.value);
      WriteLeaf(ctx, TagsMatch(PlaceholderAt(cfg.dialect, paramIndex)), arg, TagsMatch(arg));
      return None;
    }

    /** One condition per value, in parentheses unless there is exactly one. */
    method HandleTagInList(ctx: ConvertContext, values: seq<Value>)
      modifies this, ctx
      ensures Out(ctx) == Written(cfg.dialect, old(Out(ctx)), Show(AnyOf(TagAtoms(cfg.dialect, values))))
    {
      var subconditions: seq<Atom<Placeholder>> := [];
      var args: seq<Arg> := [];
      for i := 0 to |values|
        invariant paramIndex == old(paramIndex) + i && ctx.buffer == old(ctx.buffer) && ctx.args == old(ctx.args)
        invariant subconditions == NumberedTags(cfg.dialect, values, old(paramIndex))[..i]
        invariant args == TagArgs(cfg.dialect, values)[..i]
      {
        var v := values[i];
        assert NumberedTags(cfg.dialect, values, old(paramIndex))[i] ==
            TagsMatch(PlaceholderAt(cfg.dialect, paramIndex));
        if cfg.dialect == SQLite {
          subconditions := subconditions + [TagsMatch(Positional)];
          args := args + [LikeQuoted(v)];
        } else {
          subconditions := subconditions + [TagsMatch(PlaceholderAt(cfg.dialect, paramIndex))];
          args := args + [Quoted(v)];
        }
        paramIndex := paramIndex + 1;
      }
      assert subconditions == NumberedTags(cfg.dialect, values, old(paramIndex));
      assert args == TagArgs(cfg.dialect, values);
      if |subconditions| == 1 {
        ctx.buffer := ctx.buffer + [Leaf(subconditions[0])];
      } else {
        ctx.buffer := ctx.buffer + ([LeftParen] + JoinOr(subconditions) + [RightParen]);
      }
      ctx.args := ctx.args + args;
      WrittenList(cfg.dialect, old(Out(ctx)), values);
    }

    /** One placeholder per value. */
    method HandleColumnInList(ctx: ConvertContext, c: Column, values: seq<Value>)
      modifies this, ctx
      ensures Out(ctx) == Written(cfg.dialect, old(Out(ctx)), Show(Single(InList(c, PlainArgs(values)))))
    {
      var placeholders: seq<Placeholder> := [];
      for i := 0 to |values|
        invariant paramIndex == old(paramIndex) + i && ctx.buffer == old(ctx.buffer) && ctx.args == old(ctx.args)
        invariant placeholders == PlaceholdersFrom(cfg.dialect, old(paramIndex), |values|)[..i]
      {
        placeholders := placeholders + [PlaceholderAt(cfg.dialect, paramIndex)];
        paramIndex := paramIndex + 1;
      }
      assert placeholders == PlaceholdersFrom(cfg.dialect, old(paramIndex), |values|);
      ctx.buffer := ctx.buffer + [Leaf(InList(c, placeholders))];
      ctx.args := ctx.args + PlainArgs(values);
      WrittenToken(cfg.dialect, old(Out(ctx)), Leaf(InList(c, PlainArgs(values))));
    }

    method HandleContainsOperator(ctx: ConvertContext, e: Expr) returns (err: Option<FilterError>)
      requires e.CallExpr?
      modifies this, ctx
      ensures match TranslateContains(cfg, e) {
                case Err(x) => err == Some(x)
                case Ok(s) => err == None && Out(ctx) == Written(cfg.dialect, old(Out(ctx)), Show(s))
              }
    {
      if |e.args| != 1 {
        return Some(WrongArgumentCount(e.fn));
      }
      if e.target.None? || !e.target.value.IdentExpr? {
        return Some(InvalidIdentifierExpression);
      }
      if e.target.value.name != "content" {
        return Some(InvalidIdentifier(e.target.value.name));
      }
      var v := GetConstValue(e.args[0]);
      if v.Err? {
        return Some(v.error);
      }
      WriteLeaf(ctx, ContentMatches(PlaceholderAt(cfg.dialect, paramIndex)), LikeInside(v.value),
                ContentMatches(LikeInside(v.value)));
      return None;
    }
  }

  lemma {:induction false} FirstConstError(es: seq<Expr>, i: nat)
    requires i <= |es| && ConstValues(es[..i]).Err?
    ensures ConstValues(es) == ConstValues(es[..i])
    decreases |es|
  {
    if i < |es| {
      var init := es[..|es| - 1];
      assert init[..i] == es[..i];
      FirstConstError(init, i);
    } else {
      assert es[..i] == es;
    }
  }

  /** Writing the conditions of a tag list numbers them one after the other. */
  lemma {:induction false} WrittenTagChain(d: Dialect, o: Output, vs: seq<Value>)
    ensures Written(d, o, JoinOr(TagAtoms(d, vs))) ==
            Output(o.buffer + JoinOr(NumberedTags(d, vs, o.paramIndex)), o.args + TagArgs(d, vs), o.paramIndex + |vs|)
  {
    hide Written;
    var n := |vs| - 1;
    if vs == [] {
      WrittenNothing(d, o);
      assert o.buffer + [] == o.buffer && o.args + [] == o.args;
    } else {
      var init, t := vs[..n], Leaf(TagAtom(d, vs[n]));
      var before := Output(o.buffer + JoinOr(NumberedTags(d, init, o.paramIndex)), o.args + TagArgs(d, init),
          o.paramIndex + n);
      WrittenTagChain(d, o, init);
      assert TagAtoms(d, vs)[..n] == TagAtoms(d, init) && TagAtoms(d, vs)[n] == TagAtom(d, vs[n]);
      assert NumberedTags(d, vs, o.paramIndex)[..n] == NumberedTags(d, init, o.paramIndex);
      assert TagArgs(d, vs) == TagArgs(d, init) + TokenArgs(t);
      OnePlaceholder(d, before.paramIndex);
      if n == 0 {
        WrittenToken(d, o, t);
      } else {
        var or: Token<Arg> := Or;
        WrittenToken(d, before, or);
        var middle := Written(d, before, [or]);
        OnePlaceholder(d, middle.paramIndex);
        WrittenToken(d, middle, t);
        WrittenTwice(d, before, [or], [t]);
        WrittenTwice(d, o, JoinOr(TagAtoms(d, init)), [or, t]);
        assert [or] + [t] == [or, t];
      }
    }
  }

  lemma WrittenList(d: Dialect, o: Output, vs: seq<Value>)
    ensures var sub, n := NumberedTags(d, vs, o.paramIndex), |vs|;
            Written(d, o, Show(AnyOf(TagAtoms(d, vs)))) ==
            Output(o.buffer + (if n == 1 then [Leaf(sub[0])] else [LeftParen] + JoinOr(sub) + [RightParen]),
                   o.args + TagArgs(d, vs), o.paramIndex + n)
  {
    hide Written, JoinOr;
    var sub, atoms := NumberedTags(d, vs, o.paramIndex), TagAtoms(d, vs);
    if |vs| == 1 {
      WrittenTagChain(d, o, vs);
      JoinOne(atoms);
      JoinOne(sub);
    } else {
      var left, right: Token<Arg> := LeftParen, RightParen;
      OnePlaceholder(d, o.paramIndex);
      WrittenToken(d, o, left);
      var begun := Written(d, o, [left]);
      WrittenTagChain(d, begun, vs);
      var listed := Written(d, begun, JoinOr(atoms));
      OnePlaceholder(d, listed.paramIndex);
      WrittenToken(d, listed, right);
      WrittenTwice(d, o, [left], JoinOr(atoms));
      WrittenTwice(d, o, [left] + JoinOr(atoms), [right]);
      assert listed.buffer + [RightParen] == o.buffer + ([LeftParen] + JoinOr(sub) + [RightParen]);
    }
  }

  lemma JoinOne<P>(atoms: seq<Atom<P>>)
    requires |atoms| == 1
    ensures JoinOr(atoms) == [Leaf(atoms[0])]
  {
  }
}
