/** From a checked CEL expression to a condition tree. */
module FilterCompile {
  import opened Options
  import opened FilterSchema

  datatype Constant = CString(s: string) | CInt(i: int) | CUint(u: nat) | CBool(b: bool) | CNull | CBytes

  datatype Expr =
    | Ident(name: string)
    | Const(c: Constant)
    | Call(fn: string, target: Option<Expr>, args: seq<Expr>)
    | ListExpr(elements: seq<Expr>)
    | Comprehension(iterVar: string, iterRange: Expr, accuVar: string, accuInit: Expr, loopStep: Expr)
    | OtherExpr

  const TWO_63: int := 0x8000_0000_0000_0000
  const TWO_64: int := 0x1_0000_0000_0000_0000

  /** The 64-bit integer an exact result is stored as. */
  function Wrap(i: int): int { (i + TWO_63) % TWO_64 - TWO_63 }

  predicate InInt64(i: int) { -TWO_63 <= i < TWO_63 }

  /** The stored integer fits and differs from the exact one by a multiple of 2 to the 64. */
  lemma WrapIff(i: int, w: int)
    ensures Wrap(i) == w <==> InInt64(w) && (i - w) % 0x1_0000_0000_0000_0000 == 0
  {
    var q := (i + TWO_63) / TWO_64;
    assert Wrap(i) == i - q * TWO_64;
  }

  lemma WrapInRange(i: int)
    ensures InInt64(i) ==> Wrap(i) == i
  {}

  function GetConstValue(e: Expr): Option<Literal> {
    match e
    case Const(CString(s)) => Some(LString(s))
    case Const(CInt(i)) => Some(LInt(i))
    case Const(CUint(u)) => Some(LInt(Wrap(u)))
    case Const(CBool(b)) => Some(LBool(b))
    case Const(CNull) => Some(LNull)
    case _ => None
  }

  function Arithmetic(fn: string, a: int, b: int): int {
    if fn == "_+_" then a + b else if fn == "_-_" then a - b else a * b
  }

  predicate IsArithmetic(fn: string) { fn == "_+_" || fn == "_-_" || fn == "_*_" }

  /** Constant integer arithmetic; `None` when the expression is not of that kind. */
  function EvaluateNumeric(e: Expr, now: int): Result<Option<int>, string> {
    match GetConstValue(e)
    case Some(lit) => Ok(if lit.LInt? then Some(lit.i) else None)
    case None =>
      if !e.Call? then Ok(None)
      else if e.fn == "now" then Ok(Some(now))
      else if IsArithmetic(e.fn) then
        if |e.args| != 2 then Err("arithmetic requires two arguments")
        else
          var left :- EvaluateNumeric(e.args[0], now);
          if left.None? then Ok(None)
          else
            var right :- EvaluateNumeric(e.args[1], now);
            Ok(if right.None? then None else Some(Wrap(Arithmetic(e.fn, left.value, right.value))))
      else Ok(None)
  }

  function EvaluateBool(e: Expr): Result<Option<bool>, string> {
    match GetConstValue(e)
    case Some(lit) => Ok(if lit.LBool? then Some(lit.b) else None)
    case None =>
      if e.Call? && e.fn == "!_" then
        if |e.args| != 1 then Err("NOT expects exactly one argument")
        else
          var v :- EvaluateBool(e.args[0]);
          Ok(if v.None? then None else Some(!v.value))
      else Ok(None)
  }

  function BuildValue(e: Expr, sc: Schema, now: int): Result<ValueExpr, string> {
    if e.Ident? then (if e.name in sc then Ok(FieldRef(e.name)) else Err("unknown identifier"))
    else match GetConstValue(e)
      case Some(lit) => Ok(LiteralValue(lit))
      case None =>
        var num :- EvaluateNumeric(e, now);
        if num.Some? then Ok(LiteralValue(LInt(num.value)))
        else
          var b :- EvaluateBool(e);
          if b.Some? then Ok(LiteralValue(LBool(b.value)))
          else if e.Call? && e.fn == "size" then
            if |e.args| != 1 then Err("size() expects one argument")
            else
              var arg :- BuildValue(e.args[0], sc, now);
              Ok(FunctionValue("size", [arg]))
          else Err("unsupported value expression")
  }

  function BuildValues(es: seq<Expr>, sc: Schema, now: int): Result<seq<ValueExpr>, string> {
    if es == [] then Ok([])
    else
      var v :- BuildValue(es[0], sc, now);
      var rest :- BuildValues(es[1..], sc, now);
      Ok([v] + rest)
  }

  function ToOperator(fn: string): Option<CompareOp> {
    if fn == "_==_" then Some(Eq) else if fn == "_!=_" then Some(Neq) else if fn == "_<_" then Some(Lt)
    else if fn == "_>_" then Some(Gt) else if fn == "_<=_" then Some(Lte) else if fn == "_>=_" then Some(Gte) else None
  }

  function BuildComparison(op: CompareOp, args: seq<Expr>, sc: Schema, now: int): Result<Condition, string> {
    if |args| != 2 then Err("comparison expects two arguments")
    else
      var left :- BuildValue(args[0], sc, now);
      var right :- BuildValue(args[1], sc, now);
      if left.FieldRef? then
        var def := if left.name in sc && sc[left.name].kind.VirtualAlias? then ResolveAlias(sc, left.name)
          else Lookup(sc, left.name);
        if def.None? then Err("unknown identifier or invalid alias")
        else if def.value.allowedOps.Some? && op !in def.value.allowedOps.value then
          Err("operator not allowed for field")
        else Ok(Comparison(left, op, right))
      else Ok(Comparison(left, op, right))
  }

  function BuildIn(args: seq<Expr>, sc: Schema, now: int): Result<Condition, string> {
    if |args| != 2 then Err("in operator expects two arguments")
    else if args[0].Ident? && args[0].name !in sc then Err("unknown identifier")
    else if args[0].Ident? && sc[args[0].name].kind.VirtualAlias? && ResolveAlias(sc, args[0].name).None? then
      Err("invalid alias")
    else if args[0].Ident? && args[1].ListExpr? then
      var values :- BuildValues(args[1].elements, sc, now);
      Ok(InCond(FieldRef(args[0].name), values))
    else if args[1].Ident? then
      if args[1].name !in sc then Err("unknown identifier")
      else
        var element :- BuildValue(args[0], sc, now);
        Ok(ElementIn(element, args[1].name))
    else Err("invalid use of in operator")
  }

  function BuildContains(target: Option<Expr>, args: seq<Expr>, sc: Schema): Result<Condition, string> {
    if target.None? then Err("contains requires a target")
    else if !target.value.Ident? then Err("expression is not an identifier")
    else if target.value.name !in sc then Err("unknown identifier")
    else if !sc[target.value.name].supportsContains then Err("identifier does not support contains()")
    else if |args| != 1 then Err("contains expects exactly one argument")
    else match GetConstValue(args[0])
      case None => Err("contains only supports literal arguments")
      case Some(lit) =>
        if lit.LString? then Ok(ContainsCond(target.value.name, lit.s)) else Err("contains argument must be a string")
  }

  /** The predicate of a comprehension step: a string test of the iteration variable against a constant. */
  function BuildPredicate(e: Expr, iterVar: string): Result<TagPredicate, string> {
    if !e.Call? then Err("comprehension predicate must be a function call")
    else if e.fn != "startsWith" && e.fn != "endsWith" && e.fn != "contains" then Err("unsupported predicate function")
    else if e.target != Some(Ident(iterVar)) then Err("target must be the iteration variable")
    else if |e.args| != 1 then Err("expects exactly one argument")
    else match GetConstValue(e.args[0])
      case Some(LString(s)) =>
        Ok(if e.fn == "startsWith" then StartsWith(s) else if e.fn == "endsWith" then EndsWith(s) else Contains(s))
      case _ => Err("argument must be a constant string")
  }

  /** Only exists() is recognised: a constant start that is not true, and an OR step. */
  predicate IsExists(accuInit: Expr, loopStep: Expr) {
    accuInit.Const? && accuInit.c != CBool(true) && loopStep.Call? && loopStep.fn == "_||_"
  }

  function BuildComprehension(e: Expr, sc: Schema): Result<Condition, string>
    requires e.Comprehension?
  {
    if !IsExists(e.accuInit, e.loopStep) then Err("unsupported comprehension type; only exists() is supported")
    else if !e.iterRange.Ident? then Err("comprehension range must be a field identifier")
    else if e.iterRange.name !in sc then Err("unknown field in comprehension")
    else if !sc[e.iterRange.name].kind.JsonList? then Err("field does not support comprehension")
    else if |e.loopStep.args| != 2 then Err("comprehension loop step must have two arguments")
    else
      var pred :- BuildPredicate(e.loopStep.args[1], e.iterVar);
      Ok(Exists(e.iterRange.name, pred))
  }

  function BuildCondition(e: Expr, sc: Schema, now: int): Result<Condition, string> {
    match e
    case Call(fn, target, args) =>
      if fn == "_&&_" || fn == "_||_" then
        if |args| != 2 then Err("logical operator expects two arguments")
        else
          var left :- BuildCondition(args[0], sc, now);
          var right :- BuildCondition(args[1], sc, now);
          Ok(Logical(if fn == "_&&_" then AndOp else OrOp, left, right))
      else if fn == "!_" then
        if |args| != 1 then Err("logical NOT expects one argument")
        else
          var child :- BuildCondition(args[0], sc, now);
          Ok(NotCond(child))
      else if ToOperator(fn).Some? then BuildComparison(ToOperator(fn).value, args, sc, now)
      else if fn == "@in" then BuildIn(args, sc, now)
      else if fn == "contains" then BuildContains(target, args, sc)
      else
        var v :- EvaluateBool(e);
        if v.Some? then Ok(FilterSchema.Constant(v.value)) else Err("unsupported call expression")
    case Const(_) =>
      (match GetConstValue(e)
       case Some(LBool(b)) => Ok(FilterSchema.Constant(b))
       case Some(LInt(i)) => Ok(FilterSchema.Constant(i != 0))
       case _ => Err("filter must evaluate to a boolean value"))
    case Ident(name) =>
      if name !in sc then Err("unknown identifier")
      else if !sc[name].ftype.BoolType? then Err("identifier is not boolean")
      else Ok(FieldPredicate(name))
    case Comprehension(_, _, _, _, _) => BuildComprehension(e, sc)
    case _ => Err("unsupported top-level expression")
  }
}
