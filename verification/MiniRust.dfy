/**
 The part of Rust that the refactorings of aa-patch act on: call-by-value expressions with effects, `let`
 blocks, early exit by `return` and `?`, and free-standing functions. Effects are an ordered trace; an
 effectful operation may answer by anything that happened before.
 */
module MiniRust {
  import opened Wrappers

  datatype Expr =
    | Num(n: int)
    | Name(x: string)
    | Op(op: string, args: seq<Expr>)    // effect-free operation
    | Do(op: string, args: seq<Expr>)    // effectful operation
    | Call(f: string, args: seq<Expr>)   // bare call `f(args)`
    | Block(body: Stmts)
    | If(cond: Expr, thn: Expr, els: Expr)
    | Return(e: Expr)
    | Try(e: Expr)                       // `e?`

  datatype Stmts = Let(x: string, rhs: Expr, rest: Stmts) | Tail(e: Expr)

  datatype FnDef = FnDef(name: string, params: seq<string>, body: Stmts)

  type Program = seq<FnDef>
  type Env = map<string, int>

  datatype Event = Event(op: string, args: seq<int>)

  /** What the program does not fix: operations, answers of the outside, which values `?` returns, constants. */
  datatype Machine = Machine(
    pure: (string, seq<int>) -> int,
    answer: (string, seq<int>, seq<Event>) -> int,
    fails: int -> bool,
    consts: map<string, int>)

  /** Stuck is a run that is out of fuel or has no meaning; Exit leaves the enclosing function. */
  datatype Outcome = Stuck | Value(v: int, trace: seq<Event>) | Exit(v: int, trace: seq<Event>)

  datatype ArgsOutcome = Values(vs: seq<int>, trace: seq<Event>) | Halt(r: Outcome)

  function Find(p: Program, name: string): Option<FnDef> {
    if p == [] then None else if p[0].name == name then Some(p[0]) else Find(p[1..], name)
  }

  lemma {:induction false} FindMember(p: Program, g: string)
    requires Find(p, g).Some?
    ensures Find(p, g).value in p && Find(p, g).value.name == g
  {
    if p[0].name != g {
      FindMember(p[1..], g);
    }
  }

  function BindOver(env: Env, params: seq<string>, vs: seq<int>): Env
    requires |params| == |vs|
    decreases |params|
  {
    if params == [] then env else BindOver(env[params[0] := vs[0]], params[1..], vs[1..])
  }

  /** Locals and functions share a namespace: a call of a name bound to a local finds a number, which cannot be called. */
  function Eval(m: Machine, p: Program, e: Expr, env: Env, t: seq<Event>, fuel: nat): Outcome
    decreases fuel, e
  {
    match e
    case Num(n) => Value(n, t)
    case Name(x) =>
      if x in env then Value(env[x], t) else if x in m.consts then Value(m.consts[x], t) else Stuck
    case Op(op, args) =>
      (match EvalArgs(m, p, args, env, t, fuel)
       case Halt(r) => r
       case Values(vs, t') => Value(m.pure(op, vs), t'))
    case Do(op, args) =>
      (match EvalArgs(m, p, args, env, t, fuel)
       case Halt(r) => r
       case Values(vs, t') => Value(m.answer(op, vs, t'), t' + [Event(op, vs)]))
    case Call(f, args) =>
      if f in env then Stuck
      else
        (match EvalArgs(m, p, args, env, t, fuel)
         case Halt(r) => r
         case Values(vs, t') =>
           var def := Find(p, f);
           if fuel == 0 || def.None? || |def.value.params| != |vs| then Stuck
           else Returned(EvalStmts(m, p, def.value.body, BindOver(map[], def.value.params, vs), t', fuel - 1)))
    case Block(b) => EvalStmts(m, p, b, env, t, fuel)
    case If(c, a, b) =>
      (match Eval(m, p, c, env, t, fuel)
       case Value(v, t') => if v != 0 then Eval(m, p, a, env, t', fuel) else Eval(m, p, b, env, t', fuel)
       case r => r)
    case Return(x) =>
      (match Eval(m, p, x, env, t, fuel)
       case Value(v, t') => Exit(v, t')
       case r => r)
    case Try(x) =>
      (match Eval(m, p, x, env, t, fuel)
       case Value(v, t') => if m.fails(v) then Exit(v, t') else Value(v, t')
       case r => r)
  }

  /** A function call ends where its body does, normally or by early exit. */
  function Returned(r: Outcome): Outcome {
    if r.Exit? then Value(r.v, r.trace) else r
  }

  function EvalArgs(m: Machine, p: Program, args: seq<Expr>, env: Env, t: seq<Event>, fuel: nat): (r: ArgsOutcome)
    ensures r.Values? ==> |r.vs| == |args|
    ensures r.Halt? ==> !r.r.Value?
    decreases fuel, args
  {
    if args == [] then Values([], t)
    else
      match Eval(m, p, args[0], env, t, fuel)
      case Value(v, t') =>
        (match EvalArgs(m, p, args[1..], env, t', fuel)
         case Values(vs, t'') => Values([v] + vs, t'')
         case h => h)
      case r => Halt(r)
  }

  function EvalStmts(m: Machine, p: Program, b: Stmts, env: Env, t: seq<Event>, fuel: nat): Outcome
    decreases fuel, b
  {
    match b
    case Tail(e) => Eval(m, p, e, env, t, fuel)
    case Let(x, rhs, rest) =>
      match Eval(m, p, rhs, env, t, fuel)
      case Value(v, t') => EvalStmts(m, p, rest, env[x := v], t', fuel)
      case r => r
  }

  /** Some amount of fuel gives this outcome. */
  ghost predicate EvaluatesTo(m: Machine, p: Program, e: Expr, env: Env, t: seq<Event>, r: Outcome) {
    !r.Stuck? && exists fuel: nat :: Eval(m, p, e, env, t, fuel) == r
  }

  // ----- free names, those of called functions included -----

  function Free(e: Expr): set<string> {
    match e
    case Num(_) => {}
    case Name(x) => {x}
    case Op(_, args) => FreeArgs(args)
    case Do(_, args) => FreeArgs(args)
    case Call(f, args) => {f} + FreeArgs(args)
    case Block(b) => FreeStmts(b)
    case If(c, a, b) => Free(c) + Free(a) + Free(b)
    case Return(x) => Free(x)
    case Try(x) => Free(x)
  }

  function FreeArgs(args: seq<Expr>): set<string> {
    if args == [] then {} else Free(args[0]) + FreeArgs(args[1..])
  }

  function FreeStmts(b: Stmts): set<string> {
    match b
    case Tail(e) => Free(e)
    case Let(x, rhs, rest) => Free(rhs) + (FreeStmts(rest) - {x})
  }

  // ----- more fuel never changes an outcome -----

  lemma {:induction false} MoreFuel(m: Machine, p: Program, e: Expr, env: Env, t: seq<Event>, fuel: nat, more: nat)
    requires fuel <= more && !Eval(m, p, e, env, t, fuel).Stuck?
    ensures Eval(m, p, e, env, t, more) == Eval(m, p, e, env, t, fuel)
    decreases fuel, e
  {
    match e
    case Num(_) =>
    case Name(_) =>
    case Op(_, args) => MoreFuelArgs(m, p, args, env, t, fuel, more);
    case Do(_, args) => MoreFuelArgs(m, p, args, env, t, fuel, more);
    case Call(f, args) =>
      MoreFuelArgs(m, p, args, env, t, fuel, more);
      var a := EvalArgs(m, p, args, env, t, fuel);
      if a.Values? {
        var def := Find(p, f).value;
        MoreFuelStmts(m, p, def.body, BindOver(map[], def.params, a.vs), a.trace, fuel - 1, more - 1);
      }
    case Block(b) => MoreFuelStmts(m, p, b, env, t, fuel, more);
    case If(c, a, b) =>
      MoreFuel(m, p, c, env, t, fuel, more);
      var r := Eval(m, p, c, env, t, fuel);
      if r.Value? {
        MoreFuel(m, p, if r.v != 0 then a else b, env, r.trace, fuel, more);
      }
    case Return(x) => MoreFuel(m, p, x, env, t, fuel, more);
    case Try(x) => MoreFuel(m, p, x, env, t, fuel, more);
  }

  lemma {:induction false} MoreFuelArgs(m: Machine, p: Program, args: seq<Expr>, env: Env, t: seq<Event>, fuel: nat, more: nat)
    requires fuel <= more && EvalArgs(m, p, args, env, t, fuel) != Halt(Stuck)
    ensures EvalArgs(m, p, args, env, t, more) == EvalArgs(m, p, args, env, t, fuel)
    decreases fuel, args
  {
    if args != [] {
      MoreFuel(m, p, args[0], env, t, fuel, more);
      var r := Eval(m, p, args[0], env, t, fuel);
      if r.Value? {
        MoreFuelArgs(m, p, args[1..], env, r.trace, fuel, more);
      }
    }
  }

  lemma {:induction false} MoreFuelStmts(m: Machine, p: Program, b: Stmts, env: Env, t: seq<Event>, fuel: nat, more: nat)
    requires fuel <= more && !EvalStmts(m, p, b, env, t, fuel).Stuck?
    ensures EvalStmts(m, p, b, env, t, more) == EvalStmts(m, p, b, env, t, fuel)
    decreases fuel, b
  {
    match b
    case Tail(e) => MoreFuel(m, p, e, env, t, fuel, more);
    case Let(x, rhs, rest) =>
      MoreFuel(m, p, rhs, env, t, fuel, more);
      var r := Eval(m, p, rhs, env, t, fuel);
      if r.Value? {
        MoreFuelStmts(m, p, rest, env[x := r.v], r.trace, fuel, more);
      }
  }

  /** An expression has at most one outcome. */
  lemma EvaluatesToUnique(m: Machine, p: Program, e: Expr, env: Env, t: seq<Event>, r: Outcome, s: Outcome)
    requires EvaluatesTo(m, p, e, env, t, r) && EvaluatesTo(m, p, e, env, t, s)
    ensures r == s
  {
    var j: nat :| Eval(m, p, e, env, t, j) == r;
    var k: nat :| Eval(m, p, e, env, t, k) == s;
    MoreFuel(m, p, e, env, t, if j <= k then j else k, if j <= k then k else j);
  }

  // ----- only the free names matter -----

  ghost predicate AgreeOn(names: set<string>, env: Env, other: Env) {
    forall x :: x in names ==> (x in env <==> x in other) && (x in env ==> env[x] == other[x])
  }

  lemma {:induction false} OnlyFree(m: Machine, p: Program, e: Expr, env: Env, other: Env, t: seq<Event>, fuel: nat)
    requires AgreeOn(Free(e), env, other)
    ensures Eval(m, p, e, env, t, fuel) == Eval(m, p, e, other, t, fuel)
    decreases fuel, e
  {
    match e
    case Num(_) =>
    case Name(x) => assert x in Free(e);
    case Op(_, args) => OnlyFreeArgs(m, p, args, env, other, t, fuel);
    case Do(_, args) => OnlyFreeArgs(m, p, args, env, other, t, fuel);
    case Call(f, args) =>
      assert f in Free(e);
      OnlyFreeArgs(m, p, args, env, other, t, fuel);
    case Block(b) => OnlyFreeStmts(m, p, b, env, other, t, fuel);
    case If(c, a, b) =>
      OnlyFree(m, p, c, env, other, t, fuel);
      var r := Eval(m, p, c, env, t, fuel);
      if r.Value? {
        OnlyFree(m, p, if r.v != 0 then a else b, env, other, r.trace, fuel);
      }
    case Return(x) => OnlyFree(m, p, x, env, other, t, fuel);
    case Try(x) => OnlyFree(m, p, x, env, other, t, fuel);
  }

  lemma {:induction false} OnlyFreeArgs(m: Machine, p: Program, args: seq<Expr>, env: Env, other: Env, t: seq<Event>, fuel: nat)
    requires AgreeOn(FreeArgs(args), env, other)
    ensures EvalArgs(m, p, args, env, t, fuel) == EvalArgs(m, p, args, other, t, fuel)
    decreases fuel, args
  {
    if args != [] {
      OnlyFree(m, p, args[0], env, other, t, fuel);
      var r := Eval(m, p, args[0], env, t, fuel);
      if r.Value? {
        OnlyFreeArgs(m, p, args[1..], env, other, r.trace, fuel);
      }
    }
  }

  lemma {:induction false} OnlyFreeStmts(m: Machine, p: Program, b: Stmts, env: Env, other: Env, t: seq<Event>, fuel: nat)
    requires AgreeOn(FreeStmts(b), env, other)
    ensures EvalStmts(m, p, b, env, t, fuel) == EvalStmts(m, p, b, other, t, fuel)
    decreases fuel, b
  {
    match b
    case Tail(e) => OnlyFree(m, p, e, env, other, t, fuel);
    case Let(x, rhs, rest) =>
      OnlyFree(m, p, rhs, env, other, t, fuel);
      var r := Eval(m, p, rhs, env, t, fuel);
      if r.Value? {
        OnlyFreeStmts(m, p, rest, env[x := r.v], other[x := r.v], r.trace, fuel);
      }
  }

  ghost function ParamSet(params: seq<string>): set<string> {
    set x | x in params
  }

  lemma {:induction false} BindOverKeys(env: Env, params: seq<string>, vs: seq<int>)
    requires |params| == |vs|
    ensures BindOver(env, params, vs).Keys == env.Keys + ParamSet(params)
    decreases |params|
  {
    if params != [] {
      BindOverKeys(env[params[0] := vs[0]], params[1..], vs[1..]);
      assert params == [params[0]] + params[1..];
    }
  }

  /** Names that are not parameters keep their value; parameters get theirs whatever was there before. */
  lemma {:induction false} BindOverAgree(env: Env, other: Env, params: seq<string>, vs: seq<int>, names: set<string>)
    requires |params| == |vs|
    requires AgreeOn(names - ParamSet(params), env, other)
    ensures AgreeOn(names, BindOver(env, params, vs), BindOver(other, params, vs))
    decreases |params|
  {
    if params != [] {
      assert params == [params[0]] + params[1..];
      var env', other' := env[params[0] := vs[0]], other[params[0] := vs[0]];
      assert AgreeOn(names - ParamSet(params[1..]), env', other');
      BindOverAgree(env', other', params[1..], vs[1..], names);
    } else {
      assert names - ParamSet(params) == names;
    }
  }

  // ----- counting calls -----

  /** Bare calls of `f`. */
  function Calls(e: Expr, f: string): nat {
    match e
    case Num(_) => 0
    case Name(_) => 0
    case Op(_, args) => CallsArgs(args, f)
    case Do(_, args) => CallsArgs(args, f)
    case Call(g, args) => (if g == f then 1 else 0) + CallsArgs(args, f)
    case Block(b) => CallsStmts(b, f)
    case If(c, a, b) => Calls(c, f) + Calls(a, f) + Calls(b, f)
    case Return(x) => Calls(x, f)
    case Try(x) => Calls(x, f)
  }

  function CallsArgs(args: seq<Expr>, f: string): nat {
    if args == [] then 0 else Calls(args[0], f) + CallsArgs(args[1..], f)
  }

  function CallsStmts(b: Stmts, f: string): nat {
    match b
    case Tail(e) => Calls(e, f)
    case Let(_, rhs, rest) => Calls(rhs, f) + CallsStmts(rest, f)
  }

  // ----- early exits -----

  /** No `return` and no `?`. The gate of the code checks `return` only. */
  predicate NoExit(e: Expr) {
    match e
    case Num(_) => true
    case Name(_) => true
    case Op(_, args) => NoExitArgs(args)
    case Do(_, args) => NoExitArgs(args)
    case Call(_, args) => NoExitArgs(args)
    case Block(b) => NoExitStmts(b)
    case If(c, a, b) => NoExit(c) && NoExit(a) && NoExit(b)
    case Return(_) => false
    case Try(_) => false
  }

  predicate NoExitArgs(args: seq<Expr>) {
    args == [] || (NoExit(args[0]) && NoExitArgs(args[1..]))
  }

  predicate NoExitStmts(b: Stmts) {
    match b
    case Tail(e) => NoExit(e)
    case Let(_, rhs, rest) => NoExit(rhs) && NoExitStmts(rest)
  }

  lemma {:induction false} NoExitMeaning(m: Machine, p: Program, e: Expr, env: Env, t: seq<Event>, fuel: nat)
    requires NoExit(e)
    ensures !Eval(m, p, e, env, t, fuel).Exit?
    decreases e
  {
    match e
    case Num(_) =>
    case Name(_) =>
    case Op(_, args) => NoExitMeaningArgs(m, p, args, env, t, fuel);
    case Do(_, args) => NoExitMeaningArgs(m, p, args, env, t, fuel);
    case Call(_, args) => NoExitMeaningArgs(m, p, args, env, t, fuel);
    case Block(b) => NoExitMeaningStmts(m, p, b, env, t, fuel);
    case If(c, a, b) =>
      NoExitMeaning(m, p, c, env, t, fuel);
      var r := Eval(m, p, c, env, t, fuel);
      if r.Value? {
        NoExitMeaning(m, p, a, env, r.trace, fuel);
        NoExitMeaning(m, p, b, env, r.trace, fuel);
      }
  }

  lemma {:induction false} NoExitMeaningArgs(m: Machine, p: Program, args: seq<Expr>, env: Env, t: seq<Event>, fuel: nat)
    requires NoExitArgs(args)
    ensures EvalArgs(m, p, args, env, t, fuel).Halt? ==> EvalArgs(m, p, args, env, t, fuel).r.Stuck?
    decreases args
  {
    if args != [] {
      NoExitMeaning(m, p, args[0], env, t, fuel);
      var r := Eval(m, p, args[0], env, t, fuel);
      if r.Value? {
        NoExitMeaningArgs(m, p, args[1..], env, r.trace, fuel);
      }
    }
  }

  lemma {:induction false} NoExitMeaningStmts(m: Machine, p: Program, b: Stmts, env: Env, t: seq<Event>, fuel: nat)
    requires NoExitStmts(b)
    ensures !EvalStmts(m, p, b, env, t, fuel).Exit?
    decreases b
  {
    match b
    case Tail(e) => NoExitMeaning(m, p, e, env, t, fuel);
    case Let(x, rhs, rest) =>
      NoExitMeaning(m, p, rhs, env, t, fuel);
      var r := Eval(m, p, rhs, env, t, fuel);
      if r.Value? {
        NoExitMeaningStmts(m, p, rest, env[x := r.v], r.trace, fuel);
      }
  }
}
