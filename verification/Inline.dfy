/**
 `InlineFunction` of crates/aa-patch/src/inline.rs as a program transformation: every bare call `f(a1, a2)`
 becomes `({ let p1 = a1; let p2 = a2; body })` and the definition of `f` disappears.
 */
module Inline {
  import opened Wrappers
  import opened MiniRust
  import opened Parts

  /** The block of the replacement: one `let` per parameter, then the body. */
  function LetAll(params: seq<string>, args: seq<Expr>, body: Stmts): Stmts
    requires |params| == |args|
    decreases |params|
  {
    if params == [] then body else Let(params[0], args[0], LetAll(params[1..], args[1..], body))
  }

  /** The transformation. The argument text of a replaced call is copied as it stands. */
  function InlineExpr(e: Expr, f: FnDef): Expr {
    match e
    case Num(_) => e
    case Name(_) => e
    case Op(op, args) => Op(op, InlineArgs(args, f))
    case Do(op, args) => Do(op, InlineArgs(args, f))
    case Call(g, args) =>
      if g == f.name && |args| == |f.params| then Block(LetAll(f.params, args, f.body)) else Call(g, InlineArgs(args, f))
    case Block(b) => Block(InlineStmts(b, f))
    case If(c, a, b) => If(InlineExpr(c, f), InlineExpr(a, f), InlineExpr(b, f))
    case Return(x) => Return(InlineExpr(x, f))
    case Try(x) => Try(InlineExpr(x, f))
  }

  function InlineArgs(args: seq<Expr>, f: FnDef): (r: seq<Expr>)
    ensures |r| == |args|
  {
    if args == [] then [] else [InlineExpr(args[0], f)] + InlineArgs(args[1..], f)
  }

  function InlineStmts(b: Stmts, f: FnDef): Stmts {
    match b
    case Tail(e) => Tail(InlineExpr(e, f))
    case Let(x, rhs, rest) => Let(x, InlineExpr(rhs, f), InlineStmts(rest, f))
  }

  /** Every other function with its calls inlined; the definition of `f` is removed. */
  function InlineProgram(p: Program, f: FnDef): Program {
    if p == [] then []
    else if p[0].name == f.name then InlineProgram(p[1..], f)
    else [p[0].(body := InlineStmts(p[0].body, f))] + InlineProgram(p[1..], f)
  }

  // ----- counting, as the gates do -----

  /** Occurrences of the identifier `f` of any kind. */
  function Idents(e: Expr, f: string): nat {
    match e
    case Num(_) => 0
    case Name(x) => if x == f then 1 else 0
    case Op(op, args) => (if op == f then 1 else 0) + IdentsArgs(args, f)
    case Do(op, args) => (if op == f then 1 else 0) + IdentsArgs(args, f)
    case Call(g, args) => (if g == f then 1 else 0) + IdentsArgs(args, f)
    case Block(b) => IdentsStmts(b, f)
    case If(c, a, b) => Idents(c, f) + Idents(a, f) + Idents(b, f)
    case Return(x) => Idents(x, f)
    case Try(x) => Idents(x, f)
  }

  function IdentsArgs(args: seq<Expr>, f: string): nat {
    if args == [] then 0 else Idents(args[0], f) + IdentsArgs(args[1..], f)
  }

  function IdentsStmts(b: Stmts, f: string): nat {
    match b
    case Tail(e) => Idents(e, f)
    case Let(x, rhs, rest) => (if x == f then 1 else 0) + Idents(rhs, f) + IdentsStmts(rest, f)
  }

  // ----- the side conditions -----

  /**
   Later arguments do not mention a parameter bound before them, as a value or as a callee; except one that is bound
   to the local of the same name, which changes nothing.
   */
  ghost predicate ArgsIndependent(params: seq<string>, args: seq<Expr>, scope: set<string>)
    requires |params| == |args|
    decreases |params|
  {
    params == [] ||
    (&& (params[0] !in FreeArgs(args[1..]) || (params[0] in scope && args[0] == Name(params[0])))
     && ArgsIndependent(params[1..], args[1..], scope))
  }

  /**
   Every call of `f` in `e`, with the locals `scope` around it: reaches `f`, has the right number of arguments, no call
   of `f` inside them, no mention of an earlier parameter; and no local hides a constant or a function the body of `f`
   uses.
   */
  ghost predicate Inlinable(e: Expr, f: FnDef, scope: set<string>) {
    match e
    case Num(_) => true
    case Name(_) => true
    case Op(_, args) => InlinableArgs(args, f, scope)
    case Do(_, args) => InlinableArgs(args, f, scope)
    case Call(g, args) =>
      if g == f.name then
        && f.name !in scope
        && |args| == |f.params|
        && CallsArgs(args, f.name) == 0
        && ArgsIndependent(f.params, args, scope)
        && scope !! (FreeStmts(f.body) - ParamSet(f.params))
      else InlinableArgs(args, f, scope)
    case Block(b) => InlinableStmts(b, f, scope)
    case If(c, a, b) => Inlinable(c, f, scope) && Inlinable(a, f, scope) && Inlinable(b, f, scope)
    case Return(x) => Inlinable(x, f, scope)
    case Try(x) => Inlinable(x, f, scope)
  }

  ghost predicate InlinableArgs(args: seq<Expr>, f: FnDef, scope: set<string>) {
    args == [] || (Inlinable(args[0], f, scope) && InlinableArgs(args[1..], f, scope))
  }

  ghost predicate InlinableStmts(b: Stmts, f: FnDef, scope: set<string>) {
    match b
    case Tail(e) => Inlinable(e, f, scope)
    case Let(x, rhs, rest) => Inlinable(rhs, f, scope) && InlinableStmts(rest, f, scope + {x})
  }

  /** `f` is the one definition of its name, it neither exits early nor calls itself, and all its calls can be inlined. */
  ghost predicate InlinableProgram(p: Program, f: FnDef) {
    && Find(p, f.name) == Some(f)
    && NoExitStmts(f.body)
    && CallsStmts(f.body, f.name) == 0
    && forall g :: g in p && g.name != f.name ==> InlinableStmts(g.body, f, ParamSet(g.params))
  }

  // The same conditions, asked of every part that is a call.

  lemma {:induction false} ArgsIndependentIs(params: seq<string>, args: seq<Expr>, scope: set<string>)
    requires |params| == |args|
    ensures ArgsIndependent(params, args, scope) <==>
            forall i, j :: 0 <= i < j < |args| ==> PairOk(params, args, scope, i, j)
    decreases |params|
  {
    if params != [] {
      ArgsIndependentIs(params[1..], args[1..], scope);
      FreeOfOne(args[1..], params[0]);
      TailPairs(params, args, scope);
      var rest := args[1..];
      if params[0] in FreeArgs(rest) {
        var j :| 0 <= j < |rest| && params[0] in Free(rest[j]);
        assert args[j + 1] == rest[j];
        assert PairOk(params, args, scope, 0, j + 1) <==> params[0] in scope && args[0] == Name(params[0]);
      } else {
        forall j | 0 < j < |args| ensures PairOk(params, args, scope, 0, j) {
          assert args[j] == rest[j - 1];
        }
      }
    }
  }

  /** Argument `j` does not mention the parameter bound before it to argument `i`, unless that is the local of this name. */
  ghost predicate PairOk(params: seq<string>, args: seq<Expr>, scope: set<string>, i: nat, j: nat)
    requires |params| == |args| && i < j < |args|
  {
    params[i] in Free(args[j]) ==> params[i] in scope && args[i] == Name(params[i])
  }

  lemma TailPairs(params: seq<string>, args: seq<Expr>, scope: set<string>)
    requires |params| == |args| > 0
    ensures (forall i, j :: 0 <= i < j < |args| ==> PairOk(params, args, scope, i, j)) <==>
            && (forall j :: 0 < j < |args| ==> PairOk(params, args, scope, 0, j))
            && (forall i, j :: 0 <= i < j < |args| - 1 ==> PairOk(params[1..], args[1..], scope, i, j))
  {
    assert forall i, j :: 0 <= i < j < |args| - 1 ==>
                            (PairOk(params[1..], args[1..], scope, i, j) <==> PairOk(params, args, scope, i + 1, j + 1));
    if forall i, j :: 0 <= i < j < |args| - 1 ==> PairOk(params[1..], args[1..], scope, i, j) {
      forall i, j | 0 < i < j < |args| ensures PairOk(params, args, scope, i, j) {
        assert PairOk(params[1..], args[1..], scope, i - 1, j - 1);
      }
    }
  }

  lemma {:induction false} FreeOfOne(args: seq<Expr>, x: string)
    ensures x in FreeArgs(args) <==> exists j :: 0 <= j < |args| && x in Free(args[j])
  {
    if args != [] {
      FreeOfOne(args[1..], x);
      assert args == [args[0]] + args[1..];
    }
  }

  /**
   A part that calls `f` reaches `f`, has the right number of arguments without a call of `f` in them, none of which
   mentions an earlier parameter; and no local around it hides what the body of `f` uses.
   */
  ghost predicate CanInlineAt(x: Part, f: FnDef) {
    x.IsCallOf(f.name) ==>
      && f.name !in x.scope
      && |x.e.args| == |f.params|
      && All(PartsOfArgs(x.e.args, x.scope), NotCallOf(f.name))
      && (forall i, j :: 0 <= i < j < |x.e.args| ==> PairOk(f.params, x.e.args, x.scope, i, j))
      && x.scope !! (FreeStmts(f.body) - ParamSet(f.params))
  }

  ghost function CanInline(f: FnDef): Part -> bool {
    (x: Part) => CanInlineAt(x, f)
  }

  /** All calls of `f` in `e` can be inlined exactly if each part that calls it meets the conditions where it stands. */
  lemma {:induction false} InlinableIs(e: Expr, scope: set<string>, f: FnDef)
    ensures Inlinable(e, f, scope) <==> All(PartsOf(e, scope), CanInline(f))
  {
    AllOf(e, scope, CanInline(f));
    match e
    case Num(_) =>
    case Name(_) =>
    case Op(_, args) => InlinableIsArgs(args, scope, f);
    case Do(_, args) => InlinableIsArgs(args, scope, f);
    case Call(g, args) =>
      InlinableIsArgs(args, scope, f);
      NoCallsIsArgs(args, scope, f.name);
      if |args| == |f.params| {
        ArgsIndependentIs(f.params, args, scope);
      }
      assert All(PartsOfArgs(args, scope), NotCallOf(f.name)) ==> All(PartsOfArgs(args, scope), CanInline(f));
    case Block(b) => InlinableIsStmts(b, scope, f);
    case If(c, a, b) =>
      InlinableIs(c, scope, f);
      InlinableIs(a, scope, f);
      InlinableIs(b, scope, f);
    case Return(x) => InlinableIs(x, scope, f);
    case Try(x) => InlinableIs(x, scope, f);
  }

  lemma {:induction false} InlinableIsArgs(args: seq<Expr>, scope: set<string>, f: FnDef)
    ensures InlinableArgs(args, f, scope) <==> All(PartsOfArgs(args, scope), CanInline(f))
  {
    AllOfArgs(args, scope, CanInline(f));
    if args != [] {
      InlinableIs(args[0], scope, f);
      InlinableIsArgs(args[1..], scope, f);
    }
  }

  lemma {:induction false} InlinableIsStmts(b: Stmts, scope: set<string>, f: FnDef)
    ensures InlinableStmts(b, f, scope) <==> All(PartsOfStmts(b, scope), CanInline(f))
  {
    AllOfStmts(b, scope, CanInline(f));
    match b
    case Tail(e) => InlinableIs(e, scope, f);
    case Let(x, rhs, rest) =>
      InlinableIs(rhs, scope, f);
      InlinableIsStmts(rest, scope + {x}, f);
  }

  // ----- no call is left -----

  lemma {:induction false} NoCallsNothingToDo(e: Expr, f: FnDef)
    requires Calls(e, f.name) == 0
    ensures InlineExpr(e, f) == e
  {
    match e
    case Num(_) =>
    case Name(_) =>
    case Op(_, args) => NoCallsNothingToDoArgs(args, f);
    case Do(_, args) => NoCallsNothingToDoArgs(args, f);
    case Call(_, args) => NoCallsNothingToDoArgs(args, f);
    case Block(b) => NoCallsNothingToDoStmts(b, f);
    case If(c, a, b) =>
      NoCallsNothingToDo(c, f);
      NoCallsNothingToDo(a, f);
      NoCallsNothingToDo(b, f);
    case Return(x) => NoCallsNothingToDo(x, f);
    case Try(x) => NoCallsNothingToDo(x, f);
  }

  lemma {:induction false} NoCallsNothingToDoArgs(args: seq<Expr>, f: FnDef)
    requires CallsArgs(args, f.name) == 0
    ensures InlineArgs(args, f) == args
  {
    if args != [] {
      NoCallsNothingToDo(args[0], f);
      NoCallsNothingToDoArgs(args[1..], f);
    }
  }

  lemma {:induction false} NoCallsNothingToDoStmts(b: Stmts, f: FnDef)
    requires CallsStmts(b, f.name) == 0
    ensures InlineStmts(b, f) == b
  {
    match b
    case Tail(e) => NoCallsNothingToDo(e, f);
    case Let(x, rhs, rest) =>
      NoCallsNothingToDo(rhs, f);
      NoCallsNothingToDoStmts(rest, f);
  }

  lemma {:induction false} LetAllCalls(params: seq<string>, args: seq<Expr>, body: Stmts, f: string)
    requires |params| == |args|
    ensures CallsStmts(LetAll(params, args, body), f) == CallsArgs(args, f) + CallsStmts(body, f)
    decreases |params|
  {
    if params != [] {
      LetAllCalls(params[1..], args[1..], body, f);
    }
  }

  lemma {:induction false} NoCallsLeft(e: Expr, f: FnDef, scope: set<string>)
    requires Inlinable(e, f, scope) && CallsStmts(f.body, f.name) == 0
    ensures Calls(InlineExpr(e, f), f.name) == 0
  {
    match e
    case Num(_) =>
    case Name(_) =>
    case Op(_, args) => NoCallsLeftArgs(args, f, scope);
    case Do(_, args) => NoCallsLeftArgs(args, f, scope);
    case Call(g, args) =>
      if g == f.name {
        LetAllCalls(f.params, args, f.body, f.name);
      } else {
        NoCallsLeftArgs(args, f, scope);
      }
    case Block(b) => NoCallsLeftStmts(b, f, scope);
    case If(c, a, b) =>
      NoCallsLeft(c, f, scope);
      NoCallsLeft(a, f, scope);
      NoCallsLeft(b, f, scope);
    case Return(x) => NoCallsLeft(x, f, scope);
    case Try(x) => NoCallsLeft(x, f, scope);
  }

  lemma {:induction false} NoCallsLeftArgs(args: seq<Expr>, f: FnDef, scope: set<string>)
    requires InlinableArgs(args, f, scope) && CallsStmts(f.body, f.name) == 0
    ensures CallsArgs(InlineArgs(args, f), f.name) == 0
  {
    if args != [] {
      NoCallsLeft(args[0], f, scope);
      NoCallsLeftArgs(args[1..], f, scope);
    }
  }

  lemma {:induction false} NoCallsLeftStmts(b: Stmts, f: FnDef, scope: set<string>)
    requires InlinableStmts(b, f, scope) && CallsStmts(f.body, f.name) == 0
    ensures CallsStmts(InlineStmts(b, f), f.name) == 0
  {
    match b
    case Tail(e) => NoCallsLeft(e, f, scope);
    case Let(x, rhs, rest) =>
      NoCallsLeft(rhs, f, scope);
      NoCallsLeftStmts(rest, f, scope + {x});
  }

  /** After the operation the program neither defines nor calls `f`. */
  lemma {:induction false} RemovedFunctionIsGone(p: Program, f: FnDef)
    requires CallsStmts(f.body, f.name) == 0
    requires forall g :: g in p && g.name != f.name ==> InlinableStmts(g.body, f, ParamSet(g.params))
    ensures forall g :: g in InlineProgram(p, f) ==> g.name != f.name && CallsStmts(g.body, f.name) == 0
  {
    if p != [] {
      assert forall g :: g in p[1..] ==> g in p;
      RemovedFunctionIsGone(p[1..], f);
      if p[0].name != f.name {
        NoCallsLeftStmts(p[0].body, f, ParamSet(p[0].params));
      }
    }
  }

  // ----- the replacement block means the call -----

  lemma {:induction false} FindInlined(p: Program, f: FnDef, g: string)
    requires g != f.name
    ensures Find(InlineProgram(p, f), g) ==
            (match Find(p, g) case None => None case Some(d) => Some(d.(body := InlineStmts(d.body, f))))
  {
    if p != [] {
      FindInlined(p[1..], f, g);
    }
  }

  /** The `let`s evaluate the arguments in order, each once, as the call would. */
  lemma {:induction false} LetAllMeaning(m: Machine, p: Program, params: seq<string>, args: seq<Expr>, body: Stmts,
                                         env: Env, t: seq<Event>, fuel: nat, scope: set<string>)
    requires |params| == |args| && scope <= env.Keys && ArgsIndependent(params, args, scope)
    ensures EvalStmts(m, p, LetAll(params, args, body), env, t, fuel) ==
            (match EvalArgs(m, p, args, env, t, fuel)
             case Halt(r) => r
             case Values(vs, t') => EvalStmts(m, p, body, BindOver(env, params, vs), t', fuel))
    decreases |params|
  {
    if params != [] {
      var r := Eval(m, p, args[0], env, t, fuel);
      if r.Value? {
        var env' := env[params[0] := r.v];
        LetAllMeaning(m, p, params[1..], args[1..], body, env', r.trace, fuel, scope);
        if params[0] !in FreeArgs(args[1..]) {
          OnlyFreeArgs(m, p, args[1..], env, env', r.trace, fuel);
        } else {
          assert env' == env;
        }
      }
    }
  }

  /** The body of `f` means the same below the locals of a call site as on its own. */
  lemma BodyInCallerScope(m: Machine, p: Program, f: FnDef, env: Env, vs: seq<int>, t: seq<Event>, fuel: nat)
    requires |vs| == |f.params|
    requires env.Keys !! (FreeStmts(f.body) - ParamSet(f.params))
    ensures EvalStmts(m, p, f.body, BindOver(env, f.params, vs), t, fuel)
            == EvalStmts(m, p, f.body, BindOver(map[], f.params, vs), t, fuel)
  {
    BindOverAgree(env, map[], f.params, vs, FreeStmts(f.body));
    OnlyFreeStmts(m, p, f.body, BindOver(env, f.params, vs), BindOver(map[], f.params, vs), t, fuel);
  }

  // ----- forwards: what the program does, the inlined program does with the same fuel -----

  lemma {:induction false} Forward(m: Machine, p: Program, f: FnDef, e: Expr, env: Env, t: seq<Event>, fuel: nat)
    requires InlinableProgram(p, f) && Inlinable(e, f, env.Keys)
    requires !Eval(m, p, e, env, t, fuel).Stuck?
    ensures Eval(m, InlineProgram(p, f), InlineExpr(e, f), env, t, fuel) == Eval(m, p, e, env, t, fuel)
    decreases fuel, e, 0
  {
    var p' := InlineProgram(p, f);
    match e
    case Num(_) =>
    case Name(_) =>
    case Op(_, args) => ForwardArgs(m, p, f, args, env, t, fuel);
    case Do(_, args) => ForwardArgs(m, p, f, args, env, t, fuel);
    case Call(g, args) =>
      if g == f.name {
        ForwardCall(m, p, f, args, env, t, fuel);
      } else {
        ForwardArgs(m, p, f, args, env, t, fuel);
        FindInlined(p, f, g);
        var a := EvalArgs(m, p, args, env, t, fuel);
        if a.Values? {
          FindMember(p, g);
          var def := Find(p, g).value;
          BindOverKeys(map[], def.params, a.vs);
          assert BindOver(map[], def.params, a.vs).Keys == ParamSet(def.params);
          ForwardStmts(m, p, f, def.body, BindOver(map[], def.params, a.vs), a.trace, fuel - 1);
        }
      }
    case Block(b) => ForwardStmts(m, p, f, b, env, t, fuel);
    case If(c, a, b) =>
      Forward(m, p, f, c, env, t, fuel);
      var r := Eval(m, p, c, env, t, fuel);
      if r.Value? {
        Forward(m, p, f, if r.v != 0 then a else b, env, r.trace, fuel);
      }
    case Return(x) => Forward(m, p, f, x, env, t, fuel);
    case Try(x) => Forward(m, p, f, x, env, t, fuel);
  }

  lemma {:induction false} ForwardCall(m: Machine, p: Program, f: FnDef, args: seq<Expr>, env: Env, t: seq<Event>, fuel: nat)
    requires InlinableProgram(p, f) && Inlinable(Call(f.name, args), f, env.Keys)
    requires !Eval(m, p, Call(f.name, args), env, t, fuel).Stuck?
    ensures Eval(m, InlineProgram(p, f), Block(LetAll(f.params, args, f.body)), env, t, fuel)
            == Eval(m, p, Call(f.name, args), env, t, fuel)
    decreases fuel, args, 1
  {
    var p' := InlineProgram(p, f);
    NoCallsInlinableArgs(args, f, env.Keys);
    ForwardArgs(m, p, f, args, env, t, fuel);
    NoCallsNothingToDoArgs(args, f);
    LetAllMeaning(m, p', f.params, args, f.body, env, t, fuel, env.Keys);
    var a := EvalArgs(m, p, args, env, t, fuel);
    if a.Values? {
      var inner := BindOver(map[], f.params, a.vs);
      NoExitMeaningStmts(m, p, f.body, inner, a.trace, fuel - 1);
      NoCallsInlinableStmts(f.body, f, inner.Keys);
      ForwardStmts(m, p, f, f.body, inner, a.trace, fuel - 1);
      NoCallsNothingToDoStmts(f.body, f);
      MoreFuelStmts(m, p', f.body, inner, a.trace, fuel - 1, fuel);
      BodyInCallerScope(m, p', f, env, a.vs, a.trace, fuel);
    }
  }

  lemma {:induction false} ForwardArgs(m: Machine, p: Program, f: FnDef, args: seq<Expr>, env: Env, t: seq<Event>, fuel: nat)
    requires InlinableProgram(p, f) && InlinableArgs(args, f, env.Keys)
    requires EvalArgs(m, p, args, env, t, fuel) != Halt(Stuck)
    ensures EvalArgs(m, InlineProgram(p, f), InlineArgs(args, f), env, t, fuel) == EvalArgs(m, p, args, env, t, fuel)
    decreases fuel, args, 0
  {
    if args != [] {
      Forward(m, p, f, args[0], env, t, fuel);
      var r := Eval(m, p, args[0], env, t, fuel);
      if r.Value? {
        ForwardArgs(m, p, f, args[1..], env, r.trace, fuel);
      }
    }
  }

  lemma {:induction false} ForwardStmts(m: Machine, p: Program, f: FnDef, b: Stmts, env: Env, t: seq<Event>, fuel: nat)
    requires InlinableProgram(p, f) && InlinableStmts(b, f, env.Keys)
    requires !EvalStmts(m, p, b, env, t, fuel).Stuck?
    ensures EvalStmts(m, InlineProgram(p, f), InlineStmts(b, f), env, t, fuel) == EvalStmts(m, p, b, env, t, fuel)
    decreases fuel, b, 0
  {
    match b
    case Tail(e) => Forward(m, p, f, e, env, t, fuel);
    case Let(x, rhs, rest) =>
      Forward(m, p, f, rhs, env, t, fuel);
      var r := Eval(m, p, rhs, env, t, fuel);
      if r.Value? {
        assert env[x := r.v].Keys == env.Keys + {x};
        ForwardStmts(m, p, f, rest, env[x := r.v], r.trace, fuel);
      }
  }

  /** Without calls of `f` there is no condition to meet. */
  lemma {:induction false} NoCallsInlinable(e: Expr, f: FnDef, scope: set<string>)
    requires Calls(e, f.name) == 0
    ensures Inlinable(e, f, scope)
  {
    match e
    case Num(_) =>
    case Name(_) =>
    case Op(_, args) => NoCallsInlinableArgs(args, f, scope);
    case Do(_, args) => NoCallsInlinableArgs(args, f, scope);
    case Call(_, args) => NoCallsInlinableArgs(args, f, scope);
    case Block(b) => NoCallsInlinableStmts(b, f, scope);
    case If(c, a, b) =>
      NoCallsInlinable(c, f, scope);
      NoCallsInlinable(a, f, scope);
      NoCallsInlinable(b, f, scope);
    case Return(x) => NoCallsInlinable(x, f, scope);
    case Try(x) => NoCallsInlinable(x, f, scope);
  }

  lemma {:induction false} NoCallsInlinableArgs(args: seq<Expr>, f: FnDef, scope: set<string>)
    requires CallsArgs(args, f.name) == 0
    ensures InlinableArgs(args, f, scope)
  {
    if args != [] {
      NoCallsInlinable(args[0], f, scope);
      NoCallsInlinableArgs(args[1..], f, scope);
    }
  }

  lemma {:induction false} NoCallsInlinableStmts(b: Stmts, f: FnDef, scope: set<string>)
    requires CallsStmts(b, f.name) == 0
    ensures InlinableStmts(b, f, scope)
  {
    match b
    case Tail(e) => NoCallsInlinable(e, f, scope);
    case Let(x, rhs, rest) =>
      NoCallsInlinable(rhs, f, scope);
      NoCallsInlinableStmts(rest, f, scope + {x});
  }

  // ----- backwards: what the inlined program does, the program does with at most twice the fuel and one -----

  /** One more call is needed where `f` itself is called. */
  function Extra(calls: nat): nat {
    if calls == 0 then 0 else 1
  }

  lemma {:induction false} Backward(m: Machine, p: Program, f: FnDef, e: Expr, env: Env, t: seq<Event>, fuel: nat)
    requires InlinableProgram(p, f) && Inlinable(e, f, env.Keys)
    requires !Eval(m, InlineProgram(p, f), InlineExpr(e, f), env, t, fuel).Stuck?
    ensures Eval(m, p, e, env, t, 2 * fuel + Extra(Calls(e, f.name)))
            == Eval(m, InlineProgram(p, f), InlineExpr(e, f), env, t, fuel)
    decreases fuel, Extra(Calls(e, f.name)), e, 2
  {
    match e
    case Num(_) =>
    case Name(_) =>
    case Op(op, args) =>
      BackwardArgs(m, p, f, args, env, t, fuel);
      SameOperation(m, p, InlineProgram(p, f), op, args, InlineArgs(args, f), env, t,
                    2 * fuel + Extra(CallsArgs(args, f.name)), fuel);
    case Do(op, args) =>
      BackwardArgs(m, p, f, args, env, t, fuel);
      SameOperation(m, p, InlineProgram(p, f), op, args, InlineArgs(args, f), env, t,
                    2 * fuel + Extra(CallsArgs(args, f.name)), fuel);
    case Call(g, args) =>
      if g == f.name {
        BackwardCall(m, p, f, args, env, t, fuel);
      } else {
        BackwardOther(m, p, f, g, args, env, t, fuel);
      }
    case _ =>
      BackwardNested(m, p, f, e, env, t, fuel);
  }

  lemma {:induction false} BackwardNested(m: Machine, p: Program, f: FnDef, e: Expr, env: Env, t: seq<Event>, fuel: nat)
    requires e.Block? || e.If? || e.Return? || e.Try?
    requires InlinableProgram(p, f) && Inlinable(e, f, env.Keys)
    requires !Eval(m, InlineProgram(p, f), InlineExpr(e, f), env, t, fuel).Stuck?
    ensures Eval(m, p, e, env, t, 2 * fuel + Extra(Calls(e, f.name)))
            == Eval(m, InlineProgram(p, f), InlineExpr(e, f), env, t, fuel)
    decreases fuel, Extra(Calls(e, f.name)), e, 1
  {
    match e
    case Block(b) =>
      BackwardStmts(m, p, f, b, env, t, fuel);
    case If(c, a, b) =>
      BackwardIf(m, p, f, c, a, b, env, t, fuel);
    case Return(x) =>
      Backward(m, p, f, x, env, t, fuel);
      BackwardAround(m, p, f, x, env, t, fuel);
    case Try(x) =>
      Backward(m, p, f, x, env, t, fuel);
      BackwardAround(m, p, f, x, env, t, fuel);
  }

  function AfterOp(m: Machine, op: string, r: ArgsOutcome): Outcome {
    match r
    case Halt(h) => h
    case Values(vs, t) => Value(m.pure(op, vs), t)
  }

  function AfterDo(m: Machine, op: string, r: ArgsOutcome): Outcome {
    match r
    case Halt(h) => h
    case Values(vs, t) => Value(m.answer(op, vs, t), t + [Event(op, vs)])
  }

  /** An operation sees no more than what its arguments come to. */
  lemma EvalOperation(m: Machine, p: Program, op: string, args: seq<Expr>, env: Env, t: seq<Event>, fuel: nat)
    ensures Eval(m, p, Op(op, args), env, t, fuel) == AfterOp(m, op, EvalArgs(m, p, args, env, t, fuel))
    ensures Eval(m, p, Do(op, args), env, t, fuel) == AfterDo(m, op, EvalArgs(m, p, args, env, t, fuel))
  {}

  /** Operations on arguments that come to the same come to the same. */
  lemma SameOperation(m: Machine, p: Program, q: Program, op: string, args: seq<Expr>, others: seq<Expr>, env: Env,
                      t: seq<Event>, more: nat, fuel: nat)
    requires EvalArgs(m, p, args, env, t, more) == EvalArgs(m, q, others, env, t, fuel)
    ensures Eval(m, p, Op(op, args), env, t, more) == Eval(m, q, Op(op, others), env, t, fuel)
    ensures Eval(m, p, Do(op, args), env, t, more) == Eval(m, q, Do(op, others), env, t, fuel)
  {
    EvalOperation(m, p, op, args, env, t, more);
    EvalOperation(m, q, op, others, env, t, fuel);
  }

  /** What holds of an expression holds of returning it and of `?` behind it. */
  lemma BackwardAround(m: Machine, p: Program, f: FnDef, x: Expr, env: Env, t: seq<Event>, fuel: nat)
    requires Eval(m, p, x, env, t, 2 * fuel + Extra(Calls(x, f.name)))
             == Eval(m, InlineProgram(p, f), InlineExpr(x, f), env, t, fuel)
    ensures Eval(m, p, Return(x), env, t, 2 * fuel + Extra(Calls(Return(x), f.name)))
            == Eval(m, InlineProgram(p, f), InlineExpr(Return(x), f), env, t, fuel)
    ensures Eval(m, p, Try(x), env, t, 2 * fuel + Extra(Calls(Try(x), f.name)))
            == Eval(m, InlineProgram(p, f), InlineExpr(Try(x), f), env, t, fuel)
  {}

  lemma EvalIf(m: Machine, p: Program, c: Expr, a: Expr, b: Expr, env: Env, t: seq<Event>, fuel: nat)
    ensures var r := Eval(m, p, c, env, t, fuel);
            Eval(m, p, If(c, a, b), env, t, fuel)
            == if r.Value? then Eval(m, p, if r.v != 0 then a else b, env, r.trace, fuel) else r
  {}

  lemma {:induction false} BackwardIf(m: Machine, p: Program, f: FnDef, c: Expr, a: Expr, b: Expr, env: Env,
                                      t: seq<Event>, fuel: nat)
    requires InlinableProgram(p, f) && Inlinable(If(c, a, b), f, env.Keys)
    requires !Eval(m, InlineProgram(p, f), InlineExpr(If(c, a, b), f), env, t, fuel).Stuck?
    ensures Eval(m, p, If(c, a, b), env, t, 2 * fuel + Extra(Calls(If(c, a, b), f.name)))
            == Eval(m, InlineProgram(p, f), InlineExpr(If(c, a, b), f), env, t, fuel)
    decreases fuel, Extra(Calls(If(c, a, b), f.name)), If(c, a, b), 0
  {
    var p', more := InlineProgram(p, f), 2 * fuel + Extra(Calls(If(c, a, b), f.name));
    EvalIf(m, p, c, a, b, env, t, more);
    EvalIf(m, p', InlineExpr(c, f), InlineExpr(a, f), InlineExpr(b, f), env, t, fuel);
    Backward(m, p, f, c, env, t, fuel);
    MoreFuel(m, p, c, env, t, 2 * fuel + Extra(Calls(c, f.name)), more);
    var r := Eval(m, p', InlineExpr(c, f), env, t, fuel);
    if r.Value? {
      var x := if r.v != 0 then a else b;
      Backward(m, p, f, x, env, r.trace, fuel);
      MoreFuel(m, p, x, env, r.trace, 2 * fuel + Extra(Calls(x, f.name)), more);
    }
  }

  /** A call of another function, whose body may call `f`. */
  lemma {:induction false} BackwardOther(m: Machine, p: Program, f: FnDef, g: string, args: seq<Expr>, env: Env,
                                         t: seq<Event>, fuel: nat)
    requires InlinableProgram(p, f) && g != f.name && InlinableArgs(args, f, env.Keys)
    requires !Eval(m, InlineProgram(p, f), Call(g, InlineArgs(args, f)), env, t, fuel).Stuck?
    ensures Eval(m, p, Call(g, args), env, t, 2 * fuel + Extra(CallsArgs(args, f.name)))
            == Eval(m, InlineProgram(p, f), Call(g, InlineArgs(args, f)), env, t, fuel)
    decreases fuel, Extra(CallsArgs(args, f.name)), args, 1
  {
    var p', more := InlineProgram(p, f), 2 * fuel + Extra(CallsArgs(args, f.name));
    BackwardArgs(m, p, f, args, env, t, fuel);
    FindInlined(p, f, g);
    var a := EvalArgs(m, p', InlineArgs(args, f), env, t, fuel);
    if a.Values? {
      FindMember(p, g);
      var def := Find(p, g).value;
      var inner := BindOver(map[], def.params, a.vs);
      BindOverKeys(map[], def.params, a.vs);
      assert inner.Keys == ParamSet(def.params);
      BackwardStmts(m, p, f, def.body, inner, a.trace, fuel - 1);
      MoreFuelStmts(m, p, def.body, inner, a.trace, 2 * (fuel - 1) + Extra(CallsStmts(def.body, f.name)), more - 1);
    }
  }

  lemma {:induction false} BackwardCall(m: Machine, p: Program, f: FnDef, args: seq<Expr>, env: Env, t: seq<Event>, fuel: nat)
    requires InlinableProgram(p, f) && Inlinable(Call(f.name, args), f, env.Keys)
    requires !Eval(m, InlineProgram(p, f), Block(LetAll(f.params, args, f.body)), env, t, fuel).Stuck?
    ensures Eval(m, p, Call(f.name, args), env, t, 2 * fuel + 1)
            == Eval(m, InlineProgram(p, f), Block(LetAll(f.params, args, f.body)), env, t, fuel)
    decreases fuel, 1, args, 1
  {
    var p' := InlineProgram(p, f);
    NoCallsInlinableArgs(args, f, env.Keys);
    NoCallsNothingToDoArgs(args, f);
    LetAllMeaning(m, p', f.params, args, f.body, env, t, fuel, env.Keys);
    BackwardArgs(m, p, f, args, env, t, fuel);
    MoreFuelArgs(m, p, args, env, t, 2 * fuel, 2 * fuel + 1);
    var a := EvalArgs(m, p', args, env, t, fuel);
    if a.Values? {
      var inner := BindOver(map[], f.params, a.vs);
      BodyInCallerScope(m, p', f, env, a.vs, a.trace, fuel);
      NoCallsInlinableStmts(f.body, f, inner.Keys);
      NoCallsNothingToDoStmts(f.body, f);
      BackwardStmts(m, p, f, f.body, inner, a.trace, fuel);
      NoExitMeaningStmts(m, p, f.body, inner, a.trace, 2 * fuel);
    }
  }

  lemma {:induction false} BackwardArgs(m: Machine, p: Program, f: FnDef, args: seq<Expr>, env: Env, t: seq<Event>, fuel: nat)
    requires InlinableProgram(p, f) && InlinableArgs(args, f, env.Keys)
    requires EvalArgs(m, InlineProgram(p, f), InlineArgs(args, f), env, t, fuel) != Halt(Stuck)
    ensures EvalArgs(m, p, args, env, t, 2 * fuel + Extra(CallsArgs(args, f.name)))
            == EvalArgs(m, InlineProgram(p, f), InlineArgs(args, f), env, t, fuel)
    decreases fuel, Extra(CallsArgs(args, f.name)), args, 0
  {
    if args != [] {
      var p', more := InlineProgram(p, f), 2 * fuel + Extra(CallsArgs(args, f.name));
      Backward(m, p, f, args[0], env, t, fuel);
      MoreFuel(m, p, args[0], env, t, 2 * fuel + Extra(Calls(args[0], f.name)), more);
      var r := Eval(m, p', InlineExpr(args[0], f), env, t, fuel);
      if r.Value? {
        BackwardArgs(m, p, f, args[1..], env, r.trace, fuel);
        MoreFuelArgs(m, p, args[1..], env, r.trace, 2 * fuel + Extra(CallsArgs(args[1..], f.name)), more);
      }
    }
  }

  lemma {:induction false} BackwardStmts(m: Machine, p: Program, f: FnDef, b: Stmts, env: Env, t: seq<Event>, fuel: nat)
    requires InlinableProgram(p, f) && InlinableStmts(b, f, env.Keys)
    requires !EvalStmts(m, InlineProgram(p, f), InlineStmts(b, f), env, t, fuel).Stuck?
    ensures EvalStmts(m, p, b, env, t, 2 * fuel + Extra(CallsStmts(b, f.name)))
            == EvalStmts(m, InlineProgram(p, f), InlineStmts(b, f), env, t, fuel)
    decreases fuel, Extra(CallsStmts(b, f.name)), b, 0
  {
    var p', more := InlineProgram(p, f), 2 * fuel + Extra(CallsStmts(b, f.name));
    match b
    case Tail(e) => Backward(m, p, f, e, env, t, fuel);
    case Let(x, rhs, rest) =>
      Backward(m, p, f, rhs, env, t, fuel);
      MoreFuel(m, p, rhs, env, t, 2 * fuel + Extra(Calls(rhs, f.name)), more);
      var r := Eval(m, p', InlineExpr(rhs, f), env, t, fuel);
      if r.Value? {
        var env' := env[x := r.v];
        assert env'.Keys == env.Keys + {x};
        BackwardStmts(m, p, f, rest, env', r.trace, fuel);
        MoreFuelStmts(m, p, rest, env', r.trace, 2 * fuel + Extra(CallsStmts(rest, f.name)), more);
      }
  }

  /**
   Inlining preserves meaning: every expression has the same outcomes, value and ordered effects, before and after.
   In particular one side runs forever or is stuck exactly when the other is.
   */
  lemma InliningPreservesMeaning(m: Machine, p: Program, f: FnDef, e: Expr, env: Env, t: seq<Event>, r: Outcome)
    requires InlinableProgram(p, f) && Inlinable(e, f, env.Keys)
    ensures EvaluatesTo(m, p, e, env, t, r) <==> EvaluatesTo(m, InlineProgram(p, f), InlineExpr(e, f), env, t, r)
  {
    var p', e' := InlineProgram(p, f), InlineExpr(e, f);
    if EvaluatesTo(m, p, e, env, t, r) {
      var fuel: nat :| Eval(m, p, e, env, t, fuel) == r;
      Forward(m, p, f, e, env, t, fuel);
      assert Eval(m, p', e', env, t, fuel) == r;
    }
    if EvaluatesTo(m, p', e', env, t, r) {
      var fuel: nat :| Eval(m, p', e', env, t, fuel) == r;
      Backward(m, p, f, e, env, t, fuel);
      assert Eval(m, p, e, env, t, 2 * fuel + Extra(Calls(e, f.name))) == r;
    }
  }

  // ----- the side conditions the code does not check are needed -----

  /** `fn f(x, y) { y }` called as `{ let x = 5; f(1, x) }`: the first `let` captures the second argument. */
  lemma CapturedArgument(m: Machine)
    ensures
      var f := FnDef("f", ["x", "y"], Tail(Name("y")));
      var e := Block(Let("x", Num(5), Tail(Call("f", [Num(1), Name("x")]))));
      && Eval(m, [f], e, map[], [], 1) == Value(5, [])
      && Eval(m, InlineProgram([f], f), InlineExpr(e, f), map[], [], 1) == Value(1, [])
  {
    var f := FnDef("f", ["x", "y"], Tail(Name("y")));
    var args := [Num(1), Name("x")];
    var env := map["x" := 5];
    assert args[1..] == [Name("x")];
    assert EvalArgs(m, [f], args[1..], env, [], 1) == Values([5], []);
    assert EvalArgs(m, [f], args, env, [], 1) == Values([1] + [5], []);
    assert [1] + [5] == [1, 5] && f.params[1..] == ["y"] && [1, 5][1..] == [5];
    assert BindOver(map[], f.params, [1, 5]) == map["x" := 1, "y" := 5];
    assert EvalStmts(m, [f], f.body, map["x" := 1, "y" := 5], [], 0) == Value(5, []);
    assert Eval(m, [f], Call("f", args), env, [], 1) == Value(5, []);
    var p' := InlineProgram([f], f);
    var b1 := Let("y", Name("x"), Tail(Name("y")));
    assert LetAll(f.params[1..], args[1..], f.body) == b1 by {
      assert f.params[1..][1..] == [] && args[1..][1..] == [];
    }
    assert LetAll(f.params, args, f.body) == Let("x", Num(1), b1);
    assert EvalStmts(m, p', b1, env["x" := 1], [], 1) == Value(1, []);
    assert EvalStmts(m, p', Let("x", Num(1), b1), env, [], 1) == Value(1, []);
  }

  /**
   `mod m { const K: i64 = 7; pub fn f() -> i64 { K } }` with `use m::*;` and `{ let K = 1; f() }` outside of `m`, where the
   constant is not in scope: the body reads the local instead of the constant.
   */
  lemma ShadowedConstant(m: Machine)
    requires m.consts == map["K" := 7]
    ensures
      var f := FnDef("f", [], Tail(Name("K")));
      var e := Block(Let("K", Num(1), Tail(Call("f", []))));
      && Eval(m, [f], e, map[], [], 1) == Value(7, [])
      && Eval(m, InlineProgram([f], f), InlineExpr(e, f), map[], [], 1) == Value(1, [])
  {
    var f := FnDef("f", [], Tail(Name("K")));
    var env := map["K" := 1];
    assert EvalArgs(m, [f], [], env, [], 1) == Values([], []);
    assert EvalStmts(m, [f], f.body, BindOver(map[], [], []), [], 0) == Value(7, []);
    assert Eval(m, [f], Call("f", []), env, [], 1) == Value(7, []);
    var p' := InlineProgram([f], f);
    assert EvalStmts(m, p', f.body, env, [], 1) == Value(1, []);
    assert Eval(m, p', Block(f.body), env, [], 1) == Value(1, []);
  }

  /**
   `fn g() { 1 }` and `fn f() { g() }` called below a local `g`: the body calls the local, which is no function. Rust
   refuses the new program; were the local a closure, it would run that.
   */
  lemma ShadowedCallee(m: Machine, fuel: nat)
    ensures
      var f := FnDef("f", [], Tail(Call("g", [])));
      var p := [FnDef("g", [], Tail(Num(1))), f];
      var e := Block(Let("g", Num(5), Tail(Call("f", []))));
      && Eval(m, p, e, map[], [], 2) == Value(1, [])
      && Eval(m, InlineProgram(p, f), InlineExpr(e, f), map[], [], fuel) == Stuck
  {
    var g := FnDef("g", [], Tail(Num(1)));
    var f := FnDef("f", [], Tail(Call("g", [])));
    var p, env := [g, f], map["g" := 5];
    assert p[1..] == [f] && Find(p, "f") == Some(f) && BindOver(map[], [], []) == map[];
    assert EvalStmts(m, p, g.body, map[], [], 0) == Value(1, []);
    assert Eval(m, p, Call("g", []), map[], [], 1) == Value(1, []);
    assert EvalStmts(m, p, f.body, map[], [], 1) == Value(1, []);
    assert EvalArgs(m, p, [], env, [], 2) == Values([], []);
    assert Eval(m, p, Call("f", []), env, [], 2) == Value(1, []);
    var p' := InlineProgram(p, f);
    assert LetAll([], [], f.body) == f.body;
    assert EvalStmts(m, p', f.body, env, [], fuel) == Stuck;
    assert Eval(m, p', Block(f.body), env, [], fuel) == Stuck;
    var none: Env := map[];
    assert none["g" := 5] == env && Eval(m, p', Num(5), none, [], fuel) == Value(5, []);
    assert EvalStmts(m, p', Let("g", Num(5), Tail(Block(f.body))), none, [], fuel) == Stuck;
  }

  /** `fn f(x) { x? }` in `{ let y = f(1); 2 }`: the `?` now leaves the caller. */
  lemma EscapingTry(m: Machine)
    requires m.fails(1)
    ensures
      var f := FnDef("f", ["x"], Tail(Try(Name("x"))));
      var e := Block(Let("y", Call("f", [Num(1)]), Tail(Num(2))));
      && Eval(m, [f], e, map[], [], 1) == Value(2, [])
      && Eval(m, InlineProgram([f], f), InlineExpr(e, f), map[], [], 1) == Exit(1, [])
  {
    var f := FnDef("f", ["x"], Tail(Try(Name("x"))));
    assert EvalArgs(m, [f], [Num(1)][1..], map[], [], 1) == Values([], []);
    assert EvalArgs(m, [f], [Num(1)], map[], [], 1) == Values([1] + [], []);
    assert BindOver(map[], f.params, [1]) == map["x" := 1];
    assert Eval(m, [f], Try(Name("x")), map["x" := 1], [], 0) == Exit(1, []);
    assert Eval(m, [f], Call("f", [Num(1)]), map[], [], 1) == Value(1, []);
    var p' := InlineProgram([f], f);
    var b := Let("x", Num(1), f.body);
    assert LetAll(f.params, [Num(1)], f.body) == b;
    assert Eval(m, p', Try(Name("x")), map["x" := 1], [], 1) == Exit(1, []);
    assert EvalStmts(m, p', b, map[], [], 1) == Exit(1, []);
    assert Eval(m, p', Block(b), map[], [], 1) == Exit(1, []);
  }
}
