/**
 The expressions that occur in an expression, and what the gates of the refactorings say about them. The gates walk the
 tree; here the same questions are asked of the list of all parts.
 */
module Parts {
  import opened Wrappers
  import opened MiniRust

  /** An expression inside another one, with the locals around it. */
  datatype Part = Part(e: Expr, scope: set<string>)
  {
    predicate IsCallOf(name: string) {
      e.Call? && e.f == name
    }

    /** Names `name`, other than as the callee of a call. */
    predicate Mentions(name: string) {
      || (e.Name? && e.x == name)
      || ((e.Op? || e.Do?) && e.op == name)
      || Binds(name)
    }

    /** A block one of whose own `let`s introduces `name`. */
    predicate Binds(name: string) {
      e.Block? && name in LetNames(e.body)
    }
  }

  /** The names that the `let`s of one block introduce, those of inner blocks not included. */
  function LetNames(b: Stmts): seq<string> {
    match b
    case Tail(_) => []
    case Let(x, _, rest) => [x] + LetNames(rest)
  }

  /** `e` and everything inside it, in the order of the text, when `scope` are the locals around `e`. */
  function PartsOf(e: Expr, scope: set<string>): seq<Part> {
    [Part(e, scope)] + match e
                       case Num(_) => []
                       case Name(_) => []
                       case Op(_, args) => PartsOfArgs(args, scope)
                       case Do(_, args) => PartsOfArgs(args, scope)
                       case Call(_, args) => PartsOfArgs(args, scope)
                       case Block(b) => PartsOfStmts(b, scope)
                       case If(c, a, b) => PartsOf(c, scope) + PartsOf(a, scope) + PartsOf(b, scope)
                       case Return(x) => PartsOf(x, scope)
                       case Try(x) => PartsOf(x, scope)
  }

  function PartsOfArgs(args: seq<Expr>, scope: set<string>): seq<Part> {
    if args == [] then [] else PartsOf(args[0], scope) + PartsOfArgs(args[1..], scope)
  }

  function PartsOfStmts(b: Stmts, scope: set<string>): seq<Part> {
    match b
    case Tail(e) => PartsOf(e, scope)
    case Let(x, rhs, rest) => PartsOf(rhs, scope) + PartsOfStmts(rest, scope + {x})
  }

  /** The whole body of a function, as a block, and everything inside it. */
  ghost function BodyParts(g: FnDef): seq<Part> {
    PartsOf(Block(g.body), ParamSet(g.params))
  }

  ghost function ProgramParts(p: Program): seq<Part> {
    if p == [] then [] else BodyParts(p[0]) + ProgramParts(p[1..])
  }

  // ----- one question about every part -----

  ghost predicate All(parts: seq<Part>, q: Part -> bool) {
    forall x :: x in parts ==> q(x)
  }

  lemma AllConcat(a: seq<Part>, b: seq<Part>, q: Part -> bool)
    ensures All(a + b, q) <==> All(a, q) && All(b, q)
  {
    assert forall x :: x in a || x in b ==> x in a + b;
  }

  ghost predicate AllInside(e: Expr, scope: set<string>, q: Part -> bool) {
    match e
    case Num(_) => true
    case Name(_) => true
    case Op(_, args) => All(PartsOfArgs(args, scope), q)
    case Do(_, args) => All(PartsOfArgs(args, scope), q)
    case Call(_, args) => All(PartsOfArgs(args, scope), q)
    case Block(b) => All(PartsOfStmts(b, scope), q)
    case If(c, a, b) => All(PartsOf(c, scope), q) && All(PartsOf(a, scope), q) && All(PartsOf(b, scope), q)
    case Return(x) => All(PartsOf(x, scope), q)
    case Try(x) => All(PartsOf(x, scope), q)
  }

  lemma AllOf(e: Expr, scope: set<string>, q: Part -> bool)
    ensures All(PartsOf(e, scope), q) <==> q(Part(e, scope)) && AllInside(e, scope, q)
  {
    var inside := PartsOf(e, scope)[1..];
    assert PartsOf(e, scope) == [Part(e, scope)] + inside;
    AllConcat([Part(e, scope)], inside, q);
    if e.If? {
      assert inside == PartsOf(e.cond, scope) + PartsOf(e.thn, scope) + PartsOf(e.els, scope);
      AllConcat(PartsOf(e.cond, scope) + PartsOf(e.thn, scope), PartsOf(e.els, scope), q);
      AllConcat(PartsOf(e.cond, scope), PartsOf(e.thn, scope), q);
    }
  }

  lemma AllOfArgs(args: seq<Expr>, scope: set<string>, q: Part -> bool)
    ensures All(PartsOfArgs(args, scope), q) <==>
            args == [] || (All(PartsOf(args[0], scope), q) && All(PartsOfArgs(args[1..], scope), q))
  {
    if args != [] {
      AllConcat(PartsOf(args[0], scope), PartsOfArgs(args[1..], scope), q);
    }
  }

  lemma AllOfStmts(b: Stmts, scope: set<string>, q: Part -> bool)
    ensures b.Tail? ==> (All(PartsOfStmts(b, scope), q) <==> All(PartsOf(b.e, scope), q))
    ensures b.Let? ==> (All(PartsOfStmts(b, scope), q) <==>
                        All(PartsOf(b.rhs, scope), q) && All(PartsOfStmts(b.rest, scope + {b.x}), q))
  {
    if b.Let? {
      AllConcat(PartsOf(b.rhs, scope), PartsOfStmts(b.rest, scope + {b.x}), q);
    }
  }

  // ----- counted calls -----

  /** How many calls of `name` a list of parts holds. */
  function CallCount(parts: seq<Part>, name: string): nat {
    if parts == [] then 0 else (if parts[0].IsCallOf(name) then 1 else 0) + CallCount(parts[1..], name)
  }

  lemma {:induction false} CallCountConcat(a: seq<Part>, b: seq<Part>, name: string)
    ensures CallCount(a + b, name) == CallCount(a, name) + CallCount(b, name)
  {
    if a == [] {
      assert a + b == b;
    } else {
      CallCountConcat(a[1..], b, name);
      assert (a + b)[1..] == a[1..] + b;
    }
  }

  function NotCallOf(name: string): Part -> bool {
    (x: Part) => !x.IsCallOf(name)
  }

  lemma {:induction false} NoCallCounted(parts: seq<Part>, name: string)
    ensures CallCount(parts, name) == 0 <==> All(parts, NotCallOf(name))
  {
    if parts != [] {
      NoCallCounted(parts[1..], name);
      assert parts == [parts[0]] + parts[1..];
      AllConcat([parts[0]], parts[1..], NotCallOf(name));
      assert All([parts[0]], NotCallOf(name)) <==> NotCallOf(name)(parts[0]);
    }
  }

  lemma {:induction false} CallsCounted(e: Expr, scope: set<string>, name: string)
    ensures Calls(e, name) == CallCount(PartsOf(e, scope), name)
  {
    var inside := PartsOf(e, scope)[1..];
    assert PartsOf(e, scope) == [Part(e, scope)] + inside;
    CallCountConcat([Part(e, scope)], inside, name);
    match e
    case Num(_) =>
    case Name(_) =>
    case Op(_, args) => CallsCountedArgs(args, scope, name);
    case Do(_, args) => CallsCountedArgs(args, scope, name);
    case Call(_, args) => CallsCountedArgs(args, scope, name);
    case Block(b) => CallsCountedStmts(b, scope, name);
    case If(c, a, b) =>
      assert inside == PartsOf(c, scope) + PartsOf(a, scope) + PartsOf(b, scope);
      CallCountConcat(PartsOf(c, scope) + PartsOf(a, scope), PartsOf(b, scope), name);
      CallCountConcat(PartsOf(c, scope), PartsOf(a, scope), name);
      CallsCounted(c, scope, name);
      CallsCounted(a, scope, name);
      CallsCounted(b, scope, name);
    case Return(x) => CallsCounted(x, scope, name);
    case Try(x) => CallsCounted(x, scope, name);
  }

  lemma {:induction false} CallsCountedArgs(args: seq<Expr>, scope: set<string>, name: string)
    ensures CallsArgs(args, name) == CallCount(PartsOfArgs(args, scope), name)
  {
    if args != [] {
      CallsCounted(args[0], scope, name);
      CallsCountedArgs(args[1..], scope, name);
      CallCountConcat(PartsOf(args[0], scope), PartsOfArgs(args[1..], scope), name);
    }
  }

  lemma {:induction false} CallsCountedStmts(b: Stmts, scope: set<string>, name: string)
    ensures CallsStmts(b, name) == CallCount(PartsOfStmts(b, scope), name)
  {
    match b
    case Tail(e) => CallsCounted(e, scope, name);
    case Let(x, rhs, rest) =>
      CallsCounted(rhs, scope, name);
      CallsCountedStmts(rest, scope + {x}, name);
      CallCountConcat(PartsOf(rhs, scope), PartsOfStmts(rest, scope + {x}), name);
  }

  /** The call counter of the gates finds nothing exactly when no part is a call. */
  lemma NoCallsIs(e: Expr, scope: set<string>, name: string)
    ensures Calls(e, name) == 0 <==> All(PartsOf(e, scope), NotCallOf(name))
  {
    CallsCounted(e, scope, name);
    NoCallCounted(PartsOf(e, scope), name);
  }

  lemma NoCallsIsArgs(args: seq<Expr>, scope: set<string>, name: string)
    ensures CallsArgs(args, name) == 0 <==> All(PartsOfArgs(args, scope), NotCallOf(name))
  {
    CallsCountedArgs(args, scope, name);
    NoCallCounted(PartsOfArgs(args, scope), name);
  }

  // ----- free names -----

  /** Reads or calls `name` where no local of that name is around. */
  function NotFree(name: string): Part -> bool {
    (x: Part) => name in x.scope || !((x.e.Name? && x.e.x == name) || x.IsCallOf(name))
  }

  /** A name is free exactly if some part reads or calls it outside the scope of its local. */
  lemma {:induction false} FreeIs(e: Expr, scope: set<string>, name: string)
    ensures name in Free(e) && name !in scope <==> !All(PartsOf(e, scope), NotFree(name))
  {
    AllOf(e, scope, NotFree(name));
    match e
    case Num(_) =>
    case Name(_) =>
    case Op(_, args) => FreeIsArgs(args, scope, name);
    case Do(_, args) => FreeIsArgs(args, scope, name);
    case Call(_, args) => FreeIsArgs(args, scope, name);
    case Block(b) => FreeIsStmts(b, scope, name);
    case If(c, a, b) =>
      FreeIs(c, scope, name);
      FreeIs(a, scope, name);
      FreeIs(b, scope, name);
    case Return(x) => FreeIs(x, scope, name);
    case Try(x) => FreeIs(x, scope, name);
  }

  lemma {:induction false} FreeIsArgs(args: seq<Expr>, scope: set<string>, name: string)
    ensures name in FreeArgs(args) && name !in scope <==> !All(PartsOfArgs(args, scope), NotFree(name))
  {
    AllOfArgs(args, scope, NotFree(name));
    if args != [] {
      FreeIs(args[0], scope, name);
      FreeIsArgs(args[1..], scope, name);
    }
  }

  lemma {:induction false} FreeIsStmts(b: Stmts, scope: set<string>, name: string)
    ensures name in FreeStmts(b) && name !in scope <==> !All(PartsOfStmts(b, scope), NotFree(name))
  {
    AllOfStmts(b, scope, NotFree(name));
    match b
    case Tail(e) => FreeIs(e, scope, name);
    case Let(x, rhs, rest) =>
      FreeIs(rhs, scope, name);
      FreeIsStmts(rest, scope + {x}, name);
  }

  // ----- exits -----

  function NotExit(): Part -> bool {
    (x: Part) => !x.e.Return? && !x.e.Try?
  }

  lemma {:induction false} NoExitIs(e: Expr, scope: set<string>)
    ensures NoExit(e) <==> All(PartsOf(e, scope), NotExit())
  {
    AllOf(e, scope, NotExit());
    match e
    case Num(_) =>
    case Name(_) =>
    case Op(_, args) => NoExitIsArgs(args, scope);
    case Do(_, args) => NoExitIsArgs(args, scope);
    case Call(_, args) => NoExitIsArgs(args, scope);
    case Block(b) => NoExitIsStmts(b, scope);
    case If(c, a, b) =>
      NoExitIs(c, scope);
      NoExitIs(a, scope);
      NoExitIs(b, scope);
    case Return(_) =>
    case Try(_) =>
  }

  lemma {:induction false} NoExitIsArgs(args: seq<Expr>, scope: set<string>)
    ensures NoExitArgs(args) <==> All(PartsOfArgs(args, scope), NotExit())
  {
    AllOfArgs(args, scope, NotExit());
    if args != [] {
      NoExitIs(args[0], scope);
      NoExitIsArgs(args[1..], scope);
    }
  }

  lemma {:induction false} NoExitIsStmts(b: Stmts, scope: set<string>)
    ensures NoExitStmts(b) <==> All(PartsOfStmts(b, scope), NotExit())
  {
    AllOfStmts(b, scope, NotExit());
    match b
    case Tail(e) => NoExitIs(e, scope);
    case Let(x, rhs, rest) =>
      NoExitIs(rhs, scope);
      NoExitIsStmts(rest, scope + {x});
  }
}
