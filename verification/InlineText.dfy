/**
 `inline_function` of crates/aa-patch/src/inline.rs on source text: the gates, the call sites, the replacement text,
 the splice and the removal of the definition. It produces exactly the text of the transformed program.
 */
module InlineText {
  import opened Wrappers
  import opened Splice
  import opened MiniRust
  import opened Inline
  import opened Parts
  import opened Source
  import opened Text

  datatype InlineError = InvalidIdent | Ambiguous(found: nat) | HasReturn | Recursive | OtherReferences | WrongArity

  // ----- the gates -----

  /** `return` anywhere in the body. A `?` is not looked for. */
  predicate HasReturnIn(e: Expr) {
    match e
    case Num(_) => false
    case Name(_) => false
    case Op(_, args) => HasReturnInArgs(args)
    case Do(_, args) => HasReturnInArgs(args)
    case Call(_, args) => HasReturnInArgs(args)
    case Block(b) => HasReturnInStmts(b)
    case If(c, a, b) => HasReturnIn(c) || HasReturnIn(a) || HasReturnIn(b)
    case Return(_) => true
    case Try(x) => HasReturnIn(x)
  }

  predicate HasReturnInArgs(args: seq<Expr>) {
    args != [] && (HasReturnIn(args[0]) || HasReturnInArgs(args[1..]))
  }

  predicate HasReturnInStmts(b: Stmts) {
    match b
    case Tail(e) => HasReturnIn(e)
    case Let(_, rhs, rest) => HasReturnIn(rhs) || HasReturnInStmts(rest)
  }

  function NotReturn(): Part -> bool {
    (x: Part) => !x.e.Return?
  }

  /** The gate finds a `return` exactly if some part is one. */
  lemma {:induction false} HasReturnIs(e: Expr, scope: set<string>)
    ensures !HasReturnIn(e) <==> All(PartsOf(e, scope), NotReturn())
  {
    AllOf(e, scope, NotReturn());
    match e
    case Num(_) =>
    case Name(_) =>
    case Op(_, args) => HasReturnIsArgs(args, scope);
    case Do(_, args) => HasReturnIsArgs(args, scope);
    case Call(_, args) => HasReturnIsArgs(args, scope);
    case Block(b) => HasReturnIsStmts(b, scope);
    case If(c, a, b) =>
      HasReturnIs(c, scope);
      HasReturnIs(a, scope);
      HasReturnIs(b, scope);
    case Return(_) =>
    case Try(x) => HasReturnIs(x, scope);
  }

  lemma {:induction false} HasReturnIsArgs(args: seq<Expr>, scope: set<string>)
    ensures !HasReturnInArgs(args) <==> All(PartsOfArgs(args, scope), NotReturn())
  {
    AllOfArgs(args, scope, NotReturn());
    if args != [] {
      HasReturnIs(args[0], scope);
      HasReturnIsArgs(args[1..], scope);
    }
  }

  lemma {:induction false} HasReturnIsStmts(b: Stmts, scope: set<string>)
    ensures !HasReturnInStmts(b) <==> All(PartsOfStmts(b, scope), NotReturn())
  {
    AllOfStmts(b, scope, NotReturn());
    match b
    case Tail(e) => HasReturnIs(e, scope);
    case Let(x, rhs, rest) =>
      HasReturnIs(rhs, scope);
      HasReturnIsStmts(rest, scope + {x});
  }

  function DefsNamed(p: Program, name: string): seq<FnDef> {
    if p == [] then []
    else (if p[0].name == name then [p[0]] else []) + DefsNamed(p[1..], name)
  }

  function CountParams(params: seq<string>, name: string): nat {
    if params == [] then 0 else (if params[0] == name then 1 else 0) + CountParams(params[1..], name)
  }

  /** Every occurrence of the identifier in the file, as the rename collector counts them. */
  function IdentsProgram(p: Program, name: string): nat {
    if p == [] then 0
    else
      (if p[0].name == name then 1 else 0) + CountParams(p[0].params, name) + IdentsStmts(p[0].body, name)
      + IdentsProgram(p[1..], name)
  }

  function CallsProgram(p: Program, name: string): nat {
    if p == [] then 0 else CallsStmts(p[0].body, name) + CallsProgram(p[1..], name)
  }

  /** Each call of `f` has as many arguments as `f` has parameters. */
  predicate AritiesOk(e: Expr, f: FnDef) {
    match e
    case Num(_) => true
    case Name(_) => true
    case Op(_, args) => AritiesOkArgs(args, f)
    case Do(_, args) => AritiesOkArgs(args, f)
    case Call(g, args) => AritiesOkArgs(args, f) && (g == f.name ==> |args| == |f.params|)
    case Block(b) => AritiesOkStmts(b, f)
    case If(c, a, b) => AritiesOk(c, f) && AritiesOk(a, f) && AritiesOk(b, f)
    case Return(x) => AritiesOk(x, f)
    case Try(x) => AritiesOk(x, f)
  }

  predicate AritiesOkArgs(args: seq<Expr>, f: FnDef) {
    args == [] || (AritiesOk(args[0], f) && AritiesOkArgs(args[1..], f))
  }

  predicate AritiesOkStmts(b: Stmts, f: FnDef) {
    match b
    case Tail(e) => AritiesOk(e, f)
    case Let(_, rhs, rest) => AritiesOk(rhs, f) && AritiesOkStmts(rest, f)
  }

  function FullCall(f: FnDef): Part -> bool {
    (x: Part) => x.IsCallOf(f.name) ==> |x.e.args| == |f.params|
  }

  /** The arity check accepts exactly if every part that calls `f` has one argument for each parameter. */
  lemma {:induction false} AritiesOkIs(e: Expr, scope: set<string>, f: FnDef)
    ensures AritiesOk(e, f) <==> All(PartsOf(e, scope), FullCall(f))
  {
    AllOf(e, scope, FullCall(f));
    match e
    case Num(_) =>
    case Name(_) =>
    case Op(_, args) => AritiesOkIsArgs(args, scope, f);
    case Do(_, args) => AritiesOkIsArgs(args, scope, f);
    case Call(_, args) => AritiesOkIsArgs(args, scope, f);
    case Block(b) => AritiesOkIsStmts(b, scope, f);
    case If(c, a, b) =>
      AritiesOkIs(c, scope, f);
      AritiesOkIs(a, scope, f);
      AritiesOkIs(b, scope, f);
    case Return(x) => AritiesOkIs(x, scope, f);
    case Try(x) => AritiesOkIs(x, scope, f);
  }

  lemma {:induction false} AritiesOkIsArgs(args: seq<Expr>, scope: set<string>, f: FnDef)
    ensures AritiesOkArgs(args, f) <==> All(PartsOfArgs(args, scope), FullCall(f))
  {
    AllOfArgs(args, scope, FullCall(f));
    if args != [] {
      AritiesOkIs(args[0], scope, f);
      AritiesOkIsArgs(args[1..], scope, f);
    }
  }

  lemma {:induction false} AritiesOkIsStmts(b: Stmts, scope: set<string>, f: FnDef)
    ensures AritiesOkStmts(b, f) <==> All(PartsOfStmts(b, scope), FullCall(f))
  {
    AllOfStmts(b, scope, FullCall(f));
    match b
    case Tail(e) => AritiesOkIs(e, scope, f);
    case Let(x, rhs, rest) =>
      AritiesOkIs(rhs, scope, f);
      AritiesOkIsStmts(rest, scope + {x}, f);
  }

  // ----- what the reference count rules out -----

  /** `name` occurs only as the callee of bare calls. */
  predicate OnlyCalled(e: Expr, name: string) {
    match e
    case Num(_) => true
    case Name(x) => x != name
    case Op(op, args) => op != name && OnlyCalledArgs(args, name)
    case Do(op, args) => op != name && OnlyCalledArgs(args, name)
    case Call(_, args) => OnlyCalledArgs(args, name)
    case Block(b) => OnlyCalledStmts(b, name)
    case If(c, a, b) => OnlyCalled(c, name) && OnlyCalled(a, name) && OnlyCalled(b, name)
    case Return(x) => OnlyCalled(x, name)
    case Try(x) => OnlyCalled(x, name)
  }

  predicate OnlyCalledArgs(args: seq<Expr>, name: string) {
    args == [] || (OnlyCalled(args[0], name) && OnlyCalledArgs(args[1..], name))
  }

  predicate OnlyCalledStmts(b: Stmts, name: string) {
    match b
    case Tail(e) => OnlyCalled(e, name)
    case Let(x, rhs, rest) => x != name && OnlyCalled(rhs, name) && OnlyCalledStmts(rest, name)
  }

  function AsCallee(name: string): Part -> bool {
    (x: Part) => !x.Mentions(name)
  }

  /** The identifier is only called exactly if no part mentions or binds it. */
  lemma {:induction false} OnlyCalledIs(e: Expr, scope: set<string>, name: string)
    ensures OnlyCalled(e, name) <==> All(PartsOf(e, scope), AsCallee(name))
  {
    AllOf(e, scope, AsCallee(name));
    match e
    case Num(_) =>
    case Name(_) =>
    case Op(_, args) => OnlyCalledIsArgs(args, scope, name);
    case Do(_, args) => OnlyCalledIsArgs(args, scope, name);
    case Call(_, args) => OnlyCalledIsArgs(args, scope, name);
    case Block(b) => OnlyCalledIsStmts(b, scope, name);
    case If(c, a, b) =>
      OnlyCalledIs(c, scope, name);
      OnlyCalledIs(a, scope, name);
      OnlyCalledIs(b, scope, name);
    case Return(x) => OnlyCalledIs(x, scope, name);
    case Try(x) => OnlyCalledIs(x, scope, name);
  }

  lemma {:induction false} OnlyCalledIsArgs(args: seq<Expr>, scope: set<string>, name: string)
    ensures OnlyCalledArgs(args, name) <==> All(PartsOfArgs(args, scope), AsCallee(name))
  {
    AllOfArgs(args, scope, AsCallee(name));
    if args != [] {
      OnlyCalledIs(args[0], scope, name);
      OnlyCalledIsArgs(args[1..], scope, name);
    }
  }

  lemma {:induction false} OnlyCalledIsStmts(b: Stmts, scope: set<string>, name: string)
    ensures OnlyCalledStmts(b, name) <==> name !in LetNames(b) && All(PartsOfStmts(b, scope), AsCallee(name))
  {
    AllOfStmts(b, scope, AsCallee(name));
    match b
    case Tail(e) => OnlyCalledIs(e, scope, name);
    case Let(x, rhs, rest) =>
      OnlyCalledIs(rhs, scope, name);
      OnlyCalledIsStmts(rest, scope + {x}, name);
  }

  /** There are at least as many identifiers as calls, and no more exactly when there is no other reference. */
  lemma {:induction false} IdentsVersusCalls(e: Expr, name: string)
    ensures Calls(e, name) <= Idents(e, name)
    ensures Calls(e, name) == Idents(e, name) <==> OnlyCalled(e, name)
  {
    match e
    case Num(_) =>
    case Name(_) =>
    case Op(_, args) => IdentsVersusCallsArgs(args, name);
    case Do(_, args) => IdentsVersusCallsArgs(args, name);
    case Call(_, args) => IdentsVersusCallsArgs(args, name);
    case Block(b) => IdentsVersusCallsStmts(b, name);
    case If(c, a, b) =>
      IdentsVersusCalls(c, name);
      IdentsVersusCalls(a, name);
      IdentsVersusCalls(b, name);
    case Return(x) => IdentsVersusCalls(x, name);
    case Try(x) => IdentsVersusCalls(x, name);
  }

  lemma {:induction false} IdentsVersusCallsArgs(args: seq<Expr>, name: string)
    ensures CallsArgs(args, name) <= IdentsArgs(args, name)
    ensures CallsArgs(args, name) == IdentsArgs(args, name) <==> OnlyCalledArgs(args, name)
  {
    if args != [] {
      IdentsVersusCalls(args[0], name);
      IdentsVersusCallsArgs(args[1..], name);
    }
  }

  lemma {:induction false} IdentsVersusCallsStmts(b: Stmts, name: string)
    ensures CallsStmts(b, name) <= IdentsStmts(b, name)
    ensures CallsStmts(b, name) == IdentsStmts(b, name) <==> OnlyCalledStmts(b, name)
  {
    match b
    case Tail(e) => IdentsVersusCalls(e, name);
    case Let(_, rhs, rest) =>
      IdentsVersusCalls(rhs, name);
      IdentsVersusCallsStmts(rest, name);
  }

  lemma {:induction false} NoParamNamed(params: seq<string>, name: string)
    ensures CountParams(params, name) == 0 <==> name !in params
  {
    if params != [] {
      NoParamNamed(params[1..], name);
    }
  }

  /** The gate that compares two counts accepts exactly the files without any other reference to the name. */
  lemma {:induction false} ReferenceGate(p: Program, name: string)
    ensures CallsProgram(p, name) + |DefsNamed(p, name)| <= IdentsProgram(p, name)
    ensures IdentsProgram(p, name) == CallsProgram(p, name) + |DefsNamed(p, name)|
            <==> forall g :: g in p ==> name !in g.params && OnlyCalledStmts(g.body, name)
  {
    if p != [] {
      ReferenceGate(p[1..], name);
      NoParamNamed(p[0].params, name);
      IdentsVersusCallsStmts(p[0].body, name);
      assert p == [p[0]] + p[1..];
    }
  }

  // ----- the replacement text and the call sites -----

  /** `let p1 = a1; let p2 = a2; ` */
  function LetsText(params: seq<string>, args: seq<string>): string
    requires |params| == |args|
    decreases |params|
  {
    if params == [] then ""
    else "let " + params[0] + " = " + Trim(args[0]) + "; " + LetsText(params[1..], args[1..])
  }

  function Replacement(params: seq<string>, args: seq<string>, bodyInner: string): string
    requires |params| == |args|
  {
    "({ " + (LetsText(params, args) + Trim(bodyInner)) + " })"
  }

  function ArgTexts(args: seq<Expr>): (r: seq<string>)
    ensures |r| == |args|
  {
    if args == [] then [] else [Print(args[0])] + ArgTexts(args[1..])
  }

  function BodyInner(f: FnDef): string {
    " " + PrintStmts(f.body) + " "
  }

  /** The text of an expression and the call sites in it, inner sites before the call that holds them. */
  function SitesIn(e: Expr, f: FnDef): Edited {
    match e
    case Num(_) => Lit(Print(e))
    case Name(_) => Lit(Print(e))
    case Op(op, args) => Cat(Cat(Lit("::" + op + "("), SitesInArgs(args, f)), Lit(")"))
    case Do(op, args) => Cat(Cat(Lit("::" + op + "("), SitesInArgs(args, f)), Lit(")"))
    case Call(g, args) =>
      var inner := Cat(Cat(Lit(g + "("), SitesInArgs(args, f)), Lit(")"));
      if g == f.name && |args| == |f.params| then
        var text := Replacement(f.params, ArgTexts(args), BodyInner(f));
        Edited(inner.before, inner.edits + [Edit(0, |inner.before|, text)], text)
      else inner
    case Block(b) => Cat(Cat(Lit("({ "), SitesInStmts(b, f)), Lit(" })"))
    case If(c, a, b) =>
      IfParts(SitesIn(c, f), SitesIn(a, f), SitesIn(b, f))
    case Return(x) => Cat(Cat(Lit("(return "), SitesIn(x, f)), Lit(")"))
    case Try(x) => Cat(SitesIn(x, f), Lit("?"))
  }

  function SitesInArgs(args: seq<Expr>, f: FnDef): Edited {
    if args == [] then Lit("")
    else if |args| == 1 then SitesIn(args[0], f)
    else Cat(Cat(SitesIn(args[0], f), Lit(", ")), SitesInArgs(args[1..], f))
  }

  function SitesInStmts(b: Stmts, f: FnDef): Edited {
    match b
    case Tail(e) => SitesIn(e, f)
    case Let(x, rhs, rest) =>
      Cat(Cat(Cat(Lit("let " + x + " = "), SitesIn(rhs, f)), Lit("; ")), SitesInStmts(rest, f))
  }

  function SitesInDef(g: FnDef, f: FnDef): Edited {
    Cat(Cat(Lit(DefHead(g.name, g.params)), Cat(Cat(Lit(" "), SitesInStmts(g.body, f)), Lit(" "))), Lit(DEF_END))
  }

  function SitesInProgram(p: Program, f: FnDef): Edited {
    if p == [] then Lit("") else Cat(SitesInDef(p[0], f), SitesInProgram(p[1..], f))
  }

  lemma {:induction false} PrintLetAll(params: seq<string>, args: seq<Expr>, body: Stmts)
    requires |params| == |args| && WellNamedArgs(args)
    ensures PrintStmts(LetAll(params, args, body)) == LetsText(params, ArgTexts(args)) + PrintStmts(body)
    decreases |params|
  {
    if params != [] {
      PrintTight(args[0]);
      TrimTight(Print(args[0]));
      PrintLetAll(params[1..], args[1..], body);
      Assoc("let " + params[0] + " = " + Print(args[0]) + "; ", LetsText(params[1..], ArgTexts(args[1..])), PrintStmts(body));
    }
  }

  /** The replacement text is the text of the block the transformation puts there. */
  lemma ReplacementIsBlock(f: FnDef, args: seq<Expr>)
    requires |args| == |f.params| && WellNamedArgs(args) && WellNamedStmts(f.body)
    ensures Replacement(f.params, ArgTexts(args), BodyInner(f)) == Print(Block(LetAll(f.params, args, f.body)))
  {
    PrintLetAll(f.params, args, f.body);
    PrintStmtsTight(f.body);
    TrimTight(PrintStmts(f.body));
  }

  lemma {:induction false} NoCallsNoSites(e: Expr, f: FnDef)
    requires Calls(e, f.name) == 0
    ensures SitesIn(e, f).edits == []
  {
    match e
    case Num(_) =>
    case Name(_) =>
    case Op(_, args) => NoCallsNoSitesArgs(args, f);
    case Do(_, args) => NoCallsNoSitesArgs(args, f);
    case Call(_, args) => NoCallsNoSitesArgs(args, f);
    case Block(b) => NoCallsNoSitesStmts(b, f);
    case If(c, a, b) =>
      NoCallsNoSites(c, f);
      NoCallsNoSites(a, f);
      NoCallsNoSites(b, f);
    case Return(x) => NoCallsNoSites(x, f);
    case Try(x) => NoCallsNoSites(x, f);
  }

  lemma {:induction false} NoCallsNoSitesArgs(args: seq<Expr>, f: FnDef)
    requires CallsArgs(args, f.name) == 0
    ensures SitesInArgs(args, f).edits == []
  {
    if args != [] {
      NoCallsNoSites(args[0], f);
      NoCallsNoSitesArgs(args[1..], f);
    }
  }

  lemma {:induction false} NoCallsNoSitesStmts(b: Stmts, f: FnDef)
    requires CallsStmts(b, f.name) == 0
    ensures SitesInStmts(b, f).edits == []
  {
    match b
    case Tail(e) => NoCallsNoSites(e, f);
    case Let(_, rhs, rest) =>
      NoCallsNoSites(rhs, f);
      NoCallsNoSitesStmts(rest, f);
  }

  /**
   `f(f(1))` with `fn f(x) { x }`: the inner site is replaced first and moves the end of the outer one, which is replaced
   up to where it was. What is left of the inner replacement follows the outer one.
   */
  lemma StaleOuterSite()
    ensures var inner, outer := Edit(2, 6, "({ let x = 1; x })"), Edit(0, 7, "({ let x = f(1); x })");
            ReplaceRange(ReplaceRange("f(f(1))", inner), outer) == "({ let x = f(1); x })t x = 1; x }))"
  {
    InnerReplaced("({ let x = 1; x })");
    OuterReplaced("({ let x = f(1); x })");
  }

  lemma InnerReplaced(new_: string)
    ensures ReplaceRange("f(f(1))", Edit(2, 6, new_)) == "f(" + new_ + ")"
  {
    assert "f(f(1))"[..2] == "f(" && "f(f(1))"[6..] == ")";
  }

  lemma OuterReplaced(new_: string)
    ensures ReplaceRange("f(" + "({ let x = 1; x })" + ")", Edit(0, 7, new_)) == new_ + "t x = 1; x }))"
  {
    assert ("f(" + "({ let x = 1; x })" + ")")[7..] == "t x = 1; x }))";
  }

  /** No call of `f` sits inside an argument of a call of `f`; its sites would overlap. */
  predicate NotNested(e: Expr, f: string) {
    match e
    case Num(_) => true
    case Name(_) => true
    case Op(_, args) => NotNestedArgs(args, f)
    case Do(_, args) => NotNestedArgs(args, f)
    case Call(g, args) => NotNestedArgs(args, f) && (g == f ==> CallsArgs(args, f) == 0)
    case Block(b) => NotNestedStmts(b, f)
    case If(c, a, b) => NotNested(c, f) && NotNested(a, f) && NotNested(b, f)
    case Return(x) => NotNested(x, f)
    case Try(x) => NotNested(x, f)
  }

  predicate NotNestedArgs(args: seq<Expr>, f: string) {
    args == [] || (NotNested(args[0], f) && NotNestedArgs(args[1..], f))
  }

  predicate NotNestedStmts(b: Stmts, f: string) {
    match b
    case Tail(e) => NotNested(e, f)
    case Let(_, rhs, rest) => NotNested(rhs, f) && NotNestedStmts(rest, f)
  }

  ghost predicate FlatAt(x: Part, f: string) {
    x.IsCallOf(f) ==> All(PartsOfArgs(x.e.args, x.scope), NotCallOf(f))
  }

  ghost function Flat(f: string): Part -> bool {
    (x: Part) => FlatAt(x, f)
  }

  /** No nesting exactly if no part that calls `f` has a call of `f` inside its arguments. */
  lemma {:induction false} NotNestedIs(e: Expr, scope: set<string>, f: string)
    ensures NotNested(e, f) <==> All(PartsOf(e, scope), Flat(f))
  {
    AllOf(e, scope, Flat(f));
    match e
    case Num(_) =>
    case Name(_) =>
    case Op(_, args) => NotNestedIsArgs(args, scope, f);
    case Do(_, args) => NotNestedIsArgs(args, scope, f);
    case Call(_, args) =>
      NotNestedIsArgs(args, scope, f);
      NoCallsIsArgs(args, scope, f);
    case Block(b) => NotNestedIsStmts(b, scope, f);
    case If(c, a, b) =>
      NotNestedIs(c, scope, f);
      NotNestedIs(a, scope, f);
      NotNestedIs(b, scope, f);
    case Return(x) => NotNestedIs(x, scope, f);
    case Try(x) => NotNestedIs(x, scope, f);
  }

  lemma {:induction false} NotNestedIsArgs(args: seq<Expr>, scope: set<string>, f: string)
    ensures NotNestedArgs(args, f) <==> All(PartsOfArgs(args, scope), Flat(f))
  {
    AllOfArgs(args, scope, Flat(f));
    if args != [] {
      NotNestedIs(args[0], scope, f);
      NotNestedIsArgs(args[1..], scope, f);
    }
  }

  lemma {:induction false} NotNestedIsStmts(b: Stmts, scope: set<string>, f: string)
    ensures NotNestedStmts(b, f) <==> All(PartsOfStmts(b, scope), Flat(f))
  {
    AllOfStmts(b, scope, Flat(f));
    match b
    case Tail(e) => NotNestedIs(e, scope, f);
    case Let(x, rhs, rest) =>
      NotNestedIs(rhs, scope, f);
      NotNestedIsStmts(rest, scope + {x}, f);
  }

  predicate NamedWellAt(x: Part) {
    && (x.e.Name? ==> IsValidIdent(x.e.x))
    && (x.e.Call? ==> IsValidIdent(x.e.f))
  }

  function NamedWell(): Part -> bool {
    (x: Part) => NamedWellAt(x)
  }

  /** Identifiers are checked wherever a part reads or calls one. */
  lemma {:induction false} WellNamedIs(e: Expr, scope: set<string>)
    ensures WellNamed(e) <==> All(PartsOf(e, scope), NamedWell())
  {
    AllOf(e, scope, NamedWell());
    match e
    case Num(_) =>
    case Name(_) =>
    case Op(_, args) => WellNamedIsArgs(args, scope);
    case Do(_, args) => WellNamedIsArgs(args, scope);
    case Call(_, args) => WellNamedIsArgs(args, scope);
    case Block(b) => WellNamedIsStmts(b, scope);
    case If(c, a, b) =>
      WellNamedIs(c, scope);
      WellNamedIs(a, scope);
      WellNamedIs(b, scope);
    case Return(x) => WellNamedIs(x, scope);
    case Try(x) => WellNamedIs(x, scope);
  }

  lemma {:induction false} WellNamedIsArgs(args: seq<Expr>, scope: set<string>)
    ensures WellNamedArgs(args) <==> All(PartsOfArgs(args, scope), NamedWell())
  {
    AllOfArgs(args, scope, NamedWell());
    if args != [] {
      WellNamedIs(args[0], scope);
      WellNamedIsArgs(args[1..], scope);
    }
  }

  lemma {:induction false} WellNamedIsStmts(b: Stmts, scope: set<string>)
    ensures WellNamedStmts(b) <==> All(PartsOfStmts(b, scope), NamedWell())
  {
    AllOfStmts(b, scope, NamedWell());
    match b
    case Tail(e) => WellNamedIs(e, scope);
    case Let(x, rhs, rest) =>
      WellNamedIs(rhs, scope);
      WellNamedIsStmts(rest, scope + {x});
  }

  /** The sites of `e` turn its text into that of the inlined expression. */
  ghost predicate Sited(e: Expr, f: FnDef) {
    && SitesIn(e, f).before == Print(e) && SitesIn(e, f).after == Print(InlineExpr(e, f))
    && Realises(SitesIn(e, f))
  }

  lemma SitesInIf(c: Expr, a: Expr, b: Expr, f: FnDef)
    ensures SitesIn(If(c, a, b), f) == IfParts(SitesIn(c, f), SitesIn(a, f), SitesIn(b, f))
    ensures InlineExpr(If(c, a, b), f) == If(InlineExpr(c, f), InlineExpr(a, f), InlineExpr(b, f))
  {}

  lemma SitedIf(c: Expr, a: Expr, b: Expr, f: FnDef)
    requires Sited(c, f) && Sited(a, f) && Sited(b, f)
    ensures Sited(If(c, a, b), f)
  {
    IfRealises(SitesIn(c, f), SitesIn(a, f), SitesIn(b, f));
    SitesInIf(c, a, b, f);
    PrintIf(c, a, b);
    PrintIf(InlineExpr(c, f), InlineExpr(a, f), InlineExpr(b, f));
  }

  lemma SitedOp(op: string, args: seq<Expr>, f: FnDef)
    requires SitesInArgs(args, f).before == PrintArgs(args) && SitesInArgs(args, f).after == PrintArgs(InlineArgs(args, f))
    requires Realises(SitesInArgs(args, f))
    ensures Sited(Op(op, args), f)
  {
    WrapRealises("::" + op + "(", SitesInArgs(args, f), ")");
  }

  lemma SitedDo(op: string, args: seq<Expr>, f: FnDef)
    requires SitesInArgs(args, f).before == PrintArgs(args) && SitesInArgs(args, f).after == PrintArgs(InlineArgs(args, f))
    requires Realises(SitesInArgs(args, f))
    ensures Sited(Do(op, args), f)
  {
    WrapRealises("::" + op + "(", SitesInArgs(args, f), ")");
  }

  lemma {:induction false} SitesRealise(e: Expr, f: FnDef)
    requires NotNested(e, f.name) && WellNamed(e) && WellNamedStmts(f.body)
    ensures Sited(e, f)
  {
    match e
    case Num(_) => LitRealises(Print(e));
    case Name(_) => LitRealises(Print(e));
    case Op(op, args) =>
      SitesRealiseArgs(args, f);
      SitedOp(op, args, f);
    case Do(op, args) =>
      SitesRealiseArgs(args, f);
      SitedDo(op, args, f);
    case Call(g, args) =>
      SitesRealiseArgs(args, f);
      WrapRealises(g + "(", SitesInArgs(args, f), ")");
      if g == f.name && |args| == |f.params| {
        CallSiteRealises(args, f);
      }
    case Block(b) =>
      SitesRealiseStmts(b, f);
      WrapRealises("({ ", SitesInStmts(b, f), " })");
    case If(c, a, b) =>
      SitesRealise(c, f);
      SitesRealise(a, f);
      SitesRealise(b, f);
      SitedIf(c, a, b, f);
    case Return(x) =>
      SitesRealise(x, f);
      WrapRealises("(return ", SitesIn(x, f), ")");
    case Try(x) =>
      SitesRealise(x, f);
      LitRealises("?");
      CatRealises(SitesIn(x, f), Lit("?"));
  }

  /** A call of `f` is replaced as a whole. */
  lemma CallSiteRealises(args: seq<Expr>, f: FnDef)
    requires |args| == |f.params| && CallsArgs(args, f.name) == 0 && WellNamedArgs(args) && WellNamedStmts(f.body)
    requires SitesInArgs(args, f).before == PrintArgs(args)
    ensures SitesIn(Call(f.name, args), f).before == Print(Call(f.name, args))
    ensures SitesIn(Call(f.name, args), f).after == Print(Block(LetAll(f.params, args, f.body)))
    ensures Realises(SitesIn(Call(f.name, args), f))
  {
    NoCallsNoSitesArgs(args, f);
    ReplacementIsBlock(f, args);
    var text := Replacement(f.params, ArgTexts(args), BodyInner(f));
    WholeRealises(Print(Call(f.name, args)), text);
    assert SitesIn(Call(f.name, args), f).edits == [Edit(0, |Print(Call(f.name, args))|, text)];
  }

  lemma {:induction false} SitesRealiseArgs(args: seq<Expr>, f: FnDef)
    requires NotNestedArgs(args, f.name) && WellNamedArgs(args) && WellNamedStmts(f.body)
    ensures SitesInArgs(args, f).before == PrintArgs(args)
    ensures SitesInArgs(args, f).after == PrintArgs(InlineArgs(args, f))
    ensures Realises(SitesInArgs(args, f))
  {
    if args == [] {
      LitRealises("");
    } else {
      SitesRealise(args[0], f);
      SitesRealiseArgs(args[1..], f);
      if |args| > 1 {
        CommaRealises(SitesIn(args[0], f), SitesInArgs(args[1..], f));
        assert InlineArgs(args, f)[1..] == InlineArgs(args[1..], f);
      }
    }
  }

  lemma {:induction false} SitesRealiseStmts(b: Stmts, f: FnDef)
    requires NotNestedStmts(b, f.name) && WellNamedStmts(b) && WellNamedStmts(f.body)
    ensures SitesInStmts(b, f).before == PrintStmts(b) && SitesInStmts(b, f).after == PrintStmts(InlineStmts(b, f))
    ensures Realises(SitesInStmts(b, f))
  {
    match b
    case Tail(e) => SitesRealise(e, f);
    case Let(x, rhs, rest) =>
      SitesRealise(rhs, f);
      SitesRealiseStmts(rest, f);
      WrapRealises("let " + x + " = ", SitesIn(rhs, f), "; ");
      CatRealises(Cat(Cat(Lit("let " + x + " = "), SitesIn(rhs, f)), Lit("; ")), SitesInStmts(rest, f));
  }

  /** Every definition with its calls inlined, `f` included and still there. */
  function RewriteAll(p: Program, f: FnDef): Program {
    if p == [] then [] else [p[0].(body := InlineStmts(p[0].body, f))] + RewriteAll(p[1..], f)
  }

  /** Names are identifiers, and no call of `f` stands inside an argument of another one. */
  ghost predicate TextOk(p: Program, f: FnDef) {
    f in p && forall g, x :: g in p && x in BodyParts(g) ==> FlatAt(x, f.name) && NamedWellAt(x)
  }

  lemma TextOkBodies(p: Program, f: FnDef)
    requires TextOk(p, f)
    ensures WellNamedStmts(f.body)
    ensures forall g :: g in p ==> NotNestedStmts(g.body, f.name) && WellNamedStmts(g.body)
  {
    forall g | g in p ensures NotNestedStmts(g.body, f.name) && WellNamedStmts(g.body) {
      NotNestedIs(Block(g.body), ParamSet(g.params), f.name);
      WellNamedIs(Block(g.body), ParamSet(g.params));
      assert All(BodyParts(g), Flat(f.name)) && All(BodyParts(g), NamedWell());
    }
  }

  lemma {:induction false} ProgramSitesRealise(p: Program, f: FnDef)
    requires WellNamedStmts(f.body)
    requires forall g :: g in p ==> NotNestedStmts(g.body, f.name) && WellNamedStmts(g.body)
    ensures SitesInProgram(p, f).before == PrintProgram(p)
    ensures SitesInProgram(p, f).after == PrintProgram(RewriteAll(p, f))
    ensures Realises(SitesInProgram(p, f))
  {
    if p == [] {
      LitRealises("");
    } else {
      var g := p[0];
      assert forall h :: h in p[1..] ==> h in p;
      ProgramSitesRealise(p[1..], f);
      SitesRealiseStmts(g.body, f);
      WrapRealises(" ", SitesInStmts(g.body, f), " ");
      WrapRealises(DefHead(g.name, g.params), Cat(Cat(Lit(" "), SitesInStmts(g.body, f)), Lit(" ")), DEF_END);
      CatRealises(SitesInDef(g, f), SitesInProgram(p[1..], f));
      assert RewriteAll(p, f)[1..] == RewriteAll(p[1..], f);
    }
  }

  /** One site per call. */
  lemma {:induction false} SitesCount(e: Expr, f: FnDef)
    requires AritiesOk(e, f)
    ensures |SitesIn(e, f).edits| == Calls(e, f.name)
  {
    match e
    case Num(_) =>
    case Name(_) =>
    case Op(_, args) => SitesCountArgs(args, f);
    case Do(_, args) => SitesCountArgs(args, f);
    case Call(_, args) => SitesCountArgs(args, f);
    case Block(b) => SitesCountStmts(b, f);
    case If(c, a, b) =>
      SitesCount(c, f);
      SitesCount(a, f);
      SitesCount(b, f);
    case Return(x) => SitesCount(x, f);
    case Try(x) => SitesCount(x, f);
  }

  lemma {:induction false} SitesCountArgs(args: seq<Expr>, f: FnDef)
    requires AritiesOkArgs(args, f)
    ensures |SitesInArgs(args, f).edits| == CallsArgs(args, f.name)
  {
    if args != [] {
      SitesCount(args[0], f);
      SitesCountArgs(args[1..], f);
    }
  }

  lemma {:induction false} SitesCountStmts(b: Stmts, f: FnDef)
    requires AritiesOkStmts(b, f)
    ensures |SitesInStmts(b, f).edits| == CallsStmts(b, f.name)
  {
    match b
    case Tail(e) => SitesCount(e, f);
    case Let(_, rhs, rest) =>
      SitesCount(rhs, f);
      SitesCountStmts(rest, f);
  }

  lemma {:induction false} SitesCountProgram(p: Program, f: FnDef)
    requires forall g :: g in p ==> AritiesOkStmts(g.body, f)
    ensures |SitesInProgram(p, f).edits| == CallsProgram(p, f.name)
  {
    if p != [] {
      assert forall h :: h in p[1..] ==> h in p;
      SitesCountProgram(p[1..], f);
      SitesCountStmts(p[0].body, f);
    }
  }

  // ----- removing the definition -----

  /** The text before the first definition of `name`. */
  function TextBefore(p: Program, name: string): string {
    if p == [] || p[0].name == name then "" else PrintDef(p[0]) + TextBefore(p[1..], name)
  }

  function TextAfter(p: Program, name: string): string {
    if p == [] then "" else if p[0].name == name then PrintProgram(p[1..]) else TextAfter(p[1..], name)
  }

  lemma {:induction false} DefInText(p: Program, name: string)
    requires DefsNamed(p, name) != []
    ensures PrintProgram(p) == TextBefore(p, name) + (PrintDef(DefsNamed(p, name)[0]) + TextAfter(p, name))
    ensures TextBefore(p, name) == "" || TextBefore(p, name)[|TextBefore(p, name)| - 1] == '\n'
  {
    if p[0].name != name {
      DefInText(p[1..], name);
      Assoc(PrintDef(p[0]), TextBefore(p[1..], name), PrintDef(DefsNamed(p, name)[0]) + TextAfter(p[1..], name));
    }
  }

  lemma {:induction false} RemovedText(p: Program, f: FnDef)
    requires DefsNamed(p, f.name) == [f] && CallsStmts(f.body, f.name) == 0
    ensures DefsNamed(RewriteAll(p, f), f.name) == [f]
    ensures TextBefore(RewriteAll(p, f), f.name) + TextAfter(RewriteAll(p, f), f.name) == PrintProgram(InlineProgram(p, f))
  {
    var q := RewriteAll(p, f);
    assert q[1..] == RewriteAll(p[1..], f);
    if p[0].name == f.name {
      NoCallsNothingToDoStmts(f.body, f);
      NoOtherDefs(p[1..], f);
    } else {
      RemovedText(p[1..], f);
      Assoc(PrintDef(q[0]), TextBefore(q[1..], f.name), TextAfter(q[1..], f.name));
      assert InlineProgram(p, f)[1..] == InlineProgram(p[1..], f);
    }
  }

  lemma {:induction false} NoOtherDefs(p: Program, f: FnDef)
    requires DefsNamed(p, f.name) == []
    ensures RewriteAll(p, f) == InlineProgram(p, f) && DefsNamed(RewriteAll(p, f), f.name) == []
  {
    if p != [] {
      NoOtherDefs(p[1..], f);
      assert RewriteAll(p, f)[1..] == RewriteAll(p[1..], f);
    }
  }

  /** The start of the run of blanks that ends at `i`. */
  function BlanksBefore(src: string, i: nat): (j: nat)
    requires i <= |src|
    ensures j <= i && (forall k :: j <= k < i ==> IsBlank(src[k])) && (j > 0 ==> !IsBlank(src[j - 1]))
  {
    if i > 0 && IsBlank(src[i - 1]) then BlanksBefore(src, i - 1) else i
  }

  /** The end of the run of blanks that starts at `i`. */
  function BlanksAfter(src: string, i: nat): (j: nat)
    requires i <= |src|
    ensures i <= j <= |src| && (forall k :: i <= k < j ==> IsBlank(src[k])) && (j < |src| ==> !IsBlank(src[j]))
    decreases |src| - i
  {
    if i < |src| && IsBlank(src[i]) then BlanksAfter(src, i + 1) else i
  }

  /** The text without the item at `[start, end)`, its indentation, the blanks behind it and one newline. */
  function WithoutItem(src: string, start: nat, end: nat): string
    requires start <= end <= |src|
  {
    var e := BlanksAfter(src, end);
    src[..BlanksBefore(src, start)] + src[if e < |src| && src[e] == '\n' then e + 1 else e..]
  }

  method RemoveItem(src: string, start: nat, end: nat) returns (out: string)
    requires start <= end <= |src|
    ensures out == WithoutItem(src, start, end)
  {
    var realStart := start;
    while realStart > 0 && IsBlank(src[realStart - 1])
      invariant 0 <= realStart <= start && BlanksBefore(src, realStart) == BlanksBefore(src, start)
    {
      realStart := realStart - 1;
    }
    var realEnd := end;
    while realEnd < |src| && IsBlank(src[realEnd])
      invariant end <= realEnd <= |src| && BlanksAfter(src, realEnd) == BlanksAfter(src, end)
    {
      realEnd := realEnd + 1;
    }
    if realEnd < |src| && src[realEnd] == '\n' {
      realEnd := realEnd + 1;
    }
    out := src[..realStart] + src[realEnd..];
  }

  // ----- the operation -----

  /** What the gates accept, in terms of the expressions that occur in the program. */
  ghost predicate Accepted(p: Program, f: FnDef) {
    && !LeavesEarly(f)
    && !CallsItself(f)
    && OnlyBareCalls(p, f.name)
    && AllCallsFull(p, f)
  }

  ghost predicate LeavesEarly(f: FnDef) {
    exists x :: x in BodyParts(f) && x.e.Return?
  }

  ghost predicate CallsItself(f: FnDef) {
    exists x :: x in BodyParts(f) && x.IsCallOf(f.name)
  }

  /** Apart from definitions, `name` occurs only as the callee of a call. */
  ghost predicate OnlyBareCalls(p: Program, name: string) {
    forall g :: g in p ==> name !in g.params && forall x :: x in BodyParts(g) ==> !x.Mentions(name)
  }

  /** Every call of `f` has one argument for each parameter. */
  ghost predicate AllCallsFull(p: Program, f: FnDef) {
    forall g, x :: g in p && x in BodyParts(g) && x.IsCallOf(f.name) ==> |x.e.args| == |f.params|
  }

  // The gates as they are computed say the same.

  lemma LeavesEarlyIs(f: FnDef)
    ensures HasReturnInStmts(f.body) <==> LeavesEarly(f)
  {
    HasReturnIs(Block(f.body), ParamSet(f.params));
  }

  lemma CallsItselfIs(f: FnDef)
    ensures CallsStmts(f.body, f.name) == 0 <==> !CallsItself(f)
  {
    NoCallsIs(Block(f.body), ParamSet(f.params), f.name);
  }

  lemma OnlyBareCallsIs(p: Program, name: string)
    ensures OnlyBareCalls(p, name) <==> forall g :: g in p ==> name !in g.params && OnlyCalledStmts(g.body, name)
  {
    forall g | g in p
      ensures OnlyCalledStmts(g.body, name) <==> forall x :: x in BodyParts(g) ==> !x.Mentions(name)
    {
      OnlyCalledIs(Block(g.body), ParamSet(g.params), name);
    }
  }

  lemma AllCallsFullIs(p: Program, f: FnDef)
    ensures AllCallsFull(p, f) <==> forall g :: g in p ==> AritiesOkStmts(g.body, f)
  {
    forall g | g in p
      ensures AritiesOkStmts(g.body, f) <==> All(BodyParts(g), FullCall(f))
    {
      AritiesOkIs(Block(g.body), ParamSet(g.params), f);
    }
  }

  lemma {:induction false} ProgramCallsCounted(p: Program, name: string)
    ensures CallsProgram(p, name) == CallCount(ProgramParts(p), name)
  {
    if p != [] {
      CallsCounted(Block(p[0].body), ParamSet(p[0].params), name);
      ProgramCallsCounted(p[1..], name);
      CallCountConcat(BodyParts(p[0]), ProgramParts(p[1..]), name);
    }
  }

  /** Which of the gates refuses. */
  ghost function Refusal(p: Program, f: FnDef): InlineError {
    if LeavesEarly(f) then HasReturn
    else if CallsItself(f) then Recursive
    else if !OnlyBareCalls(p, f.name) then OtherReferences
    else WrongArity
  }

  /** What acceptance means for the computed gates. */
  lemma AcceptedGates(p: Program, f: FnDef)
    requires Accepted(p, f)
    ensures CallsStmts(f.body, f.name) == 0
    ensures forall g :: g in p ==> AritiesOkStmts(g.body, f)
  {
    CallsItselfIs(f);
    AllCallsFullIs(p, f);
  }

  /** The gates in their order. */
  method CheckGates(p: Program, f: FnDef) returns (refusal: Option<InlineError>)
    requires |DefsNamed(p, f.name)| == 1
    ensures refusal == if Accepted(p, f) then None else Some(Refusal(p, f))
  {
    LeavesEarlyIs(f);
    if HasReturnInStmts(f.body) {
      return Some(HasReturn);
    }
    CallsItselfIs(f);
    if CallsStmts(f.body, f.name) != 0 {
      return Some(Recursive);
    }
    ReferenceGate(p, f.name);
    OnlyBareCallsIs(p, f.name);
    if IdentsProgram(p, f.name) > CallsProgram(p, f.name) + 1 {
      return Some(OtherReferences);
    }
    AllCallsFullIs(p, f);
    for i := 0 to |p|
      invariant forall j :: 0 <= j < i ==> AritiesOkStmts(p[j].body, f)
    {
      if !AritiesOkStmts(p[i].body, f) {
        assert p[i] in p;
        return Some(WrongArity);
      }
    }
    return None;
  }

  /**
   `inline_function` over one file. A name without a definition leaves the text as it is. Otherwise it succeeds
   exactly on the accepted programs, and then the new text is the text of the transformed program; the count is
   the number of call sites and one for the definition.
   */
  method InlineFunction(p: Program, target: string) returns (r: Result<(string, nat), InlineError>)
    requires forall f :: f in p && f.name == target ==> TextOk(p, f)
    ensures !IsValidIdent(target) <==> r == Failure(InvalidIdent)
    ensures IsValidIdent(target) && DefsNamed(p, target) == [] ==> r == Success((PrintProgram(p), 0))
    ensures IsValidIdent(target) && |DefsNamed(p, target)| > 1 ==> r == Failure(Ambiguous(|DefsNamed(p, target)|))
    ensures IsValidIdent(target) && |DefsNamed(p, target)| == 1 ==>
              var f := DefsNamed(p, target)[0];
              r == if Accepted(p, f)
                   then Success((PrintProgram(InlineProgram(p, f)), CallCount(ProgramParts(p), target) + 1))
                   else Failure(Refusal(p, f))
  {
    if !IsValidIdent(target) {
      return Failure(InvalidIdent);
    }
    var defs := DefsNamed(p, target);
    if |defs| == 0 {
      return Success((PrintProgram(p), 0));
    }
    if |defs| > 1 {
      return Failure(Ambiguous(|defs|));
    }
    var f := defs[0];
    DefsNamedMembers(p, target);
    assert f in defs && f.name == target;
    var refusal := CheckGates(p, f);
    if refusal.Some? {
      return Failure(refusal.value);
    }
    AcceptedGates(p, f);
    var out, sites := RewriteText(p, f);
    SitesCountProgram(p, f);
    ProgramCallsCounted(p, target);
    return Success((out, sites + 1));
  }

  /** Splices the replacements at all call sites, then finds and removes the definition in the new text. */
  method RewriteText(p: Program, f: FnDef) returns (out: string, count: nat)
    requires DefsNamed(p, f.name) == [f] && CallsStmts(f.body, f.name) == 0 && TextOk(p, f)
    ensures out == PrintProgram(InlineProgram(p, f))
    ensures count == |SitesInProgram(p, f).edits|
  {
    var sites := SitesInProgram(p, f);
    TextOkBodies(p, f);
    ProgramSitesRealise(p, f);
    var spliced := SpliceDescending(sites.before, sites.edits);
    var q := RewriteAll(p, f);
    RemovedText(p, f);
    DefInText(q, f.name);
    var start := |TextBefore(q, f.name)|;
    var end := start + |PrintDef(f)| - 1;
    RemovalEffect(spliced, TextBefore(q, f.name), PrintDef(f), TextAfter(q, f.name), start, end);
    out := RemoveItem(spliced, start, end);
    count := |sites.edits|;
  }

  /** A definition that starts a line and ends one is removed without a trace. */
  lemma RemovalEffect(src: string, a: string, d: string, z: string, start: nat, end: nat)
    requires src == a + (d + z) && d != "" && d[|d| - 1] == '\n'
    requires start == |a| && end == start + |d| - 1
    requires a == "" || a[|a| - 1] == '\n'
    ensures end < |src| && WithoutItem(src, start, end) == a + z
  {}

  /** A definition is counted as often as it occurs. */
  lemma {:induction false} DefsNamedCounted(p: Program, name: string, d: FnDef)
    ensures multiset(DefsNamed(p, name))[d] == if d.name == name then multiset(p)[d] else 0
  {
    if p != [] {
      DefsNamedCounted(p[1..], name, d);
      assert p == [p[0]] + p[1..];
    }
  }

  lemma {:induction false} DefsNamedMembers(p: Program, name: string)
    ensures forall g :: g in DefsNamed(p, name) <==> g in p && g.name == name
    ensures DefsNamed(p, name) != [] ==> Find(p, name) == Some(DefsNamed(p, name)[0])
  {
    if p != [] {
      DefsNamedMembers(p[1..], name);
    }
  }

  // ----- text and meaning together -----

  /**
   `fn f(x) { x? }` and `fn g() { let y = f(1); 2 }`: the gates accept, and afterwards `g()` is 1 instead of 2 where `?`
   leaves on 1.
   */
  lemma EscapingTryAccepted(m: Machine, f: FnDef, g: FnDef, p: Program)
    requires m.fails(1) && p == [f, g]
    requires f == FnDef("f", ["x"], Tail(Try(Name("x"))))
    requires g == FnDef("g", [], Let("y", Call("f", [Num(1)]), Tail(Num(2))))
    ensures DefsNamed(p, "f") == [f] && Accepted(p, f)
    ensures Eval(m, p, Call("g", []), map[], [], 2) == Value(2, [])
    ensures Eval(m, InlineProgram(p, f), Call("g", []), map[], [], 2) == Value(1, [])
  {
    assert p[1..] == [g];
    OtherNameOnly(g, "f");
    EscapingTryGates(f, g);
    GatesAccept(f, g, p);
    EscapingTryRuns(m, f, g, p);
  }

  lemma OtherNameOnly(g: FnDef, name: string)
    requires g.name != name
    ensures DefsNamed([g], name) == []
  {
    assert [g][1..] == [];
  }

  lemma GatesAccept(f: FnDef, g: FnDef, p: Program)
    requires p == [f, g] && f.name !in f.params && f.name !in g.params
    requires !HasReturnInStmts(f.body) && CallsStmts(f.body, f.name) == 0
    requires OnlyCalledStmts(f.body, f.name) && OnlyCalledStmts(g.body, f.name)
    requires AritiesOkStmts(f.body, f) && AritiesOkStmts(g.body, f)
    ensures Accepted(p, f)
  {
    LeavesEarlyIs(f);
    CallsItselfIs(f);
    OnlyBareCallsIs(p, f.name);
    AllCallsFullIs(p, f);
  }

  lemma EscapingTryGates(f: FnDef, g: FnDef)
    requires f == FnDef("f", ["x"], Tail(Try(Name("x"))))
    requires g == FnDef("g", [], Let("y", Call("f", [Num(1)]), Tail(Num(2))))
    ensures !HasReturnInStmts(f.body) && CallsStmts(f.body, "f") == 0
    ensures OnlyCalledStmts(f.body, "f") && OnlyCalledStmts(g.body, "f")
    ensures AritiesOkStmts(f.body, f) && AritiesOkStmts(g.body, f)
  {
    assert [Num(1)][1..] == [];
    assert OnlyCalledArgs([Num(1)], "f") && AritiesOkArgs([Num(1)], f);
    assert OnlyCalled(Call("f", [Num(1)]), "f") && AritiesOk(Call("f", [Num(1)]), f);
  }

  lemma EscapingTryRuns(m: Machine, f: FnDef, g: FnDef, p: Program)
    requires m.fails(1) && p == [f, g]
    requires f == FnDef("f", ["x"], Tail(Try(Name("x"))))
    requires g == FnDef("g", [], Let("y", Call("f", [Num(1)]), Tail(Num(2))))
    ensures Eval(m, p, Call("g", []), map[], [], 2) == Value(2, [])
    ensures Eval(m, InlineProgram(p, f), Call("g", []), map[], [], 2) == Value(1, [])
  {
    var b := Let("x", Num(1), f.body);
    assert f.params[1..] == [] && [Num(1)][1..] == [] && p[1..] == [g] && [g][1..] == [];
    assert LetAll(f.params, [Num(1)], f.body) == b;
    var h := g.(body := Let("y", Block(b), Tail(Num(2))));
    assert InlineStmts(g.body, f) == h.body;
    assert InlineProgram([g], f) == [h];
    CallOfTry(m, p, f);
    assert EvalStmts(m, p, g.body, map[], [], 1) == Value(2, []);
    assert Find([g], "g") == Some(g);
    CallWithoutArgs(m, p, g, 2);
    InlinedTryExits(m, [h], h, b);
    CallWithoutArgs(m, [h], h, 2);
  }

  lemma InlinedTryExits(m: Machine, q: Program, h: FnDef, b: Stmts)
    requires m.fails(1) && b == Let("x", Num(1), Tail(Try(Name("x"))))
    requires h.body == Let("y", Block(b), Tail(Num(2)))
    ensures EvalStmts(m, q, h.body, map[], [], 1) == Exit(1, [])
  {
    assert Eval(m, q, Try(Name("x")), map["x" := 1], [], 1) == Exit(1, []);
    assert EvalStmts(m, q, b, map[], [], 1) == Exit(1, []);
  }

  lemma CallWithoutArgs(m: Machine, p: Program, g: FnDef, fuel: nat)
    requires Find(p, g.name) == Some(g) && g.params == [] && fuel > 0
    ensures Eval(m, p, Call(g.name, []), map[], [], fuel) == Returned(EvalStmts(m, p, g.body, map[], [], fuel - 1))
  {
    assert EvalArgs(m, p, [], map[], [], fuel) == Values([], []);
    assert BindOver(map[], g.params, []) == map[];
  }

  lemma CallOfTry(m: Machine, p: Program, f: FnDef)
    requires m.fails(1) && f == FnDef("f", ["x"], Tail(Try(Name("x")))) && Find(p, "f") == Some(f)
    ensures Eval(m, p, Call("f", [Num(1)]), map[], [], 1) == Value(1, [])
  {
    assert EvalArgs(m, p, [Num(1)][1..], map[], [], 1) == Values([], []);
    assert EvalArgs(m, p, [Num(1)], map[], [], 1) == Values([1] + [], []);
    assert f.params[1..] == [] && [1][1..] == [];
    assert BindOver(map[], f.params, [1]) == map["x" := 1];
    assert Eval(m, p, Try(Name("x")), map["x" := 1], [], 0) == Exit(1, []);
  }

  lemma AcceptedIsInlinable(p: Program, f: FnDef)
    requires DefsNamed(p, f.name) == [f] && Accepted(p, f)
    requires forall x :: x in BodyParts(f) ==> !x.e.Try?
    requires forall g, x :: g in p && g.name != f.name && x in BodyParts(g) ==> CanInlineAt(x, f)
    ensures InlinableProgram(p, f)
  {
    DefsNamedMembers(p, f.name);
    NoExitIs(Block(f.body), ParamSet(f.params));
    assert All(BodyParts(f), NotExit());
    CallsItselfIs(f);
    forall g | g in p && g.name != f.name ensures InlinableStmts(g.body, f, ParamSet(g.params)) {
      InlinableIs(Block(g.body), ParamSet(g.params), f);
      assert All(BodyParts(g), CanInline(f));
    }
  }

  /**
   A program the gates accept keeps its meaning when the body has no `?` and the call sites meet the conditions
   the gates do not check.
   */
  lemma AcceptedKeepsMeaning(p: Program, f: FnDef, m: Machine, e: Expr, env: Env, t: seq<Event>, r: Outcome)
    requires DefsNamed(p, f.name) == [f] && Accepted(p, f)
    requires forall x :: x in BodyParts(f) ==> !x.e.Try?
    requires forall g, x :: g in p && g.name != f.name && x in BodyParts(g) ==> CanInlineAt(x, f)
    requires forall x :: x in PartsOf(e, env.Keys) ==> CanInlineAt(x, f)
    ensures EvaluatesTo(m, p, e, env, t, r) <==> EvaluatesTo(m, InlineProgram(p, f), InlineExpr(e, f), env, t, r)
    ensures forall g :: g in InlineProgram(p, f) ==> g.name != f.name && CallsStmts(g.body, f.name) == 0
  {
    AcceptedIsInlinable(p, f);
    InlinableIs(e, env.Keys, f);
    assert All(PartsOf(e, env.Keys), CanInline(f));
    InliningPreservesMeaning(m, p, f, e, env, t, r);
    RemovedFunctionIsGone(p, f);
  }
}
