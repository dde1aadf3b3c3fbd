/**
 `change_signature` of crates/aa-patch/src/change_sig.rs on source text: the gates, then three passes over the text,
 one for the call sites, one for the parameter list and one for the body.
 */
module ChangeSigText {
  import opened Wrappers
  import opened Splice
  import opened MiniRust
  import opened Parts
  import opened Source
  import opened Text
  import T = InlineText
  import opened ChangeSig

  datatype ChangeError =
    | InvalidIdent | EmptyParams | Ambiguous(found: nat) | ArityChanged | BadEntry(entry: EntryError)
    | OtherReferences | NameTaken | WrongArity | BindingClash

  // ----- first pass: the arguments of every call -----

  /** The arguments in their new order, separated by a comma and a space. */
  function JoinArgs(texts: seq<string>): string {
    if texts == [] then "" else if |texts| == 1 then Trim(texts[0]) else Trim(texts[0]) + ", " + JoinArgs(texts[1..])
  }

  function ArgSites(e: Expr, f: string, perm: seq<nat>): Edited {
    match e
    case Num(_) => Lit(Print(e))
    case Name(_) => Lit(Print(e))
    case Op(op, args) => Cat(Cat(Lit("::" + op + "("), ArgSitesArgs(args, f, perm)), Lit(")"))
    case Do(op, args) => Cat(Cat(Lit("::" + op + "("), ArgSitesArgs(args, f, perm)), Lit(")"))
    case Call(g, args) =>
      var inner := ArgSitesArgs(args, f, perm);
      var list :=
        if g == f && InBounds(perm, |args|) then
          var text := JoinArgs(Permute(T.ArgTexts(args), perm));
          Edited(inner.before, inner.edits + [Edit(0, |inner.before|, text)], text)
        else inner;
      Cat(Cat(Lit(g + "("), list), Lit(")"))
    case Block(b) => Cat(Cat(Lit("({ "), ArgSitesStmts(b, f, perm)), Lit(" })"))
    case If(c, a, b) =>
      IfParts(ArgSites(c, f, perm), ArgSites(a, f, perm), ArgSites(b, f, perm))
    case Return(x) => Cat(Cat(Lit("(return "), ArgSites(x, f, perm)), Lit(")"))
    case Try(x) => Cat(ArgSites(x, f, perm), Lit("?"))
  }

  function ArgSitesArgs(args: seq<Expr>, f: string, perm: seq<nat>): Edited {
    if args == [] then Lit("")
    else if |args| == 1 then ArgSites(args[0], f, perm)
    else Cat(Cat(ArgSites(args[0], f, perm), Lit(", ")), ArgSitesArgs(args[1..], f, perm))
  }

  function ArgSitesStmts(b: Stmts, f: string, perm: seq<nat>): Edited {
    match b
    case Tail(e) => ArgSites(e, f, perm)
    case Let(x, rhs, rest) =>
      Cat(Cat(Cat(Lit("let " + x + " = "), ArgSites(rhs, f, perm)), Lit("; ")), ArgSitesStmts(rest, f, perm))
  }

  function ArgSitesProgram(p: Program, f: string, perm: seq<nat>): Edited {
    if p == [] then Lit("")
    else
      var d := Cat(Cat(Lit(" "), ArgSitesStmts(p[0].body, f, perm)), Lit(" "));
      Cat(Cat(Cat(Lit(DefHead(p[0].name, p[0].params)), d), Lit(DEF_END)), ArgSitesProgram(p[1..], f, perm))
  }

  lemma {:induction false} JoinArgsPrints(args: seq<Expr>)
    requires WellNamedArgs(args)
    ensures JoinArgs(T.ArgTexts(args)) == PrintArgs(args)
  {
    if args != [] {
      PrintTight(args[0]);
      TrimTight(Print(args[0]));
      JoinArgsPrints(args[1..]);
      assert T.ArgTexts(args)[1..] == T.ArgTexts(args[1..]);
    }
  }

  lemma {:induction false} ArgTextsAt(args: seq<Expr>, i: nat)
    requires i < |args|
    ensures T.ArgTexts(args)[i] == Print(args[i])
  {
    if i > 0 {
      ArgTextsAt(args[1..], i - 1);
    }
  }

  lemma {:induction false} WellNamedMembers(args: seq<Expr>)
    ensures WellNamedArgs(args) <==> forall i :: 0 <= i < |args| ==> WellNamed(args[i])
  {
    if args != [] {
      WellNamedMembers(args[1..]);
      assert args == [args[0]] + args[1..];
    }
  }

  lemma PermutedText(args: seq<Expr>, perm: seq<nat>)
    requires WellNamedArgs(args) && InBounds(perm, |args|)
    ensures JoinArgs(Permute(T.ArgTexts(args), perm)) == PrintArgs(Permute(args, perm))
  {
    var args' := Permute(args, perm);
    WellNamedMembers(args);
    WellNamedMembers(args');
    JoinArgsPrints(args');
    forall i | 0 <= i < |perm| ensures T.ArgTexts(args')[i] == Permute(T.ArgTexts(args), perm)[i] {
      ArgTextsAt(args', i);
      ArgTextsAt(args, perm[i]);
    }
    assert T.ArgTexts(args') == Permute(T.ArgTexts(args), perm);
  }

  lemma {:induction false} NoCallsNoArgSites(e: Expr, f: string, perm: seq<nat>)
    requires Calls(e, f) == 0
    ensures ArgSites(e, f, perm).edits == []
  {
    match e
    case Num(_) =>
    case Name(_) =>
    case Op(_, args) => NoCallsNoArgSitesArgs(args, f, perm);
    case Do(_, args) => NoCallsNoArgSitesArgs(args, f, perm);
    case Call(_, args) => NoCallsNoArgSitesArgs(args, f, perm);
    case Block(b) => NoCallsNoArgSitesStmts(b, f, perm);
    case If(c, a, b) =>
      NoCallsNoArgSites(c, f, perm);
      NoCallsNoArgSites(a, f, perm);
      NoCallsNoArgSites(b, f, perm);
    case Return(x) => NoCallsNoArgSites(x, f, perm);
    case Try(x) => NoCallsNoArgSites(x, f, perm);
  }

  lemma {:induction false} NoCallsNoArgSitesArgs(args: seq<Expr>, f: string, perm: seq<nat>)
    requires CallsArgs(args, f) == 0
    ensures ArgSitesArgs(args, f, perm).edits == []
  {
    if args != [] {
      NoCallsNoArgSites(args[0], f, perm);
      NoCallsNoArgSitesArgs(args[1..], f, perm);
    }
  }

  lemma {:induction false} NoCallsNoArgSitesStmts(b: Stmts, f: string, perm: seq<nat>)
    requires CallsStmts(b, f) == 0
    ensures ArgSitesStmts(b, f, perm).edits == []
  {
    match b
    case Tail(e) => NoCallsNoArgSites(e, f, perm);
    case Let(_, rhs, rest) =>
      NoCallsNoArgSites(rhs, f, perm);
      NoCallsNoArgSitesStmts(rest, f, perm);
  }

  lemma {:induction false} ArgSitesRealise(e: Expr, f: string, perm: seq<nat>)
    requires T.NotNested(e, f) && WellNamed(e)
    ensures ArgSites(e, f, perm).before == Print(e) && ArgSites(e, f, perm).after == Print(ReorderExpr(e, f, perm))
    ensures Realises(ArgSites(e, f, perm))
  {
    match e
    case Num(_) => LitRealises(Print(e));
    case Name(_) => LitRealises(Print(e));
    case Op(op, args) =>
      ArgSitesRealiseArgs(args, f, perm);
      WrapRealises("::" + op + "(", ArgSitesArgs(args, f, perm), ")");
    case Do(op, args) =>
      ArgSitesRealiseArgs(args, f, perm);
      WrapRealises("::" + op + "(", ArgSitesArgs(args, f, perm), ")");
    case Call(g, args) =>
      ArgSitesRealiseArgs(args, f, perm);
      if g == f && InBounds(perm, |args|) {
        ArgListRealises(args, f, perm);
      } else {
        WrapRealises(g + "(", ArgSitesArgs(args, f, perm), ")");
      }
    case Block(b) =>
      ArgSitesRealiseStmts(b, f, perm);
      WrapRealises("({ ", ArgSitesStmts(b, f, perm), " })");
    case If(c, a, b) =>
      ArgSitesRealise(c, f, perm);
      ArgSitesRealise(a, f, perm);
      ArgSitesRealise(b, f, perm);
      IfRealises(ArgSites(c, f, perm), ArgSites(a, f, perm), ArgSites(b, f, perm));
    case Return(x) =>
      ArgSitesRealise(x, f, perm);
      WrapRealises("(return ", ArgSites(x, f, perm), ")");
    case Try(x) =>
      ArgSitesRealise(x, f, perm);
      LitRealises("?");
      CatRealises(ArgSites(x, f, perm), Lit("?"));
  }

  /** At a call of `f` the whole argument list is replaced. */
  lemma ArgListRealises(args: seq<Expr>, f: string, perm: seq<nat>)
    requires CallsArgs(args, f) == 0 && WellNamedArgs(args) && InBounds(perm, |args|)
    requires ArgSitesArgs(args, f, perm).before == PrintArgs(args)
    ensures ArgSites(Call(f, args), f, perm).before == Print(Call(f, args))
    ensures ArgSites(Call(f, args), f, perm).after == Print(Call(f, Permute(args, perm)))
    ensures Realises(ArgSites(Call(f, args), f, perm))
  {
    PermutedText(args, perm);
    var list := Edited(PrintArgs(args), [Edit(0, |PrintArgs(args)|, PrintArgs(Permute(args, perm)))], PrintArgs(Permute(args, perm)));
    ListReplaced(args, f, perm, list);
    WholeRealises(list.before, list.after);
    WrapRealises(f + "(", list, ")");
  }

  /** The one edit of a call of `f` without calls of it in its arguments is that of the whole list. */
  lemma ListReplaced(args: seq<Expr>, f: string, perm: seq<nat>, list: Edited)
    requires CallsArgs(args, f) == 0 && InBounds(perm, |args|)
    requires ArgSitesArgs(args, f, perm).before == PrintArgs(args)
    requires var text := JoinArgs(Permute(T.ArgTexts(args), perm));
             list == Edited(PrintArgs(args), [Edit(0, |PrintArgs(args)|, text)], text)
    ensures ArgSites(Call(f, args), f, perm) == Cat(Cat(Lit(f + "("), list), Lit(")"))
  {
    NoCallsNoArgSitesArgs(args, f, perm);
    assert [] + list.edits == list.edits;
  }

  lemma {:induction false} ArgSitesRealiseArgs(args: seq<Expr>, f: string, perm: seq<nat>)
    requires T.NotNestedArgs(args, f) && WellNamedArgs(args)
    ensures ArgSitesArgs(args, f, perm).before == PrintArgs(args)
    ensures ArgSitesArgs(args, f, perm).after == PrintArgs(ReorderArgs(args, f, perm))
    ensures Realises(ArgSitesArgs(args, f, perm))
  {
    if args == [] {
      LitRealises("");
    } else {
      ArgSitesRealise(args[0], f, perm);
      ArgSitesRealiseArgs(args[1..], f, perm);
      if |args| > 1 {
        CommaRealises(ArgSites(args[0], f, perm), ArgSitesArgs(args[1..], f, perm));
        assert ReorderArgs(args, f, perm)[1..] == ReorderArgs(args[1..], f, perm);
      }
    }
  }

  lemma {:induction false} ArgSitesRealiseStmts(b: Stmts, f: string, perm: seq<nat>)
    requires T.NotNestedStmts(b, f) && WellNamedStmts(b)
    ensures ArgSitesStmts(b, f, perm).before == PrintStmts(b)
    ensures ArgSitesStmts(b, f, perm).after == PrintStmts(ReorderStmts(b, f, perm))
    ensures Realises(ArgSitesStmts(b, f, perm))
  {
    match b
    case Tail(e) => ArgSitesRealise(e, f, perm);
    case Let(x, rhs, rest) =>
      ArgSitesRealise(rhs, f, perm);
      ArgSitesRealiseStmts(rest, f, perm);
      WrapRealises("let " + x + " = ", ArgSites(rhs, f, perm), "; ");
      CatRealises(Cat(Cat(Lit("let " + x + " = "), ArgSites(rhs, f, perm)), Lit("; ")), ArgSitesStmts(rest, f, perm));
  }

  function ReorderAll(p: Program, f: string, perm: seq<nat>): Program {
    if p == [] then [] else [p[0].(body := ReorderStmts(p[0].body, f, perm))] + ReorderAll(p[1..], f, perm)
  }

  // ----- a request that keeps the order replaces every argument list by itself -----

  ghost predicate Kept(d: Edited) {
    d.after == d.before && Idle(d.before, d.edits)
  }

  lemma KeptCat(a: Edited, b: Edited)
    requires Kept(a) && Kept(b)
    ensures Kept(Cat(a, b))
  {
    var d := Cat(a, b);
    forall i | 0 <= i < |d.edits| ensures IdleEdit(d.before, d.edits[i]) {
      if i < |a.edits| {
        assert IdleEdit(a.before, a.edits[i]);
        IdleLeft(a.before, b.before, a.edits[i]);
      } else {
        assert IdleEdit(b.before, b.edits[i - |a.edits|]);
        IdleRight(a.before, b.before, b.edits[i - |a.edits|]);
      }
    }
  }

  lemma IdleLeft(a: string, b: string, e: Edit)
    requires IdleEdit(a, e)
    ensures IdleEdit(a + b, e)
  {}

  lemma IdleRight(a: string, b: string, e: Edit)
    requires IdleEdit(b, e)
    ensures IdleEdit(a + b, Edit(e.start + |a|, e.end + |a|, e.text))
  {}

  lemma KeptBetween(left: string, d: Edited, right: string)
    requires Kept(d)
    ensures Kept(Cat(Cat(Lit(left), d), Lit(right))) && Cat(Cat(Lit(left), d), Lit(right)).before == left + d.before + right
  {
    KeptCat(Lit(left), d);
    KeptCat(Cat(Lit(left), d), Lit(right));
  }

  lemma {:induction false} ArgSitesKept(e: Expr, f: string, perm: seq<nat>)
    requires IsIdentity(perm) && WellNamed(e)
    ensures Kept(ArgSites(e, f, perm)) && ArgSites(e, f, perm).before == Print(e)
  {
    match e
    case Num(_) =>
    case Name(_) =>
    case Op(op, args) =>
      ArgSitesKeptArgs(args, f, perm);
      KeptBetween("::" + op + "(", ArgSitesArgs(args, f, perm), ")");
    case Do(op, args) =>
      ArgSitesKeptArgs(args, f, perm);
      KeptBetween("::" + op + "(", ArgSitesArgs(args, f, perm), ")");
    case Call(g, args) =>
      ArgSitesKeptArgs(args, f, perm);
      CallKept(g, args, f, perm);
    case Block(b) =>
      ArgSitesKeptStmts(b, f, perm);
      KeptBetween("({ ", ArgSitesStmts(b, f, perm), " })");
    case If(c, a, b) =>
      ArgSitesKept(c, f, perm);
      ArgSitesKept(a, f, perm);
      ArgSitesKept(b, f, perm);
      IfKept(c, a, b, f, perm);
    case Return(x) =>
      ArgSitesKept(x, f, perm);
      KeptBetween("(return ", ArgSites(x, f, perm), ")");
    case Try(x) =>
      ArgSitesKept(x, f, perm);
      KeptCat(ArgSites(x, f, perm), Lit("?"));
  }

  lemma CallKept(g: string, args: seq<Expr>, f: string, perm: seq<nat>)
    requires IsIdentity(perm) && WellNamedArgs(args)
    requires Kept(ArgSitesArgs(args, f, perm)) && ArgSitesArgs(args, f, perm).before == PrintArgs(args)
    ensures Kept(ArgSites(Call(g, args), f, perm)) && ArgSites(Call(g, args), f, perm).before == Print(Call(g, args))
  {
    var inner := ArgSitesArgs(args, f, perm);
    if g == f && InBounds(perm, |args|) {
      PermutedText(args, perm);
      assert Permute(args, perm) == args;
      var text := JoinArgs(Permute(T.ArgTexts(args), perm));
      var list := Edited(inner.before, inner.edits + [Edit(0, |inner.before|, text)], text);
      assert text == PrintArgs(args) && inner.before[0..|inner.before|] == text;
      assert IdleEdit(inner.before, Edit(0, |inner.before|, text));
      assert Kept(list);
      KeptBetween(g + "(", list, ")");
    } else {
      KeptBetween(g + "(", inner, ")");
    }
  }

  lemma IfKept(c: Expr, a: Expr, b: Expr, f: string, perm: seq<nat>)
    requires Kept(ArgSites(c, f, perm)) && ArgSites(c, f, perm).before == Print(c)
    requires Kept(ArgSites(a, f, perm)) && ArgSites(a, f, perm).before == Print(a)
    requires Kept(ArgSites(b, f, perm)) && ArgSites(b, f, perm).before == Print(b)
    ensures Kept(ArgSites(If(c, a, b), f, perm)) && ArgSites(If(c, a, b), f, perm).before == Print(If(c, a, b))
  {
    var d := Cat(Cat(Lit("(if "), ArgSites(c, f, perm)), Lit(" { "));
    KeptBetween("(if ", ArgSites(c, f, perm), " { ");
    KeptCat(d, ArgSites(a, f, perm));
    KeptCat(Cat(d, ArgSites(a, f, perm)), Lit(" } else { "));
    var d' := Cat(Cat(d, ArgSites(a, f, perm)), Lit(" } else { "));
    KeptCat(d', ArgSites(b, f, perm));
    KeptCat(Cat(d', ArgSites(b, f, perm)), Lit(" })"));
  }

  lemma {:induction false} ArgSitesKeptArgs(args: seq<Expr>, f: string, perm: seq<nat>)
    requires IsIdentity(perm) && WellNamedArgs(args)
    ensures Kept(ArgSitesArgs(args, f, perm)) && ArgSitesArgs(args, f, perm).before == PrintArgs(args)
  {
    if args != [] {
      ArgSitesKept(args[0], f, perm);
      ArgSitesKeptArgs(args[1..], f, perm);
      if |args| > 1 {
        KeptCat(ArgSites(args[0], f, perm), Lit(", "));
        KeptCat(Cat(ArgSites(args[0], f, perm), Lit(", ")), ArgSitesArgs(args[1..], f, perm));
      }
    }
  }

  lemma {:induction false} ArgSitesKeptStmts(b: Stmts, f: string, perm: seq<nat>)
    requires IsIdentity(perm) && WellNamedStmts(b)
    ensures Kept(ArgSitesStmts(b, f, perm)) && ArgSitesStmts(b, f, perm).before == PrintStmts(b)
  {
    match b
    case Tail(e) => ArgSitesKept(e, f, perm);
    case Let(x, rhs, rest) =>
      ArgSitesKept(rhs, f, perm);
      ArgSitesKeptStmts(rest, f, perm);
      KeptBetween("let " + x + " = ", ArgSites(rhs, f, perm), "; ");
      KeptCat(Cat(Cat(Lit("let " + x + " = "), ArgSites(rhs, f, perm)), Lit("; ")), ArgSitesStmts(rest, f, perm));
  }

  lemma {:induction false} ArgSitesProgramKept(p: Program, f: string, perm: seq<nat>)
    requires IsIdentity(perm) && forall g :: g in p ==> WellNamedStmts(g.body)
    ensures Kept(ArgSitesProgram(p, f, perm)) && ArgSitesProgram(p, f, perm).before == PrintProgram(p)
    ensures ReorderAll(p, f, perm) == p
  {
    if p != [] {
      var g := p[0];
      assert p == [g] + p[1..] && forall h :: h in p[1..] ==> h in p;
      ArgSitesProgramKept(p[1..], f, perm);
      ArgSitesKeptStmts(g.body, f, perm);
      IdentityKeepsStmts(g.body, f, perm);
      var d := Cat(Cat(Lit(" "), ArgSitesStmts(g.body, f, perm)), Lit(" "));
      KeptBetween(" ", ArgSitesStmts(g.body, f, perm), " ");
      KeptBetween(DefHead(g.name, g.params), d, DEF_END);
      KeptCat(Cat(Cat(Lit(DefHead(g.name, g.params)), d), Lit(DEF_END)), ArgSitesProgram(p[1..], f, perm));
    }
  }

  /**
   `f(f(1,2), 3)` in another layout than the printed one, under a request that keeps the order: the inner list is replaced
   by one that is longer by a blank and moves the end of the outer one, which is replaced up to where it was. The second
   argument of the outer call is 33 now.
   */
  lemma StaleOuterList()
    ensures var inner, outer := Edit(4, 7, "1, 2"), Edit(2, 11, "f(1,2), 3");
            ReplaceRange(ReplaceRange("f(f(1,2), 3)", inner), outer) == "f(f(1,2), 33)"
  {
    assert ReplaceRange("f(f(1,2), 3)", Edit(4, 7, "1, 2")) == "f(f(1, 2), 3)";
    assert "f(f(1, 2), 3)"[11..] == "3)";
  }

  /** No call of `f` stands inside an argument of another one, unless the request keeps the order. */
  ghost predicate TextOk(p: Program, f: string, perm: seq<nat>) {
    forall g, x :: g in p && x in BodyParts(g) ==> (T.FlatAt(x, f) || IsIdentity(perm)) && T.NamedWellAt(x)
  }

  lemma TextOkBodies(p: Program, f: string, perm: seq<nat>)
    requires TextOk(p, f, perm)
    ensures forall g :: g in p ==> (T.NotNestedStmts(g.body, f) || IsIdentity(perm)) && WellNamedStmts(g.body)
  {
    forall g | g in p ensures (T.NotNestedStmts(g.body, f) || IsIdentity(perm)) && WellNamedStmts(g.body) {
      T.NotNestedIs(Block(g.body), ParamSet(g.params), f);
      T.WellNamedIs(Block(g.body), ParamSet(g.params));
      assert IsIdentity(perm) || All(BodyParts(g), T.Flat(f));
      assert All(BodyParts(g), T.NamedWell());
    }
  }

  /** One definition: head, body between spaces, end. */
  lemma DefRealises(head: string, body: Edited)
    requires Realises(body)
    ensures Realises(Cat(Cat(Lit(head), Cat(Cat(Lit(" "), body), Lit(" "))), Lit(DEF_END)))
  {
    WrapRealises(" ", body, " ");
    WrapRealises(head, Cat(Cat(Lit(" "), body), Lit(" ")), DEF_END);
  }

  lemma {:induction false} ArgSitesProgramRealise(p: Program, f: string, perm: seq<nat>)
    requires forall g :: g in p ==> T.NotNestedStmts(g.body, f) && WellNamedStmts(g.body)
    ensures ArgSitesProgram(p, f, perm).before == PrintProgram(p)
    ensures ArgSitesProgram(p, f, perm).after == PrintProgram(ReorderAll(p, f, perm))
    ensures Realises(ArgSitesProgram(p, f, perm))
  {
    if p == [] {
      LitRealises("");
    } else {
      var g := p[0];
      assert forall h :: h in p[1..] ==> h in p;
      ArgSitesProgramRealise(p[1..], f, perm);
      ArgSitesRealiseStmts(g.body, f, perm);
      DefRealises(DefHead(g.name, g.params), ArgSitesStmts(g.body, f, perm));
      CatRealises(Cat(Cat(Lit(DefHead(g.name, g.params)), Cat(Cat(Lit(" "), ArgSitesStmts(g.body, f, perm)), Lit(" "))), Lit(DEF_END)),
                  ArgSitesProgram(p[1..], f, perm));
      assert ReorderAll(p, f, perm)[1..] == ReorderAll(p[1..], f, perm);
    }
  }

  // ----- second pass: the parameter list -----

  function ParamText(x: string): string {
    x + ": i64"
  }

  /** `text` with the first occurrence of the name replaced; the name starts the text of its parameter. */
  function RenamedParamText(text: string, old_: string, new_: string): string
    requires |old_| <= |text|
  {
    new_ + text[|old_|..]
  }

  function NewParamsText(params: seq<string>, newParams: seq<ParamReorder>): string
    requires forall i :: 0 <= i < |newParams| ==> newParams[i].fromIndex < |params|
  {
    if newParams == [] then ""
    else
      var old_ := params[newParams[0].fromIndex];
      var one := match newParams[0].rename
                 case None => ParamText(old_)
                 case Some(n) => RenamedParamText(ParamText(old_), old_, n);
      if |newParams| == 1 then one else one + ", " + NewParamsText(params, newParams[1..])
  }

  lemma {:induction false} NewParamsPrint(params: seq<string>, newParams: seq<ParamReorder>, finals: seq<string>)
    requires forall i :: 0 <= i < |newParams| ==> newParams[i].fromIndex < |params|
    requires |finals| == |newParams|
    requires forall i :: 0 <= i < |newParams| ==> finals[i] == FinalName(params, newParams[i])
    ensures NewParamsText(params, newParams) == PrintParams(finals)
  {
    if newParams != [] {
      NewParamsPrint(params, newParams[1..], finals[1..]);
      var old_ := params[newParams[0].fromIndex];
      assert ParamText(old_)[|old_|..] == ": i64";
    }
  }

  /** The parameter list of each definition of `f` replaced. */
  function SigProgram(p: Program, f: string, list: string): Edited {
    if p == [] then Lit("")
    else
      var g := p[0];
      var params := if g.name == f then Edited(PrintParams(g.params), [Edit(0, |PrintParams(g.params)|, list)], list)
                    else Lit(PrintParams(g.params));
      var tail := ") -> i64 {" + (" " + PrintStmts(g.body) + " ") + DEF_END;
      Cat(Cat(Cat(Lit("fn " + g.name + "("), params), Lit(tail)), SigProgram(p[1..], f, list))
  }

  function WithParams(p: Program, f: string, params: seq<string>): Program {
    if p == [] then []
    else [if p[0].name == f then p[0].(params := params) else p[0]] + WithParams(p[1..], f, params)
  }

  lemma DefText(name: string, list: string, body: string)
    ensures ("fn " + name + "(") + list + (") -> i64 {" + body + DEF_END)
            == ("fn " + name + "(" + list + ") -> i64 {") + body + DEF_END
  {}

  lemma {:induction false} SigRealise(p: Program, f: string, params: seq<string>)
    ensures SigProgram(p, f, PrintParams(params)).before == PrintProgram(p)
    ensures SigProgram(p, f, PrintParams(params)).after == PrintProgram(WithParams(p, f, params))
    ensures Realises(SigProgram(p, f, PrintParams(params)))
  {
    if p == [] {
      LitRealises("");
    } else {
      var g, list := p[0], PrintParams(params);
      SigRealise(p[1..], f, params);
      var ps := if g.name == f then Edited(PrintParams(g.params), [Edit(0, |PrintParams(g.params)|, list)], list)
                else Lit(PrintParams(g.params));
      WholeRealises(PrintParams(g.params), list);
      LitRealises(PrintParams(g.params));
      var body := " " + PrintStmts(g.body) + " ";
      WrapRealises("fn " + g.name + "(", ps, ") -> i64 {" + body + DEF_END);
      DefText(g.name, PrintParams(g.params), body);
      DefText(g.name, list, body);
      CatRealises(Cat(Cat(Lit("fn " + g.name + "("), ps), Lit(") -> i64 {" + body + DEF_END)), SigProgram(p[1..], f, list));
      assert WithParams(p, f, params)[1..] == WithParams(p[1..], f, params);
    }
  }

  // ----- third pass: the names in the body -----

  function NameSite(x: string, ren: Renaming): Edited {
    if x in ren then Edited(x, [Edit(0, |x|, ren[x])], ren[x]) else Lit(x)
  }

  function NameSites(e: Expr, ren: Renaming): Edited {
    match e
    case Num(_) => Lit(Print(e))
    case Name(x) => NameSite(x, ren)
    case Op(op, args) => Cat(Cat(Lit("::" + op + "("), NameSitesArgs(args, ren)), Lit(")"))
    case Do(op, args) => Cat(Cat(Lit("::" + op + "("), NameSitesArgs(args, ren)), Lit(")"))
    case Call(g, args) => Cat(Cat(Cat(NameSite(g, ren), Lit("(")), NameSitesArgs(args, ren)), Lit(")"))
    case Block(b) => Cat(Cat(Lit("({ "), NameSitesStmts(b, ren)), Lit(" })"))
    case If(c, a, b) =>
      IfParts(NameSites(c, ren), NameSites(a, ren), NameSites(b, ren))
    case Return(x) => Cat(Cat(Lit("(return "), NameSites(x, ren)), Lit(")"))
    case Try(x) => Cat(NameSites(x, ren), Lit("?"))
  }

  function NameSitesArgs(args: seq<Expr>, ren: Renaming): Edited {
    if args == [] then Lit("")
    else if |args| == 1 then NameSites(args[0], ren)
    else Cat(Cat(NameSites(args[0], ren), Lit(", ")), NameSitesArgs(args[1..], ren))
  }

  function NameSitesStmts(b: Stmts, ren: Renaming): Edited {
    match b
    case Tail(e) => NameSites(e, ren)
    case Let(x, rhs, rest) =>
      Cat(Cat(Cat(Lit("let " + x + " = "), NameSites(rhs, ren)), Lit("; ")), NameSitesStmts(rest, ren))
  }

  lemma NameSiteRealises(x: string, ren: Renaming)
    ensures Realises(NameSite(x, ren)) && NameSite(x, ren).before == x && NameSite(x, ren).after == Renamed(ren, x)
  {
    if x in ren {
      WholeRealises(x, ren[x]);
    } else {
      LitRealises(x);
    }
  }

  /** The name sites of `e` turn its text into that of the renamed expression. */
  ghost predicate NamesSited(e: Expr, ren: Renaming) {
    && NameSites(e, ren).before == Print(e) && NameSites(e, ren).after == Print(RenameExpr(e, ren))
    && Realises(NameSites(e, ren))
  }

  lemma NameSitesIf(c: Expr, a: Expr, b: Expr, ren: Renaming)
    ensures NameSites(If(c, a, b), ren) == IfParts(NameSites(c, ren), NameSites(a, ren), NameSites(b, ren))
    ensures RenameExpr(If(c, a, b), ren) == If(RenameExpr(c, ren), RenameExpr(a, ren), RenameExpr(b, ren))
  {}

  lemma NamesSitedIf(c: Expr, a: Expr, b: Expr, ren: Renaming)
    requires NamesSited(c, ren) && NamesSited(a, ren) && NamesSited(b, ren)
    ensures NamesSited(If(c, a, b), ren)
  {
    IfRealises(NameSites(c, ren), NameSites(a, ren), NameSites(b, ren));
    NameSitesIf(c, a, b, ren);
    PrintIf(c, a, b);
    PrintIf(RenameExpr(c, ren), RenameExpr(a, ren), RenameExpr(b, ren));
  }

  ghost predicate ArgNamesSited(args: seq<Expr>, ren: Renaming) {
    && NameSitesArgs(args, ren).before == PrintArgs(args) && NameSitesArgs(args, ren).after == PrintArgs(RenameArgs(args, ren))
    && Realises(NameSitesArgs(args, ren))
  }

  lemma NamesSitedOp(op: string, args: seq<Expr>, ren: Renaming)
    requires ArgNamesSited(args, ren)
    ensures NamesSited(Op(op, args), ren)
  {
    WrapRealises("::" + op + "(", NameSitesArgs(args, ren), ")");
  }

  lemma NamesSitedDo(op: string, args: seq<Expr>, ren: Renaming)
    requires ArgNamesSited(args, ren)
    ensures NamesSited(Do(op, args), ren)
  {
    WrapRealises("::" + op + "(", NameSitesArgs(args, ren), ")");
  }

  lemma NamesSitedCall(g: string, args: seq<Expr>, ren: Renaming)
    requires ArgNamesSited(args, ren)
    ensures NamesSited(Call(g, args), ren)
  {
    NameSiteRealises(g, ren);
    CalleeRealises(NameSite(g, ren), NameSitesArgs(args, ren));
  }

  lemma {:induction false} NameSitesRealise(e: Expr, ren: Renaming)
    ensures NamesSited(e, ren)
  {
    match e
    case Num(_) => LitRealises(Print(e));
    case Name(x) => NameSiteRealises(x, ren);
    case Op(op, args) =>
      NameSitesRealiseArgs(args, ren);
      NamesSitedOp(op, args, ren);
    case Do(op, args) =>
      NameSitesRealiseArgs(args, ren);
      NamesSitedDo(op, args, ren);
    case Call(g, args) =>
      NameSitesRealiseArgs(args, ren);
      NamesSitedCall(g, args, ren);
    case Block(b) =>
      NameSitesRealiseStmts(b, ren);
      WrapRealises("({ ", NameSitesStmts(b, ren), " })");
    case If(c, a, b) =>
      NameSitesRealise(c, ren);
      NameSitesRealise(a, ren);
      NameSitesRealise(b, ren);
      NamesSitedIf(c, a, b, ren);
    case Return(x) =>
      NameSitesRealise(x, ren);
      WrapRealises("(return ", NameSites(x, ren), ")");
    case Try(x) =>
      NameSitesRealise(x, ren);
      LitRealises("?");
      CatRealises(NameSites(x, ren), Lit("?"));
  }

  lemma CalleeRealises(g: Edited, args: Edited)
    requires Realises(g) && Realises(args)
    ensures Realises(Cat(Cat(Cat(g, Lit("(")), args), Lit(")")))
  {
    LitRealises("(");
    LitRealises(")");
    CatRealises(g, Lit("("));
    CatRealises(Cat(g, Lit("(")), args);
    CatRealises(Cat(Cat(g, Lit("(")), args), Lit(")"));
  }

  lemma {:induction false} NameSitesRealiseArgs(args: seq<Expr>, ren: Renaming)
    ensures ArgNamesSited(args, ren)
  {
    if args == [] {
      LitRealises("");
    } else {
      NameSitesRealise(args[0], ren);
      NameSitesRealiseArgs(args[1..], ren);
      if |args| > 1 {
        CommaRealises(NameSites(args[0], ren), NameSitesArgs(args[1..], ren));
        assert RenameArgs(args, ren)[1..] == RenameArgs(args[1..], ren);
      }
    }
  }

  lemma {:induction false} NameSitesRealiseStmts(b: Stmts, ren: Renaming)
    ensures NameSitesStmts(b, ren).before == PrintStmts(b)
    ensures NameSitesStmts(b, ren).after == PrintStmts(RenameStmts(b, ren))
    ensures Realises(NameSitesStmts(b, ren))
  {
    match b
    case Tail(e) => NameSitesRealise(e, ren);
    case Let(x, rhs, rest) =>
      NameSitesRealise(rhs, ren);
      NameSitesRealiseStmts(rest, ren);
      WrapRealises("let " + x + " = ", NameSites(rhs, ren), "; ");
      CatRealises(Cat(Cat(Lit("let " + x + " = "), NameSites(rhs, ren)), Lit("; ")), NameSitesStmts(rest, ren));
  }

  function NameSitesProgram(p: Program, f: string, ren: Renaming): Edited {
    if p == [] then Lit("")
    else
      var body := if p[0].name == f then NameSitesStmts(p[0].body, ren) else Lit(PrintStmts(p[0].body));
      var d := Cat(Cat(Lit(" "), body), Lit(" "));
      Cat(Cat(Cat(Lit(DefHead(p[0].name, p[0].params)), d), Lit(DEF_END)), NameSitesProgram(p[1..], f, ren))
  }

  function RenamedIn(p: Program, f: string, ren: Renaming): Program {
    if p == [] then []
    else [if p[0].name == f then p[0].(body := RenameStmts(p[0].body, ren)) else p[0]] + RenamedIn(p[1..], f, ren)
  }

  lemma {:induction false} NameSitesProgramRealise(p: Program, f: string, ren: Renaming)
    ensures NameSitesProgram(p, f, ren).before == PrintProgram(p)
    ensures NameSitesProgram(p, f, ren).after == PrintProgram(RenamedIn(p, f, ren))
    ensures Realises(NameSitesProgram(p, f, ren))
  {
    if p == [] {
      LitRealises("");
    } else {
      var g := p[0];
      NameSitesProgramRealise(p[1..], f, ren);
      NameSitesRealiseStmts(g.body, ren);
      LitRealises(PrintStmts(g.body));
      var body := if g.name == f then NameSitesStmts(g.body, ren) else Lit(PrintStmts(g.body));
      DefRealises(DefHead(g.name, g.params), body);
      CatRealises(Cat(Cat(Lit(DefHead(g.name, g.params)), Cat(Cat(Lit(" "), body), Lit(" "))), Lit(DEF_END)),
                  NameSitesProgram(p[1..], f, ren));
      assert RenamedIn(p, f, ren)[1..] == RenamedIn(p[1..], f, ren);
    }
  }

  /** The three passes one after the other are the transformation of the program. */
  lemma {:induction false} PassesCompose(p: Program, f: FnDef, newParams: seq<ParamReorder>)
    requires InBounds(FromIndices(newParams), |f.params|)
    requires forall g :: g in p && g.name == f.name ==> g == f
    ensures RenamedIn(WithParams(ReorderAll(p, f.name, FromIndices(newParams)), f.name, FinalNames(f.params, newParams)),
                      f.name, RenamingOf(f.params, newParams))
            == ChangeProgram(p, f, newParams)
  {
    if p != [] {
      assert forall h :: h in p[1..] ==> h in p;
      PassesCompose(p[1..], f, newParams);
      var q := ReorderAll(p, f.name, FromIndices(newParams));
      assert q[1..] == ReorderAll(p[1..], f.name, FromIndices(newParams));
      var w := WithParams(q, f.name, FinalNames(f.params, newParams));
      assert w[1..] == WithParams(q[1..], f.name, FinalNames(f.params, newParams));
    }
  }

  // ----- the operation -----

  /** Entry `i` asks for a new name that is not the old one. */
  predicate Renames(params: seq<string>, r: ParamReorder)
    requires r.fromIndex < |params|
  {
    r.rename.Some? && r.rename.value != params[r.fromIndex]
  }

  /** The old and the new names of all renamed parameters. */
  function TouchedNames(params: seq<string>, newParams: seq<ParamReorder>): set<string>
    requires InBounds(FromIndices(newParams), |params|)
  {
    (set i | 0 <= i < |newParams| && Renames(params, newParams[i]) :: params[newParams[i].fromIndex])
    + (set i | 0 <= i < |newParams| && Renames(params, newParams[i]) :: newParams[i].rename.value)
  }

  lemma {:induction false} RenamingTouches(params: seq<string>, newParams: seq<ParamReorder>, x: string)
    requires forall i :: 0 <= i < |newParams| ==> newParams[i].fromIndex < |params|
    requires x in OldAndNew(RenamingOf(params, newParams))
    ensures exists i :: 0 <= i < |newParams| && Renames(params, newParams[i])
                        && (x == params[newParams[i].fromIndex] || x == newParams[i].rename.value)
  {
    if newParams != [] {
      var rest := newParams[1..];
      if x in OldAndNew(RenamingOf(params, rest)) {
        RenamingTouches(params, rest, x);
        var i :| 0 <= i < |rest| && Renames(params, rest[i])
                 && (x == params[rest[i].fromIndex] || x == rest[i].rename.value);
        assert newParams[i + 1] == rest[i];
      } else {
        assert Renames(params, newParams[0]);
      }
    }
  }

  /** What the gates accept, in terms of the expressions that occur in the program and of the request. */
  ghost predicate Accepted(p: Program, f: FnDef, newParams: seq<ParamReorder>) {
    && EntriesOk(f, newParams)
    && T.OnlyBareCalls(p, f.name)
    && DistinctNames(FinalNames(f.params, newParams))
    && T.AllCallsFull(p, f)
    && NoClash(f, newParams)
  }

  /** The entries are a permutation, and every requested name is an identifier. */
  ghost predicate EntriesOk(f: FnDef, newParams: seq<ParamReorder>) {
    && IsPermutation(FromIndices(newParams), |f.params|)
    && forall i :: 0 <= i < |newParams| && newParams[i].rename.Some? ==> IsValidIdent(newParams[i].rename.value)
  }

  /** No block of the body binds the old or the new name of a renamed parameter. */
  ghost predicate NoClash(f: FnDef, newParams: seq<ParamReorder>)
    requires InBounds(FromIndices(newParams), |f.params|)
  {
    forall x, i :: x in BodyParts(f) && 0 <= i < |newParams| && Renames(f.params, newParams[i]) ==>
                     !x.Binds(f.params[newParams[i].fromIndex]) && !x.Binds(newParams[i].rename.value)
  }

  /** Which gate refuses: the first one that finds something. */
  ghost predicate Refused(p: Program, f: FnDef, newParams: seq<ParamReorder>, error: ChangeError) {
    match error
    case ArityChanged => |newParams| != |f.params|
    case BadEntry(e) =>
      && |newParams| == |f.params| && HasError(newParams, |f.params|, e)
      && forall other :: HasError(newParams, |f.params|, other) ==> e.i <= other.i
    case OtherReferences => EntriesOk(f, newParams) && !T.OnlyBareCalls(p, f.name)
    case NameTaken =>
      EntriesOk(f, newParams) && T.OnlyBareCalls(p, f.name) && !DistinctNames(FinalNames(f.params, newParams))
    case WrongArity =>
      && EntriesOk(f, newParams) && T.OnlyBareCalls(p, f.name) && DistinctNames(FinalNames(f.params, newParams))
      && !T.AllCallsFull(p, f)
    case BindingClash =>
      && EntriesOk(f, newParams) && T.OnlyBareCalls(p, f.name) && DistinctNames(FinalNames(f.params, newParams))
      && T.AllCallsFull(p, f) && !NoClash(f, newParams)
    case _ => false
  }

  /** The walker over the body with its arguments moved finds what is in the body. */
  lemma NoClashIs(f: FnDef, newParams: seq<ParamReorder>)
    requires IsPermutation(FromIndices(newParams), |f.params|)
    ensures NoClash(f, newParams) <==>
            BindersOk(ReorderStmts(f.body, f.name, FromIndices(newParams)), TouchedNames(f.params, newParams))
  {
    var touched := TouchedNames(f.params, newParams);
    BindersReorderedStmts(f.body, f.name, FromIndices(newParams), touched);
    BindersOkIs(Block(f.body), ParamSet(f.params), touched);
    assert BindersOk(f.body, touched) <==> All(BodyParts(f), BindsNone(touched));
    forall x | x in BodyParts(f)
      ensures BindsNoneAt(x, touched) <==>
              forall i :: 0 <= i < |newParams| && Renames(f.params, newParams[i]) ==>
                            !x.Binds(f.params[newParams[i].fromIndex]) && !x.Binds(newParams[i].rename.value)
    {
      TouchedBy(x, f.params, newParams);
    }
  }

  lemma TouchedBy(x: Part, params: seq<string>, newParams: seq<ParamReorder>)
    requires InBounds(FromIndices(newParams), |params|)
    ensures BindsNoneAt(x, TouchedNames(params, newParams)) <==>
            forall i :: 0 <= i < |newParams| && Renames(params, newParams[i]) ==>
                          !x.Binds(params[newParams[i].fromIndex]) && !x.Binds(newParams[i].rename.value)
  {
    var touched := TouchedNames(params, newParams);
    forall i | 0 <= i < |newParams| && Renames(params, newParams[i])
      ensures params[newParams[i].fromIndex] in touched && newParams[i].rename.value in touched
    {}
  }

  /** No two new parameters end up with the same name. */
  method CheckNames(names: seq<string>) returns (ok: bool)
    ensures ok <==> DistinctNames(names)
  {
    var taken: set<string> := {};
    for i := 0 to |names|
      invariant taken == set k | 0 <= k < i :: names[k]
      invariant DistinctNames(names[..i])
    {
      if names[i] in taken {
        return false;
      }
      taken := taken + {names[i]};
    }
    assert names[..|names|] == names;
    return true;
  }

  /** The gates on the request and the references, in order; the binding check comes after two passes. */
  method CheckRequest(p: Program, f: FnDef, newParams: seq<ParamReorder>) returns (error: Option<ChangeError>)
    requires T.DefsNamed(p, f.name) == [f]
    ensures error.None? <==>
              && EntriesOk(f, newParams)
              && T.OnlyBareCalls(p, f.name)
              && DistinctNames(FinalNames(f.params, newParams))
              && T.AllCallsFull(p, f)
    ensures error.Some? ==> Refused(p, f, newParams, error.value)
  {
    if |newParams| != |f.params| {
      return Some(ArityChanged);
    }
    var entry := CheckEntries(newParams, |f.params|);
    if entry.Some? {
      return Some(BadEntry(entry.value));
    }
    T.ReferenceGate(p, f.name);
    T.OnlyBareCallsIs(p, f.name);
    if T.IdentsProgram(p, f.name) > T.CallsProgram(p, f.name) + 1 {
      return Some(OtherReferences);
    }
    var ok := CheckNames(FinalNames(f.params, newParams));
    if !ok {
      return Some(NameTaken);
    }
    T.AllCallsFullIs(p, f);
    for i := 0 to |p|
      invariant forall j :: 0 <= j < i ==> T.AritiesOkStmts(p[j].body, f)
    {
      if !T.AritiesOkStmts(p[i].body, f) {
        assert p[i] in p;
        return Some(WrongArity);
      }
    }
    return None;
  }

  /**
   `change_signature` over one file. It succeeds exactly on the accepted requests, and then the new text is the
   text of the transformed program; otherwise the first gate that finds something decides the error.
   */
  method ChangeSignature(p: Program, target: string, newParams: seq<ParamReorder>) returns (r: Result<string, ChangeError>)
    requires TextOk(p, target, FromIndices(newParams))
    ensures !IsValidIdent(target) <==> r == Failure(InvalidIdent)
    ensures IsValidIdent(target) && newParams == [] ==> r == Failure(EmptyParams)
    ensures IsValidIdent(target) && newParams != [] && |T.DefsNamed(p, target)| > 1 ==>
              r == Failure(Ambiguous(|T.DefsNamed(p, target)|))
    ensures IsValidIdent(target) && newParams != [] && T.DefsNamed(p, target) == [] ==> r == Success(PrintProgram(p))
    ensures IsValidIdent(target) && newParams != [] && |T.DefsNamed(p, target)| == 1 ==>
              var f := T.DefsNamed(p, target)[0];
              && (r.Success? <==> Accepted(p, f, newParams))
              && (r.Success? ==> r.value == PrintProgram(ChangeProgram(p, f, newParams)))
              && (r.Failure? ==> Refused(p, f, newParams, r.error))
  {
    if !IsValidIdent(target) {
      return Failure(InvalidIdent);
    }
    if newParams == [] {
      return Failure(EmptyParams);
    }
    var defs := T.DefsNamed(p, target);
    if |defs| == 0 {
      return Success(PrintProgram(p));
    }
    if |defs| > 1 {
      return Failure(Ambiguous(|defs|));
    }
    var f := defs[0];
    T.DefsNamedMembers(p, target);
    assert f in defs && defs == [f];
    var error := CheckRequest(p, f, newParams);
    if error.Some? {
      return Failure(error.value);
    }
    var out := RewriteCallsAndParams(p, f, newParams);
    NoClashIs(f, newParams);
    if !BindersOk(ReorderStmts(f.body, target, FromIndices(newParams)), TouchedNames(f.params, newParams)) {
      return Failure(BindingClash);
    }
    assert forall g :: g in p && g.name == target ==> g in defs;
    out := RewriteBody(p, f, newParams, out);
    return Success(out);
  }

  /** The third pass: all renames of the body at once. */
  method RewriteBody(p: Program, f: FnDef, newParams: seq<ParamReorder>, text: string) returns (out: string)
    requires InBounds(FromIndices(newParams), |f.params|)
    requires forall g :: g in p && g.name == f.name ==> g == f
    requires text == PrintProgram(WithParams(ReorderAll(p, f.name, FromIndices(newParams)), f.name, FinalNames(f.params, newParams)))
    ensures out == PrintProgram(ChangeProgram(p, f, newParams))
  {
    var ren := RenamingOf(f.params, newParams);
    var q := WithParams(ReorderAll(p, f.name, FromIndices(newParams)), f.name, FinalNames(f.params, newParams));
    var names := NameSitesProgram(q, f.name, ren);
    NameSitesProgramRealise(q, f.name, ren);
    out := SpliceDescending(text, names.edits);
    PassesCompose(p, f, newParams);
  }

  method RewriteCallsAndParams(p: Program, f: FnDef, newParams: seq<ParamReorder>) returns (out: string)
    requires TextOk(p, f.name, FromIndices(newParams)) && InBounds(FromIndices(newParams), |f.params|)
    ensures out == PrintProgram(WithParams(ReorderAll(p, f.name, FromIndices(newParams)), f.name, FinalNames(f.params, newParams)))
  {
    TextOkBodies(p, f.name, FromIndices(newParams));
    var perm, finals := FromIndices(newParams), FinalNames(f.params, newParams);
    var calls := ArgSitesProgram(p, f.name, perm);
    if IsIdentity(perm) {
      ArgSitesProgramKept(p, f.name, perm);
    } else {
      ArgSitesProgramRealise(p, f.name, perm);
    }
    out := SpliceSites(calls.before, calls.edits);
    NewParamsPrint(f.params, newParams, finals);
    var q := ReorderAll(p, f.name, perm);
    var sig := SigProgram(q, f.name, NewParamsText(f.params, newParams));
    SigRealise(q, f.name, finals);
    out := SpliceDescending(out, sig.edits);
  }

  // ----- text and meaning together -----

  /** What acceptance and the unchecked conditions mean for the conditions of preservation. */
  lemma AcceptedIsChangeable(p: Program, f: FnDef, newParams: seq<ParamReorder>, quiet: set<string>)
    requires T.DefsNamed(p, f.name) == [f] && DistinctNames(f.params) && Accepted(p, f, newParams)
    requires forall g, x :: g in p && g.name in quiet && x in BodyParts(g) ==> NoEffect(quiet)(x)
    requires forall g, x :: g in p && x in BodyParts(g) ==> CanMoveAt(x, f.name, FromIndices(newParams), quiet)
    requires forall x :: x in FreeStmts(ReorderStmts(f.body, f.name, FromIndices(newParams))) && x !in f.params ==>
                           x !in FinalNames(f.params, newParams)
    ensures Changeable(p, f, newParams, quiet)
  {
    T.DefsNamedMembers(p, f.name);
    assert forall g :: g in p && g.name == f.name ==> g in [f];
    forall g | g in p && g.name in quiet ensures QuietStmts(g.body, quiet) {
      QuietIs(Block(g.body), ParamSet(g.params), quiet);
      assert All(BodyParts(g), NoEffect(quiet));
    }
    forall g | g in p ensures ReorderableStmts(g.body, f.name, FromIndices(newParams), quiet) {
      ReorderableIs(Block(g.body), ParamSet(g.params), f.name, FromIndices(newParams), quiet);
      assert All(BodyParts(g), CanMove(f.name, FromIndices(newParams), quiet));
    }
    ClashFree(f, newParams);
  }

  lemma ClashFree(f: FnDef, newParams: seq<ParamReorder>)
    requires IsPermutation(FromIndices(newParams), |f.params|) && NoClash(f, newParams)
    ensures BindersOk(ReorderStmts(f.body, f.name, FromIndices(newParams)), OldAndNew(RenamingOf(f.params, newParams)))
  {
    NoClashIs(f, newParams);
    forall x | x in OldAndNew(RenamingOf(f.params, newParams)) ensures x in TouchedNames(f.params, newParams) {
      RenamingTouches(f.params, newParams, x);
    }
    FewerNames(ReorderStmts(f.body, f.name, FromIndices(newParams)), OldAndNew(RenamingOf(f.params, newParams)),
               TouchedNames(f.params, newParams));
  }

  /**
   An accepted request keeps the meaning of every program whose calls of `f` have their arguments moved past each other
   only where nothing can tell, when no new name is read or called by the body as something other than a parameter.
   */
  lemma AcceptedKeepsMeaning(p: Program, f: FnDef, newParams: seq<ParamReorder>, quiet: set<string>, m: Machine, e: Expr,
                             env: Env, t: seq<Event>, r: Outcome)
    requires T.DefsNamed(p, f.name) == [f] && DistinctNames(f.params) && Accepted(p, f, newParams)
    requires forall g, x :: g in p && g.name in quiet && x in BodyParts(g) ==> NoEffect(quiet)(x)
    requires forall g, x :: g in p && x in BodyParts(g) ==> CanMoveAt(x, f.name, FromIndices(newParams), quiet)
    requires forall x :: x in FreeStmts(ReorderStmts(f.body, f.name, FromIndices(newParams))) && x !in f.params ==>
                           x !in FinalNames(f.params, newParams)
    requires forall x :: x in PartsOf(e, env.Keys) ==> CanMoveAt(x, f.name, FromIndices(newParams), quiet)
    ensures EvaluatesTo(m, p, e, env, t, r) <==>
            EvaluatesTo(m, ChangeProgram(p, f, newParams), ReorderExpr(e, f.name, FromIndices(newParams)), env, t, r)
  {
    AcceptedIsChangeable(p, f, newParams, quiet);
    ReorderableIs(e, env.Keys, f.name, FromIndices(newParams), quiet);
    assert All(PartsOf(e, env.Keys), CanMove(f.name, FromIndices(newParams), quiet));
    ChangedSignaturePreservesMeaning(m, p, f, newParams, quiet, e, env, t, r);
  }
}
