/**
 `ChangeSignature` of crates/aa-patch/src/change_sig.rs as a program transformation: the parameters of one function
 are permuted and renamed, the arguments of every bare call follow, and the body uses the new names.
 */
module ChangeSig {
  import opened Wrappers
  import opened MiniRust
  import opened Parts
  import opened Text

  datatype ParamReorder = ParamReorder(fromIndex: nat, rename: Option<string>)

  // ----- the permutation gate -----

  /** Every index below `n` is used exactly once. */
  ghost predicate IsPermutation(perm: seq<nat>, n: nat) {
    && |perm| == n
    && (forall i :: 0 <= i < n ==> perm[i] < n)
    && (forall i, j :: 0 <= i < j < n ==> perm[i] != perm[j])
  }

  function FromIndices(newParams: seq<ParamReorder>): (perm: seq<nat>)
    ensures |perm| == |newParams|
    ensures forall i :: 0 <= i < |perm| ==> perm[i] == newParams[i].fromIndex
  {
    seq(|newParams|, i requires 0 <= i < |newParams| => newParams[i].fromIndex)
  }

  /** What is wrong with entry `i` of a request: its index is out of range or was there before, or its new name is none. */
  datatype EntryError = OutOfRange(i: nat) | ListedTwice(i: nat) | InvalidRename(i: nat)

  ghost predicate HasError(newParams: seq<ParamReorder>, arity: nat, error: EntryError) {
    var i := error.i;
    && i < |newParams|
    && match error
       case OutOfRange(_) => newParams[i].fromIndex >= arity
       case ListedTwice(_) =>
         newParams[i].fromIndex < arity && exists k :: 0 <= k < i && newParams[k].fromIndex == newParams[i].fromIndex
       case InvalidRename(_) =>
         && newParams[i].fromIndex < arity
         && (forall k :: 0 <= k < i ==> newParams[k].fromIndex != newParams[i].fromIndex)
         && newParams[i].rename.Some? && !IsValidIdent(newParams[i].rename.value)
  }

  /** The gate on a list of the right length, entry by entry; the first entry with an error decides. */
  method CheckEntries(newParams: seq<ParamReorder>, arity: nat) returns (error: Option<EntryError>)
    requires |newParams| == arity
    ensures error.None? <==>
              && IsPermutation(FromIndices(newParams), arity)
              && forall i :: 0 <= i < arity && newParams[i].rename.Some? ==> IsValidIdent(newParams[i].rename.value)
    ensures error.Some? ==>
              && HasError(newParams, arity, error.value)
              && forall e :: HasError(newParams, arity, e) ==> error.value.i <= e.i
  {
    var seen: set<nat> := {};
    for i := 0 to |newParams|
      invariant forall k :: 0 <= k < i ==> newParams[k].fromIndex < arity
      invariant seen == set k | 0 <= k < i :: newParams[k].fromIndex
      invariant forall j, k :: 0 <= j < k < i ==> newParams[j].fromIndex != newParams[k].fromIndex
      invariant forall k :: 0 <= k < i && newParams[k].rename.Some? ==> IsValidIdent(newParams[k].rename.value)
      invariant forall e :: HasError(newParams, arity, e) ==> i <= e.i
    {
      var ix := newParams[i].fromIndex;
      if ix >= arity {
        assert !(FromIndices(newParams)[i] < arity);
        assert HasError(newParams, arity, OutOfRange(i));
        return Some(OutOfRange(i));
      }
      if ix in seen {
        var k :| 0 <= k < i && newParams[k].fromIndex == ix;
        assert FromIndices(newParams)[k] == FromIndices(newParams)[i];
        assert HasError(newParams, arity, ListedTwice(i));
        return Some(ListedTwice(i));
      }
      if newParams[i].rename.Some? && !IsValidIdent(newParams[i].rename.value) {
        assert HasError(newParams, arity, InvalidRename(i));
        return Some(InvalidRename(i));
      }
      seen := seen + {ix};
    }
    return None;
  }

  lemma {:induction false} SmallSet(s: set<nat>, n: nat)
    requires forall x :: x in s ==> x < n
    ensures |s| <= n
  {
    if n == 0 {
      assert s == {};
    } else {
      SmallSet(s - {n - 1}, n - 1);
      if n - 1 in s {
        assert s == (s - {n - 1}) + {n - 1};
      } else {
        assert s == s - {n - 1};
      }
    }
  }

  ghost function Elements(perm: seq<nat>): set<nat> {
    set x | x in perm
  }

  lemma {:induction false} ImageSize(perm: seq<nat>)
    requires forall i, j :: 0 <= i < j < |perm| ==> perm[i] != perm[j]
    ensures |Elements(perm)| == |perm|
  {
    if perm != [] {
      var n := |perm| - 1;
      ImageSize(perm[..n]);
      assert perm == perm[..n] + [perm[n]] && perm[n] !in perm[..n];
      assert Elements(perm) == Elements(perm[..n]) + {perm[n]};
    }
  }

  /** An accepted list is a bijection: every old position has exactly one new one. */
  lemma PermutationOnto(perm: seq<nat>, n: nat, j: nat)
    requires IsPermutation(perm, n) && j < n
    ensures exists i :: 0 <= i < n && perm[i] == j
  {
    if j !in perm {
      var image := Elements(perm);
      ImageSize(perm);
      assert |image + {j}| == n + 1;
      SmallSet(image + {j}, n);
    }
  }

  // ----- the transformation -----

  function Permute<T>(s: seq<T>, perm: seq<nat>): (r: seq<T>)
    requires forall i :: 0 <= i < |perm| ==> perm[i] < |s|
    ensures |r| == |perm|
    ensures forall i :: 0 <= i < |perm| ==> r[i] == s[perm[i]]
  {
    seq(|perm|, i requires 0 <= i < |perm| => s[perm[i]])
  }

  predicate InBounds(perm: seq<nat>, n: nat) {
    |perm| == n && forall i :: 0 <= i < |perm| ==> perm[i] < n
  }

  /** Calls of `f` get their arguments permuted; the argument texts are copied from the original source. */
  function ReorderExpr(e: Expr, f: string, perm: seq<nat>): Expr {
    match e
    case Num(_) => e
    case Name(_) => e
    case Op(op, args) => Op(op, ReorderArgs(args, f, perm))
    case Do(op, args) => Do(op, ReorderArgs(args, f, perm))
    case Call(g, args) =>
      if g == f && InBounds(perm, |args|) then Call(g, Permute(args, perm)) else Call(g, ReorderArgs(args, f, perm))
    case Block(b) => Block(ReorderStmts(b, f, perm))
    case If(c, a, b) => If(ReorderExpr(c, f, perm), ReorderExpr(a, f, perm), ReorderExpr(b, f, perm))
    case Return(x) => Return(ReorderExpr(x, f, perm))
    case Try(x) => Try(ReorderExpr(x, f, perm))
  }

  function ReorderArgs(args: seq<Expr>, f: string, perm: seq<nat>): (r: seq<Expr>)
    ensures |r| == |args|
  {
    if args == [] then [] else [ReorderExpr(args[0], f, perm)] + ReorderArgs(args[1..], f, perm)
  }

  function ReorderStmts(b: Stmts, f: string, perm: seq<nat>): Stmts {
    match b
    case Tail(e) => Tail(ReorderExpr(e, f, perm))
    case Let(x, rhs, rest) => Let(x, ReorderExpr(rhs, f, perm), ReorderStmts(rest, f, perm))
  }

  type Renaming = map<string, string>

  function Renamed(ren: Renaming, x: string): string {
    if x in ren then ren[x] else x
  }

  /** All renames at once on every bare name, callees included; bindings keep theirs. */
  function RenameExpr(e: Expr, ren: Renaming): Expr {
    match e
    case Num(_) => e
    case Name(x) => Name(Renamed(ren, x))
    case Op(op, args) => Op(op, RenameArgs(args, ren))
    case Do(op, args) => Do(op, RenameArgs(args, ren))
    case Call(g, args) => Call(Renamed(ren, g), RenameArgs(args, ren))
    case Block(b) => Block(RenameStmts(b, ren))
    case If(c, a, b) => If(RenameExpr(c, ren), RenameExpr(a, ren), RenameExpr(b, ren))
    case Return(x) => Return(RenameExpr(x, ren))
    case Try(x) => Try(RenameExpr(x, ren))
  }

  function RenameArgs(args: seq<Expr>, ren: Renaming): (r: seq<Expr>)
    ensures |r| == |args|
  {
    if args == [] then [] else [RenameExpr(args[0], ren)] + RenameArgs(args[1..], ren)
  }

  function RenameStmts(b: Stmts, ren: Renaming): Stmts {
    match b
    case Tail(e) => Tail(RenameExpr(e, ren))
    case Let(x, rhs, rest) => Let(x, RenameExpr(rhs, ren), RenameStmts(rest, ren))
  }

  /** The name of new parameter `i`. */
  function FinalName(params: seq<string>, r: ParamReorder): string
    requires r.fromIndex < |params|
  {
    if r.rename.Some? then r.rename.value else params[r.fromIndex]
  }

  function FinalNames(params: seq<string>, newParams: seq<ParamReorder>): (names: seq<string>)
    requires InBounds(FromIndices(newParams), |params|)
    ensures |names| == |params|
    ensures forall i :: 0 <= i < |names| ==> names[i] == FinalName(params, newParams[i])
  {
    seq(|newParams|, i requires 0 <= i < |newParams| => FinalName(params, newParams[i]))
  }

  /** Old name to new name, for the parameters that change it. */
  function RenamingOf(params: seq<string>, newParams: seq<ParamReorder>): Renaming
    requires forall i :: 0 <= i < |newParams| ==> newParams[i].fromIndex < |params|
  {
    if newParams == [] then map[]
    else
      var r := newParams[0];
      var rest := RenamingOf(params, newParams[1..]);
      var old_ := params[r.fromIndex];
      if r.rename.Some? && r.rename.value != old_ then rest[old_ := r.rename.value] else rest
  }

  function ChangeDef(g: FnDef, f: FnDef, newParams: seq<ParamReorder>): FnDef
    requires InBounds(FromIndices(newParams), |f.params|)
  {
    var body := ReorderStmts(g.body, f.name, FromIndices(newParams));
    if g.name == f.name
    then FnDef(g.name, FinalNames(f.params, newParams), RenameStmts(body, RenamingOf(f.params, newParams)))
    else g.(body := body)
  }

  function ChangeProgram(p: Program, f: FnDef, newParams: seq<ParamReorder>): (r: Program)
    requires InBounds(FromIndices(newParams), |f.params|)
    ensures |r| == |p|
  {
    if p == [] then [] else [ChangeDef(p[0], f, newParams)] + ChangeProgram(p[1..], f, newParams)
  }

  /**
   Definition by definition: names stay, other parameter lists stay, and parameter `i` of `f` is the requested name if
   there is one and otherwise the old name at the requested position.
   */
  lemma {:induction false} NewParameters(p: Program, f: FnDef, newParams: seq<ParamReorder>, k: nat)
    requires InBounds(FromIndices(newParams), |f.params|) && k < |p|
    ensures var d := ChangeProgram(p, f, newParams)[k];
            && d.name == p[k].name
            && (d.name != f.name ==> d.params == p[k].params)
            && (d.name == f.name ==>
                  && |d.params| == |newParams|
                  && forall i :: 0 <= i < |newParams| ==>
                                   d.params[i] == match newParams[i].rename
                                                  case Some(name) => name
                                                  case None => f.params[newParams[i].fromIndex])
  {
    if k > 0 {
      NewParameters(p[1..], f, newParams, k - 1);
    }
  }

  // ----- effect-free expressions -----

  /** No effect: no effectful operation, and calls only of functions named in `quiet`. It may still exit early. */
  predicate Quiet(e: Expr, quiet: set<string>) {
    match e
    case Num(_) => true
    case Name(_) => true
    case Op(_, args) => QuietArgs(args, quiet)
    case Do(_, _) => false
    case Call(g, args) => g in quiet && QuietArgs(args, quiet)
    case Block(b) => QuietStmts(b, quiet)
    case If(c, a, b) => Quiet(c, quiet) && Quiet(a, quiet) && Quiet(b, quiet)
    case Return(x) => Quiet(x, quiet)
    case Try(x) => Quiet(x, quiet)
  }

  predicate QuietArgs(args: seq<Expr>, quiet: set<string>) {
    args == [] || (Quiet(args[0], quiet) && QuietArgs(args[1..], quiet))
  }

  predicate QuietStmts(b: Stmts, quiet: set<string>) {
    match b
    case Tail(e) => Quiet(e, quiet)
    case Let(_, rhs, rest) => Quiet(rhs, quiet) && QuietStmts(rest, quiet)
  }

  function NoEffect(quiet: set<string>): Part -> bool {
    (x: Part) => !x.e.Do? && (x.e.Call? ==> x.e.f in quiet)
  }

  /** An expression has no effect exactly if no part is an effectful operation or calls a function not in `quiet`. */
  lemma {:induction false} QuietIs(e: Expr, scope: set<string>, quiet: set<string>)
    ensures Quiet(e, quiet) <==> All(PartsOf(e, scope), NoEffect(quiet))
  {
    AllOf(e, scope, NoEffect(quiet));
    match e
    case Num(_) =>
    case Name(_) =>
    case Op(_, args) => QuietIsArgs(args, scope, quiet);
    case Do(_, _) =>
    case Call(_, args) => QuietIsArgs(args, scope, quiet);
    case Block(b) => QuietIsStmts(b, scope, quiet);
    case If(c, a, b) =>
      QuietIs(c, scope, quiet);
      QuietIs(a, scope, quiet);
      QuietIs(b, scope, quiet);
    case Return(x) => QuietIs(x, scope, quiet);
    case Try(x) => QuietIs(x, scope, quiet);
  }

  lemma {:induction false} QuietIsArgs(args: seq<Expr>, scope: set<string>, quiet: set<string>)
    ensures QuietArgs(args, quiet) <==> All(PartsOfArgs(args, scope), NoEffect(quiet))
  {
    AllOfArgs(args, scope, NoEffect(quiet));
    if args != [] {
      QuietIs(args[0], scope, quiet);
      QuietIsArgs(args[1..], scope, quiet);
    }
  }

  lemma {:induction false} QuietIsStmts(b: Stmts, scope: set<string>, quiet: set<string>)
    ensures QuietStmts(b, quiet) <==> All(PartsOfStmts(b, scope), NoEffect(quiet))
  {
    AllOfStmts(b, scope, NoEffect(quiet));
    match b
    case Tail(e) => QuietIs(e, scope, quiet);
    case Let(x, rhs, rest) =>
      QuietIs(rhs, scope, quiet);
      QuietIsStmts(rest, scope + {x}, quiet);
  }

  /** The functions named in `quiet` have no effect, whatever they call. */
  ghost predicate QuietProgram(p: Program, quiet: set<string>) {
    forall g :: g in p && g.name in quiet ==> QuietStmts(g.body, quiet)
  }

  /** An outcome moved to another trace. */
  function Moved(r: Outcome, t: seq<Event>): Outcome {
    match r
    case Stuck => Stuck
    case Value(v, _) => Value(v, t)
    case Exit(v, _) => Exit(v, t)
  }

  function MovedArgs(r: ArgsOutcome, t: seq<Event>): ArgsOutcome {
    match r
    case Values(vs, _) => Values(vs, t)
    case Halt(h) => Halt(Moved(h, t))
  }

  /** An effect-free expression leaves the trace alone and does not depend on it. */
  lemma {:induction false} QuietMeaning(m: Machine, p: Program, quiet: set<string>, e: Expr, env: Env, t: seq<Event>,
                                        u: seq<Event>, fuel: nat)
    requires QuietProgram(p, quiet) && Quiet(e, quiet)
    ensures Eval(m, p, e, env, t, fuel) == Moved(Eval(m, p, e, env, u, fuel), t)
    decreases fuel, e
  {
    match e
    case Num(_) =>
    case Name(_) =>
    case Op(_, args) => QuietMeaningArgs(m, p, quiet, args, env, t, u, fuel);
    case Call(g, args) =>
      QuietMeaningArgs(m, p, quiet, args, env, t, u, fuel);
      var a := EvalArgs(m, p, args, env, u, fuel);
      if a.Values? && fuel > 0 && Find(p, g).Some? {
        FindMember(p, g);
        var def := Find(p, g).value;
        if |def.params| == |a.vs| {
          var inner := BindOver(map[], def.params, a.vs);
          QuietMeaningStmts(m, p, quiet, def.body, inner, t, a.trace, fuel - 1);
          QuietMeaningStmts(m, p, quiet, def.body, inner, t, t, fuel - 1);
        }
      }
    case Block(b) => QuietMeaningStmts(m, p, quiet, b, env, t, u, fuel);
    case If(c, a, b) =>
      QuietMeaning(m, p, quiet, c, env, t, u, fuel);
      var r := Eval(m, p, c, env, u, fuel);
      if r.Value? {
        QuietMeaning(m, p, quiet, if r.v != 0 then a else b, env, t, r.trace, fuel);
      }
    case Return(x) => QuietMeaning(m, p, quiet, x, env, t, u, fuel);
    case Try(x) => QuietMeaning(m, p, quiet, x, env, t, u, fuel);
  }

  lemma {:induction false} QuietMeaningArgs(m: Machine, p: Program, quiet: set<string>, args: seq<Expr>, env: Env,
                                            t: seq<Event>, u: seq<Event>, fuel: nat)
    requires QuietProgram(p, quiet) && QuietArgs(args, quiet)
    ensures EvalArgs(m, p, args, env, t, fuel) == MovedArgs(EvalArgs(m, p, args, env, u, fuel), t)
    decreases fuel, args
  {
    if args != [] {
      QuietMeaning(m, p, quiet, args[0], env, t, u, fuel);
      var r := Eval(m, p, args[0], env, u, fuel);
      if r.Value? {
        QuietMeaningArgs(m, p, quiet, args[1..], env, t, r.trace, fuel);
      }
    }
  }

  lemma {:induction false} QuietMeaningStmts(m: Machine, p: Program, quiet: set<string>, b: Stmts, env: Env,
                                             t: seq<Event>, u: seq<Event>, fuel: nat)
    requires QuietProgram(p, quiet) && QuietStmts(b, quiet)
    ensures EvalStmts(m, p, b, env, t, fuel) == Moved(EvalStmts(m, p, b, env, u, fuel), t)
    decreases fuel, b
  {
    match b
    case Tail(e) => QuietMeaning(m, p, quiet, e, env, t, u, fuel);
    case Let(x, rhs, rest) =>
      QuietMeaning(m, p, quiet, rhs, env, t, u, fuel);
      var r := Eval(m, p, rhs, env, u, fuel);
      if r.Value? {
        QuietMeaningStmts(m, p, quiet, rest, env[x := r.v], t, r.trace, fuel);
      }
  }

  // ----- arguments that change places -----

  /** Nothing can tell which of the two is evaluated first: neither exits, and one of them has no effect. */
  predicate Commute(a: Expr, b: Expr, quiet: set<string>) {
    NoExit(a) && NoExit(b) && (Quiet(a, quiet) || Quiet(b, quiet))
  }

  /** Arguments that the permutation moves past each other commute; the others may do anything. */
  predicate Movable(args: seq<Expr>, perm: seq<nat>, quiet: set<string>) {
    InBounds(perm, |args|) &&
    forall i, j :: 0 <= i < j < |perm| && perm[j] < perm[i] ==> Commute(args[perm[j]], args[perm[i]], quiet)
  }

  function Without<T>(s: seq<T>, k: nat): (r: seq<T>)
    requires k < |s|
    ensures |r| == |s| - 1 && forall i :: 0 <= i < |r| ==> r[i] == s[if i < k then i else i + 1]
  {
    s[..k] + s[k + 1..]
  }

  /** Element `k` taken to the front. */
  function ToFront<T>(s: seq<T>, k: nat): (r: seq<T>)
    requires k < |s|
  {
    [s[k]] + Without(s, k)
  }

  function FrontOutcome(r: ArgsOutcome, k: nat): ArgsOutcome {
    if r.Values? && k < |r.vs| then Values(ToFront(r.vs, k), r.trace) else r
  }

  function Prepended(v: int, r: ArgsOutcome): ArgsOutcome {
    if r.Values? then Values([v] + r.vs, r.trace) else r
  }

  /** Evaluating a first argument and then the rest. */
  lemma EvalFirst(m: Machine, p: Program, a: Expr, rest: seq<Expr>, env: Env, t: seq<Event>, fuel: nat)
    ensures var r := Eval(m, p, a, env, t, fuel);
            EvalArgs(m, p, [a] + rest, env, t, fuel)
            == if r.Value? then Prepended(r.v, EvalArgs(m, p, rest, env, r.trace, fuel)) else Halt(r)
  {
    assert ([a] + rest)[1..] == rest;
  }

  /** A first argument without effect may come second. */
  lemma QuietFirst(m: Machine, p: Program, quiet: set<string>, a: Expr, b: Expr, rest: seq<Expr>, env: Env,
                   t: seq<Event>, fuel: nat)
    requires QuietProgram(p, quiet) && NoExit(a) && NoExit(b) && Quiet(a, quiet)
    ensures EvalArgs(m, p, [b] + ([a] + rest), env, t, fuel)
            == FrontOutcome(EvalArgs(m, p, [a] + ([b] + rest), env, t, fuel), 1)
  {
    var ra, rb := Eval(m, p, a, env, t, fuel), Eval(m, p, b, env, t, fuel);
    NoExitMeaning(m, p, a, env, t, fuel);
    NoExitMeaning(m, p, b, env, t, fuel);
    QuietMeaning(m, p, quiet, a, env, t, t, fuel);
    EvalFirst(m, p, a, [b] + rest, env, t, fuel);
    EvalFirst(m, p, b, rest, env, t, fuel);
    EvalFirst(m, p, b, [a] + rest, env, t, fuel);
    if rb.Value? {
      QuietMeaning(m, p, quiet, a, env, rb.trace, t, fuel);
      EvalFirst(m, p, a, rest, env, rb.trace, fuel);
      var r := EvalArgs(m, p, rest, env, rb.trace, fuel);
      if ra.Value? && r.Values? {
        FrontOfTwo(ra.v, rb.v, r.vs);
      }
    }
  }

  lemma FrontOfTwo(v: int, w: int, vs: seq<int>)
    ensures ToFront([v] + ([w] + vs), 1) == [w] + ([v] + vs)
  {}

  /** The first two arguments may change places. */
  lemma SwapFirstTwo(m: Machine, p: Program, quiet: set<string>, a: Expr, b: Expr, rest: seq<Expr>, env: Env,
                     t: seq<Event>, fuel: nat)
    requires QuietProgram(p, quiet) && Commute(a, b, quiet)
    ensures EvalArgs(m, p, [b] + ([a] + rest), env, t, fuel)
            == FrontOutcome(EvalArgs(m, p, [a] + ([b] + rest), env, t, fuel), 1)
  {
    if Quiet(a, quiet) {
      QuietFirst(m, p, quiet, a, b, rest, env, t, fuel);
    } else {
      QuietFirst(m, p, quiet, b, a, rest, env, t, fuel);
      var r := EvalArgs(m, p, [b] + ([a] + rest), env, t, fuel);
      if r.Values? {
        assert r.vs == [r.vs[0]] + ([r.vs[1]] + r.vs[2..]);
        FrontOfTwo(r.vs[0], r.vs[1], r.vs[2..]);
        FrontOfTwo(r.vs[1], r.vs[0], r.vs[2..]);
      }
    }
  }

  /** An argument that commutes with all before it may come first. */
  lemma {:induction false} MoveToFront(m: Machine, p: Program, quiet: set<string>, args: seq<Expr>, k: nat, env: Env,
                                       t: seq<Event>, fuel: nat)
    requires QuietProgram(p, quiet) && k < |args|
    requires forall j :: 0 <= j < k ==> Commute(args[j], args[k], quiet)
    ensures EvalArgs(m, p, ToFront(args, k), env, t, fuel) == FrontOutcome(EvalArgs(m, p, args, env, t, fuel), k)
    decreases k
  {
    if k == 0 {
      assert ToFront(args, 0) == args;
      var r := EvalArgs(m, p, args, env, t, fuel);
      assert r.Values? ==> ToFront(r.vs, 0) == r.vs;
    } else {
      var a, b, rest, others := args[0], args[k], args[1..], Without(args[1..], k - 1);
      FrontParts(args, k);
      SwapFirstTwo(m, p, quiet, a, b, others, env, t, fuel);
      EvalFirst(m, p, a, [b] + others, env, t, fuel);
      EvalFirst(m, p, a, rest, env, t, fuel);
      var ra := Eval(m, p, a, env, t, fuel);
      if ra.Value? {
        MoveToFront(m, p, quiet, rest, k - 1, env, ra.trace, fuel);
        var r := EvalArgs(m, p, rest, env, ra.trace, fuel);
        if r.Values? {
          FrontAgain(ra.v, r.vs, k);
        }
      }
    }
  }

  lemma FrontParts(args: seq<Expr>, k: nat)
    requires 0 < k < |args|
    ensures args == [args[0]] + args[1..]
    ensures ToFront(args, k) == [args[k]] + ([args[0]] + Without(args[1..], k - 1))
    ensures ToFront(args[1..], k - 1) == [args[k]] + Without(args[1..], k - 1)
  {}

  lemma FrontAgain(v: int, vs: seq<int>, k: nat)
    requires 0 < k <= |vs|
    ensures ToFront([v] + ToFront(vs, k - 1), 1) == ToFront([v] + vs, k)
  {}

  /** The positions of `perm[1..]` in a list without element `perm[0]`. */
  function Closed(perm: seq<nat>): (r: seq<nat>)
    requires perm != [] && forall i :: 1 <= i < |perm| ==> perm[i] != perm[0]
    ensures |r| == |perm| - 1
    ensures forall i :: 0 <= i < |r| ==> r[i] == if perm[i + 1] < perm[0] then perm[i + 1] else perm[i + 1] - 1
  {
    seq(|perm| - 1, i requires 0 <= i < |perm| - 1 => if perm[i + 1] < perm[0] then perm[i + 1] else perm[i + 1] - 1)
  }

  lemma PermuteFirst<T>(s: seq<T>, perm: seq<nat>)
    requires perm != [] && IsPermutation(perm, |s|)
    ensures IsPermutation(Closed(perm), |s| - 1)
    ensures Permute(s, perm) == [s[perm[0]]] + Permute(Without(s, perm[0]), Closed(perm))
  {}

  /** Permuting arguments that commute where they change places permutes their values and nothing else. */
  lemma {:induction false} PermutedArgs(m: Machine, p: Program, quiet: set<string>, args: seq<Expr>, perm: seq<nat>,
                                        env: Env, t: seq<Event>, fuel: nat)
    requires QuietProgram(p, quiet) && IsPermutation(perm, |args|) && Movable(args, perm, quiet)
    ensures var r := EvalArgs(m, p, args, env, t, fuel);
            EvalArgs(m, p, Permute(args, perm), env, t, fuel)
            == if r.Values? then Values(Permute(r.vs, perm), r.trace) else r
    decreases |args|
  {
    if args == [] {
      assert Permute(args, perm) == [] && Permute<int>([], perm) == [];
    } else {
      var k, b := perm[0], args[perm[0]];
      var others, rest := Without(args, k), Closed(perm);
      PermuteFirst(args, perm);
      FirstCommutes(args, perm, quiet);
      RestMovable(args, perm, quiet);
      MoveToFront(m, p, quiet, args, k, env, t, fuel);
      EvalFirst(m, p, b, others, env, t, fuel);
      EvalFirst(m, p, b, Permute(others, rest), env, t, fuel);
      var r := Eval(m, p, b, env, t, fuel);
      if r.Value? {
        PermutedArgs(m, p, quiet, others, rest, env, r.trace, fuel);
      }
      var a := EvalArgs(m, p, args, env, t, fuel);
      if a.Values? {
        PermuteFirst(a.vs, perm);
        assert ToFront(a.vs, k)[1..] == Without(a.vs, k);
      }
    }
  }

  lemma FirstCommutes(args: seq<Expr>, perm: seq<nat>, quiet: set<string>)
    requires perm != [] && IsPermutation(perm, |args|) && Movable(args, perm, quiet)
    ensures forall j :: 0 <= j < perm[0] ==> Commute(args[j], args[perm[0]], quiet)
  {
    forall j | 0 <= j < perm[0] ensures Commute(args[j], args[perm[0]], quiet) {
      PermutationOnto(perm, |args|, j);
      var i :| 0 <= i < |perm| && perm[i] == j;
    }
  }

  lemma RestMovable(args: seq<Expr>, perm: seq<nat>, quiet: set<string>)
    requires perm != [] && IsPermutation(perm, |args|) && Movable(args, perm, quiet)
    ensures Movable(Without(args, perm[0]), Closed(perm), quiet)
  {
    var others, rest := Without(args, perm[0]), Closed(perm);
    forall i, j | 0 <= i < j < |rest| && rest[j] < rest[i] ensures Commute(others[rest[j]], others[rest[i]], quiet) {
      assert perm[j + 1] < perm[i + 1];
      assert others[rest[j]] == args[perm[j + 1]] && others[rest[i]] == args[perm[i + 1]];
    }
  }

  // ----- renaming -----

  /** Below `env` the names mean what their renamed forms mean below `other`. */
  ghost predicate RenAgree(ren: Renaming, names: set<string>, env: Env, other: Env) {
    forall x :: x in names ==>
                  && (x in env <==> Renamed(ren, x) in other)
                  && (x in env ==> env[x] == other[Renamed(ren, x)])
                  && (x !in env ==> Renamed(ren, x) == x)
  }

  /** No `let` of the body binds an old or a new name; this is what the rename walker checks. */
  predicate BindersOk(b: Stmts, names: set<string>) {
    match b
    case Tail(e) => BindersOkExpr(e, names)
    case Let(x, rhs, rest) => x !in names && BindersOkExpr(rhs, names) && BindersOk(rest, names)
  }

  predicate BindersOkExpr(e: Expr, names: set<string>) {
    match e
    case Num(_) => true
    case Name(_) => true
    case Op(_, args) => BindersOkArgs(args, names)
    case Do(_, args) => BindersOkArgs(args, names)
    case Call(_, args) => BindersOkArgs(args, names)
    case Block(b) => BindersOk(b, names)
    case If(c, a, b) => BindersOkExpr(c, names) && BindersOkExpr(a, names) && BindersOkExpr(b, names)
    case Return(x) => BindersOkExpr(x, names)
    case Try(x) => BindersOkExpr(x, names)
  }

  predicate BindersOkArgs(args: seq<Expr>, names: set<string>) {
    args == [] || (BindersOkExpr(args[0], names) && BindersOkArgs(args[1..], names))
  }

  predicate BindsNoneAt(x: Part, names: set<string>) {
    forall n :: n in names ==> !x.Binds(n)
  }

  lemma BlockBinds(b: Stmts, scope: set<string>, names: set<string>)
    ensures BindsNoneAt(Part(Block(b), scope), names) <==> forall n :: n in names ==> n !in LetNames(b)
  {
    assert forall n :: Part(Block(b), scope).Binds(n) <==> n in LetNames(b);
  }

  function BindsNone(names: set<string>): Part -> bool {
    (x: Part) => BindsNoneAt(x, names)
  }

  /** The walker finds nothing exactly if no block binds one of the names. */
  lemma {:induction false} BindersOkIs(e: Expr, scope: set<string>, names: set<string>)
    ensures BindersOkExpr(e, names) <==> All(PartsOf(e, scope), BindsNone(names))
  {
    AllOf(e, scope, BindsNone(names));
    match e
    case Num(_) =>
    case Name(_) =>
    case Op(_, args) => BindersOkIsArgs(args, scope, names);
    case Do(_, args) => BindersOkIsArgs(args, scope, names);
    case Call(_, args) => BindersOkIsArgs(args, scope, names);
    case Block(b) =>
      BindersOkIsStmts(b, scope, names);
      BlockBinds(b, scope, names);
    case If(c, a, b) =>
      BindersOkIs(c, scope, names);
      BindersOkIs(a, scope, names);
      BindersOkIs(b, scope, names);
    case Return(x) => BindersOkIs(x, scope, names);
    case Try(x) => BindersOkIs(x, scope, names);
  }

  lemma {:induction false} BindersOkIsArgs(args: seq<Expr>, scope: set<string>, names: set<string>)
    ensures BindersOkArgs(args, names) <==> All(PartsOfArgs(args, scope), BindsNone(names))
  {
    AllOfArgs(args, scope, BindsNone(names));
    if args != [] {
      BindersOkIs(args[0], scope, names);
      BindersOkIsArgs(args[1..], scope, names);
    }
  }

  lemma {:induction false} BindersOkIsStmts(b: Stmts, scope: set<string>, names: set<string>)
    ensures BindersOk(b, names) <==> (forall n :: n in names ==> n !in LetNames(b)) && All(PartsOfStmts(b, scope), BindsNone(names))
  {
    AllOfStmts(b, scope, BindsNone(names));
    match b
    case Tail(e) => BindersOkIs(e, scope, names);
    case Let(x, rhs, rest) =>
      BindersOkIs(rhs, scope, names);
      BindersOkIsStmts(rest, scope + {x}, names);
  }

  // Moving arguments moves the blocks in them and changes none.

  lemma {:induction false} BindersReordered(e: Expr, f: string, perm: seq<nat>, names: set<string>)
    requires IsPermutation(perm, |perm|)
    ensures BindersOkExpr(ReorderExpr(e, f, perm), names) <==> BindersOkExpr(e, names)
  {
    match e
    case Num(_) =>
    case Name(_) =>
    case Op(_, args) => BindersReorderedArgs(args, f, perm, names);
    case Do(_, args) => BindersReorderedArgs(args, f, perm, names);
    case Call(g, args) =>
      BindersReorderedArgs(args, f, perm, names);
      if g == f && InBounds(perm, |args|) {
        BindersPermuted(args, perm, names);
      }
    case Block(b) => BindersReorderedStmts(b, f, perm, names);
    case If(c, a, b) =>
      BindersReordered(c, f, perm, names);
      BindersReordered(a, f, perm, names);
      BindersReordered(b, f, perm, names);
    case Return(x) => BindersReordered(x, f, perm, names);
    case Try(x) => BindersReordered(x, f, perm, names);
  }

  lemma {:induction false} BindersReorderedArgs(args: seq<Expr>, f: string, perm: seq<nat>, names: set<string>)
    requires IsPermutation(perm, |perm|)
    ensures BindersOkArgs(ReorderArgs(args, f, perm), names) <==> BindersOkArgs(args, names)
  {
    if args != [] {
      BindersReordered(args[0], f, perm, names);
      BindersReorderedArgs(args[1..], f, perm, names);
      assert ReorderArgs(args, f, perm)[1..] == ReorderArgs(args[1..], f, perm);
    }
  }

  lemma {:induction false} BindersReorderedStmts(b: Stmts, f: string, perm: seq<nat>, names: set<string>)
    requires IsPermutation(perm, |perm|)
    ensures BindersOk(ReorderStmts(b, f, perm), names) <==> BindersOk(b, names)
  {
    match b
    case Tail(e) => BindersReordered(e, f, perm, names);
    case Let(x, rhs, rest) =>
      BindersReordered(rhs, f, perm, names);
      BindersReorderedStmts(rest, f, perm, names);
  }

  lemma {:induction false} BindersOfEach(args: seq<Expr>, names: set<string>)
    ensures BindersOkArgs(args, names) <==> forall i :: 0 <= i < |args| ==> BindersOkExpr(args[i], names)
  {
    if args != [] {
      BindersOfEach(args[1..], names);
      assert args == [args[0]] + args[1..];
    }
  }

  lemma BindersPermuted(args: seq<Expr>, perm: seq<nat>, names: set<string>)
    requires IsPermutation(perm, |args|)
    ensures BindersOkArgs(Permute(args, perm), names) <==> BindersOkArgs(args, names)
  {
    BindersOfEach(args, names);
    BindersOfEach(Permute(args, perm), names);
    if BindersOkArgs(Permute(args, perm), names) {
      forall j | 0 <= j < |args| ensures BindersOkExpr(args[j], names) {
        PermutationOnto(perm, |args|, j);
        var i :| 0 <= i < |args| && perm[i] == j;
        assert Permute(args, perm)[i] == args[j];
      }
    }
  }

  lemma FewerNames(b: Stmts, few: set<string>, many: set<string>)
    requires few <= many && BindersOk(b, many)
    ensures BindersOk(b, few)
  {
    BindersOkIsStmts(b, {}, few);
    BindersOkIsStmts(b, {}, many);
    assert forall x: Part :: BindsNoneAt(x, many) ==> BindsNoneAt(x, few);
  }

  function OldAndNew(ren: Renaming): set<string> {
    ren.Keys + ren.Values
  }

  lemma RenAgreeUnderLet(ren: Renaming, names: set<string>, env: Env, other: Env, x: string, v: int)
    requires x !in OldAndNew(ren) && RenAgree(ren, names - {x}, env, other)
    ensures RenAgree(ren, names, env[x := v], other[x := v])
  {}

  lemma {:induction false} RenameMeaning(m: Machine, p: Program, e: Expr, ren: Renaming, env: Env, other: Env,
                                         t: seq<Event>, fuel: nat)
    requires BindersOkExpr(e, OldAndNew(ren)) && RenAgree(ren, Free(e), env, other)
    ensures Eval(m, p, RenameExpr(e, ren), other, t, fuel) == Eval(m, p, e, env, t, fuel)
    decreases e
  {
    match e
    case Num(_) =>
    case Name(x) => assert x in Free(e);
    case Op(_, args) => RenameMeaningArgs(m, p, args, ren, env, other, t, fuel);
    case Do(_, args) => RenameMeaningArgs(m, p, args, ren, env, other, t, fuel);
    case Call(g, args) =>
      assert g in Free(e);
      RenameMeaningArgs(m, p, args, ren, env, other, t, fuel);
    case Block(b) => RenameMeaningStmts(m, p, b, ren, env, other, t, fuel);
    case If(c, a, b) =>
      RenameMeaning(m, p, c, ren, env, other, t, fuel);
      var r := Eval(m, p, c, env, t, fuel);
      if r.Value? {
        RenameMeaning(m, p, a, ren, env, other, r.trace, fuel);
        RenameMeaning(m, p, b, ren, env, other, r.trace, fuel);
      }
    case Return(x) => RenameMeaning(m, p, x, ren, env, other, t, fuel);
    case Try(x) => RenameMeaning(m, p, x, ren, env, other, t, fuel);
  }

  lemma {:induction false} RenameMeaningArgs(m: Machine, p: Program, args: seq<Expr>, ren: Renaming, env: Env, other: Env,
                                             t: seq<Event>, fuel: nat)
    requires BindersOkArgs(args, OldAndNew(ren)) && RenAgree(ren, FreeArgs(args), env, other)
    ensures EvalArgs(m, p, RenameArgs(args, ren), other, t, fuel) == EvalArgs(m, p, args, env, t, fuel)
    decreases args
  {
    if args != [] {
      RenameMeaning(m, p, args[0], ren, env, other, t, fuel);
      var r := Eval(m, p, args[0], env, t, fuel);
      if r.Value? {
        RenameMeaningArgs(m, p, args[1..], ren, env, other, r.trace, fuel);
        assert RenameArgs(args, ren)[1..] == RenameArgs(args[1..], ren);
      }
    }
  }

  lemma {:induction false} RenameMeaningStmts(m: Machine, p: Program, b: Stmts, ren: Renaming, env: Env, other: Env,
                                              t: seq<Event>, fuel: nat)
    requires BindersOk(b, OldAndNew(ren)) && RenAgree(ren, FreeStmts(b), env, other)
    ensures EvalStmts(m, p, RenameStmts(b, ren), other, t, fuel) == EvalStmts(m, p, b, env, t, fuel)
    decreases b
  {
    match b
    case Tail(e) => RenameMeaning(m, p, e, ren, env, other, t, fuel);
    case Let(x, rhs, rest) =>
      RenameMeaning(m, p, rhs, ren, env, other, t, fuel);
      var r := Eval(m, p, rhs, env, t, fuel);
      if r.Value? {
        RenAgreeUnderLet(ren, FreeStmts(rest), env, other, x, r.v);
        RenameMeaningStmts(m, p, rest, ren, env[x := r.v], other[x := r.v], r.trace, fuel);
      }
  }

  // ----- parameters before and after -----

  ghost predicate DistinctNames(names: seq<string>) {
    forall i, j :: 0 <= i < j < |names| ==> names[i] != names[j]
  }

  lemma {:induction false} BindOverAt(env: Env, params: seq<string>, vs: seq<int>, i: nat)
    requires |params| == |vs| && DistinctNames(params) && i < |params|
    ensures params[i] in BindOver(env, params, vs) && BindOver(env, params, vs)[params[i]] == vs[i]
    decreases |params|
  {
    var env' := env[params[0] := vs[0]];
    if i > 0 {
      BindOverAt(env', params[1..], vs[1..], i - 1);
    } else {
      BindOverOther(env', params[1..], vs[1..], params[0]);
    }
  }

  lemma {:induction false} BindOverOther(env: Env, params: seq<string>, vs: seq<int>, x: string)
    requires |params| == |vs| && x !in params
    ensures x in BindOver(env, params, vs) <==> x in env
    ensures x in env ==> BindOver(env, params, vs)[x] == env[x]
    decreases |params|
  {
    if params != [] {
      BindOverOther(env[params[0] := vs[0]], params[1..], vs[1..], x);
    }
  }

  lemma {:induction false} RenamingAt(params: seq<string>, newParams: seq<ParamReorder>, i: nat)
    requires forall k :: 0 <= k < |newParams| ==> newParams[k].fromIndex < |params|
    requires forall j, k :: 0 <= j < k < |newParams| ==> newParams[j].fromIndex != newParams[k].fromIndex
    requires DistinctNames(params) && i < |newParams|
    ensures Renamed(RenamingOf(params, newParams), params[newParams[i].fromIndex]) == FinalName(params, newParams[i])
  {
    if i > 0 {
      RenamingAt(params, newParams[1..], i - 1);
    } else {
      RenamingElsewhere(params, newParams[1..], newParams[0].fromIndex);
    }
  }

  lemma {:induction false} RenamingElsewhere(params: seq<string>, newParams: seq<ParamReorder>, j: nat)
    requires forall k :: 0 <= k < |newParams| ==> newParams[k].fromIndex < |params|
    requires forall k :: 0 <= k < |newParams| ==> newParams[k].fromIndex != j
    requires DistinctNames(params) && j < |params|
    ensures params[j] !in RenamingOf(params, newParams)
  {
    if newParams != [] {
      RenamingElsewhere(params, newParams[1..], j);
    }
  }

  lemma {:induction false} RenamingKeys(params: seq<string>, newParams: seq<ParamReorder>, x: string)
    requires forall k :: 0 <= k < |newParams| ==> newParams[k].fromIndex < |params|
    requires x !in params
    ensures x !in RenamingOf(params, newParams)
  {
    if newParams != [] {
      RenamingKeys(params, newParams[1..], x);
    }
  }

  /** The new parameters, bound to the permuted values, hold under the new names what the old ones held. */
  lemma ParamsAgree(params: seq<string>, newParams: seq<ParamReorder>, vs: seq<int>, names: set<string>)
    requires IsPermutation(FromIndices(newParams), |params|) && |vs| == |params|
    requires DistinctNames(params) && DistinctNames(FinalNames(params, newParams))
    requires forall x :: x in names && x !in params ==> x !in FinalNames(params, newParams)
    ensures RenAgree(RenamingOf(params, newParams), names, BindOver(map[], params, vs),
                     BindOver(map[], FinalNames(params, newParams), Permute(vs, FromIndices(newParams))))
  {
    var ren, perm, finals := RenamingOf(params, newParams), FromIndices(newParams), FinalNames(params, newParams);
    var env, other := BindOver(map[], params, vs), BindOver(map[], finals, Permute(vs, perm));
    forall x | x in names
      ensures x in env <==> Renamed(ren, x) in other
      ensures x in env ==> env[x] == other[Renamed(ren, x)]
      ensures x !in env ==> Renamed(ren, x) == x
    {
      if x in params {
        var j :| 0 <= j < |params| && params[j] == x;
        PermutationOnto(perm, |params|, j);
        var i :| 0 <= i < |params| && perm[i] == j;
        RenamingAt(params, newParams, i);
        BindOverAt(map[], params, vs, j);
        BindOverAt(map[], finals, Permute(vs, perm), i);
      } else {
        RenamingKeys(params, newParams, x);
        BindOverOther(map[], params, vs, x);
        BindOverOther(map[], finals, Permute(vs, perm), x);
      }
    }
  }

  // ----- preservation of meaning -----

  /** The request keeps every argument where it is and only renames. */
  predicate IsIdentity(perm: seq<nat>) {
    forall i :: 0 <= i < |perm| ==> perm[i] == i
  }

  /**
   Every call of `f` in `e` has the right number of arguments, and those that change places commute. When the permutation
   keeps the order, the arguments may do anything; otherwise there is no call of `f` inside them.
   */
  predicate Reorderable(e: Expr, f: string, perm: seq<nat>, quiet: set<string>) {
    match e
    case Num(_) => true
    case Name(_) => true
    case Op(_, args) => ReorderableArgs(args, f, perm, quiet)
    case Do(_, args) => ReorderableArgs(args, f, perm, quiet)
    case Call(g, args) =>
      && ReorderableArgs(args, f, perm, quiet)
      && (g == f ==> Movable(args, perm, quiet) && (CallsArgs(args, f) == 0 || IsIdentity(perm)))
    case Block(b) => ReorderableStmts(b, f, perm, quiet)
    case If(c, a, b) =>
      Reorderable(c, f, perm, quiet) && Reorderable(a, f, perm, quiet) && Reorderable(b, f, perm, quiet)
    case Return(x) => Reorderable(x, f, perm, quiet)
    case Try(x) => Reorderable(x, f, perm, quiet)
  }

  predicate ReorderableArgs(args: seq<Expr>, f: string, perm: seq<nat>, quiet: set<string>) {
    args == [] || (Reorderable(args[0], f, perm, quiet) && ReorderableArgs(args[1..], f, perm, quiet))
  }

  predicate ReorderableStmts(b: Stmts, f: string, perm: seq<nat>, quiet: set<string>) {
    match b
    case Tail(e) => Reorderable(e, f, perm, quiet)
    case Let(_, rhs, rest) => Reorderable(rhs, f, perm, quiet) && ReorderableStmts(rest, f, perm, quiet)
  }

  ghost predicate CanMoveAt(x: Part, f: string, perm: seq<nat>, quiet: set<string>) {
    x.IsCallOf(f) ==>
      && Movable(x.e.args, perm, quiet)
      && (All(PartsOfArgs(x.e.args, x.scope), NotCallOf(f)) || IsIdentity(perm))
  }

  ghost function CanMove(f: string, perm: seq<nat>, quiet: set<string>): Part -> bool {
    (x: Part) => CanMoveAt(x, f, perm, quiet)
  }

  /** All calls of `f` can be rewritten exactly if each part that calls it meets the conditions. */
  lemma {:induction false} ReorderableIs(e: Expr, scope: set<string>, f: string, perm: seq<nat>, quiet: set<string>)
    ensures Reorderable(e, f, perm, quiet) <==> All(PartsOf(e, scope), CanMove(f, perm, quiet))
  {
    AllOf(e, scope, CanMove(f, perm, quiet));
    match e
    case Num(_) =>
    case Name(_) =>
    case Op(_, args) => ReorderableIsArgs(args, scope, f, perm, quiet);
    case Do(_, args) => ReorderableIsArgs(args, scope, f, perm, quiet);
    case Call(g, args) =>
      ReorderableIsArgs(args, scope, f, perm, quiet);
      NoCallsIsArgs(args, scope, f);
    case Block(b) => ReorderableIsStmts(b, scope, f, perm, quiet);
    case If(c, a, b) =>
      ReorderableIs(c, scope, f, perm, quiet);
      ReorderableIs(a, scope, f, perm, quiet);
      ReorderableIs(b, scope, f, perm, quiet);
    case Return(x) => ReorderableIs(x, scope, f, perm, quiet);
    case Try(x) => ReorderableIs(x, scope, f, perm, quiet);
  }

  lemma {:induction false} ReorderableIsArgs(args: seq<Expr>, scope: set<string>, f: string, perm: seq<nat>, quiet: set<string>)
    ensures ReorderableArgs(args, f, perm, quiet) <==> All(PartsOfArgs(args, scope), CanMove(f, perm, quiet))
  {
    AllOfArgs(args, scope, CanMove(f, perm, quiet));
    if args != [] {
      ReorderableIs(args[0], scope, f, perm, quiet);
      ReorderableIsArgs(args[1..], scope, f, perm, quiet);
    }
  }

  lemma {:induction false} ReorderableIsStmts(b: Stmts, scope: set<string>, f: string, perm: seq<nat>, quiet: set<string>)
    ensures ReorderableStmts(b, f, perm, quiet) <==> All(PartsOfStmts(b, scope), CanMove(f, perm, quiet))
  {
    AllOfStmts(b, scope, CanMove(f, perm, quiet));
    match b
    case Tail(e) => ReorderableIs(e, scope, f, perm, quiet);
    case Let(x, rhs, rest) =>
      ReorderableIs(rhs, scope, f, perm, quiet);
      ReorderableIsStmts(rest, scope + {x}, f, perm, quiet);
  }

  /** Without calls of `f` there is nothing to reorder and no condition to meet. */
  lemma {:induction false} NoCallsKept(e: Expr, f: string, perm: seq<nat>, quiet: set<string>)
    requires Calls(e, f) == 0
    ensures ReorderExpr(e, f, perm) == e && Reorderable(e, f, perm, quiet)
  {
    match e
    case Num(_) =>
    case Name(_) =>
    case Op(_, args) => NoCallsKeptArgs(args, f, perm, quiet);
    case Do(_, args) => NoCallsKeptArgs(args, f, perm, quiet);
    case Call(_, args) => NoCallsKeptArgs(args, f, perm, quiet);
    case Block(b) => NoCallsKeptStmts(b, f, perm, quiet);
    case If(c, a, b) =>
      NoCallsKept(c, f, perm, quiet);
      NoCallsKept(a, f, perm, quiet);
      NoCallsKept(b, f, perm, quiet);
    case Return(x) => NoCallsKept(x, f, perm, quiet);
    case Try(x) => NoCallsKept(x, f, perm, quiet);
  }

  lemma {:induction false} NoCallsKeptArgs(args: seq<Expr>, f: string, perm: seq<nat>, quiet: set<string>)
    requires CallsArgs(args, f) == 0
    ensures ReorderArgs(args, f, perm) == args && ReorderableArgs(args, f, perm, quiet)
  {
    if args != [] {
      NoCallsKept(args[0], f, perm, quiet);
      NoCallsKeptArgs(args[1..], f, perm, quiet);
    }
  }

  lemma {:induction false} NoCallsKeptStmts(b: Stmts, f: string, perm: seq<nat>, quiet: set<string>)
    requires CallsStmts(b, f) == 0
    ensures ReorderStmts(b, f, perm) == b && ReorderableStmts(b, f, perm, quiet)
  {
    match b
    case Tail(e) => NoCallsKept(e, f, perm, quiet);
    case Let(_, rhs, rest) =>
      NoCallsKept(rhs, f, perm, quiet);
      NoCallsKeptStmts(rest, f, perm, quiet);
  }

  /** A request that keeps the order leaves every call as it is. */
  lemma {:induction false} IdentityKeeps(e: Expr, f: string, perm: seq<nat>)
    requires IsIdentity(perm)
    ensures ReorderExpr(e, f, perm) == e
  {
    match e
    case Num(_) =>
    case Name(_) =>
    case Op(_, args) => IdentityKeepsArgs(args, f, perm);
    case Do(_, args) => IdentityKeepsArgs(args, f, perm);
    case Call(g, args) =>
      IdentityKeepsArgs(args, f, perm);
      assert InBounds(perm, |args|) ==> Permute(args, perm) == args;
    case Block(b) => IdentityKeepsStmts(b, f, perm);
    case If(c, a, b) =>
      IdentityKeeps(c, f, perm);
      IdentityKeeps(a, f, perm);
      IdentityKeeps(b, f, perm);
    case Return(x) => IdentityKeeps(x, f, perm);
    case Try(x) => IdentityKeeps(x, f, perm);
  }

  lemma {:induction false} IdentityKeepsArgs(args: seq<Expr>, f: string, perm: seq<nat>)
    requires IsIdentity(perm)
    ensures ReorderArgs(args, f, perm) == args
  {
    if args != [] {
      IdentityKeeps(args[0], f, perm);
      IdentityKeepsArgs(args[1..], f, perm);
    }
  }

  lemma {:induction false} IdentityKeepsStmts(b: Stmts, f: string, perm: seq<nat>)
    requires IsIdentity(perm)
    ensures ReorderStmts(b, f, perm) == b
  {
    match b
    case Tail(e) => IdentityKeeps(e, f, perm);
    case Let(_, rhs, rest) =>
      IdentityKeeps(rhs, f, perm);
      IdentityKeepsStmts(rest, f, perm);
  }

  /** The arguments of a call of `f` stay as they are, apart from their order. */
  lemma {:induction false} ArgumentKept(args: seq<Expr>, f: string, perm: seq<nat>, quiet: set<string>, i: nat)
    requires i < |args| && ReorderableArgs(args, f, perm, quiet) && (CallsArgs(args, f) == 0 || IsIdentity(perm))
    ensures ReorderExpr(args[i], f, perm) == args[i] && Reorderable(args[i], f, perm, quiet)
  {
    if i > 0 {
      ArgumentKept(args[1..], f, perm, quiet, i - 1);
    } else if IsIdentity(perm) {
      IdentityKeeps(args[0], f, perm);
    } else {
      NoCallsKept(args[0], f, perm, quiet);
    }
  }

  /**
   The program and the request together meet the gates and the conditions the gates do not check. `quiet` names
   functions without effect; none have to be named.
   */
  ghost predicate Changeable(p: Program, f: FnDef, newParams: seq<ParamReorder>, quiet: set<string>) {
    var perm := FromIndices(newParams);
    && Find(p, f.name) == Some(f)
    && IsPermutation(perm, |f.params|)
    && DistinctNames(f.params) && DistinctNames(FinalNames(f.params, newParams))
    && QuietProgram(p, quiet)
    && (forall g :: g in p ==> ReorderableStmts(g.body, f.name, perm, quiet))
    && (forall g :: g in p && g.name == f.name ==> g == f)
    && var body := ReorderStmts(f.body, f.name, perm);
       && BindersOk(body, OldAndNew(RenamingOf(f.params, newParams)))
       && (forall x :: x in FreeStmts(body) && x !in f.params ==> x !in FinalNames(f.params, newParams))
  }

  lemma {:induction false} FindChanged(p: Program, f: FnDef, newParams: seq<ParamReorder>, g: string)
    requires InBounds(FromIndices(newParams), |f.params|)
    ensures Find(ChangeProgram(p, f, newParams), g) ==
            (match Find(p, g) case None => None case Some(d) => Some(ChangeDef(d, f, newParams)))
  {
    if p != [] {
      FindChanged(p[1..], f, newParams, g);
    }
  }

  lemma {:induction false} ChangeMeaning(m: Machine, p: Program, f: FnDef, newParams: seq<ParamReorder>, quiet: set<string>,
                                         e: Expr, env: Env, t: seq<Event>, fuel: nat)
    requires Changeable(p, f, newParams, quiet) && Reorderable(e, f.name, FromIndices(newParams), quiet)
    ensures Eval(m, ChangeProgram(p, f, newParams), ReorderExpr(e, f.name, FromIndices(newParams)), env, t, fuel)
            == Eval(m, p, e, env, t, fuel)
    decreases fuel, e, 1
  {
    match e
    case Num(_) =>
    case Name(_) =>
    case Op(_, args) => ChangeMeaningArgs(m, p, f, newParams, quiet, args, env, t, fuel);
    case Do(_, args) => ChangeMeaningArgs(m, p, f, newParams, quiet, args, env, t, fuel);
    case Call(g, args) =>
      if g == f.name {
        ChangeMeaningTarget(m, p, f, newParams, quiet, args, env, t, fuel);
      } else {
        ChangeMeaningOther(m, p, f, newParams, quiet, g, args, env, t, fuel);
      }
    case Block(b) => ChangeMeaningStmts(m, p, f, newParams, quiet, b, env, t, fuel);
    case If(c, a, b) =>
      ChangeMeaning(m, p, f, newParams, quiet, c, env, t, fuel);
      var r := Eval(m, p, c, env, t, fuel);
      if r.Value? {
        ChangeMeaning(m, p, f, newParams, quiet, if r.v != 0 then a else b, env, r.trace, fuel);
      }
    case Return(x) => ChangeMeaning(m, p, f, newParams, quiet, x, env, t, fuel);
    case Try(x) => ChangeMeaning(m, p, f, newParams, quiet, x, env, t, fuel);
  }

  lemma {:induction false} ChangeMeaningOther(m: Machine, p: Program, f: FnDef, newParams: seq<ParamReorder>,
                                              quiet: set<string>, g: string, args: seq<Expr>, env: Env, t: seq<Event>,
                                              fuel: nat)
    requires g != f.name && Changeable(p, f, newParams, quiet)
    requires ReorderableArgs(args, f.name, FromIndices(newParams), quiet)
    ensures Eval(m, ChangeProgram(p, f, newParams), Call(g, ReorderArgs(args, f.name, FromIndices(newParams))), env, t, fuel)
            == Eval(m, p, Call(g, args), env, t, fuel)
    decreases fuel, args, 1
  {
    ChangeMeaningArgs(m, p, f, newParams, quiet, args, env, t, fuel);
    FindChanged(p, f, newParams, g);
    var a := EvalArgs(m, p, args, env, t, fuel);
    if a.Values? && fuel > 0 && Find(p, g).Some? {
      FindMember(p, g);
      var def := Find(p, g).value;
      if |def.params| == |a.vs| {
        ChangeMeaningStmts(m, p, f, newParams, quiet, def.body, BindOver(map[], def.params, a.vs), a.trace, fuel - 1);
      }
    }
  }

  /** A call of the changed function: permuted values meet permuted and renamed parameters. */
  lemma {:induction false} ChangeMeaningTarget(m: Machine, p: Program, f: FnDef, newParams: seq<ParamReorder>,
                                               quiet: set<string>, args: seq<Expr>, env: Env, t: seq<Event>, fuel: nat)
    requires Changeable(p, f, newParams, quiet) && Reorderable(Call(f.name, args), f.name, FromIndices(newParams), quiet)
    ensures Eval(m, ChangeProgram(p, f, newParams), Call(f.name, Permute(args, FromIndices(newParams))), env, t, fuel)
            == Eval(m, p, Call(f.name, args), env, t, fuel)
    decreases fuel, args, 2
  {
    var p', perm := ChangeProgram(p, f, newParams), FromIndices(newParams);
    var args' := Permute(args, perm);
    PermutedArgs(m, p, quiet, args, perm, env, t, fuel);
    SameArgs(m, p, f, newParams, quiet, args, args', env, t, fuel);
    FindChanged(p, f, newParams, f.name);
    FindMember(p, f.name);
    var a := EvalArgs(m, p, args, env, t, fuel);
    if a.Values? && fuel > 0 {
      ChangedCall(m, p, f, newParams, quiet, a.vs, a.trace, fuel - 1);
    }
  }

  /** The changed body on permuted values. */
  lemma {:induction false} ChangedCall(m: Machine, p: Program, f: FnDef, newParams: seq<ParamReorder>, quiet: set<string>,
                                       vs: seq<int>, t: seq<Event>, fuel: nat)
    requires Changeable(p, f, newParams, quiet) && |vs| == |f.params|
    ensures var def := ChangeDef(f, f, newParams);
            EvalStmts(m, ChangeProgram(p, f, newParams), def.body,
                      BindOver(map[], def.params, Permute(vs, FromIndices(newParams))), t, fuel)
            == EvalStmts(m, p, f.body, BindOver(map[], f.params, vs), t, fuel)
    decreases fuel, f.body, 2
  {
    var p', perm := ChangeProgram(p, f, newParams), FromIndices(newParams);
    var body, inner := ReorderStmts(f.body, f.name, perm), BindOver(map[], f.params, vs);
    var inner' := BindOver(map[], FinalNames(f.params, newParams), Permute(vs, perm));
    FindMember(p, f.name);
    ChangeMeaningStmts(m, p, f, newParams, quiet, f.body, inner, t, fuel);
    ParamsAgree(f.params, newParams, vs, FreeStmts(body));
    RenameMeaningStmts(m, p', body, RenamingOf(f.params, newParams), inner, inner', t, fuel);
  }

  /** Arguments of a call of `f`, in any order and number. */
  lemma {:induction false} SameArgs(m: Machine, p: Program, f: FnDef, newParams: seq<ParamReorder>, quiet: set<string>,
                                    args: seq<Expr>, some: seq<Expr>, env: Env, t: seq<Event>, fuel: nat)
    requires Changeable(p, f, newParams, quiet) && ReorderableArgs(args, f.name, FromIndices(newParams), quiet)
    requires CallsArgs(args, f.name) == 0 || IsIdentity(FromIndices(newParams))
    requires forall x :: x in some ==> x in args
    ensures EvalArgs(m, ChangeProgram(p, f, newParams), some, env, t, fuel) == EvalArgs(m, p, some, env, t, fuel)
    decreases fuel, args, 1, |some|
  {
    if some != [] {
      assert some[0] in args;
      var i :| 0 <= i < |args| && args[i] == some[0];
      ArgumentKept(args, f.name, FromIndices(newParams), quiet, i);
      ChangeMeaning(m, p, f, newParams, quiet, args[i], env, t, fuel);
      var r := Eval(m, p, some[0], env, t, fuel);
      if r.Value? {
        SameArgs(m, p, f, newParams, quiet, args, some[1..], env, r.trace, fuel);
      }
    }
  }

  lemma {:induction false} ChangeMeaningArgs(m: Machine, p: Program, f: FnDef, newParams: seq<ParamReorder>,
                                             quiet: set<string>, args: seq<Expr>, env: Env, t: seq<Event>, fuel: nat)
    requires Changeable(p, f, newParams, quiet) && ReorderableArgs(args, f.name, FromIndices(newParams), quiet)
    ensures EvalArgs(m, ChangeProgram(p, f, newParams), ReorderArgs(args, f.name, FromIndices(newParams)), env, t, fuel)
            == EvalArgs(m, p, args, env, t, fuel)
    decreases fuel, args, 0
  {
    if args != [] {
      ChangeMeaning(m, p, f, newParams, quiet, args[0], env, t, fuel);
      var r := Eval(m, p, args[0], env, t, fuel);
      if r.Value? {
        ChangeMeaningArgs(m, p, f, newParams, quiet, args[1..], env, r.trace, fuel);
      }
    }
  }

  lemma {:induction false} ChangeMeaningStmts(m: Machine, p: Program, f: FnDef, newParams: seq<ParamReorder>,
                                              quiet: set<string>, b: Stmts, env: Env, t: seq<Event>, fuel: nat)
    requires Changeable(p, f, newParams, quiet) && ReorderableStmts(b, f.name, FromIndices(newParams), quiet)
    ensures EvalStmts(m, ChangeProgram(p, f, newParams), ReorderStmts(b, f.name, FromIndices(newParams)), env, t, fuel)
            == EvalStmts(m, p, b, env, t, fuel)
    decreases fuel, b, 1
  {
    match b
    case Tail(e) => ChangeMeaning(m, p, f, newParams, quiet, e, env, t, fuel);
    case Let(x, rhs, rest) =>
      ChangeMeaning(m, p, f, newParams, quiet, rhs, env, t, fuel);
      var r := Eval(m, p, rhs, env, t, fuel);
      if r.Value? {
        ChangeMeaningStmts(m, p, f, newParams, quiet, rest, env[x := r.v], r.trace, fuel);
      }
  }

  /**
   Changing a signature preserves meaning: every expression has the same outcomes before and after, and each run
   even needs the same fuel (ChangeMeaning).
   */
  lemma ChangedSignaturePreservesMeaning(m: Machine, p: Program, f: FnDef, newParams: seq<ParamReorder>, quiet: set<string>,
                                         e: Expr, env: Env, t: seq<Event>, r: Outcome)
    requires Changeable(p, f, newParams, quiet) && Reorderable(e, f.name, FromIndices(newParams), quiet)
    ensures EvaluatesTo(m, p, e, env, t, r) <==>
            EvaluatesTo(m, ChangeProgram(p, f, newParams), ReorderExpr(e, f.name, FromIndices(newParams)), env, t, r)
  {
    forall fuel: nat
      ensures Eval(m, ChangeProgram(p, f, newParams), ReorderExpr(e, f.name, FromIndices(newParams)), env, t, fuel)
              == Eval(m, p, e, env, t, fuel)
    {
      ChangeMeaning(m, p, f, newParams, quiet, e, env, t, fuel);
    }
  }

  // ----- the side conditions the code does not check are needed -----

  const SWAP := [ParamReorder(1, None), ParamReorder(0, None)]

  function OfTwo(x: string, y: string, body: Expr): FnDef {
    FnDef("f", [x, y], Tail(body))
  }

  lemma SwapIs()
    ensures FromIndices(SWAP) == [1, 0] && RenamingOf(["a", "b"], SWAP) == map[] && FinalNames(["a", "b"], SWAP) == ["b", "a"]
  {}

  lemma SwapProgram(body: Expr)
    requires body == Name("a") || body == Num(0)
    ensures ChangeProgram([OfTwo("a", "b", body)], OfTwo("a", "b", body), SWAP) == [OfTwo("b", "a", body)]
  {
    SwapIs();
  }

  lemma SwapArgs(x: Expr, y: Expr)
    requires ReorderExpr(x, "f", [1, 0]) == x && ReorderExpr(y, "f", [1, 0]) == y
    ensures ReorderExpr(Call("f", [x, y]), "f", [1, 0]) == Call("f", [y, x])
  {}

  /** `fn f(a, b) { a }` swapped, with `f(f(1, 2), 3)`: the argument text of the outer call is the old one. */
  lemma NestedCallMisaligned(m: Machine)
    ensures
      var f := OfTwo("a", "b", Name("a"));
      var e := Call("f", [Call("f", [Num(1), Num(2)]), Num(3)]);
      && Eval(m, [f], e, map[], [], 1) == Value(1, [])
      && Eval(m, ChangeProgram([f], f, SWAP), ReorderExpr(e, "f", [1, 0]), map[], [], 1) == Value(2, [])
  {
    SwapProgram(Name("a"));
    NestedBefore(m);
    NestedAfter(m);
    assert Permute([Call("f", [Num(1), Num(2)]), Num(3)], [1, 0]) == [Num(3), Call("f", [Num(1), Num(2)])];
  }

  lemma NestedBefore(m: Machine)
    ensures Eval(m, [OfTwo("a", "b", Name("a"))], Call("f", [Call("f", [Num(1), Num(2)]), Num(3)]), map[], [], 1) == Value(1, [])
  {}

  lemma NestedAfter(m: Machine)
    ensures Eval(m, [OfTwo("b", "a", Name("a"))], Call("f", [Num(3), Call("f", [Num(1), Num(2)])]), map[], [], 1) == Value(2, [])
  {}

  /** `fn f(a, b) { 0 }` swapped, with `f(left(), right())`: the effects change places. */
  lemma EffectsReordered(m: Machine)
    ensures
      var f := OfTwo("a", "b", Num(0));
      var e := Call("f", [Do("left", []), Do("right", [])]);
      && Eval(m, [f], e, map[], [], 1) == Value(0, [Event("left", []), Event("right", [])])
      && Eval(m, ChangeProgram([f], f, SWAP), ReorderExpr(e, "f", [1, 0]), map[], [], 1)
         == Value(0, [Event("right", []), Event("left", [])])
  {
    SwapProgram(Num(0));
    SwapArgs(Do("left", []), Do("right", []));
    TwoEffects(m, "a", "b", "left", "right");
    TwoEffects(m, "b", "a", "right", "left");
  }

  lemma TwoEffects(m: Machine, x: string, y: string, first: string, second: string)
    ensures Eval(m, [OfTwo(x, y, Num(0))], Call("f", [Do(first, []), Do(second, [])]), map[], [], 1)
            == Value(0, [Event(first, []), Event(second, [])])
  {
    TwoArgs(m, [OfTwo(x, y, Num(0))], Do(first, []), Do(second, []), map[], [], 1);
    assert [Event(first, [])] + [Event(second, [])] == [Event(first, []), Event(second, [])];
  }

  /** `fn f(a, b) { 0 }` swapped, with `f(1?, 2?)`: the caller is left with another value. */
  lemma ExitsReordered(m: Machine)
    requires m.fails(1) && m.fails(2)
    ensures
      var f := OfTwo("a", "b", Num(0));
      var e := Call("f", [Try(Num(1)), Try(Num(2))]);
      && Eval(m, [f], e, map[], [], 1) == Exit(1, [])
      && Eval(m, ChangeProgram([f], f, SWAP), ReorderExpr(e, "f", [1, 0]), map[], [], 1) == Exit(2, [])
  {
    SwapProgram(Num(0));
    SwapArgs(Try(Num(1)), Try(Num(2)));
  }

  /**
   `fn f(a) { K }` with `a` renamed to `K`: the parameter captures the constant. Rust, where it now is a pattern, refuses
   the program.
   */
  lemma RenameCapturesConstant(m: Machine)
    requires m.consts == map["K" := 7]
    ensures
      var f := FnDef("f", ["a"], Tail(Name("K")));
      var e := Call("f", [Num(1)]);
      var newParams := [ParamReorder(0, Some("K"))];
      && Eval(m, [f], e, map[], [], 1) == Value(7, [])
      && Eval(m, ChangeProgram([f], f, newParams), ReorderExpr(e, "f", [0]), map[], [], 1) == Value(1, [])
  {
    var f := FnDef("f", ["a"], Tail(Name("K")));
    var newParams := [ParamReorder(0, Some("K"))];
    var f' := FnDef("f", ["K"], Tail(Name("K")));
    assert FromIndices(newParams) == [0];
    assert RenamingOf(f.params, newParams) == map["a" := "K"] by {
      assert newParams[1..] == [];
    }
    assert FinalNames(f.params, newParams) == ["K"];
    assert ChangeProgram([f], f, newParams) == [f'];
    assert Permute([Num(1)], [0]) == [Num(1)];
    assert forall p: Program :: EvalArgs(m, p, [Num(1)][1..], map[], [], 1) == Values([], []);
    assert forall p: Program :: EvalArgs(m, p, [Num(1)], map[], [], 1) == Values([1] + [], []);
    assert BindOver(map[], ["a"], [1]) == map["a" := 1];
    assert BindOver(map[], ["K"], [1]) == map["K" := 1];
  }

  lemma TwoArgs(m: Machine, p: Program, a: Expr, b: Expr, env: Env, t: seq<Event>, fuel: nat)
    ensures var r := Eval(m, p, a, env, t, fuel);
            r.Value? ==>
              var s := Eval(m, p, b, env, r.trace, fuel);
              s.Value? ==> EvalArgs(m, p, [a, b], env, t, fuel) == Values([r.v, s.v], s.trace)
  {
    var r := Eval(m, p, a, env, t, fuel);
    if r.Value? {
      var s := Eval(m, p, b, env, r.trace, fuel);
      if s.Value? {
        assert [a, b][1..] == [b] && [b][1..] == [];
        assert EvalArgs(m, p, [b], env, r.trace, fuel) == Values([s.v] + [], s.trace);
        assert EvalArgs(m, p, [a, b], env, t, fuel) == Values([r.v] + [s.v], s.trace);
      }
    }
  }
}
