/** Source text of MiniRust programs, and texts under construction together with the edits that rewrite them. */
module Source {
  import opened Wrappers
  import opened Splice
  import opened Decimal
  import opened MiniRust
  import opened Text

  // ----- printing -----

  function PrintInt(n: int): string {
    if n < 0 then "-" + ToDecimal(-n) else ToDecimal(n)
  }

  function OpText(op: string, args: string): string {
    "::" + op + "(" + args + ")"
  }

  function IfText(c: string, a: string, b: string): string {
    "(if " + c + " { " + a + " } else { " + b + " })"
  }

  /** Operations are printed as calls through a global path, which are not bare calls. */
  function Print(e: Expr): string {
    match e
    case Num(n) => PrintInt(n)
    case Name(x) => x
    case Op(op, args) => OpText(op, PrintArgs(args))
    case Do(op, args) => OpText(op, PrintArgs(args))
    case Call(f, args) => f + "(" + PrintArgs(args) + ")"
    case Block(b) => "({ " + PrintStmts(b) + " })"
    case If(c, a, b) => IfText(Print(c), Print(a), Print(b))
    case Return(x) => "(return " + Print(x) + ")"
    case Try(x) => Print(x) + "?"
  }

  function PrintArgs(args: seq<Expr>): string {
    if args == [] then ""
    else if |args| == 1 then Print(args[0])
    else Print(args[0]) + ", " + PrintArgs(args[1..])
  }

  function PrintStmts(b: Stmts): string {
    match b
    case Tail(e) => Print(e)
    case Let(x, rhs, rest) => "let " + x + " = " + Print(rhs) + "; " + PrintStmts(rest)
  }

  function PrintParams(params: seq<string>): string {
    if params == [] then ""
    else if |params| == 1 then params[0] + ": i64"
    else params[0] + ": i64" + ", " + PrintParams(params[1..])
  }

  function DefHead(name: string, params: seq<string>): string {
    "fn " + name + "(" + PrintParams(params) + ") -> i64 {"
  }

  const DEF_END := "}\n"

  function PrintDef(f: FnDef): string {
    DefHead(f.name, f.params) + (" " + PrintStmts(f.body) + " ") + DEF_END
  }

  function PrintProgram(p: Program): string {
    if p == [] then "" else PrintDef(p[0]) + PrintProgram(p[1..])
  }

  // ----- names -----

  predicate WellNamed(e: Expr) {
    match e
    case Num(_) => true
    case Name(x) => IsValidIdent(x)
    case Op(op, args) => WellNamedArgs(args)
    case Do(op, args) => WellNamedArgs(args)
    case Call(f, args) => IsValidIdent(f) && WellNamedArgs(args)
    case Block(b) => WellNamedStmts(b)
    case If(c, a, b) => WellNamed(c) && WellNamed(a) && WellNamed(b)
    case Return(x) => WellNamed(x)
    case Try(x) => WellNamed(x)
  }

  predicate WellNamedArgs(args: seq<Expr>) {
    args == [] || (WellNamed(args[0]) && WellNamedArgs(args[1..]))
  }

  predicate WellNamedStmts(b: Stmts) {
    match b
    case Tail(e) => WellNamed(e)
    case Let(_, rhs, rest) => WellNamed(rhs) && WellNamedStmts(rest)
  }

  lemma {:induction false} PrintTight(e: Expr)
    requires WellNamed(e)
    ensures Tight(Print(e))
  {
    match e
    case Try(x) => PrintTight(x);
    case _ =>
  }

  lemma {:induction false} PrintStmtsTight(b: Stmts)
    requires WellNamedStmts(b)
    ensures Tight(PrintStmts(b))
  {
    match b
    case Tail(e) => PrintTight(e);
    case Let(x, rhs, rest) => PrintStmtsTight(rest);
  }

  // ----- a text, the edits on it, and what it should become -----

  datatype Edited = Edited(before: string, edits: seq<Edit>, after: string)

  function Lit(s: string): Edited {
    Edited(s, [], s)
  }

  /** Two pieces of text next to each other. */
  function Cat(a: Edited, b: Edited): Edited {
    Edited(a.before + b.before, a.edits + Shift(b.edits, |a.before|), a.after + b.after)
  }

  /** What edits that are in range, ascending and disjoint make of a text, all at once. */
  ghost function Made(text: string, edits: seq<Edit>): Option<string> {
    if InRange(edits, |text|) && Chained(edits) && SortedByStart(edits) then Some(Simultaneous(text, edits)) else None
  }

  /** The edits turn `before` into `after`. */
  ghost predicate Realises(d: Edited) {
    Made(d.before, d.edits) == Some(d.after)
  }

  lemma LitRealises(s: string)
    ensures Realises(Lit(s))
  {
    NoEdits(s, 0);
  }

  lemma CatRealises(a: Edited, b: Edited)
    requires Realises(a) && Realises(b)
    ensures Realises(Cat(a, b))
  {
    SimultaneousConcat(a.before, b.before, a.edits, b.edits);
    CatOrder(a.edits, b.edits, |a.before|, |b.before|);
  }

  lemma CatOrder(a: seq<Edit>, b: seq<Edit>, n: nat, k: nat)
    requires InRange(a, n) && Chained(a) && SortedByStart(a)
    requires InRange(b, k) && Chained(b) && SortedByStart(b)
    ensures InRange(a + Shift(b, n), n + k) && Chained(a + Shift(b, n)) && SortedByStart(a + Shift(b, n))
  {}

  /** Replacing a whole text. */
  lemma WholeRealises(before: string, after: string)
    ensures Realises(Edited(before, [Edit(0, |before|, after)], after))
  {
    var e := Edit(0, |before|, after);
    NoEdits(before, 0);
    SpliceOne(before, e, []);
    assert [e] + [] == [e];
    assert before[0..] == before && before[..0] + after + before[|before|..] == after;
  }

  /** Between two literals. */
  lemma WrapRealises(pre: string, d: Edited, post: string)
    requires Realises(d)
    ensures Realises(Cat(Cat(Lit(pre), d), Lit(post)))
    ensures Cat(Cat(Lit(pre), d), Lit(post)).before == pre + d.before + post
    ensures Cat(Cat(Lit(pre), d), Lit(post)).after == pre + d.after + post
  {
    LitRealises(pre);
    LitRealises(post);
    CatRealises(Lit(pre), d);
    CatRealises(Cat(Lit(pre), d), Lit(post));
  }

  function IfParts(c: Edited, a: Edited, b: Edited): Edited {
    Cat(Cat(Cat(Cat(Cat(Cat(Lit("(if "), c), Lit(" { ")), a), Lit(" } else { ")), b), Lit(" })"))
  }

  lemma PrintIf(c: Expr, a: Expr, b: Expr)
    ensures Print(If(c, a, b)) == IfText(Print(c), Print(a), Print(b))
  {}

  lemma IfRealises(c: Edited, a: Edited, b: Edited)
    requires Realises(c) && Realises(a) && Realises(b)
    ensures Realises(IfParts(c, a, b))
    ensures IfParts(c, a, b).before == IfText(c.before, a.before, b.before)
    ensures IfParts(c, a, b).after == IfText(c.after, a.after, b.after)
  {
    WrapRealises("(if ", c, " { ");
    var d := Cat(Cat(Lit("(if "), c), Lit(" { "));
    CatRealises(d, a);
    LitRealises(" } else { ");
    CatRealises(Cat(d, a), Lit(" } else { "));
    var d' := Cat(Cat(d, a), Lit(" } else { "));
    CatRealises(d', b);
    LitRealises(" })");
    CatRealises(Cat(d', b), Lit(" })"));
  }

  /** Two list items and the separator between them. */
  lemma CommaRealises(first: Edited, rest: Edited)
    requires Realises(first) && Realises(rest)
    ensures Realises(Cat(Cat(first, Lit(", ")), rest))
  {
    LitRealises(", ");
    CatRealises(first, Lit(", "));
    CatRealises(Cat(first, Lit(", ")), rest);
  }
}
