/**
 Which texts the parser of crates/aa-rules/src/parser.rs accepts. A layout is a program as it stands in a text: its tokens
 with the white space and the comments between them. A text parses exactly if it is the text of a layout, and then to what
 the layout means. Texts are built from the back: every text function takes what follows.
 */
module DatalogLayout {
  import opened Wrappers
  import opened Decimal
  import opened Datalog
  import opened Text
  import opened DatalogParser

  // ----- what may stand between two tokens -----

  /** A white space character, or a comment from `%` or `//` to the end of its line. */
  datatype Piece = Blank(c: char) | Comment(slashes: bool, text: string)

  type Gap = seq<Piece>

  /** The gap at the end of a source, where the last comment may lack its newline. */
  datatype EndGap = EndGap(gap: Gap, unfinished: Option<Piece>)

  predicate ValidPiece(p: Piece) {
    match p
    case Blank(c) => c in " \t\n\r\U{0C}"
    case Comment(_, text) => '\n' !in text
  }

  predicate ValidGap(g: Gap) {
    forall p :: p in g ==> ValidPiece(p)
  }

  predicate ValidEnd(e: EndGap) {
    ValidGap(e.gap) && (e.unfinished.Some? ==> e.unfinished.value.Comment? && ValidPiece(e.unfinished.value))
  }

  function CommentStart(slashes: bool): string {
    if slashes then "//" else "%"
  }

  function PieceText(p: Piece, rest: string): string {
    match p
    case Blank(c) => [c] + rest
    case Comment(slashes, text) => CommentStart(slashes) + (text + ("\n" + rest))
  }

  function GapText(g: Gap, rest: string): string {
    if g == [] then rest else PieceText(g[0], GapText(g[1..], rest))
  }

  function EndText(e: EndGap): string {
    GapText(e.gap, if e.unfinished.Some? && e.unfinished.value.Comment?
                   then CommentStart(e.unfinished.value.slashes) + e.unfinished.value.text
                   else "")
  }

  // ----- terms -----

  /** A term as it is written: a name, an integer or a quoted text. */
  predicate ValidTermText(s: string) {
    || (IsWord(s) && !IsDigit(s[0]))
    || IsNumber(s)
    || (|s| >= 2 && s[0] == '"' && s[|s| - 1] == '"' && IsQuotable(s[1..|s| - 1]))
  }

  /** What a written term means: a name with a capital or an underscore in front is a variable, quotes are taken off. */
  function TermOf(s: string): Term {
    if s != "" && (IsUpper(s[0]) || s[0] == '_') then Var(s)
    else if |s| >= 2 && s[0] == '"' then Const(s[1..|s| - 1])
    else Const(s)
  }

  // ----- layouts -----

  /** A term in an argument list, with what stands in front of it and behind it. */
  datatype ArgLayout = ArgLayout(before: Gap, text: string, after: Gap)

  /** An atom; `inside` is what stands between the parentheses when there is no argument. */
  datatype AtomLayout = AtomLayout(pred: string, beforeOpen: Gap, inside: Gap, args: seq<ArgLayout>)

  /** An atom of a body, with what stands in front of it and behind it. */
  datatype BodyLayout = BodyLayout(before: Gap, atom: AtomLayout, after: Gap)

  datatype ClauseLayout = ClauseLayout(before: Gap, head: AtomLayout, after: Gap, body: seq<BodyLayout>)

  datatype Layout = Layout(clauses: seq<ClauseLayout>, end: EndGap)

  predicate ValidArg(a: ArgLayout) {
    ValidGap(a.before) && ValidTermText(a.text) && ValidGap(a.after)
  }

  predicate ValidAtom(a: AtomLayout) {
    && IsLowerWord(a.pred) && ValidGap(a.beforeOpen) && ValidGap(a.inside)
    && forall x :: x in a.args ==> ValidArg(x)
  }

  predicate ValidBody(b: BodyLayout) {
    ValidGap(b.before) && ValidAtom(b.atom) && ValidGap(b.after)
  }

  predicate ValidClause(c: ClauseLayout) {
    ValidGap(c.before) && ValidAtom(c.head) && ValidGap(c.after) && forall b :: b in c.body ==> ValidBody(b)
  }

  predicate ValidLayout(l: Layout) {
    (forall c :: c in l.clauses ==> ValidClause(c)) && ValidEnd(l.end)
  }

  // ----- their texts -----

  /** The gap behind a term, then a comma and a term as often as there are more. */
  function ArgsTailText(after: Gap, more: seq<ArgLayout>, rest: string): string
    decreases |more|
  {
    GapText(after, if more == [] then rest
                   else "," + GapText(more[0].before, more[0].text + ArgsTailText(more[0].after, more[1..], rest)))
  }

  function ArgsText(inside: Gap, args: seq<ArgLayout>, rest: string): string {
    if args == [] then GapText(inside, rest)
    else GapText(args[0].before, args[0].text + ArgsTailText(args[0].after, args[1..], rest))
  }

  function AtomText(a: AtomLayout, rest: string): string {
    a.pred + GapText(a.beforeOpen, "(" + ArgsText(a.inside, a.args, ")" + rest))
  }

  function BodyTailText(after: Gap, more: seq<BodyLayout>, rest: string): string
    decreases |more|
  {
    GapText(after, if more == [] then rest
                   else "," + GapText(more[0].before, AtomText(more[0].atom, BodyTailText(more[0].after, more[1..], rest))))
  }

  function BodyText(body: seq<BodyLayout>, rest: string): string
    requires body != []
  {
    ":-" + GapText(body[0].before, AtomText(body[0].atom, BodyTailText(body[0].after, body[1..], "." + rest)))
  }

  /** A clause without the gap in front of it. */
  function ClauseText(c: ClauseLayout, rest: string): string {
    AtomText(c.head, GapText(c.after, if c.body == [] then "." + rest else BodyText(c.body, rest)))
  }

  function ClausesText(clauses: seq<ClauseLayout>, end: EndGap): string
    decreases |clauses|
  {
    if clauses == [] then EndText(end)
    else GapText(clauses[0].before, ClauseText(clauses[0], ClausesText(clauses[1..], end)))
  }

  function LayoutText(l: Layout): string {
    ClausesText(l.clauses, l.end)
  }

  // ----- and their meaning -----

  function TermsOf(args: seq<ArgLayout>): (ts: seq<Term>)
    ensures |ts| == |args| && forall i :: 0 <= i < |args| ==> ts[i] == TermOf(args[i].text)
  {
    seq(|args|, i requires 0 <= i < |args| => TermOf(args[i].text))
  }

  function AtomOf(a: AtomLayout): Atom {
    Atom(a.pred, TermsOf(a.args))
  }

  function AtomsOf(body: seq<BodyLayout>): (r: seq<Atom>)
    ensures |r| == |body| && forall i :: 0 <= i < |body| ==> r[i] == AtomOf(body[i].atom)
  {
    seq(|body|, i requires 0 <= i < |body| => AtomOf(body[i].atom))
  }

  function RuleOf(c: ClauseLayout): Rule {
    Rule(AtomOf(c.head), AtomsOf(c.body))
  }

  function RulesOf(clauses: seq<ClauseLayout>): (r: seq<Rule>)
    ensures |r| == |clauses| && forall i :: 0 <= i < |clauses| ==> r[i] == RuleOf(clauses[i])
  {
    seq(|clauses|, i requires 0 <= i < |clauses| => RuleOf(clauses[i]))
  }

  /** The heads of the ground facts, in order. */
  function FactsIn(rules: seq<Rule>): seq<Atom> {
    if rules == [] then []
    else (if rules[0].IsGroundFact() then [rules[0].head] else []) + FactsIn(rules[1..])
  }

  /** The other clauses, in order. */
  function RulesIn(rules: seq<Rule>): seq<Rule> {
    if rules == [] then []
    else (if rules[0].IsGroundFact() then [] else [rules[0]]) + RulesIn(rules[1..])
  }

  function Meaning(l: Layout): Program {
    Program(RulesIn(RulesOf(l.clauses)), FactsIn(RulesOf(l.clauses)))
  }

  lemma {:induction false} AddAllSplits(p: Program, rules: seq<Rule>)
    ensures AddAll(p, rules) == Program(p.rules + RulesIn(rules), p.facts + FactsIn(rules))
    decreases |rules|
  {
    if rules == [] {
      assert p.rules + [] == p.rules && p.facts + [] == p.facts;
    } else {
      AddAllSplits(AddClause(p, rules[0]), rules[1..]);
      SplitOne(p.rules, rules[0], RulesIn(rules[1..]));
      SplitOne(p.facts, rules[0].head, FactsIn(rules[1..]));
    }
  }

  lemma SplitOne<T>(a: seq<T>, x: T, b: seq<T>)
    ensures a + [x] + b == a + ([x] + b) && a + b == a + ([] + b)
  {}

  // ----- every layout parses to its meaning -----

  lemma {:induction false} SkipLineOver(text: string, rest: string)
    requires '\n' !in text
    ensures SkipLine(text + ("\n" + rest)) == rest
  {
    var s := text + ("\n" + rest);
    if text == "" {
      assert s == "\n" + rest && s[1..] == rest;
    } else {
      assert s[0] == text[0] && text[0] in text;
      assert s[1..] == text[1..] + ("\n" + rest);
      SkipLineOver(text[1..], rest);
    }
  }

  lemma {:induction false} SkipLineEnd(text: string)
    requires '\n' !in text
    ensures SkipLine(text) == ""
  {
    if text != "" {
      assert text[0] in text;
      SkipLineEnd(text[1..]);
    }
  }

  lemma CommentSkipped(slashes: bool, more: string)
    ensures var s := CommentStart(slashes) + more; StartsComment(s) && !IsWhitespace(s[0]) && SkipLine(s) == SkipLine(more)
  {
    var s := CommentStart(slashes) + more;
    if slashes {
      assert s[1..] == "/" + more && ("/" + more)[1..] == more;
    } else {
      assert s[1..] == more;
    }
  }

  lemma {:induction false} GapSkipped(g: Gap, rest: string)
    requires ValidGap(g)
    ensures SkipTrivia(GapText(g, rest)) == SkipTrivia(rest)
  {
    if g != [] {
      var more := GapText(g[1..], rest);
      GapSkipped(g[1..], rest);
      PieceSkipped(g[0], more);
    }
  }

  lemma PieceSkipped(p: Piece, rest: string)
    requires ValidPiece(p)
    ensures SkipTrivia(PieceText(p, rest)) == SkipTrivia(rest)
  {
    match p
    case Blank(c) =>
      assert ([c] + rest)[1..] == rest;
    case Comment(slashes, text) =>
      CommentSkipped(slashes, text + ("\n" + rest));
      SkipLineOver(text, rest);
  }

  lemma EndSkipped(e: EndGap)
    requires ValidEnd(e)
    ensures SkipTrivia(EndText(e)) == ""
  {
    if e.unfinished.Some? {
      var c := e.unfinished.value;
      GapSkipped(e.gap, CommentStart(c.slashes) + c.text);
      CommentSkipped(c.slashes, c.text);
      SkipLineEnd(c.text);
    } else {
      GapSkipped(e.gap, "");
    }
  }

  /** A text that starts with a token is left alone. */
  lemma TokenAfterGap(g: Gap, s: string)
    requires ValidGap(g) && Solid(s)
    ensures SkipTrivia(GapText(g, s)) == s
  {
    GapSkipped(g, s);
    SolidIsKept(s);
  }

  lemma PunctSolid(c: char, s: string)
    requires c in "(),.:"
    ensures Solid([c] + s)
  {}

  lemma GapStartsNoWord(g: Gap, s: string)
    requires ValidGap(g) && NoWordAhead(s)
    ensures NoWordAhead(GapText(g, s))
  {
    if g != [] {
      assert ValidPiece(g[0]);
    }
  }

  lemma TermTextParses(text: string, rest: string)
    requires ValidTermText(text) && NoWordAhead(rest)
    ensures Solid(text + rest) && ParseTerm(text + rest) == Parsed(TermOf(text), rest)
  {
    if IsNumber(text) {
      NumberLengthOf(text, rest);
    } else if IsWord(text) {
      WordLengthOf(text, rest);
    } else {
      var c := text[1..|text| - 1];
      QuotesBack(text, c);
      QuotedParsesBack(c, rest);
    }
  }

  lemma QuotesBack(text: string, c: string)
    requires |text| >= 2 && text[0] == '"' && text[|text| - 1] == '"' && c == text[1..|text| - 1]
    ensures text == "\"" + (c + "\"")
  {}

  lemma ArgsTailStartsNoWord(after: Gap, more: seq<ArgLayout>, rest: string)
    requires ValidGap(after) && NoWordAhead(rest)
    ensures NoWordAhead(ArgsTailText(after, more, rest))
  {
    GapStartsNoWord(after, rest);
    if more != [] {
      GapStartsNoWord(after, "," + GapText(more[0].before, more[0].text + ArgsTailText(more[0].after, more[1..], rest)));
    }
  }

  lemma TermsOfCons(args: seq<ArgLayout>)
    requires args != []
    ensures TermsOf(args) == [TermOf(args[0].text)] + TermsOf(args[1..])
  {}

  lemma {:induction false} ArgsTailParses(after: Gap, more: seq<ArgLayout>, args: seq<Term>, rest: string)
    requires ValidGap(after) && forall x :: x in more ==> ValidArg(x)
    ensures ParseArgsTail(ArgsTailText(after, more, ")" + rest), args) == Parsed(args + TermsOf(more), ")" + rest)
    decreases |more|
  {
    var end := ")" + rest;
    PunctSolid(')', rest);
    if more == [] {
      TokenAfterGap(after, end);
      assert args + TermsOf(more) == args;
    } else {
      var x, later := more[0], more[1..];
      assert x in more && forall y :: y in later ==> y in more;
      var tail := ArgsTailText(x.after, later, end);
      var s := GapText(x.before, x.text + tail);
      ArgsTailStartsNoWord(x.after, later, end);
      TermTextParses(x.text, tail);
      TokenAfterGap(x.before, x.text + tail);
      PunctSolid(',', s);
      TokenAfterGap(after, "," + s);
      assert ("," + s)[1..] == s;
      ArgsTailParses(x.after, later, args + [TermOf(x.text)], rest);
      TermsOfCons(more);
      SplitOne(args, TermOf(x.text), TermsOf(later));
    }
  }

  lemma ArgsParse(inside: Gap, args: seq<ArgLayout>, rest: string)
    requires ValidGap(inside) && forall x :: x in args ==> ValidArg(x)
    ensures ParseArgs(SkipTrivia(ArgsText(inside, args, ")" + rest))) == Parsed(TermsOf(args), ")" + rest)
  {
    PunctSolid(')', rest);
    if args == [] {
      TokenAfterGap(inside, ")" + rest);
      assert TermsOf(args) == [];
    } else {
      var x, later := args[0], args[1..];
      assert x in args && forall y :: y in later ==> y in args;
      var tail := ArgsTailText(x.after, later, ")" + rest);
      ArgsTailStartsNoWord(x.after, later, ")" + rest);
      TermTextParses(x.text, tail);
      TokenAfterGap(x.before, x.text + tail);
      ArgsTailParses(x.after, later, [TermOf(x.text)], rest);
      TermsOfCons(args);
    }
  }

  lemma PredicateParses(pred: string, rest: string)
    requires IsLowerWord(pred) && NoWordAhead(rest)
    ensures Solid(pred + rest) && Predicate(pred + rest) == Parsed(pred, rest)
  {
    WordLengthOf(pred, rest);
  }

  lemma AtomParses(a: AtomLayout, rest: string)
    requires ValidAtom(a)
    ensures Solid(AtomText(a, rest)) && ParseAtom(AtomText(a, rest)) == Parsed(AtomOf(a), rest)
  {
    var args := ArgsText(a.inside, a.args, ")" + rest);
    PunctSolid('(', args);
    TokenAfterGap(a.beforeOpen, "(" + args);
    GapStartsNoWord(a.beforeOpen, "(" + args);
    PredicateParses(a.pred, GapText(a.beforeOpen, "(" + args));
    assert ("(" + args)[1..] == args;
    ArgsParse(a.inside, a.args, rest);
    assert (")" + rest)[1..] == rest;
  }

  lemma AtomAfterGap(g: Gap, a: AtomLayout, rest: string)
    requires ValidGap(g) && ValidAtom(a)
    ensures ParseAtom(SkipTrivia(GapText(g, AtomText(a, rest)))) == Parsed(AtomOf(a), rest)
  {
    AtomParses(a, rest);
    TokenAfterGap(g, AtomText(a, rest));
  }

  /** A comma and an atom are one turn of the body loop. */
  lemma BodyTailComma(after: Gap, s: string, body: seq<Atom>, a: Atom, rest: string)
    requires ValidGap(after) && ParseAtom(SkipTrivia(s)) == Parsed(a, rest)
    ensures ParseBodyTail(GapText(after, "," + s), body) == ParseBodyTail(rest, body + [a])
  {
    PunctSolid(',', s);
    TokenAfterGap(after, "," + s);
    assert ("," + s)[1..] == s;
  }

  lemma BodyTailStop(after: Gap, body: seq<Atom>, rest: string)
    requires ValidGap(after)
    ensures ParseBodyTail(GapText(after, "." + rest), body) == Parsed(body, rest)
  {
    PunctSolid('.', rest);
    TokenAfterGap(after, "." + rest);
    assert ("." + rest)[1..] == rest;
  }

  lemma AtomsOfCons(body: seq<BodyLayout>)
    requires body != []
    ensures AtomsOf(body) == [AtomOf(body[0].atom)] + AtomsOf(body[1..])
  {}

  lemma {:induction false} BodyTailParses(after: Gap, more: seq<BodyLayout>, body: seq<Atom>, rest: string)
    requires ValidGap(after) && forall b :: b in more ==> ValidBody(b)
    ensures ParseBodyTail(BodyTailText(after, more, "." + rest), body) == Parsed(body + AtomsOf(more), rest)
    decreases |more|
  {
    if more == [] {
      BodyTailStop(after, body, rest);
      assert body + AtomsOf(more) == body;
    } else {
      var b, later := more[0], more[1..];
      assert ValidBody(b);
      var tail := BodyTailText(b.after, later, "." + rest);
      AtomAfterGap(b.before, b.atom, tail);
      BodyTailComma(after, GapText(b.before, AtomText(b.atom, tail)), body, AtomOf(b.atom), tail);
      BodyTailParses(b.after, later, body + [AtomOf(b.atom)], rest);
      AtomsOfCons(more);
      SplitOne(body, AtomOf(b.atom), AtomsOf(later));
    }
  }

  lemma NeckRead(s: string, a: Atom, tail: string)
    requires ParseAtom(SkipTrivia(s)) == Parsed(a, tail)
    ensures Solid(":-" + s) && (":-" + s)[0] == ':' && ParseBody(":-" + s) == ParseBodyTail(tail, [a])
  {
    NeckDrops(s);
  }

  lemma NeckDrops(s: string)
    ensures (":-" + s)[1..] == "-" + s && ("-" + s)[1..] == s
  {}

  lemma BodyParses(body: seq<BodyLayout>, rest: string)
    requires body != [] && forall b :: b in body ==> ValidBody(b)
    ensures Solid(BodyText(body, rest)) && BodyText(body, rest)[0] == ':'
    ensures ParseBody(BodyText(body, rest)) == Parsed(AtomsOf(body), rest)
  {
    var b, later := body[0], body[1..];
    assert ValidBody(b);
    var tail := BodyTailText(b.after, later, "." + rest);
    AtomAfterGap(b.before, b.atom, tail);
    NeckRead(GapText(b.before, AtomText(b.atom, tail)), AtomOf(b.atom), tail);
    BodyTailParses(b.after, later, [AtomOf(b.atom)], rest);
    AtomsOfCons(body);
  }

  lemma ClauseParses(c: ClauseLayout, rest: string)
    requires ValidClause(c)
    ensures Solid(ClauseText(c, rest)) && ParseClause(ClauseText(c, rest)) == Parsed(RuleOf(c), rest)
  {
    var end := if c.body == [] then "." + rest else BodyText(c.body, rest);
    AtomParses(c.head, GapText(c.after, end));
    if c.body == [] {
      PunctSolid('.', rest);
      assert AtomsOf(c.body) == [] && ("." + rest)[1..] == rest;
    } else {
      BodyParses(c.body, rest);
    }
    TokenAfterGap(c.after, end);
  }

  lemma {:induction false} ClausesParse(clauses: seq<ClauseLayout>, end: EndGap, p: Program)
    requires (forall c :: c in clauses ==> ValidClause(c)) && ValidEnd(end)
    ensures ParseFrom(ClausesText(clauses, end), p) == Parsed(AddAll(p, RulesOf(clauses)), "")
    decreases |clauses|
  {
    if clauses == [] {
      EndSkipped(end);
    } else {
      var c, later := clauses[0], clauses[1..];
      assert c in clauses && forall y :: y in later ==> y in clauses;
      var rest := ClausesText(later, end);
      ClauseParses(c, rest);
      TokenAfterGap(c.before, ClauseText(c, rest));
      ClausesParse(later, end, AddClause(p, RuleOf(c)));
      assert RulesOf(clauses)[1..] == RulesOf(later);
    }
  }

  /** White space and comments between the tokens do not matter: every layout parses to what it means. */
  lemma LayoutParses(l: Layout)
    requires ValidLayout(l)
    ensures ParseProgram(LayoutText(l)) == Parsed(Meaning(l), "")
  {
    ClausesParse(l.clauses, l.end, Program([], []));
    AddAllSplits(Program([], []), RulesOf(l.clauses));
    NothingInFront(RulesIn(RulesOf(l.clauses)));
    NothingInFront(FactsIn(RulesOf(l.clauses)));
  }

  lemma NothingInFront<T>(s: seq<T>)
    ensures [] + s == s
  {}

  // ----- whatever parses is the text of a layout -----

  /** What is skipped in front of a token is a gap; when nothing is left, it is what may end a source. */
  lemma {:induction false} SkippedIsGap(s: string) returns (e: EndGap)
    ensures ValidEnd(e)
    ensures SkipTrivia(s) != "" ==> e.unfinished.None? && s == GapText(e.gap, SkipTrivia(s))
    ensures SkipTrivia(s) == "" ==> s == EndText(e)
    decreases |s|
  {
    if s != "" && IsWhitespace(s[0]) {
      e := SkippedIsGap(s[1..]);
      var p := Blank(s[0]);
      assert s == [s[0]] + s[1..];
      e := PieceInFront(p, e, s, s[1..]);
    } else if StartsComment(s) {
      var slashes := s[0] == '/';
      var more := if slashes then s[2..] else s[1..];
      assert s == CommentStart(slashes) + more;
      CommentSkipped(slashes, more);
      var text, finished := LineIs(more);
      if finished {
        e := SkippedIsGap(SkipLine(s));
        e := PieceInFront(Comment(slashes, text), e, s, SkipLine(s));
      } else {
        e := EndGap([], Some(Comment(slashes, text)));
      }
    } else {
      e := EndGap([], None);
    }
  }

  lemma PieceInFront(p: Piece, later: EndGap, s: string, rest: string) returns (e: EndGap)
    requires ValidPiece(p) && ValidEnd(later) && s == PieceText(p, rest)
    requires SkipTrivia(s) == SkipTrivia(rest)
    requires SkipTrivia(rest) != "" ==> later.unfinished.None? && rest == GapText(later.gap, SkipTrivia(rest))
    requires SkipTrivia(rest) == "" ==> rest == EndText(later)
    ensures ValidEnd(e)
    ensures SkipTrivia(s) != "" ==> e.unfinished.None? && s == GapText(e.gap, SkipTrivia(s))
    ensures SkipTrivia(s) == "" ==> s == EndText(e)
  {
    e := later.(gap := [p] + later.gap);
    assert e.gap[1..] == later.gap;
  }

  /** A line with its newline, or the end of the source without one. */
  lemma {:induction false} LineIs(s: string) returns (text: string, finished: bool)
    ensures '\n' !in text
    ensures if finished then s == text + ("\n" + SkipLine(s)) else s == text && SkipLine(s) == ""
  {
    if s == "" {
      text, finished := "", false;
    } else if s[0] == '\n' {
      text, finished := "", true;
      assert s == "\n" + s[1..];
    } else {
      text, finished := LineIs(s[1..]);
      text := [s[0]] + text;
      assert s == [s[0]] + s[1..];
    }
  }

  /** A gap in front of something that is not trivia. */
  lemma GapIs(s: string) returns (g: Gap)
    requires SkipTrivia(s) != ""
    ensures ValidGap(g) && s == GapText(g, SkipTrivia(s))
  {
    var e := SkippedIsGap(s);
    g := e.gap;
  }

  lemma ParsedTermIs(s: string) returns (text: string)
    requires ParseTerm(s).Parsed?
    ensures ValidTermText(text) && s == text + ParseTerm(s).rest && TermOf(text) == ParseTerm(s).value
  {
    if s[0] == '"' {
      text := QuotedIs(s);
    } else if IsDigit(s[0]) || s[0] == '-' {
      text := NumberIs(s);
    } else {
      text := s[..WordLength(s)];
    }
  }

  lemma QuotedIs(s: string) returns (text: string)
    requires s != "" && s[0] == '"' && Quoted(s).Parsed?
    ensures ValidTermText(text) && s == text + Quoted(s).rest && TermOf(text) == Const(Quoted(s).value)
  {
    var body := s[1..];
    var n := QuotedLength(body).value;
    var c := body[..n];
    QuotedIsQuotable(body, n);
    text := "\"" + c + "\"";
    QuoteSplit(s, body, n);
    QuoteShape(c, body[n + 1..]);
  }

  lemma QuoteSplit(s: string, body: string, n: nat)
    requires s != "" && s[0] == '"' && body == s[1..] && n < |body| && body[n] == '"'
    ensures s == "\"" + (body[..n] + ("\"" + body[n + 1..]))
  {}

  lemma QuoteShape(c: string, rest: string)
    ensures var text := "\"" + c + "\"";
            text[1..|text| - 1] == c && "\"" + (c + ("\"" + rest)) == text + rest
  {}

  lemma NumberIs(s: string) returns (text: string)
    requires s != "" && (IsDigit(s[0]) || s[0] == '-')
    ensures text == s[..NumberLength(s)] && IsNumber(text) && TermOf(text) == Const(text)
  {
    text := s[..NumberLength(s)];
    if s[0] == '-' {
      var n := DigitsLength(s[1..]);
      assert text[1..] == s[1..][..n];
    }
  }

  lemma {:induction false} ArgsTailIs(s0: string, args: seq<Term>) returns (after: Gap, more: seq<ArgLayout>)
    requires ParseArgsTail(s0, args).Parsed?
    ensures ValidGap(after) && forall x :: x in more ==> ValidArg(x)
    ensures var r := ParseArgsTail(s0, args);
            s0 == ArgsTailText(after, more, r.rest) && r.value == args + TermsOf(more)
    decreases |s0|
  {
    var s := SkipTrivia(s0);
    after := GapIs(s0);
    more := [];
    if s[0] == ',' {
      var t := SkipTrivia(s[1..]);
      var before := GapIs(s[1..]);
      var text := ParsedTermIs(t);
      var r := ParseTerm(t);
      var behind, later := ArgsTailIs(r.rest, args + [r.value]);
      var x := ArgLayout(before, text, behind);
      more := [x] + later;
      assert more[1..] == later && s == "," + s[1..];
      TermsOfCons(more);
      SplitOne(args, TermOf(text), TermsOf(later));
    } else {
      assert args + TermsOf(more) == args;
    }
  }

  lemma ArgsAre(s0: string) returns (inside: Gap, args: seq<ArgLayout>)
    requires ParseArgs(SkipTrivia(s0)).Parsed?
    ensures ValidGap(inside) && forall x :: x in args ==> ValidArg(x)
    ensures var r := ParseArgs(SkipTrivia(s0)); s0 == ArgsText(inside, args, r.rest) && r.value == TermsOf(args)
  {
    var s := SkipTrivia(s0);
    var g := GapIs(s0);
    inside, args := g, [];
    if s[0] == ')' {
      assert TermsOf(args) == [];
    } else {
      var text := ParsedTermIs(s);
      var r := ParseTerm(s);
      var behind, later := ArgsTailIs(r.rest, [r.value]);
      var x := ArgLayout(g, text, behind);
      args := [x] + later;
      assert args[1..] == later;
      TermsOfCons(args);
    }
  }

  lemma WordIs(s: string)
    requires Predicate(s).Parsed?
    ensures IsLowerWord(Predicate(s).value) && s == Predicate(s).value + Predicate(s).rest
  {}

  lemma ParsedAtomIs(s: string) returns (a: AtomLayout)
    requires ParseAtom(s).Parsed?
    ensures ValidAtom(a) && s == AtomText(a, ParseAtom(s).rest) && AtomOf(a) == ParseAtom(s).value
  {
    var p := Predicate(s);
    WordIs(s);
    var open := SkipTrivia(p.rest);
    var beforeOpen := GapIs(p.rest);
    var rest := open[1..];
    assert open == "(" + rest;
    var r := ParseArgs(SkipTrivia(rest));
    var inside, args := ArgsAre(rest);
    assert r.rest == ")" + r.rest[1..];
    a := AtomLayout(p.value, beforeOpen, inside, args);
  }

  lemma {:induction false} BodyTailIs(s0: string, body: seq<Atom>) returns (after: Gap, more: seq<BodyLayout>)
    requires ParseBodyTail(s0, body).Parsed?
    ensures ValidGap(after) && forall b :: b in more ==> ValidBody(b)
    ensures var r := ParseBodyTail(s0, body);
            s0 == BodyTailText(after, more, "." + r.rest) && r.value == body + AtomsOf(more)
    decreases |s0|
  {
    var s := SkipTrivia(s0);
    after := GapIs(s0);
    more := [];
    if s[0] == ',' {
      var t := SkipTrivia(s[1..]);
      var before := GapIs(s[1..]);
      var a := ParsedAtomIs(t);
      var r := ParseAtom(t);
      var behind, later := BodyTailIs(r.rest, body + [r.value]);
      more := [BodyLayout(before, a, behind)] + later;
      assert more[1..] == later && s == "," + s[1..];
      AtomsOfCons(more);
      SplitOne(body, AtomOf(a), AtomsOf(later));
    } else {
      assert s == "." + s[1..];
      assert body + AtomsOf(more) == body;
    }
  }

  lemma BodyIs(s: string) returns (body: seq<BodyLayout>)
    requires ParseBody(s).Parsed?
    ensures body != [] && forall b :: b in body ==> ValidBody(b)
    ensures s == BodyText(body, ParseBody(s).rest) && ParseBody(s).value == AtomsOf(body)
  {
    var s' := s[2..];
    assert s == ":-" + s' && s[1..][1..] == s';
    var t := SkipTrivia(s');
    var before := GapIs(s');
    var a := ParsedAtomIs(t);
    var r := ParseAtom(t);
    var behind, later := BodyTailIs(r.rest, [r.value]);
    body := [BodyLayout(before, a, behind)] + later;
    assert body[1..] == later;
    AtomsOfCons(body);
  }

  /** What follows a head: its end, and the body it gives. */
  function AfterHead(s: string): Parsed<seq<Atom>> {
    if s != "" && s[0] == '.' then Parsed([], s[1..]) else ParseBody(s)
  }

  lemma ClauseHasEnd(s: string)
    requires ParseClause(s).Parsed?
    ensures ParseAtom(s).Parsed? && AfterHead(SkipTrivia(ParseAtom(s).rest)).Parsed?
    ensures var a := AfterHead(SkipTrivia(ParseAtom(s).rest));
            ParseClause(s) == Parsed(Rule(ParseAtom(s).value, a.value), a.rest)
  {}

  lemma EndIs(s0: string) returns (after: Gap, body: seq<BodyLayout>)
    requires AfterHead(SkipTrivia(s0)).Parsed?
    ensures ValidGap(after) && forall b :: b in body ==> ValidBody(b)
    ensures var a := AfterHead(SkipTrivia(s0));
            && AtomsOf(body) == a.value
            && s0 == GapText(after, if body == [] then "." + a.rest else BodyText(body, a.rest))
  {
    var end := SkipTrivia(s0);
    after := GapIs(s0);
    body := [];
    if end[0] == '.' {
      assert end == "." + end[1..];
    } else {
      body := BodyIs(end);
    }
  }

  lemma ParsedClauseIs(before: Gap, s: string) returns (c: ClauseLayout)
    requires ValidGap(before) && ParseClause(s).Parsed?
    ensures ValidClause(c) && c.before == before
    ensures s == ClauseText(c, ParseClause(s).rest) && RuleOf(c) == ParseClause(s).value
  {
    ClauseHasEnd(s);
    var head := ParsedAtomIs(s);
    var after, body := EndIs(ParseAtom(s).rest);
    c := ClauseLayout(before, head, after, body);
  }

  lemma {:induction false} ClausesAre(s0: string, p: Program) returns (clauses: seq<ClauseLayout>, end: EndGap)
    requires ParseFrom(s0, p).Parsed?
    ensures (forall c :: c in clauses ==> ValidClause(c)) && ValidEnd(end) && s0 == ClausesText(clauses, end)
    decreases |s0|
  {
    var s := SkipTrivia(s0);
    end := SkippedIsGap(s0);
    clauses := [];
    if s != "" {
      var c := ParsedClauseIs(end.gap, s);
      var r := ParseClause(s);
      clauses, end := ClausesAre(r.rest, AddClause(p, r.value));
      assert ([c] + clauses)[1..] == clauses;
      clauses := [c] + clauses;
    }
  }

  /** The text is that of a program: of a layout that means it. */
  ghost predicate IsTextOf(s: string, p: Program) {
    exists l :: ValidLayout(l) && LayoutText(l) == s && Meaning(l) == p
  }

  /** A text parses exactly if it is the text of a layout, and then to what the layout means. */
  lemma ParsesExactlyLayouts(s: string, p: Program)
    ensures ParseProgram(s) == Parsed(p, "") <==> IsTextOf(s, p)
    ensures ParseProgram(s).Parsed? ==> ParseProgram(s).rest == ""
  {
    if ParseProgram(s).Parsed? {
      var clauses, end := ClausesAre(s, Program([], []));
      var l := Layout(clauses, end);
      LayoutParses(l);
      assert ValidLayout(l) && LayoutText(l) == s;
    }
    if l :| ValidLayout(l) && LayoutText(l) == s && Meaning(l) == p {
      LayoutParses(l);
    }
  }

  // ----- what an error says -----

  /** The kind of an error fits what stands where it was met. */
  predicate Fits(kind: ErrorKind, rest: string) {
    match kind
    case ExpectedChar(c) => c in "(:-" && (rest == "" || rest[0] != c)
    case ExpectedInBody => rest != "" && rest[0] != ',' && rest[0] != '.'
    case EofInBody => rest == ""
    case ExpectedInArgs => rest != "" && rest[0] != ',' && rest[0] != ')'
    case EofInArgs => rest == ""
    case UnexpectedInTerm => rest != "" && rest[0] != '"' && rest[0] != '-' && !IsIdentChar(rest[0])
    case EofInTerm => rest == ""
    case ExpectedPredicate => rest == "" || !IsLower(rest[0])
    case ExpectedIdentifier => false
    case UnterminatedString => rest == ""
  }

  /** Where the rest of a parse is. */
  predicate EndOf(s: string, rest: string) {
    |rest| <= |s| && s[|s| - |rest|..] == rest
  }

  lemma EndOfEnd(s: string, t: string, u: string)
    requires EndOf(s, t) && EndOf(t, u)
    ensures EndOf(s, u)
  {}

  lemma {:induction false} LineEnds(s: string)
    ensures EndOf(s, SkipLine(s))
  {
    if s != "" && s[0] != '\n' {
      LineEnds(s[1..]);
      EndOfEnd(s, s[1..], SkipLine(s[1..]));
    }
  }

  lemma {:induction false} TriviaEnds(s: string)
    ensures EndOf(s, SkipTrivia(s))
    decreases |s|
  {
    if s != "" && IsWhitespace(s[0]) {
      TriviaEnds(s[1..]);
      EndOfEnd(s, s[1..], SkipTrivia(s));
    } else if StartsComment(s) {
      LineEnds(s);
      TriviaEnds(SkipLine(s));
      EndOfEnd(s, SkipLine(s), SkipTrivia(s));
    }
  }

  /** A failure fits what is left, and what is left is an end of the source. */
  predicate FailsWell<T>(s: string, r: Parsed<T>) {
    EndOf(s, r.rest) && (r.Failed? ==> Fits(r.kind, r.rest))
  }

  lemma TermFails(s: string)
    ensures FailsWell(s, ParseTerm(s))
  {
    if s != "" && s[0] == '"' && QuotedLength(s[1..]).Some? {
      EndOfEnd(s, s[1..], Quoted(s).rest);
    }
  }

  lemma {:induction false} ArgsTailFails(s0: string, args: seq<Term>)
    ensures FailsWell(s0, ParseArgsTail(s0, args))
    decreases |s0|
  {
    var s := SkipTrivia(s0);
    TriviaEnds(s0);
    if s != "" && s[0] == ',' {
      EndOfEnd(s0, s, s[1..]);
      TriviaEnds(s[1..]);
      EndOfEnd(s0, s[1..], SkipTrivia(s[1..]));
      var r := ParseTerm(SkipTrivia(s[1..]));
      TermFails(SkipTrivia(s[1..]));
      EndOfEnd(s0, SkipTrivia(s[1..]), r.rest);
      if r.Parsed? {
        ArgsTailFails(r.rest, args + [r.value]);
        EndOfEnd(s0, r.rest, ParseArgsTail(s0, args).rest);
      }
    }
  }

  lemma ArgsFail(s: string)
    ensures FailsWell(s, ParseArgs(s))
    ensures ParseArgs(s).Parsed? ==> ParseArgs(s).rest != "" && ParseArgs(s).rest[0] == ')'
  {
    if s == "" || s[0] != ')' {
      var r := ParseTerm(s);
      TermFails(s);
      if r.Parsed? {
        ArgsTailFails(r.rest, [r.value]);
        if ParseArgsTail(r.rest, [r.value]).Parsed? {
          ArgsTailStops(r.rest, [r.value]);
        }
        EndOfEnd(s, r.rest, ParseArgs(s).rest);
      }
    }
  }

  lemma {:induction false} ArgsTailStops(s0: string, args: seq<Term>)
    requires ParseArgsTail(s0, args).Parsed?
    ensures ParseArgsTail(s0, args).rest != "" && ParseArgsTail(s0, args).rest[0] == ')'
    decreases |s0|
  {
    var s := SkipTrivia(s0);
    if s[0] == ',' {
      var r := ParseTerm(SkipTrivia(s[1..]));
      ArgsTailStops(r.rest, args + [r.value]);
    }
  }

  /** From the opening parenthesis on. */
  function ParseGroup(s: string): Parsed<seq<Term>> {
    match Eat(s, '(')
    case Failed(k, rest) => Failed(k, rest)
    case Parsed(_, rest) =>
      match ParseArgs(SkipTrivia(rest))
      case Failed(k, rest) => Failed(k, rest)
      case Parsed(args, rest) =>
        match Eat(rest, ')')
        case Failed(k, rest) => Failed(k, rest)
        case Parsed(_, rest) => Parsed(args, rest)
  }

  lemma GroupFails(s: string)
    ensures FailsWell(s, ParseGroup(s))
  {
    if s != "" && s[0] == '(' {
      var inside := SkipTrivia(s[1..]);
      TriviaEnds(s[1..]);
      EndOfEnd(s, s[1..], inside);
      var r := ParseArgs(inside);
      ArgsFail(inside);
      EndOfEnd(s, inside, r.rest);
      if r.Parsed? {
        EndOfEnd(s, r.rest, r.rest[1..]);
      }
    }
  }

  lemma AtomIsGroup(s: string)
    requires Predicate(s).Parsed?
    ensures ParseAtom(s).rest == ParseGroup(SkipTrivia(Predicate(s).rest)).rest
    ensures ParseAtom(s).Failed? <==> ParseGroup(SkipTrivia(Predicate(s).rest)).Failed?
    ensures ParseAtom(s).Failed? ==> ParseAtom(s).kind == ParseGroup(SkipTrivia(Predicate(s).rest)).kind
  {}

  lemma AtomFails(s: string)
    ensures FailsWell(s, ParseAtom(s))
  {
    var p := Predicate(s);
    if p.Parsed? {
      var open := SkipTrivia(p.rest);
      TriviaEnds(p.rest);
      EndOfEnd(s, p.rest, open);
      GroupFails(open);
      AtomIsGroup(s);
      EndOfEnd(s, open, ParseGroup(open).rest);
    }
  }

  lemma {:induction false} BodyTailFails(s0: string, body: seq<Atom>)
    ensures FailsWell(s0, ParseBodyTail(s0, body))
    decreases |s0|
  {
    var s := SkipTrivia(s0);
    TriviaEnds(s0);
    if s != "" {
      EndOfEnd(s0, s, s[1..]);
      if s[0] == ',' {
        TriviaEnds(s[1..]);
        EndOfEnd(s0, s[1..], SkipTrivia(s[1..]));
        var r := ParseAtom(SkipTrivia(s[1..]));
        AtomFails(SkipTrivia(s[1..]));
        EndOfEnd(s0, SkipTrivia(s[1..]), r.rest);
        if r.Parsed? {
          BodyTailFails(r.rest, body + [r.value]);
          EndOfEnd(s0, r.rest, ParseBodyTail(s0, body).rest);
        }
      }
    }
  }

  /** What follows the neck of a rule. */
  function ParseAtoms(t: string): Parsed<seq<Atom>> {
    match ParseAtom(SkipTrivia(t))
    case Failed(k, rest) => Failed(k, rest)
    case Parsed(a, rest) => ParseBodyTail(rest, [a])
  }

  lemma AtomsFail(t: string)
    ensures FailsWell(t, ParseAtoms(t))
  {
    TriviaEnds(t);
    var r := ParseAtom(SkipTrivia(t));
    AtomFails(SkipTrivia(t));
    EndOfEnd(t, SkipTrivia(t), r.rest);
    if r.Parsed? {
      BodyTailFails(r.rest, [r.value]);
      EndOfEnd(t, r.rest, ParseBodyTail(r.rest, [r.value]).rest);
    }
  }

  lemma NeckThenAtoms(s: string)
    requires |s| >= 2 && s[0] == ':' && s[1] == '-'
    ensures ParseBody(s) == ParseAtoms(s[2..])
  {
    assert s[1..][1..] == s[2..];
  }

  lemma BodyFails(s: string)
    ensures FailsWell(s, ParseBody(s))
  {
    if |s| >= 2 && s[0] == ':' && s[1] == '-' {
      NeckThenAtoms(s);
      AtomsFail(s[2..]);
      EndOfEnd(s, s[2..], ParseAtoms(s[2..]).rest);
    } else {
      assert s != "" ==> EndOf(s, s[1..]);
    }
  }

  lemma ClauseFails(s: string)
    ensures FailsWell(s, ParseClause(s))
  {
    var r := ParseAtom(s);
    AtomFails(s);
    if r.Parsed? {
      var end := SkipTrivia(r.rest);
      TriviaEnds(r.rest);
      EndOfEnd(s, r.rest, end);
      if end != "" {
        EndOfEnd(s, end, end[1..]);
      }
      BodyFails(end);
      EndOfEnd(s, end, ParseBody(end).rest);
    }
  }

  /** A program that does not parse fails with a kind that fits the text at the place of the error. */
  lemma {:induction false} ProgramFails(s0: string, p: Program)
    ensures FailsWell(s0, ParseFrom(s0, p))
    decreases |s0|
  {
    var s := SkipTrivia(s0);
    TriviaEnds(s0);
    if s != "" {
      var r := ParseClause(s);
      ClauseFails(s);
      EndOfEnd(s0, s, r.rest);
      if r.Parsed? {
        ProgramFails(r.rest, AddClause(p, r.value));
        EndOfEnd(s0, r.rest, ParseFrom(s0, p).rest);
      }
    }
  }
}
