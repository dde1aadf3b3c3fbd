/**
 The recursive-descent parser of crates/aa-rules/src/parser.rs. The functions say what is parsed from the rest of the
 source and what is left; a canonical printer is the inverse. The cursor with its line and column is in DatalogCursor.
 A source is its bytes, one per character.
 */
module DatalogParser {
  import opened Wrappers
  import opened Decimal
  import opened Datalog
  import opened Text

  datatype ErrorKind =
    | ExpectedChar(c: char) | ExpectedInBody | EofInBody | ExpectedInArgs | EofInArgs | UnexpectedInTerm | EofInTerm
    | ExpectedPredicate | ExpectedIdentifier | UnterminatedString

  /** A value and the rest of the source, or an error and where it was met. */
  datatype Parsed<+T> = Parsed(value: T, rest: string) | Failed(kind: ErrorKind, rest: string)

  // ----- characters -----

  predicate IsWhitespace(c: char) {
    c == ' ' || c == '\t' || c == '\n' || c == '\U{0C}' || c == '\r'
  }

  // ----- trivia and tokens -----

  function SkipLine(s: string): (r: string)
    ensures |r| <= |s| && (s != "" ==> |r| < |s|)
  {
    if s == "" then "" else if s[0] == '\n' then s[1..] else SkipLine(s[1..])
  }

  predicate StartsComment(s: string) {
    s != "" && (s[0] == '%' || (s[0] == '/' && |s| > 1 && s[1] == '/'))
  }

  function SkipTrivia(s: string): (r: string)
    ensures |r| <= |s|
    decreases |s|
  {
    if s != "" && IsWhitespace(s[0]) then SkipTrivia(s[1..])
    else if StartsComment(s) then SkipTrivia(SkipLine(s))
    else s
  }

  lemma {:induction false} SkipTriviaOnce(s: string)
    ensures SkipTrivia(SkipTrivia(s)) == SkipTrivia(s)
    decreases |s|
  {
    if s != "" && IsWhitespace(s[0]) {
      SkipTriviaOnce(s[1..]);
    } else if StartsComment(s) {
      SkipTriviaOnce(SkipLine(s));
    }
  }

  function Eat(s: string, c: char): Parsed<()> {
    if s != "" && s[0] == c then Parsed((), s[1..]) else Failed(ExpectedChar(c), s)
  }

  /** The length of the run of word characters. */
  function WordLength(s: string): (n: nat)
    ensures n <= |s| && (forall i :: 0 <= i < n ==> IsIdentChar(s[i])) && (n < |s| ==> !IsIdentChar(s[n]))
  {
    if s != "" && IsIdentChar(s[0]) then 1 + WordLength(s[1..]) else 0
  }

  function Word(s: string): (r: Parsed<string>)
    ensures r.Parsed? ==> |r.rest| < |s|
  {
    var n := WordLength(s);
    if n == 0 then Failed(ExpectedIdentifier, s) else Parsed(s[..n], s[n..])
  }

  function Predicate(s: string): (r: Parsed<string>)
    ensures r.Parsed? ==> |r.rest| < |s|
  {
    if s != "" && IsLower(s[0]) then Word(s) else Failed(ExpectedPredicate, s)
  }

  /** An index counted from `k` characters earlier. */
  function Later(n: Option<nat>, k: nat): Option<nat> {
    if n.Some? then Some(n.value + k) else None
  }

  /** Where the closing quote is; a backslash hides the character behind it. */
  function QuotedLength(s: string): (n: Option<nat>)
    ensures n.Some? ==> n.value < |s| && s[n.value] == '"'
  {
    if s == "" then None
    else if s[0] == '"' then Some(0)
    else
      var k := if s[0] == '\\' && |s| > 1 then 2 else 1;
      Later(QuotedLength(s[k..]), k)
  }

  /** The text between the quotes, backslashes included. */
  function Quoted(s: string): (r: Parsed<string>)
    ensures r.Parsed? ==> |r.rest| < |s|
  {
    match Eat(s, '"')
    case Failed(k, rest) => Failed(k, rest)
    case Parsed(_, body) =>
      match QuotedLength(body)
      case None => Failed(UnterminatedString, "")
      case Some(n) => Parsed(body[..n], body[n + 1..])
  }

  function DigitsLength(s: string): (n: nat)
    ensures n <= |s| && (forall i :: 0 <= i < n ==> IsDigit(s[i])) && (n < |s| ==> !IsDigit(s[n]))
  {
    if s != "" && IsDigit(s[0]) then 1 + DigitsLength(s[1..]) else 0
  }

  function NumberLength(s: string): (n: nat)
    ensures n <= |s|
  {
    if s != "" && s[0] == '-' then 1 + DigitsLength(s[1..]) else DigitsLength(s)
  }

  function ParseTerm(s: string): (r: Parsed<Term>)
    ensures r.Parsed? ==> |r.rest| < |s|
  {
    if s == "" then Failed(EofInTerm, s)
    else if s[0] == '"' then
      match Quoted(s) case Failed(k, rest) => Failed(k, rest) case Parsed(c, rest) => Parsed(Const(c), rest)
    else if IsDigit(s[0]) || s[0] == '-' then
      Parsed(Const(s[..NumberLength(s)]), s[NumberLength(s)..])
    else if IsUpper(s[0]) || s[0] == '_' then
      Parsed(Var(s[..WordLength(s)]), s[WordLength(s)..])
    else if IsLower(s[0]) then
      Parsed(Const(s[..WordLength(s)]), s[WordLength(s)..])
    else Failed(UnexpectedInTerm, s)
  }

  /** What follows a term in an argument list. */
  function ParseArgsTail(s0: string, args: seq<Term>): (r: Parsed<seq<Term>>)
    ensures r.Parsed? ==> |r.rest| <= |s0|
    decreases |s0|
  {
    var s := SkipTrivia(s0);
    if s == "" then Failed(EofInArgs, s)
    else if s[0] == ',' then
      match ParseTerm(SkipTrivia(s[1..]))
      case Failed(k, rest) => Failed(k, rest)
      case Parsed(t, rest) => ParseArgsTail(rest, args + [t])
    else if s[0] == ')' then Parsed(args, s)
    else Failed(ExpectedInArgs, s)
  }

  function ParseArgs(s: string): (r: Parsed<seq<Term>>)
    ensures r.Parsed? ==> |r.rest| <= |s|
  {
    if s != "" && s[0] == ')' then Parsed([], s)
    else
      match ParseTerm(s)
      case Failed(k, rest) => Failed(k, rest)
      case Parsed(t, rest) => ParseArgsTail(rest, [t])
  }

  function ParseAtom(s: string): (r: Parsed<Atom>)
    ensures r.Parsed? ==> |r.rest| < |s|
  {
    match Predicate(s)
    case Failed(k, rest) => Failed(k, rest)
    case Parsed(p, rest) =>
      match Eat(SkipTrivia(rest), '(')
      case Failed(k, rest) => Failed(k, rest)
      case Parsed(_, rest) =>
        match ParseArgs(SkipTrivia(rest))
        case Failed(k, rest) => Failed(k, rest)
        case Parsed(args, rest) =>
          match Eat(rest, ')')
          case Failed(k, rest) => Failed(k, rest)
          case Parsed(_, rest) => Parsed(Atom(p, args), rest)
  }

  /** What follows an atom in a rule body. */
  function ParseBodyTail(s0: string, body: seq<Atom>): (r: Parsed<seq<Atom>>)
    ensures r.Parsed? ==> |r.rest| < |s0|
    decreases |s0|
  {
    var s := SkipTrivia(s0);
    if s == "" then Failed(EofInBody, s)
    else if s[0] == ',' then
      match ParseAtom(SkipTrivia(s[1..]))
      case Failed(k, rest) => Failed(k, rest)
      case Parsed(a, rest) => ParseBodyTail(rest, body + [a])
    else if s[0] == '.' then Parsed(body, s[1..])
    else Failed(ExpectedInBody, s)
  }

  /** The neck, the first atom and the rest of a body. */
  function ParseBody(s: string): (r: Parsed<seq<Atom>>)
    ensures r.Parsed? ==> |r.rest| < |s|
  {
    match Eat(s, ':')
    case Failed(k, rest) => Failed(k, rest)
    case Parsed(_, rest) =>
      match Eat(rest, '-')
      case Failed(k, rest) => Failed(k, rest)
      case Parsed(_, rest) =>
        match ParseAtom(SkipTrivia(rest))
        case Failed(k, rest) => Failed(k, rest)
        case Parsed(a, rest) => ParseBodyTail(rest, [a])
  }

  /** Every successful clause consumes input. */
  function ParseClause(s: string): (r: Parsed<Rule>)
    ensures r.Parsed? ==> |r.rest| < |s|
  {
    match ParseAtom(s)
    case Failed(k, rest) => Failed(k, rest)
    case Parsed(head, rest) =>
      var s := SkipTrivia(rest);
      if s != "" && s[0] == '.' then Parsed(Rule(head, []), s[1..])
      else
        match ParseBody(s)
        case Failed(k, rest) => Failed(k, rest)
        case Parsed(body, rest) => Parsed(Rule(head, body), rest)
  }

  function AddClause(p: Program, r: Rule): Program {
    if r.IsGroundFact() then p.(facts := p.facts + [r.head]) else p.(rules := p.rules + [r])
  }

  function ParseFrom(s0: string, p: Program): Parsed<Program>
    decreases |s0|
  {
    var s := SkipTrivia(s0);
    if s == "" then Parsed(p, s)
    else
      match ParseClause(s)
      case Failed(k, rest) => Failed(k, rest)
      case Parsed(r, rest) => ParseFrom(rest, AddClause(p, r))
  }

  function ParseProgram(s: string): Parsed<Program> {
    ParseFrom(s, Program([], []))
  }

  // ----- the canonical printer -----

  predicate IsWord(s: string) {
    s != "" && forall i :: 0 <= i < |s| ==> IsIdentChar(s[i])
  }

  predicate IsLowerWord(s: string) {
    IsWord(s) && IsLower(s[0])
  }

  predicate IsNumber(s: string) {
    s != "" && (if s[0] == '-' then AllDigits(s[1..]) else AllDigits(s))
  }

  /** Can stand between quotes: characters other than quotes and backslashes, and backslashes with a character behind. */
  predicate IsQuotable(s: string) {
    s == "" || (if s[0] == '\\' then |s| > 1 && IsQuotable(s[2..]) else s[0] != '"' && IsQuotable(s[1..]))
  }

  predicate WellFormedTerm(t: Term) {
    match t
    case Const(c) => IsLowerWord(c) || IsNumber(c) || IsQuotable(c)
    case Var(v) => IsWord(v) && (IsUpper(v[0]) || v[0] == '_')
  }

  predicate WellFormedAtom(a: Atom) {
    IsLowerWord(a.pred) && forall t :: t in a.args ==> WellFormedTerm(t)
  }

  predicate WellFormedRule(r: Rule) {
    WellFormedAtom(r.head) && forall a :: a in r.body ==> WellFormedAtom(a)
  }

  /** What the parser can produce: the facts are ground, and no rule is a ground fact. */
  predicate WellFormed(p: Program) {
    && (forall f :: f in p.facts ==> WellFormedAtom(f) && Rule(f, []).IsGroundFact())
    && (forall r :: r in p.rules ==> WellFormedRule(r) && !r.IsGroundFact())
  }

  function PrintTerm(t: Term): string {
    match t
    case Const(c) => if IsLowerWord(c) || IsNumber(c) then c else "\"" + (c + "\"")
    case Var(v) => v
  }

  /** `, t` for every term. */
  function PrintTermsTail(ts: seq<Term>): string {
    if ts == [] then "" else ", " + (PrintTerm(ts[0]) + PrintTermsTail(ts[1..]))
  }

  function PrintTerms(ts: seq<Term>): string {
    if ts == [] then "" else PrintTerm(ts[0]) + PrintTermsTail(ts[1..])
  }

  function PrintAtom(a: Atom): string {
    a.pred + ("(" + (PrintTerms(a.args) + ")"))
  }

  function PrintAtomsTail(body: seq<Atom>): string {
    if body == [] then "" else ", " + (PrintAtom(body[0]) + PrintAtomsTail(body[1..]))
  }

  function PrintRule(r: Rule): string {
    if r.body == [] then PrintAtom(r.head) + "."
    else PrintAtom(r.head) + (" :- " + (PrintAtom(r.body[0]) + (PrintAtomsTail(r.body[1..]) + ".")))
  }

  function PrintRules(rules: seq<Rule>): string {
    if rules == [] then "" else PrintRule(rules[0]) + ("\n" + PrintRules(rules[1..]))
  }

  function FactRules(facts: seq<Atom>): (rules: seq<Rule>)
    ensures |rules| == |facts| && forall i :: 0 <= i < |facts| ==> rules[i] == Rule(facts[i], [])
  {
    seq(|facts|, i requires 0 <= i < |facts| => Rule(facts[i], []))
  }

  function Print(p: Program): string {
    PrintRules(FactRules(p.facts) + p.rules)
  }

  // ----- printing, then parsing -----

  predicate NoWordAhead(rest: string) {
    rest == "" || !IsIdentChar(rest[0])
  }

  lemma {:induction false} WordLengthOf(w: string, rest: string)
    requires (forall i :: 0 <= i < |w| ==> IsIdentChar(w[i])) && NoWordAhead(rest)
    ensures WordLength(w + rest) == |w|
  {
    if w != "" {
      assert (w + rest)[1..] == w[1..] + rest;
      WordLengthOf(w[1..], rest);
    } else {
      assert w + rest == rest;
    }
  }

  lemma {:induction false} DigitsLengthOf(d: string, rest: string)
    requires AllDigits(d) && NoWordAhead(rest)
    ensures DigitsLength(d + rest) == |d|
  {
    if d != "" {
      assert (d + rest)[1..] == d[1..] + rest;
      DigitsLengthOf(d[1..], rest);
    } else {
      assert d + rest == rest;
    }
  }

  lemma {:induction false} QuotedLengthOf(c: string, rest: string)
    requires IsQuotable(c)
    ensures QuotedLength(c + ("\"" + rest)) == Some(|c|)
  {
    var s := c + ("\"" + rest);
    if c == "" {
      assert s == "\"" + rest;
    } else {
      var k := if c[0] == '\\' then 2 else 1;
      assert s[0] == c[0] && s[k..] == c[k..] + ("\"" + rest);
      QuotedLengthOf(c[k..], rest);
    }
  }

  /** A printed term parses back, also in front of what ends a term. */
  lemma TermParsesBack(t: Term, rest: string)
    requires WellFormedTerm(t) && NoWordAhead(rest)
    ensures ParseTerm(PrintTerm(t) + rest) == Parsed(t, rest)
  {
    match t
    case Var(v) =>
      WordLengthOf(v, rest);
    case Const(c) =>
      if IsNumber(c) {
        NumberLengthOf(c, rest);
      } else if IsLowerWord(c) {
        WordLengthOf(c, rest);
      } else {
        QuotedParsesBack(c, rest);
      }
  }

  lemma NumberLengthOf(c: string, rest: string)
    requires IsNumber(c) && NoWordAhead(rest)
    ensures NumberLength(c + rest) == |c|
  {
    if c[0] == '-' {
      assert (c + rest)[1..] == c[1..] + rest;
      DigitsLengthOf(c[1..], rest);
    } else {
      DigitsLengthOf(c, rest);
    }
  }

  lemma QuotedParsesBack(c: string, rest: string)
    requires IsQuotable(c)
    ensures Quoted("\"" + (c + "\"") + rest) == Parsed(c, rest)
  {
    var s := "\"" + (c + "\"") + rest;
    assert s[1..] == c + ("\"" + rest);
    QuotedLengthOf(c, rest);
    assert (c + ("\"" + rest))[..|c|] == c && (c + ("\"" + rest))[|c| + 1..] == rest;
  }

  /** No trivia at the front. */
  predicate Solid(s: string) {
    s != "" && !IsWhitespace(s[0]) && !StartsComment(s)
  }

  lemma SolidIsKept(s: string)
    requires Solid(s)
    ensures SkipTrivia(s) == s && SkipTrivia(" " + s) == s && SkipTrivia("\n" + s) == s
  {
    assert (" " + s)[1..] == s && ("\n" + s)[1..] == s;
  }

  lemma PrintedTermSolid(t: Term, rest: string)
    requires WellFormedTerm(t)
    ensures Solid(PrintTerm(t) + rest)
  {
  }

  /** A comma and a printed term are one turn of the argument loop. */
  lemma ArgsTailComma(t: Term, more: string, args: seq<Term>)
    requires WellFormedTerm(t) && NoWordAhead(more)
    ensures ParseArgsTail(", " + (PrintTerm(t) + more), args) == ParseArgsTail(more, args + [t])
  {
    var s := ", " + (PrintTerm(t) + more);
    assert s[1..] == " " + (PrintTerm(t) + more);
    SolidIsKept(s);
    PrintedTermSolid(t, more);
    SolidIsKept(PrintTerm(t) + more);
    TermParsesBack(t, more);
  }

  lemma TermsTailCons(ts: seq<Term>, end: string)
    requires ts != []
    ensures PrintTermsTail(ts) + end == ", " + (PrintTerm(ts[0]) + (PrintTermsTail(ts[1..]) + end))
  {
    Assoc(", ", PrintTerm(ts[0]) + PrintTermsTail(ts[1..]), end);
    Assoc(PrintTerm(ts[0]), PrintTermsTail(ts[1..]), end);
  }

  lemma ArgsStop(args: seq<Term>, rest: string)
    ensures ParseArgsTail(")" + rest, args) == Parsed(args, ")" + rest)
  {
    SolidIsKept(")" + rest);
  }

  lemma {:induction false} TermsTailParsesBack(ts: seq<Term>, args: seq<Term>, rest: string)
    requires forall t :: t in ts ==> WellFormedTerm(t)
    ensures ParseArgsTail(PrintTermsTail(ts) + (")" + rest), args) == Parsed(args + ts, ")" + rest)
    decreases |ts|
  {
    var end := ")" + rest;
    if ts == [] {
      ArgsStop(args, rest);
      assert "" + end == end && args + [] == args;
    } else {
      var t, others := ts[0], ts[1..];
      TermsTailCons(ts, end);
      TailStartsNoWord(others, end);
      ArgsTailComma(t, PrintTermsTail(others) + end, args);
      TermsTailParsesBack(others, args + [t], rest);
      RegroupTerms(args, t, others);
      assert [t] + others == ts;
    }
  }

  lemma TailStartsNoWord(ts: seq<Term>, end: string)
    requires NoWordAhead(end)
    ensures NoWordAhead(PrintTermsTail(ts) + end)
  {
    if ts == [] {
      assert "" + end == end;
    } else {
      TermsTailCons(ts, end);
    }
  }

  lemma RegroupTerms(args: seq<Term>, t: Term, others: seq<Term>)
    ensures args + [t] + others == args + ([t] + others)
  {}

  lemma TermsParseBack(ts: seq<Term>, rest: string)
    requires forall t :: t in ts ==> WellFormedTerm(t)
    ensures ParseArgs(SkipTrivia(PrintTerms(ts) + (")" + rest))) == Parsed(ts, ")" + rest)
  {
    var end := ")" + rest;
    SolidIsKept(end);
    if ts == [] {
      assert "" + end == end;
    } else {
      var more := PrintTermsTail(ts[1..]) + end;
      Assoc(PrintTerm(ts[0]), PrintTermsTail(ts[1..]), end);
      PrintedTermSolid(ts[0], more);
      SolidIsKept(PrintTerm(ts[0]) + more);
      TermParsesBack(ts[0], more);
      TermsTailParsesBack(ts[1..], [ts[0]], rest);
      assert [ts[0]] + ts[1..] == ts;
      FirstIsNotParen(ts[0], more);
    }
  }

  lemma FirstIsNotParen(t: Term, more: string)
    requires WellFormedTerm(t)
    ensures PrintTerm(t) + more != "" && (PrintTerm(t) + more)[0] != ')'
  {}

  lemma AtomParsesBack(a: Atom, rest: string)
    requires WellFormedAtom(a)
    ensures ParseAtom(PrintAtom(a) + rest) == Parsed(a, rest)
    ensures Solid(PrintAtom(a) + rest)
  {
    var args := PrintTerms(a.args) + (")" + rest);
    var s := PrintAtom(a) + rest;
    assert s == a.pred + ("(" + args) by {
      Assoc(a.pred, "(" + (PrintTerms(a.args) + ")"), rest);
      Assoc("(", PrintTerms(a.args) + ")", rest);
      Assoc(PrintTerms(a.args), ")", rest);
    }
    WordLengthOf(a.pred, "(" + args);
    assert s[..|a.pred|] == a.pred && s[|a.pred|..] == "(" + args;
    SolidIsKept("(" + args);
    assert ("(" + args)[1..] == args;
    TermsParseBack(a.args, rest);
    assert (")" + rest)[1..] == rest;
  }

  /** A comma and a printed atom are one turn of the body loop. */
  lemma BodyTailComma(a: Atom, more: string, body: seq<Atom>)
    requires WellFormedAtom(a)
    ensures ParseBodyTail(", " + (PrintAtom(a) + more), body) == ParseBodyTail(more, body + [a])
  {
    var s := ", " + (PrintAtom(a) + more);
    assert s[1..] == " " + (PrintAtom(a) + more);
    SolidIsKept(s);
    AtomParsesBack(a, more);
    SolidIsKept(PrintAtom(a) + more);
  }

  lemma AtomsTailCons(more: seq<Atom>, end: string)
    requires more != []
    ensures PrintAtomsTail(more) + end == ", " + (PrintAtom(more[0]) + (PrintAtomsTail(more[1..]) + end))
  {
    Assoc(", ", PrintAtom(more[0]) + PrintAtomsTail(more[1..]), end);
    Assoc(PrintAtom(more[0]), PrintAtomsTail(more[1..]), end);
  }

  lemma BodyStops(body: seq<Atom>, rest: string)
    ensures ParseBodyTail("." + rest, body) == Parsed(body, rest)
  {
    SolidIsKept("." + rest);
    assert ("." + rest)[1..] == rest;
  }

  lemma {:induction false} BodyTailParsesBack(more: seq<Atom>, body: seq<Atom>, rest: string)
    requires forall a :: a in more ==> WellFormedAtom(a)
    ensures ParseBodyTail(PrintAtomsTail(more) + ("." + rest), body) == Parsed(body + more, rest)
    decreases |more|
  {
    var end := "." + rest;
    if more == [] {
      BodyStops(body, rest);
      assert "" + end == end && body + [] == body;
    } else {
      var a, others := more[0], more[1..];
      AtomsTailCons(more, end);
      BodyTailComma(a, PrintAtomsTail(others) + end, body);
      BodyTailParsesBack(others, body + [a], rest);
      Regroup(body, a, others);
      assert [a] + others == more;
    }
  }

  lemma Regroup(body: seq<Atom>, a: Atom, others: seq<Atom>)
    ensures body + [a] + others == body + ([a] + others)
  {}

  /** The neck and a printed atom start a body. */
  lemma NeckParses(a: Atom, tail: string)
    requires WellFormedAtom(a)
    ensures ParseBody(":- " + (PrintAtom(a) + tail)) == ParseBodyTail(tail, [a])
  {
    var first := PrintAtom(a) + tail;
    var s := ":- " + first;
    assert s[1..] == "- " + first && s[1..][1..] == " " + first;
    AtomParsesBack(a, tail);
    SolidIsKept(first);
  }

  lemma BodyParsesBack(body: seq<Atom>, rest: string)
    requires body != [] && forall a :: a in body ==> WellFormedAtom(a)
    ensures ParseBody(":- " + (PrintAtom(body[0]) + (PrintAtomsTail(body[1..]) + ("." + rest)))) == Parsed(body, rest)
  {
    NeckParses(body[0], PrintAtomsTail(body[1..]) + ("." + rest));
    BodyTailParsesBack(body[1..], [body[0]], rest);
    assert [body[0]] + body[1..] == body;
  }

  lemma RuleParsesBack(r: Rule, rest: string)
    requires WellFormedRule(r)
    ensures ParseClause(PrintRule(r) + rest) == Parsed(r, rest)
    ensures Solid(PrintRule(r) + rest)
  {
    if r.body == [] {
      Assoc(PrintAtom(r.head), ".", rest);
      AtomParsesBack(r.head, "." + rest);
      SolidIsKept("." + rest);
      assert ("." + rest)[1..] == rest;
    } else {
      var tail := PrintAtomsTail(r.body[1..]) + ("." + rest);
      var neck := ":- " + (PrintAtom(r.body[0]) + tail);
      assert PrintRule(r) + rest == PrintAtom(r.head) + (" " + neck) by {
        var b := PrintAtom(r.body[0]) + (PrintAtomsTail(r.body[1..]) + ".");
        Assoc(PrintAtom(r.head), " :- " + b, rest);
        Assoc(" :- ", b, rest);
        Assoc(PrintAtom(r.body[0]), PrintAtomsTail(r.body[1..]) + ".", rest);
        Assoc(PrintAtomsTail(r.body[1..]), ".", rest);
        assert " :- " + (PrintAtom(r.body[0]) + tail) == " " + neck;
      }
      AtomParsesBack(r.head, " " + neck);
      SolidIsKept(neck);
      BodyParsesBack(r.body, rest);
    }
  }

  function AddAll(p: Program, rules: seq<Rule>): Program
    decreases |rules|
  {
    if rules == [] then p else AddAll(AddClause(p, rules[0]), rules[1..])
  }

  lemma {:induction false} RulesParseBack(rules: seq<Rule>, p: Program)
    requires forall r :: r in rules ==> WellFormedRule(r)
    ensures ParseFrom(PrintRules(rules), p) == Parsed(AddAll(p, rules), "")
    ensures ParseFrom("\n" + PrintRules(rules), p) == Parsed(AddAll(p, rules), "")
    decreases |rules|
  {
    if rules == [] {
      assert ("\n" + "")[1..] == "";
    } else {
      var rest := "\n" + PrintRules(rules[1..]);
      RuleParsesBack(rules[0], rest);
      SolidIsKept(PrintRule(rules[0]) + rest);
      RulesParseBack(rules[1..], AddClause(p, rules[0]));
    }
  }

  lemma {:induction false} AddAllRules(p: Program, rules: seq<Rule>)
    requires forall r :: r in rules ==> !r.IsGroundFact()
    ensures AddAll(p, rules) == Program(p.rules + rules, p.facts)
    decreases |rules|
  {
    if rules == [] {
      assert p.rules + rules == p.rules;
    } else {
      AddAllRules(AddClause(p, rules[0]), rules[1..]);
      assert p.rules + [rules[0]] + rules[1..] == p.rules + rules;
    }
  }

  lemma {:induction false} AddAllLists(p: Program, facts: seq<Atom>, rules: seq<Rule>)
    requires forall f :: f in facts ==> Rule(f, []).IsGroundFact()
    requires forall r :: r in rules ==> !r.IsGroundFact()
    ensures AddAll(p, FactRules(facts) + rules) == Program(p.rules + rules, p.facts + facts)
    decreases |facts|
  {
    var all := FactRules(facts) + rules;
    if facts == [] {
      assert all == rules && p.facts + facts == p.facts;
      AddAllRules(p, rules);
    } else {
      assert all[0] == Rule(facts[0], []) && facts[0] in facts;
      assert all[1..] == FactRules(facts[1..]) + rules;
      AddAllLists(AddClause(p, all[0]), facts[1..], rules);
      assert p.facts + [facts[0]] + facts[1..] == p.facts + facts;
    }
  }

  /** Every well-formed program, printed, parses back to the same facts and rules in order. */
  lemma ProgramParsesBack(p: Program)
    requires WellFormed(p)
    ensures ParseProgram(Print(p)) == Parsed(p, "")
  {
    var all := FactRules(p.facts) + p.rules;
    forall r | r in all ensures WellFormedRule(r) {
      var i :| 0 <= i < |all| && all[i] == r;
      if i < |p.facts| {
        assert p.facts[i] in p.facts;
      }
    }
    RulesParseBack(all, Program([], []));
    AddAllLists(Program([], []), p.facts, p.rules);
    assert [] + p.rules == p.rules && [] + p.facts == p.facts;
  }

  // ----- what is parsed is well formed -----

  lemma {:induction false} QuotedIsQuotable(s: string, n: nat)
    requires QuotedLength(s) == Some(n)
    ensures IsQuotable(s[..n])
  {
    if s[0] != '"' {
      var k := if s[0] == '\\' && |s| > 1 then 2 else 1;
      QuotedIsQuotable(s[k..], n - k);
      assert s[..n][k..] == s[k..][..n - k];
    }
  }

  lemma ParsedTermWellFormed(s: string)
    requires ParseTerm(s).Parsed?
    ensures WellFormedTerm(ParseTerm(s).value)
  {
    if s[0] == '"' {
      QuotedIsQuotable(s[1..], QuotedLength(s[1..]).value);
    } else if s[0] == '-' {
      var n := DigitsLength(s[1..]);
      assert s[..n + 1][1..] == s[1..][..n];
    }
  }

  lemma {:induction false} ParsedArgsTailWellFormed(s0: string, args: seq<Term>)
    requires forall t :: t in args ==> WellFormedTerm(t)
    requires ParseArgsTail(s0, args).Parsed?
    ensures forall t :: t in ParseArgsTail(s0, args).value ==> WellFormedTerm(t)
    decreases |s0|
  {
    var s := SkipTrivia(s0);
    if s[0] == ',' {
      var t := ParseTerm(SkipTrivia(s[1..]));
      ParsedTermWellFormed(SkipTrivia(s[1..]));
      ParsedArgsTailWellFormed(t.rest, args + [t.value]);
    }
  }

  lemma ParsedAtomWellFormed(s: string)
    requires ParseAtom(s).Parsed?
    ensures WellFormedAtom(ParseAtom(s).value)
  {
    var p := Predicate(s);
    var args := SkipTrivia(Eat(SkipTrivia(p.rest), '(').rest);
    if args[0] != ')' {
      ParsedTermWellFormed(args);
      var t := ParseTerm(args);
      ParsedArgsTailWellFormed(t.rest, [t.value]);
    }
  }

  lemma {:induction false} ParsedBodyTailWellFormed(s0: string, body: seq<Atom>)
    requires forall a :: a in body ==> WellFormedAtom(a)
    requires ParseBodyTail(s0, body).Parsed?
    ensures forall a :: a in ParseBodyTail(s0, body).value ==> WellFormedAtom(a)
    decreases |s0|
  {
    var s := SkipTrivia(s0);
    if s[0] == ',' {
      var a := ParseAtom(SkipTrivia(s[1..]));
      ParsedAtomWellFormed(SkipTrivia(s[1..]));
      ParsedBodyTailWellFormed(a.rest, body + [a.value]);
    }
  }

  lemma ParsedClauseWellFormed(s: string)
    requires ParseClause(s).Parsed?
    ensures WellFormedRule(ParseClause(s).value)
  {
    ParsedAtomWellFormed(s);
    var t := SkipTrivia(ParseAtom(s).rest);
    if t[0] != '.' {
      var first := SkipTrivia(Eat(Eat(t, ':').rest, '-').rest);
      ParsedAtomWellFormed(first);
      var a := ParseAtom(first);
      ParsedBodyTailWellFormed(a.rest, [a.value]);
    }
  }

  lemma {:induction false} ParsedFromWellFormed(s0: string, p: Program)
    requires WellFormed(p) && ParseFrom(s0, p).Parsed?
    ensures WellFormed(ParseFrom(s0, p).value)
    decreases |s0|
  {
    var s := SkipTrivia(s0);
    if s != "" {
      ParsedClauseWellFormed(s);
      var r := ParseClause(s);
      assert r.value.IsGroundFact() ==> r.value == Rule(r.value.head, []);
      ParsedFromWellFormed(r.rest, AddClause(p, r.value));
    }
  }

  /** Whatever parses, parses to a program that printing and parsing again gives back. */
  lemma ParsePrintParse(s: string)
    requires ParseProgram(s).Parsed?
    ensures ParseProgram(Print(ParseProgram(s).value)) == Parsed(ParseProgram(s).value, "")
  {
    ParsedFromWellFormed(s, Program([], []));
    ProgramParsesBack(ParseProgram(s).value);
  }
}
