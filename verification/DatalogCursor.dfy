/**
 The cursor of crates/aa-rules/src/parser.rs: a position with its line and column that `bump` moves by one byte.
 Every method does to the source after the cursor exactly what the parsing function of the same name says, and
 reports an error at the line and column where it stopped.
 */
module DatalogCursor {
  import opened Wrappers
  import opened Decimal
  import opened Datalog
  import opened Positions
  import opened Text
  import D = DatalogParser
  import L = DatalogLayout

  datatype ParseError = ParseError(line: nat, col: nat, kind: D.ErrorKind)

  /** The line a prefix ends on, from 1: one more than the newlines in it. */
  function LineAfter(prefix: string): (line: nat) {
    |Starts(prefix)|
  }

  /** One more than the bytes since the last newline of a prefix. */
  function ColAfter(prefix: string): (col: nat)
    ensures col >= 1
  {
    StartsIncrease(prefix);
    |prefix| - Starts(prefix)[|Starts(prefix)| - 1] + 1
  }

  /** The line is one more than the newlines of the prefix; the column counts from the last of them. */
  lemma {:induction false} LineAndColumn(prefix: string)
    ensures LineAfter(prefix) == 1 + multiset(prefix)['\n']
    ensures var start := |prefix| - (ColAfter(prefix) - 1);
            && 0 <= start && (start == 0 || prefix[start - 1] == '\n')
            && forall i :: start <= i < |prefix| ==> prefix[i] != '\n'
  {
    if prefix != "" {
      var n := |prefix| - 1;
      LineAndColumn(prefix[..n]);
      assert prefix == prefix[..n] + [prefix[n]];
      StartsIncrease(prefix[..n]);
    }
  }

  lemma DropDrop(s: string, i: nat, j: nat)
    requires i <= j <= |s|
    ensures s[i..][j - i..] == s[j..]
  {}

  lemma TakeDrop(s: string, i: nat, j: nat)
    requires i <= j <= |s|
    ensures s[i..][..j - i] == s[i..j]
  {}

  class Parser {
    const src: string
    var pos: nat
    var line: nat
    var col: nat

    /** The line and the column are those of the consumed prefix. */
    ghost predicate Valid()
      reads this
    {
      pos <= |src| && line == LineAfter(src[..pos]) && col == ColAfter(src[..pos])
    }

    ghost function Ahead(): string
      requires Valid()
      reads this
    {
      src[pos..]
    }

    /** The outcome and the cursor are what a parsing function says. */
    ghost predicate Follows<T>(want: D.Parsed<T>, r: Result<T, ParseError>)
      requires Valid()
      reads this
    {
      && Ahead() == want.rest
      && (want.Parsed? ==> r == Success(want.value))
      && (want.Failed? ==> r == Failure(ParseError(line, col, want.kind)))
    }

    constructor (src: string)
      ensures Valid() && this.src == src && Ahead() == src
    {
      this.src := src;
      pos, line, col := 0, 1, 1;
    }

    method Bump()
      requires Valid()
      modifies this`pos, this`line, this`col
      ensures Valid()
      ensures Ahead() == if old(Ahead()) == "" then "" else old(Ahead())[1..]
    {
      if pos < |src| {
        assert src[..pos + 1][..pos] == src[..pos];
        StartsIncrease(src[..pos]);
        pos := pos + 1;
        if src[pos - 1] == '\n' {
          line, col := line + 1, 1;
        } else {
          col := col + 1;
        }
      }
    }

    method SkipLineComment()
      requires Valid()
      modifies this`pos, this`line, this`col
      ensures Valid() && Ahead() == D.SkipLine(old(Ahead()))
    {
      while pos < |src|
        invariant Valid() && D.SkipLine(Ahead()) == D.SkipLine(old(Ahead()))
        decreases |src| - pos
      {
        var newline := src[pos] == '\n';
        Bump();
        if newline {
          break;
        }
      }
    }

    method SkipTrivia()
      requires Valid()
      modifies this`pos, this`line, this`col
      ensures Valid() && Ahead() == D.SkipTrivia(old(Ahead()))
    {
      while true
        invariant Valid() && D.SkipTrivia(Ahead()) == D.SkipTrivia(old(Ahead()))
        decreases |src| - pos
      {
        if pos < |src| && D.IsWhitespace(src[pos]) {
          Bump();
        } else if pos < |src| && (src[pos] == '%' || (src[pos] == '/' && pos + 1 < |src| && src[pos + 1] == '/')) {
          SkipLineComment();
        } else {
          break;
        }
      }
    }

    method Eat(c: char) returns (r: Result<(), ParseError>)
      requires Valid()
      modifies this`pos, this`line, this`col
      ensures Valid() && Follows(D.Eat(old(Ahead()), c), r)
    {
      if pos < |src| && src[pos] == c {
        Bump();
        r := Success(());
      } else {
        r := Failure(ParseError(line, col, D.ExpectedChar(c)));
      }
    }

    method SkipWord()
      requires Valid()
      modifies this`pos, this`line, this`col
      ensures Valid() && Ahead() == old(Ahead())[D.WordLength(old(Ahead()))..]
    {
      ghost var start := pos;
      while pos < |src| && IsIdentChar(src[pos])
        invariant Valid() && start <= pos
        invariant D.WordLength(src[start..]) == pos - start + D.WordLength(src[pos..])
        decreases |src| - pos
      {
        ghost var ahead := Ahead();
        assert D.WordLength(ahead) == 1 + D.WordLength(ahead[1..]);
        Bump();
      }
      DropDrop(src, start, pos);
    }

    method ParseIdentAny() returns (r: Result<string, ParseError>)
      requires Valid()
      modifies this`pos, this`line, this`col
      ensures Valid() && Follows(D.Word(old(Ahead())), r)
    {
      var start := pos;
      SkipWord();
      if start == pos {
        return Failure(ParseError(line, col, D.ExpectedIdentifier));
      }
      TakeDrop(src, start, pos);
      r := Success(src[start..pos]);
    }

    method ParseIdentLower() returns (r: Result<string, ParseError>)
      requires Valid()
      modifies this`pos, this`line, this`col
      ensures Valid() && Follows(D.Predicate(old(Ahead())), r)
    {
      if pos < |src| && IsLower(src[pos]) {
        r := ParseIdentAny();
      } else {
        r := Failure(ParseError(line, col, D.ExpectedPredicate));
      }
    }

    /** One character of a quoted text; a backslash takes the character behind it along. */
    method BumpQuoted()
      requires Valid() && pos < |src| && src[pos] != '"'
      modifies this`pos, this`line, this`col
      ensures Valid() && pos > old(pos)
      ensures D.QuotedLength(src[old(pos)..]) == D.Later(D.QuotedLength(src[pos..]), pos - old(pos))
    {
      if src[pos] == '\\' {
        Bump();
      }
      Bump();
    }

    /** To the closing quote, or to the end of the source when there is none. */
    method SkipQuoted() returns (closed: bool)
      requires Valid()
      modifies this`pos, this`line, this`col
      ensures Valid()
      ensures closed == D.QuotedLength(src[old(pos)..]).Some?
      ensures pos == if closed then old(pos) + D.QuotedLength(src[old(pos)..]).value else |src|
    {
      ghost var start := pos;
      while pos < |src| && src[pos] != '"'
        invariant Valid() && start <= pos
        invariant D.QuotedLength(src[start..]) == D.Later(D.QuotedLength(src[pos..]), pos - start)
        decreases |src| - pos
      {
        BumpQuoted();
      }
      closed := pos < |src|;
    }

    method ParseQuoted() returns (r: Result<string, ParseError>)
      requires Valid()
      modifies this`pos, this`line, this`col
      ensures Valid() && Follows(D.Quoted(old(Ahead())), r)
    {
      var open := Eat('"');
      if open.Failure? {
        return Failure(open.error);
      }
      var start := pos;
      var closed := SkipQuoted();
      if !closed {
        return Failure(ParseError(line, col, D.UnterminatedString));
      }
      TakeDrop(src, start, pos);
      DropDrop(src, start, pos + 1);
      r := Success(src[start..pos]);
      Bump();
    }

    method SkipDigits()
      requires Valid()
      modifies this`pos, this`line, this`col
      ensures Valid() && pos == old(pos) + D.DigitsLength(old(Ahead()))
    {
      ghost var start := pos;
      while pos < |src| && IsDigit(src[pos])
        invariant Valid() && start <= pos
        invariant D.DigitsLength(src[start..]) == pos - start + D.DigitsLength(src[pos..])
        decreases |src| - pos
      {
        Bump();
      }
    }

    method ParseNumber() returns (r: Result<string, ParseError>)
      requires Valid() && pos < |src| && (IsDigit(src[pos]) || src[pos] == '-')
      modifies this`pos, this`line, this`col
      ensures Valid()
      ensures var n := D.NumberLength(old(Ahead())); r == Success(old(Ahead())[..n]) && Ahead() == old(Ahead())[n..]
    {
      var start := pos;
      if src[pos] == '-' {
        Bump();
      }
      SkipDigits();
      DropDrop(src, start, pos);
      TakeDrop(src, start, pos);
      r := Success(src[start..pos]);
    }

    method ParseTerm() returns (r: Result<Term, ParseError>)
      requires Valid()
      modifies this`pos, this`line, this`col
      ensures Valid() && Follows(D.ParseTerm(old(Ahead())), r)
    {
      if pos >= |src| {
        return Failure(ParseError(line, col, D.EofInTerm));
      }
      var c := src[pos];
      var text;
      if c == '"' {
        text := ParseQuoted();
      } else if IsDigit(c) || c == '-' {
        text := ParseNumber();
      } else if IsUpper(c) || c == '_' || IsLower(c) {
        text := ParseIdentAny();
      } else {
        return Failure(ParseError(line, col, D.UnexpectedInTerm));
      }
      if text.Failure? {
        return Failure(text.error);
      }
      r := Success(if IsUpper(c) || c == '_' then Var(text.value) else Const(text.value));
    }

    method ParseArgs() returns (r: Result<seq<Term>, ParseError>)
      requires Valid()
      modifies this`pos, this`line, this`col
      ensures Valid() && Follows(D.ParseArgs(old(Ahead())), r)
    {
      if pos < |src| && src[pos] == ')' {
        return Success([]);
      }
      var t := ParseTerm();
      if t.Failure? {
        return Failure(t.error);
      }
      var args := [t.value];
      ghost var want := D.ParseArgsTail(Ahead(), args);
      while true
        invariant Valid() && D.ParseArgsTail(Ahead(), args) == want
        decreases |src| - pos
      {
        SkipTrivia();
        if pos < |src| && src[pos] == ',' {
          Bump();
          SkipTrivia();
          t := ParseTerm();
          if t.Failure? {
            return Failure(t.error);
          }
          args := args + [t.value];
        } else if pos < |src| && src[pos] == ')' {
          return Success(args);
        } else {
          return Failure(ParseError(line, col, if pos < |src| then D.ExpectedInArgs else D.EofInArgs));
        }
      }
    }

    method ParseAtom() returns (r: Result<Atom, ParseError>)
      requires Valid()
      modifies this`pos, this`line, this`col
      ensures Valid() && Follows(D.ParseAtom(old(Ahead())), r)
    {
      var pred := ParseIdentLower();
      if pred.Failure? {
        return Failure(pred.error);
      }
      SkipTrivia();
      var open := Eat('(');
      if open.Failure? {
        return Failure(open.error);
      }
      SkipTrivia();
      var args := ParseArgs();
      if args.Failure? {
        return Failure(args.error);
      }
      var close := Eat(')');
      if close.Failure? {
        return Failure(close.error);
      }
      r := Success(Atom(pred.value, args.value));
    }

    /** The loop over the body of a rule, after its first atom. */
    method ParseBodyTail(first: Atom) returns (r: Result<seq<Atom>, ParseError>)
      requires Valid()
      modifies this`pos, this`line, this`col
      ensures Valid() && Follows(D.ParseBodyTail(old(Ahead()), [first]), r)
    {
      var body := [first];
      ghost var want := D.ParseBodyTail(Ahead(), body);
      while true
        invariant Valid() && D.ParseBodyTail(Ahead(), body) == want
        decreases |src| - pos
      {
        SkipTrivia();
        if pos < |src| && src[pos] == ',' {
          Bump();
          SkipTrivia();
          var a := ParseAtom();
          if a.Failure? {
            return Failure(a.error);
          }
          body := body + [a.value];
        } else if pos < |src| && src[pos] == '.' {
          Bump();
          return Success(body);
        } else {
          return Failure(ParseError(line, col, if pos < |src| then D.ExpectedInBody else D.EofInBody));
        }
      }
    }

    method ParseBody() returns (r: Result<seq<Atom>, ParseError>)
      requires Valid()
      modifies this`pos, this`line, this`col
      ensures Valid() && Follows(D.ParseBody(old(Ahead())), r)
    {
      var colon := Eat(':');
      if colon.Failure? {
        return Failure(colon.error);
      }
      var dash := Eat('-');
      if dash.Failure? {
        return Failure(dash.error);
      }
      SkipTrivia();
      var a := ParseAtom();
      if a.Failure? {
        return Failure(a.error);
      }
      r := ParseBodyTail(a.value);
    }

    method ParseClause() returns (r: Result<Rule, ParseError>)
      requires Valid()
      modifies this`pos, this`line, this`col
      ensures Valid() && Follows(D.ParseClause(old(Ahead())), r)
    {
      var head := ParseAtom();
      if head.Failure? {
        return Failure(head.error);
      }
      SkipTrivia();
      if pos < |src| && src[pos] == '.' {
        Bump();
        return Success(Rule(head.value, []));
      }
      var body := ParseBody();
      if body.Failure? {
        return Failure(body.error);
      }
      r := Success(Rule(head.value, body.value));
    }
  }

  /**
   A program is reported as it is; an error is reported at the line and the column of the prefix consumed when it
   was met.
   */
  ghost predicate Reports(src: string, want: D.Parsed<Program>, r: Result<Program, ParseError>) {
    && (want.Parsed? ==> r == Success(want.value))
    && (want.Failed? ==>
          && |want.rest| <= |src|
          && var consumed := src[..|src| - |want.rest|];
             r == Failure(ParseError(LineAfter(consumed), ColAfter(consumed), want.kind)))
  }

  lemma SucceedsOnTexts(src: string, r: Result<Program, ParseError>)
    requires Reports(src, D.ParseProgram(src), r)
    ensures forall p :: r == Success(p) <==> L.IsTextOf(src, p)
  {
    forall p ensures r == Success(p) <==> L.IsTextOf(src, p) {
      L.ParsesExactlyLayouts(src, p);
    }
  }

  /** `parse`: succeeds exactly on the texts of layouts, with what the layout means. */
  method Parse(src: string) returns (r: Result<Program, ParseError>)
    ensures forall p :: r == Success(p) <==> L.IsTextOf(src, p)
    ensures Reports(src, D.ParseProgram(src), r)
  {
    var p := new Parser(src);
    D.SkipTriviaOnce(src);
    p.SkipTrivia();
    r := ParseClauses(p);
    SucceedsOnTexts(src, r);
  }

  /** The loop of `parse`. */
  method ParseClauses(p: Parser) returns (r: Result<Program, ParseError>)
    requires p.Valid()
    requires D.SkipTrivia(p.Ahead()) == p.Ahead()
    modifies p`pos, p`line, p`col
    ensures Reports(p.src, D.ParseProgram(old(p.Ahead())), r)
  {
    var program := Program([], []);
    ghost var want := D.ParseProgram(p.Ahead());
    while p.pos < |p.src|
      invariant p.Valid() && D.SkipTrivia(p.Ahead()) == p.Ahead()
      invariant D.ParseFrom(p.Ahead(), program) == want
      decreases |p.src| - p.pos
    {
      var rule := p.ParseClause();
      if rule.Failure? {
        assert p.src[..|p.src| - |want.rest|] == p.src[..p.pos];
        return Failure(rule.error);
      }
      program := D.AddClause(program, rule.value);
      SkipAgain(p, program);
    }
    r := Success(program);
  }

  method SkipAgain(p: Parser, program: Program)
    requires p.Valid()
    modifies p`pos, p`line, p`col
    ensures p.Valid() && D.SkipTrivia(p.Ahead()) == p.Ahead() && p.Ahead() == D.SkipTrivia(old(p.Ahead()))
    ensures D.ParseFrom(p.Ahead(), program) == D.ParseFrom(old(p.Ahead()), program)
  {
    D.SkipTriviaOnce(p.Ahead());
    p.SkipTrivia();
  }
}
