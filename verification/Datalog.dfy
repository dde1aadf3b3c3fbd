/**
 Datalog-v1: the syntax of crates/aa-rules/src/ast.rs and its declarative meaning.
 A body holds under a binding when every instantiated atom is present in the fact set
 in some layer; a derived head is always Inferred.
 */
module Datalog {
  import opened Wrappers
  import opened Graph

  datatype Term = Const(value: string) | Var(name: string)

  datatype Atom = Atom(pred: string, args: seq<Term>)

  datatype Rule = Rule(head: Atom, body: seq<Atom>)
  {
    /** A clause that states a fact rather than a rule. */
    predicate IsGroundFact() {
      body == [] && forall t :: t in head.args ==> t.Const?
    }
  }

  datatype Program = Program(rules: seq<Rule>, facts: seq<Atom>)

  datatype EvalError = UnboundHeadVar(name: string) | GraphFailure(error: GraphError)

  ghost function AtomVars(atom: Atom): set<string> {
    set t | t in atom.args && t.Var? :: t.name
  }

  ghost function BodyVars(body: seq<Atom>): set<string> {
    set a, t | a in body && t in a.args && t.Var? :: t.name
  }

  predicate TermIs(t: Term, value: string, b: Binding) {
    match t
    case Const(c) => c == value
    case Var(v) => v in b && b[v] == value
  }

  /** Under `b` the terms `args` are the constants `values`. */
  predicate Grounds(args: seq<Term>, b: Binding, values: seq<string>) {
    && |args| == |values|
    && forall i :: 0 <= i < |args| ==> TermIs(args[i], values[i], b)
  }

  ghost predicate AtomHolds(atom: Atom, b: Binding, facts: set<Fact>) {
    exists f :: f in facts && f.pred == atom.pred && Grounds(atom.args, b, f.args)
  }

  /** `b` binds exactly the variables of `body` and makes every atom of it hold. */
  ghost predicate Satisfies(b: Binding, body: seq<Atom>, facts: set<Fact>) {
    && b.Keys == BodyVars(body)
    && forall a :: a in body ==> AtomHolds(a, b, facts)
  }

  /** `f` is the conclusion of rule `r` under `b`. */
  ghost predicate Concludes(r: Rule, b: Binding, f: Fact) {
    f.pred == r.head.pred && f.layer == Inferred && Grounds(r.head.args, b, f.args)
  }

  /** Some head variable has no value, which is what stops the evaluator. */
  ghost predicate HeadUnbound(r: Rule, b: Binding) {
    exists t :: t in r.head.args && t.Var? && t.name !in b
  }

  ghost predicate Closed(rules: seq<Rule>, facts: set<Fact>) {
    forall r, b, f :: r in rules && Satisfies(b, r.body, facts) && Concludes(r, b, f) ==> f in facts
  }

  /** No rule with a variable that occurs in its head only fires on `facts`. */
  ghost predicate HeadsBound(rules: seq<Rule>, facts: set<Fact>) {
    forall r, b :: r in rules && Satisfies(b, r.body, facts) ==> !HeadUnbound(r, b)
  }

  ghost predicate IsLeastModel(rules: seq<Rule>, start: set<Fact>, model: set<Fact>) {
    && start <= model
    && Closed(rules, model)
    && forall m :: start <= m && Closed(rules, m) ==> model <= m
  }

  lemma SatisfiesMonotone(b: Binding, body: seq<Atom>, small: set<Fact>, large: set<Fact>)
    requires small <= large
    requires Satisfies(b, body, small)
    ensures Satisfies(b, body, large)
  {}

  /** A binding fixes the conclusion of a rule. */
  lemma ConclusionUnique(r: Rule, b: Binding, f: Fact, g: Fact)
    requires Concludes(r, b, f) && Concludes(r, b, g)
    ensures f == g
  {}

  // ----- what being a least model means across runs -----

  /** The set of rules alone decides the model: their order and their repetitions do not. */
  lemma LeastModelOfRuleSet(rules: seq<Rule>, others: seq<Rule>, start: set<Fact>, m: set<Fact>, n: set<Fact>)
    requires forall r :: r in rules <==> r in others
    requires IsLeastModel(rules, start, m) && IsLeastModel(others, start, n)
    ensures m == n
  {}

  /** Evaluating, adding facts and evaluating again is one evaluation of the union. */
  lemma LeastModelIncremental(rules: seq<Rule>, start: set<Fact>, added: set<Fact>,
                              first: set<Fact>, second: set<Fact>, once: set<Fact>)
    requires IsLeastModel(rules, start, first)
    requires IsLeastModel(rules, first + added, second)
    requires IsLeastModel(rules, start + added, once)
    ensures second == once
  {}

  /** More facts to start from never lose a conclusion. */
  lemma LeastModelMonotone(rules: seq<Rule>, small: set<Fact>, large: set<Fact>, m: set<Fact>, n: set<Fact>)
    requires small <= large
    requires IsLeastModel(rules, small, m) && IsLeastModel(rules, large, n)
    ensures m <= n
  {}

  // ----- the finite universe -----

  ghost function Pow(base: nat, n: nat): nat {
    if n == 0 then 1 else base * Pow(base, n - 1)
  }

  ghost function Product(domain: set<string>, tails: set<seq<string>>): set<seq<string>> {
    set x, t | x in domain && t in tails :: [x] + t
  }

  /** All argument lists of length `n` over `domain`. */
  ghost function Tuples(domain: set<string>, n: nat): set<seq<string>> {
    if n == 0 then {[]} else Product(domain, Tuples(domain, n - 1))
  }

  /** The constants that can occur in any fact: those of the start facts and of the rule heads. */
  ghost function Domain(rules: seq<Rule>, start: set<Fact>): set<string> {
    (set f, a | f in start && a in f.args :: a)
    + (set r, t | r in rules && t in r.head.args && t.Const? :: t.value)
  }

  ghost function HeadFacts(r: Rule, domain: set<string>): set<Fact> {
    set t | t in Tuples(domain, |r.head.args|) :: Fact(r.head.pred, t, Inferred)
  }

  ghost function Base(rules: seq<Rule>, domain: set<string>): set<Fact> {
    set r, f | r in rules && f in HeadFacts(r, domain) :: f
  }

  ghost predicate SameSignature(r: Rule, s: Rule) {
    r.head.pred == s.head.pred && |r.head.args| == |s.head.args|
  }

  /** The sum of size^arity over the distinct head predicates. */
  ghost function BaseBound(rules: seq<Rule>, size: nat): nat {
    if rules == [] then 0
    else if exists s :: s in rules[1..] && SameSignature(rules[0], s) then BaseBound(rules[1..], size)
    else Pow(size, |rules[0].head.args|) + BaseBound(rules[1..], size)
  }

  lemma {:induction false} TupleMembers(domain: set<string>, t: seq<string>)
    requires forall a :: a in t ==> a in domain
    ensures t in Tuples(domain, |t|)
  {
    if t != [] {
      TupleMembers(domain, t[1..]);
      assert t == [t[0]] + t[1..];
    }
  }

  /** The lists of `tails` with `x` in front. */
  ghost function Row(x: string, tails: set<seq<string>>): set<seq<string>> {
    set t | t in tails :: [x] + t
  }

  lemma RowAndRest(domain: set<string>, x: string, tails: set<seq<string>>)
    requires x in domain
    ensures Product(domain, tails) == Row(x, tails) + Product(domain - {x}, tails)
  {}

  lemma {:induction false} ProductSize(domain: set<string>, tails: set<seq<string>>)
    ensures |Product(domain, tails)| <= |domain| * |tails|
    decreases |domain|
  {
    var product := Product(domain, tails);
    if domain == {} {
      assert product == {};
    } else {
      var x :| x in domain;
      ProductSize(domain - {x}, tails);
      RowSize(x, tails);
      RowAndRest(domain, x, tails);
      TimesStep(|domain|, |tails|);
      assert |domain - {x}| == |domain| - 1;
    }
  }

  lemma {:induction false} RowSize(x: string, tails: set<seq<string>>)
    ensures |Row(x, tails)| <= |tails|
    decreases |tails|
  {
    if tails == {} {
      assert Row(x, tails) == {};
    } else {
      var t :| t in tails;
      RowSize(x, tails - {t});
      assert Row(x, tails) == Row(x, tails - {t}) + {[x] + t};
    }
  }

  lemma {:induction false} TuplesSize(domain: set<string>, n: nat)
    ensures |Tuples(domain, n)| <= Pow(|domain|, n)
  {
    if n > 0 {
      TuplesSize(domain, n - 1);
      ProductSize(domain, Tuples(domain, n - 1));
      TimesMonotone(|domain|, |Tuples(domain, n - 1)|, Pow(|domain|, n - 1));
    }
  }

  lemma TimesStep(n: nat, k: nat)
    requires n > 0
    ensures n * k == k + (n - 1) * k
  {}

  lemma TimesMonotone(k: nat, a: nat, b: nat)
    requires a <= b
    ensures k * a <= k * b
  {}

  lemma {:induction false} HeadFactsSize(p: string, tuples: set<seq<string>>)
    ensures |set t | t in tuples :: Fact(p, t, Inferred)| <= |tuples|
    decreases |tuples|
  {
    var image := set t | t in tuples :: Fact(p, t, Inferred);
    if tuples == {} {
      assert image == {};
    } else {
      var t :| t in tuples;
      HeadFactsSize(p, tuples - {t});
      assert image == (set u | u in tuples - {t} :: Fact(p, u, Inferred)) + {Fact(p, t, Inferred)};
    }
  }

  /** The universe of derivable facts has at most the stated size. */
  lemma {:induction false} BaseSize(rules: seq<Rule>, domain: set<string>)
    ensures |Base(rules, domain)| <= BaseBound(rules, |domain|)
  {
    if rules == [] {
      assert Base(rules, domain) == {};
    } else {
      var r, rest := rules[0], rules[1..];
      BaseSize(rest, domain);
      assert rules == [r] + rest;
      assert Base(rules, domain) == HeadFacts(r, domain) + Base(rest, domain);
      if s :| s in rest && SameSignature(r, s) {
        SharedHead(rest, r, s, domain);
      } else {
        TuplesSize(domain, |r.head.args|);
        HeadFactsSize(r.head.pred, Tuples(domain, |r.head.args|));
      }
    }
  }

  lemma SharedHead(rest: seq<Rule>, r: Rule, s: Rule, domain: set<string>)
    requires s in rest && SameSignature(r, s)
    ensures HeadFacts(r, domain) + Base(rest, domain) == Base(rest, domain)
  {
    assert HeadFacts(r, domain) == HeadFacts(s, domain);
    assert HeadFacts(s, domain) <= Base(rest, domain);
  }

  /** Every conclusion drawn from facts inside the universe is inside it. */
  lemma ConclusionInBase(rules: seq<Rule>, start: set<Fact>, facts: set<Fact>, r: Rule, b: Binding, f: Fact)
    requires facts <= start + Base(rules, Domain(rules, start))
    requires r in rules && Satisfies(b, r.body, facts) && Concludes(r, b, f)
    ensures f in Base(rules, Domain(rules, start))
  {
    var domain := Domain(rules, start);
    forall i | 0 <= i < |f.args| ensures f.args[i] in domain {
      var t := r.head.args[i];
      assert TermIs(t, f.args[i], b);
      if t.Var? {
        BoundValueInDomain(rules, start, facts, b, r.body, t.name);
      }
    }
    TupleMembers(domain, f.args);
    assert f in HeadFacts(r, domain);
  }

  lemma BoundValueInDomain(rules: seq<Rule>, start: set<Fact>, facts: set<Fact>,
                           b: Binding, body: seq<Atom>, v: string)
    requires facts <= start + Base(rules, Domain(rules, start))
    requires Satisfies(b, body, facts) && v in b
    ensures b[v] in Domain(rules, start)
  {
    var domain := Domain(rules, start);
    var a, t :| a in body && t in a.args && t.Var? && t.name == v;
    assert AtomHolds(a, b, facts);
    var g :| g in facts && g.pred == a.pred && Grounds(a.args, b, g.args);
    var i :| 0 <= i < |a.args| && a.args[i] == t;
    assert TermIs(a.args[i], g.args[i], b) && b[v] in g.args;
    if g !in start {
      var s :| s in rules && g in HeadFacts(s, domain);
      TupleElements(domain, |s.head.args|, g.args);
    }
  }

  lemma {:induction false} TupleElements(domain: set<string>, n: nat, t: seq<string>)
    requires t in Tuples(domain, n)
    ensures forall a :: a in t ==> a in domain
  {
    if n > 0 {
      var x, u :| x in domain && u in Tuples(domain, n - 1) && t == [x] + u;
      TupleElements(domain, n - 1, u);
    }
  }

  lemma {:induction false} TupleLength(domain: set<string>, n: nat, t: seq<string>)
    requires t in Tuples(domain, n)
    ensures |t| == n
  {
    if n > 0 {
      var x, u :| x in domain && u in Tuples(domain, n - 1) && t == [x] + u;
      TupleLength(domain, n - 1, u);
    }
  }
}
