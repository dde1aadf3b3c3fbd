/** The naive bottom-up evaluator of crates/aa-rules/src/eval.rs. */
module Evaluator {
  import opened Wrappers
  import G = Graph
  import opened Datalog

  type Binding = G.Binding

  datatype EvalStats = EvalStats(derived: nat, iterations: nat)

  // ----- joining one body against the store -----

  ghost predicate Agree(base: Binding, add: Binding) {
    forall k :: k in base && k in add ==> base[k] == add[k]
  }

  method Merge(base: Binding, add: Binding) returns (r: Option<Binding>)
    ensures r == if Agree(base, add) then Some(base + add) else None
  {
    var merged := base;
    var todo := add.Keys;
    while todo != {}
      invariant todo <= add.Keys
      invariant Agree(base, add - todo)
      invariant merged == base + (add - todo)
    {
      var k :| k in todo;
      if k in merged {
        if merged[k] != add[k] {
          assert k in base && base[k] != add[k];
          return None;
        }
      } else {
        merged := merged[k := add[k]];
      }
      ghost var done := add - todo;
      todo := todo - {k};
      assert add - todo == done[k := add[k]];
    }
    assert add - {} == add;
    return Some(merged);
  }

  function ToPatternTerm(t: Term, b: Binding): G.Term {
    match t
    case Const(c) => G.Atom(c)
    case Var(v) => if v in b then G.Atom(b[v]) else G.Var(v)
  }

  function ToPattern(atom: Atom, b: Binding): G.Pattern {
    G.Pattern(atom.pred, seq(|atom.args|, i requires 0 <= i < |atom.args| => ToPatternTerm(atom.args[i], b)))
  }

  /** `c` is `b` extended by one match of `atom`. */
  ghost predicate Joined(c: Binding, b: Binding, atom: Atom, facts: set<G.Fact>) {
    exists m: Binding, f :: f in facts && f.pred == atom.pred && G.Unifies(ToPattern(atom, b).args, f.args, m)
                            && c == b + m
  }

  lemma PatternVarsAreUnbound(atom: Atom, b: Binding)
    ensures G.PatternVars(ToPattern(atom, b).args) == AtomVars(atom) - b.Keys
  {
    var pat := ToPattern(atom, b).args;
    forall v | v in AtomVars(atom) - b.Keys ensures v in G.PatternVars(pat) {
      var i :| 0 <= i < |atom.args| && atom.args[i] == Var(v);
      assert pat[i] == G.Var(v);
    }
  }

  lemma MatchIsGrounding(atom: Atom, b: Binding, m: Binding, values: seq<string>)
    requires m.Keys == AtomVars(atom) - b.Keys
    ensures G.Unifies(ToPattern(atom, b).args, values, m) <==> Grounds(atom.args, b + m, values)
  {
    PatternVarsAreUnbound(atom, b);
    var pat := ToPattern(atom, b).args;
    if |values| == |atom.args| {
      forall i | 0 <= i < |atom.args|
        ensures G.TermMatches(pat[i], values[i], m) <==> TermIs(atom.args[i], values[i], b + m)
      {
        if atom.args[i].Var? {
          assert atom.args[i].name in AtomVars(atom);
        }
      }
    }
  }

  lemma JoinedMeaning(c: Binding, b: Binding, atom: Atom, facts: set<G.Fact>)
    ensures Joined(c, b, atom, facts) <==>
              && c.Keys == b.Keys + AtomVars(atom)
              && (forall k :: k in b ==> c[k] == b[k])
              && AtomHolds(atom, c, facts)
  {
    if Joined(c, b, atom, facts) {
      JoinExtends(c, b, atom, facts);
    }
    if c.Keys == b.Keys + AtomVars(atom) && (forall k :: k in b ==> c[k] == b[k]) && AtomHolds(atom, c, facts) {
      ExtensionJoins(c, b, atom, facts);
    }
  }

  lemma JoinExtends(c: Binding, b: Binding, atom: Atom, facts: set<G.Fact>)
    requires Joined(c, b, atom, facts)
    ensures c.Keys == b.Keys + AtomVars(atom)
    ensures forall k :: k in b ==> c[k] == b[k]
    ensures AtomHolds(atom, c, facts)
  {
    PatternVarsAreUnbound(atom, b);
    var m: Binding, f :| f in facts && f.pred == atom.pred
                         && G.Unifies(ToPattern(atom, b).args, f.args, m) && c == b + m;
    MatchIsGrounding(atom, b, m, f.args);
  }

  lemma ExtensionJoins(c: Binding, b: Binding, atom: Atom, facts: set<G.Fact>)
    requires c.Keys == b.Keys + AtomVars(atom)
    requires forall k :: k in b ==> c[k] == b[k]
    requires AtomHolds(atom, c, facts)
    ensures Joined(c, b, atom, facts)
  {
    var f :| f in facts && f.pred == atom.pred && Grounds(atom.args, c, f.args);
    var m := map k | k in c && k !in b :: c[k];
    assert c == b + m;
    MatchIsGrounding(atom, b, m, f.args);
  }

  /** Satisfying a longer body is satisfying the shorter one and joining one more atom. */
  lemma SatisfiesSnoc(c: Binding, body: seq<Atom>, atom: Atom, facts: set<G.Fact>)
    ensures Satisfies(c, body + [atom], facts) <==>
              exists b :: Satisfies(b, body, facts) && Joined(c, b, atom, facts)
  {
    assert BodyVars(body + [atom]) == BodyVars(body) + AtomVars(atom);
    if Satisfies(c, body + [atom], facts) {
      var b := map k | k in c && k in BodyVars(body) :: c[k];
      assert b.Keys == BodyVars(body);
      forall a | a in body ensures AtomHolds(a, b, facts) {
        assert a in body + [atom];
        RestrictHolds(a, b, c, facts);
      }
      assert atom in body + [atom];
      JoinedMeaning(c, b, atom, facts);
    }
    if b :| Satisfies(b, body, facts) && Joined(c, b, atom, facts) {
      JoinedMeaning(c, b, atom, facts);
      forall a | a in body + [atom] ensures AtomHolds(a, c, facts) {
        if a in body {
          RestrictHolds(a, b, c, facts);
        }
      }
    }
  }

  /** Whether an atom holds depends on the values of its own variables only. */
  lemma RestrictHolds(a: Atom, b: Binding, c: Binding, facts: set<G.Fact>)
    requires AtomVars(a) <= b.Keys <= c.Keys
    requires forall k :: k in b ==> c[k] == b[k]
    ensures AtomHolds(a, b, facts) <==> AtomHolds(a, c, facts)
  {}

  /** `solve_body`: all bindings, and only those, that satisfy the whole body. */
  method SolveBody(body: seq<Atom>, store: G.GraphStore) returns (bindings: seq<Binding>)
    requires store.Valid()
    ensures forall b :: b in bindings <==> Satisfies(b, body, store.Facts())
  {
    ghost var facts := store.Facts();
    bindings := [map[]];
    for i := 0 to |body|
      invariant forall b :: b in bindings <==> Satisfies(b, body[..i], facts)
    {
      var atom := body[i];
      var next := [];
      for j := 0 to |bindings|
        invariant forall c :: c in next <==> exists k :: 0 <= k < j && Joined(c, bindings[k], atom, facts)
      {
        var b := bindings[j];
        var found := ExtendBinding(b, atom, store);
        next := next + found;
      }
      forall c ensures c in next <==> Satisfies(c, body[..i + 1], facts) {
        assert body[..i + 1] == body[..i] + [atom];
        SatisfiesSnoc(c, body[..i], atom, facts);
      }
      bindings := next;
    }
    assert body[..|body|] == body;
  }

  method ExtendBinding(b: Binding, atom: Atom, store: G.GraphStore) returns (found: seq<Binding>)
    requires store.Valid()
    ensures forall c :: c in found <==> Joined(c, b, atom, store.Facts())
  {
    var pat := ToPattern(atom, b);
    var matches := G.Matches(pat, store);
    PatternVarsAreUnbound(atom, b);
    found := [];
    for i := 0 to |matches|
      invariant forall c :: c in found <==> exists k :: 0 <= k < i && c == b + matches[k]
    {
      var merged := Merge(b, matches[i]);
      assert matches[i] in matches;
      found := found + [merged.value];
    }
    forall c | c in found ensures Joined(c, b, atom, store.Facts()) {
      var k :| 0 <= k < |matches| && c == b + matches[k];
      assert matches[k] in matches;
    }
    forall c | Joined(c, b, atom, store.Facts()) ensures c in found {
      var m: Binding, f :| f in store.Facts() && f.pred == atom.pred
                           && G.Unifies(pat.args, f.args, m) && c == b + m;
      assert m in matches;
    }
  }

  // ----- heads -----

  /** `error` names the leftmost variable of `args` outside `bound`. */
  ghost predicate FirstUnbound(args: seq<Term>, bound: set<string>, error: EvalError) {
    && error.UnboundHeadVar?
    && exists k :: 0 <= k < |args| && args[k] == Var(error.name) && error.name !in bound
                   && forall j :: 0 <= j < k && args[j].Var? ==> args[j].name in bound
  }

  function InstantiateArgs(args: seq<Term>, b: Binding): (r: Result<seq<string>, EvalError>)
    ensures r.Success? ==> Grounds(args, b, r.value)
    ensures r.Success? <==> forall t :: t in args && t.Var? ==> t.name in b
    ensures r.Failure? ==> r.error.UnboundHeadVar? && Var(r.error.name) in args && r.error.name !in b
  {
    if args == [] then Success([])
    else if args[0].Var? && args[0].name !in b then Failure(UnboundHeadVar(args[0].name))
    else
      var first := if args[0].Const? then args[0].value else b[args[0].name];
      var rest := InstantiateArgs(args[1..], b);
      assert args == [args[0]] + args[1..];
      if rest.Failure? then rest else Success([first] + rest.value)
  }

  lemma {:induction false} LeftmostReported(args: seq<Term>, b: Binding)
    requires InstantiateArgs(args, b).Failure?
    ensures FirstUnbound(args, b.Keys, InstantiateArgs(args, b).error)
  {
    if args[0].Var? && args[0].name !in b {
      assert args[0] == Var(args[0].name);
    } else {
      var rest := args[1..];
      LeftmostReported(rest, b);
      var error := InstantiateArgs(rest, b).error;
      var k :| 0 <= k < |rest| && rest[k] == Var(error.name) && error.name !in b.Keys
               && forall j :: 0 <= j < k && rest[j].Var? ==> rest[j].name in b.Keys;
      forall j | 0 <= j < k + 1 && args[j].Var? ensures args[j].name in b.Keys {
        if j > 0 {
          assert rest[j - 1] == args[j];
        }
      }
      assert args[k + 1] == rest[k];
    }
  }

  function InstantiateHead(r: Rule, b: Binding): (f: Result<G.Fact, EvalError>)
    ensures f.Success? ==> Concludes(r, b, f.value)
    ensures f.Failure? <==> HeadUnbound(r, b)
    ensures f.Failure? ==> FirstUnbound(r.head.args, b.Keys, f.error)
  {
    var args := InstantiateArgs(r.head.args, b);
    if args.Failure? then LeftmostReported(r.head.args, b); Failure(args.error)
    else Success(G.Fact(r.head.pred, args.value, G.Inferred))
  }

  // ----- the fixpoint -----

  ghost function Below(rank: map<G.Fact, nat>, n: nat): set<G.Fact> {
    set f | f in rank && rank[f] < n
  }

  /** `f` follows by one rule from facts that appeared in an earlier iteration. */
  ghost predicate DerivedEarlier(rules: seq<Rule>, rank: map<G.Fact, nat>, f: G.Fact)
    requires f in rank
  {
    exists i, b :: 0 <= i < |rules| && Satisfies(b, rules[i].body, Below(rank, rank[f])) && Concludes(rules[i], b, f)
  }

  /** `rank` gives the iteration in which each fact first appeared: 0 for the given ones. */
  ghost predicate Ranked(rules: seq<Rule>, start: set<G.Fact>, facts: set<G.Fact>, rank: map<G.Fact, nat>) {
    && start <= facts == rank.Keys
    && (forall f :: f in facts ==> (rank[f] == 0 <==> f in start))
    && forall f :: f in facts - start ==> DerivedEarlier(rules, rank, f)
  }

  /** `f` is concluded by some rule from `facts`. */
  ghost predicate Fires(rules: seq<Rule>, facts: set<G.Fact>, f: G.Fact) {
    exists i, b :: 0 <= i < |rules| && Satisfies(b, rules[i].body, facts) && Concludes(rules[i], b, f)
  }

  ghost predicate GoodBatch(rules: seq<Rule>, facts: set<G.Fact>, batch: seq<G.Fact>) {
    && G.Distinct(batch)
    && forall f :: f in batch ==> f !in facts && Fires(rules, facts, f)
  }

  /** Every conclusion of rule `i` from `facts` is present or in the batch. */
  ghost predicate Covered(rules: seq<Rule>, i: nat, facts: set<G.Fact>, batch: seq<G.Fact>)
    requires i < |rules|
  {
    forall b, f :: Satisfies(b, rules[i].body, facts) && Concludes(rules[i], b, f) ==> f in facts || f in batch
  }

  /** `b` binds the head of `rule`, and its conclusion is present or in the batch. */
  ghost predicate Handled(rule: Rule, b: Binding, facts: set<G.Fact>, batch: seq<G.Fact>) {
    !HeadUnbound(rule, b) && forall f :: Concludes(rule, b, f) ==> f in facts || f in batch
  }

  /** The new conclusion of one binding, if any, goes to the end of the batch. */
  method AddConclusion(rules: seq<Rule>, i: nat, b: Binding, store: G.GraphStore, batch: seq<G.Fact>)
    returns (r: Result<seq<G.Fact>, EvalError>)
    requires store.Valid() && i < |rules| && GoodBatch(rules, store.Facts(), batch)
    requires Satisfies(b, rules[i].body, store.Facts())
    ensures r.Failure? <==> HeadUnbound(rules[i], b)
    ensures r.Failure? ==> FirstUnbound(rules[i].head.args, BodyVars(rules[i].body), r.error)
    ensures r.Success? ==> batch <= r.value && GoodBatch(rules, store.Facts(), r.value)
    ensures r.Success? ==> Handled(rules[i], b, store.Facts(), r.value)
  {
    var fact := InstantiateHead(rules[i], b);
    if fact.Failure? {
      return Failure(fact.error);
    }
    forall f | Concludes(rules[i], b, f) ensures f == fact.value {
      ConclusionUnique(rules[i], b, f, fact.value);
    }
    if !store.Contains(fact.value) && fact.value !in batch {
      assert Fires(rules, store.Facts(), fact.value);
      return Success(batch + [fact.value]);
    }
    return Success(batch);
  }

  /** One rule of a pass: appends its new conclusions, stops at the first unbound head variable. */
  method FireRule(rules: seq<Rule>, i: nat, store: G.GraphStore, soFar: seq<G.Fact>)
    returns (r: Result<seq<G.Fact>, EvalError>)
    requires store.Valid() && i < |rules| && GoodBatch(rules, store.Facts(), soFar)
    ensures r.Failure? <==> !HeadsBound([rules[i]], store.Facts())
    ensures r.Failure? ==> FirstUnbound(rules[i].head.args, BodyVars(rules[i].body), r.error)
    ensures r.Success? ==> soFar <= r.value && GoodBatch(rules, store.Facts(), r.value)
    ensures r.Success? ==> Covered(rules, i, store.Facts(), r.value)
  {
    ghost var facts := store.Facts();
    var rule, batch := rules[i], soFar;
    var bindings := SolveBody(rule.body, store);
    for j := 0 to |bindings|
      invariant soFar <= batch && GoodBatch(rules, facts, batch)
      invariant forall k :: 0 <= k < j ==> Handled(rule, bindings[k], facts, batch)
    {
      assert bindings[j] in bindings;
      var added := AddConclusion(rules, i, bindings[j], store, batch);
      if added.Failure? {
        assert rule in [rule] && HeadUnbound(rule, bindings[j]);
        return added;
      }
      forall k | 0 <= k < j ensures Handled(rule, bindings[k], facts, added.value) {
        assert Handled(rule, bindings[k], facts, batch);
      }
      batch := added.value;
    }
    forall b | Satisfies(b, rule.body, facts) ensures Handled(rule, b, facts, batch) {
      assert b in bindings;
      var k :| 0 <= k < |bindings| && bindings[k] == b;
    }
    return Success(batch);
  }

  /** Rule `i` is the first that fires with an open head, and `error` names the leftmost open variable. */
  ghost predicate FirstOpenRule(rules: seq<Rule>, i: nat, facts: set<G.Fact>, error: EvalError) {
    && i < |rules|
    && HeadsBound(rules[..i], facts)
    && !HeadsBound([rules[i]], facts)
    && FirstUnbound(rules[i].head.args, BodyVars(rules[i].body), error)
  }

  /** One pass over the rules: the new conclusions, or the first unbound head variable. */
  method CollectBatch(rules: seq<Rule>, store: G.GraphStore) returns (r: Result<seq<G.Fact>, EvalError>)
    requires store.Valid()
    ensures r.Failure? <==> !HeadsBound(rules, store.Facts())
    ensures r.Failure? ==> exists i :: FirstOpenRule(rules, i, store.Facts(), r.error)
    ensures r.Success? ==> GoodBatch(rules, store.Facts(), r.value)
    ensures r.Success? ==> forall f :: Fires(rules, store.Facts(), f) ==> f in store.Facts() || f in r.value
  {
    ghost var facts := store.Facts();
    var batch: seq<G.Fact> := [];
    for i := 0 to |rules|
      invariant GoodBatch(rules, facts, batch)
      invariant HeadsBound(rules[..i], facts)
      invariant forall k :: 0 <= k < i ==> Covered(rules, k, facts, batch)
    {
      var fired := FireRule(rules, i, store, batch);
      if fired.Failure? {
        assert FirstOpenRule(rules, i, facts, fired.error);
        return fired;
      }
      forall k | 0 <= k < i ensures Covered(rules, k, facts, fired.value) {
        assert Covered(rules, k, facts, batch);
      }
      batch := fired.value;
      assert rules[..i + 1] == rules[..i] + [rules[i]];
    }
    assert rules[..|rules|] == rules;
    forall f | Fires(rules, facts, f) ensures f in facts || f in batch {
      var k, b :| 0 <= k < |rules| && Satisfies(b, rules[k].body, facts) && Concludes(rules[k], b, f);
      assert Covered(rules, k, facts, batch);
    }
    return Success(batch);
  }

  // ----- passes, as sets -----

  /** One pass: everything that fires from `before` is added to it. */
  ghost predicate IsPass(rules: seq<Rule>, before: set<G.Fact>, after: set<G.Fact>) {
    forall f :: f in after <==> f in before || Fires(rules, before, f)
  }

  lemma PassUnique(rules: seq<Rule>, before: set<G.Fact>, f: set<G.Fact>, g: set<G.Fact>)
    requires IsPass(rules, before, f) && IsPass(rules, before, g)
    ensures f == g
  {}

  /** One pass that adds something. */
  ghost predicate Grows(rules: seq<Rule>, before: set<G.Fact>, after: set<G.Fact>) {
    IsPass(rules, before, after) && before != after
  }

  /** Each stage is one pass over the stage before it, and each pass adds something. */
  ghost predicate Stages(rules: seq<Rule>, stages: seq<set<G.Fact>>) {
    stages != [] && forall i :: 0 < i < |stages| ==> Grows(rules, stages[i - 1], stages[i])
  }

  /** `facts` is what `n` passes make of `start`, each of which adds something. */
  ghost predicate AfterPasses(rules: seq<Rule>, start: set<G.Fact>, n: nat, facts: set<G.Fact>) {
    exists stages :: Stages(rules, stages) && |stages| == n + 1 && stages[0] == start && stages[n] == facts
  }

  lemma {:induction false} StagesAgree(rules: seq<Rule>, s: seq<set<G.Fact>>, t: seq<set<G.Fact>>, n: nat)
    requires Stages(rules, s) && Stages(rules, t) && s[0] == t[0] && n < |s| && n < |t|
    ensures s[n] == t[n]
  {
    if n > 0 {
      StagesAgree(rules, s, t, n - 1);
      assert Grows(rules, s[n - 1], s[n]) && Grows(rules, t[n - 1], t[n]);
      PassUnique(rules, s[n - 1], s[n], t[n]);
    }
  }

  lemma StagesEnd(rules: seq<Rule>, s: seq<set<G.Fact>>, t: seq<set<G.Fact>>)
    requires Stages(rules, s) && Stages(rules, t) && s[0] == t[0]
    requires IsPass(rules, s[|s| - 1], s[|s| - 1])
    ensures |t| <= |s|
  {
    if |s| < |t| {
      StagesAgree(rules, s, t, |s| - 1);
      assert Grows(rules, t[|s| - 1], t[|s|]);
      PassUnique(rules, t[|s| - 1], t[|s| - 1], t[|s|]);
    }
  }

  lemma NoPasses(rules: seq<Rule>, start: set<G.Fact>)
    ensures AfterPasses(rules, start, 0, start)
  {
    assert Stages(rules, [start]);
  }

  lemma OneMorePass(rules: seq<Rule>, start: set<G.Fact>, n: nat, before: set<G.Fact>, after: set<G.Fact>)
    requires AfterPasses(rules, start, n, before) && Grows(rules, before, after)
    ensures AfterPasses(rules, start, n + 1, after)
  {
    var s :| Stages(rules, s) && |s| == n + 1 && s[0] == start && s[n] == before;
    assert Stages(rules, s + [after]);
  }

  /** Two facts of one predicate with different arities: one in the store, one fired. */
  ghost predicate Clash(rules: seq<Rule>, before: set<G.Fact>, facts: set<G.Fact>, error: EvalError) {
    && error.GraphFailure?
    && error.error.expected != error.error.got
    && (exists f :: Fires(rules, before, f) && f.pred == error.error.pred && |f.args| == error.error.got)
    && exists g :: g in facts && g.pred == error.error.pred && |g.args| == error.error.expected
  }

  /** A pass from `before` that got as far as `facts`. */
  ghost predicate PartOfPass(rules: seq<Rule>, before: set<G.Fact>, facts: set<G.Fact>) {
    before <= facts && forall f :: f in facts ==> f in before || Fires(rules, before, f)
  }

  /** What an error of `evaluate` says about the last pass, which started from `before` and left `facts`. */
  ghost predicate Explains(rules: seq<Rule>, before: set<G.Fact>, facts: set<G.Fact>, error: EvalError) {
    match error
    case UnboundHeadVar(_) => facts == before && exists i :: FirstOpenRule(rules, i, before, error)
    case GraphFailure(_) =>
      HeadsBound(rules, before) && PartOfPass(rules, before, facts) && Clash(rules, before, facts, error)
  }

  ghost predicate Explained(rules: seq<Rule>, start: set<G.Fact>, facts: set<G.Fact>, error: EvalError) {
    exists n, before :: AfterPasses(rules, start, n, before) && Explains(rules, before, facts, error)
  }

  /** Pass `n` is the first to add nothing, and `facts` is what it found. */
  ghost predicate LastPass(rules: seq<Rule>, start: set<G.Fact>, n: nat, facts: set<G.Fact>) {
    n >= 1 && AfterPasses(rules, start, n - 1, facts) && IsPass(rules, facts, facts)
  }

  /** Which pass is the first to add nothing is fixed by rules and start facts, and so is the result. */
  lemma LastPassUnique(rules: seq<Rule>, start: set<G.Fact>, n: nat, f: set<G.Fact>, m: nat, g: set<G.Fact>)
    requires LastPass(rules, start, n, f) && LastPass(rules, start, m, g)
    ensures n == m && f == g
  {
    var s :| Stages(rules, s) && |s| == n && s[0] == start && s[n - 1] == f;
    var t :| Stages(rules, t) && |t| == m && t[0] == start && t[m - 1] == g;
    StagesEnd(rules, s, t);
    StagesEnd(rules, t, s);
    StagesAgree(rules, s, t, n - 1);
  }

  /** The facts a successful run can end in: closed, with every head bound and one arity per predicate. */
  ghost predicate IsModel(rules: seq<Rule>, start: set<G.Fact>, m: set<G.Fact>) {
    start <= m && Closed(rules, m) && HeadsBound(rules, m) && G.ArityConsistent(m)
  }

  lemma BatchBelowClosed(rules: seq<Rule>, facts: set<G.Fact>, m: set<G.Fact>, f: G.Fact)
    requires facts <= m && Closed(rules, m) && Fires(rules, facts, f)
    ensures f in m
  {}

  lemma BatchInUniverse(rules: seq<Rule>, start: set<G.Fact>, facts: set<G.Fact>, f: G.Fact)
    requires facts <= start + Base(rules, Domain(rules, start)) && Fires(rules, facts, f)
    ensures f in Base(rules, Domain(rules, start))
  {
    var i, b :| 0 <= i < |rules| && Satisfies(b, rules[i].body, facts) && Concludes(rules[i], b, f);
    ConclusionInBase(rules, start, facts, rules[i], b, f);
  }

  /** What every moment of a run keeps: all facts are ranked, in the universe and in every closed superset. */
  ghost predicate Sound(rules: seq<Rule>, start: set<G.Fact>, facts: set<G.Fact>, rank: map<G.Fact, nat>) {
    && Ranked(rules, start, facts, rank)
    && facts <= start + Base(rules, Domain(rules, start))
    && BelowEveryClosed(rules, start, facts)
  }

  ghost predicate BelowEveryClosed(rules: seq<Rule>, start: set<G.Fact>, facts: set<G.Fact>) {
    forall m :: start <= m && Closed(rules, m) ==> facts <= m
  }

  /** Inside iteration `n`: the facts of lower rank are those the iteration started from. */
  ghost predicate RankedFrom(rank: map<G.Fact, nat>, n: nat, before: set<G.Fact>) {
    forall g :: g in rank ==> rank[g] <= n && (rank[g] < n <==> g in before)
  }

  /** Adding a fact fired by the facts the iteration started from keeps a run sound. */
  lemma RankedStep(rules: seq<Rule>, start: set<G.Fact>, rank: map<G.Fact, nat>, n: nat, before: set<G.Fact>, f: G.Fact)
    requires Ranked(rules, start, rank.Keys, rank) && RankedFrom(rank, n, before)
    requires n > 0 && before <= rank.Keys && f !in rank && Fires(rules, before, f)
    ensures Ranked(rules, start, rank.Keys + {f}, rank[f := n]) && RankedFrom(rank[f := n], n, before)
  {
    var next := rank[f := n];
    assert Below(next, n) == before;
    assert DerivedEarlier(rules, next, f);
    forall g | g in rank.Keys - start ensures DerivedEarlier(rules, next, g) {
      var i, b :| 0 <= i < |rules| && Satisfies(b, rules[i].body, Below(rank, rank[g])) && Concludes(rules[i], b, g);
      SatisfiesMonotone(b, rules[i].body, Below(rank, rank[g]), Below(next, next[g]));
    }
  }

  lemma SoundStep(rules: seq<Rule>, start: set<G.Fact>, facts: set<G.Fact>, rank: map<G.Fact, nat>,
                  n: nat, before: set<G.Fact>, f: G.Fact)
    requires Sound(rules, start, facts, rank) && RankedFrom(rank, n, before)
    requires n > 0 && before <= facts && f !in facts && Fires(rules, before, f)
    ensures Sound(rules, start, facts + {f}, rank[f := n]) && RankedFrom(rank[f := n], n, before)
  {
    RankedStep(rules, start, rank, n, before, f);
    BatchInUniverse(rules, start, before, f);
    forall m | start <= m && Closed(rules, m) ensures f in m {
      BatchBelowClosed(rules, before, m, f);
    }
  }

  /** A batch fact that clashes in arity with a derived one shows that no model exists. */
  lemma NoModelIfMismatch(rules: seq<Rule>, start: set<G.Fact>, before: set<G.Fact>, facts: set<G.Fact>, f: G.Fact)
    requires BelowEveryClosed(rules, start, facts) && before <= facts && Fires(rules, before, f)
    requires exists g :: g in facts && g.pred == f.pred && |g.args| != |f.args|
    ensures forall m :: !IsModel(rules, start, m)
  {}

  /** Iteration `n`, begun from `before`, after `done` insertions. */
  ghost predicate Inserted(rules: seq<Rule>, start: set<G.Fact>, rank: map<G.Fact, nat>, n: nat, before: set<G.Fact>,
                           done: nat, facts: set<G.Fact>)
  {
    && Sound(rules, start, facts, rank) && RankedFrom(rank, n, before)
    && PartOfPass(rules, before, facts) && |facts| == |before| + done
  }

  lemma InsertedStep(rules: seq<Rule>, start: set<G.Fact>, rank: map<G.Fact, nat>, n: nat, before: set<G.Fact>,
                     done: nat, facts: set<G.Fact>, f: G.Fact)
    requires Inserted(rules, start, rank, n, before, done, facts)
    requires n > 0 && f !in facts && Fires(rules, before, f)
    ensures Inserted(rules, start, rank[f := n], n, before, done + 1, facts + {f})
  {
    SoundStep(rules, start, facts, rank, n, before, f);
  }

  /** The first `i` facts of the batch are present and no others. */
  ghost predicate SplitAt(batch: seq<G.Fact>, i: nat, facts: set<G.Fact>)
    requires i <= |batch|
  {
    && (forall k :: 0 <= k < i ==> batch[k] in facts)
    && forall k :: i <= k < |batch| ==> batch[k] !in facts
  }

  lemma SplitStep(batch: seq<G.Fact>, i: nat, facts: set<G.Fact>)
    requires i < |batch| && G.Distinct(batch) && SplitAt(batch, i, facts)
    ensures batch[i] !in facts && SplitAt(batch, i + 1, facts + {batch[i]})
  {}

  /** A pass that stopped at an arity mismatch. */
  ghost predicate Stopped(rules: seq<Rule>, start: set<G.Fact>, before: set<G.Fact>, facts: set<G.Fact>, error: EvalError) {
    PartOfPass(rules, before, facts) && Clash(rules, before, facts, error) && forall m :: !IsModel(rules, start, m)
  }

  lemma StopsAtMismatch(rules: seq<Rule>, start: set<G.Fact>, before: set<G.Fact>, facts: set<G.Fact>, f: G.Fact,
                        error: G.GraphError)
    requires BelowEveryClosed(rules, start, facts) && PartOfPass(rules, before, facts) && Fires(rules, before, f)
    requires error.pred == f.pred && error.got == |f.args| && error.expected != error.got
    requires exists g :: g in facts && g.pred == f.pred && |g.args| == error.expected
    ensures Stopped(rules, start, before, facts, GraphFailure(error))
  {
    NoModelIfMismatch(rules, start, before, facts, f);
  }

  /** One insertion of a batch. */
  method InsertOne(rules: seq<Rule>, store: G.GraphStore, f: G.Fact, ghost start: set<G.Fact>,
                   ghost rank: map<G.Fact, nat>, ghost n: nat, ghost before: set<G.Fact>, ghost done: nat)
    returns (r: Result<bool, EvalError>)
    requires store.Valid() && f !in store.Facts() && n > 0 && Fires(rules, before, f)
    requires Inserted(rules, start, rank, n, before, done, store.Facts())
    modifies store
    ensures store.Valid()
    ensures r.Success? ==> r.value && store.Facts() == old(store.Facts()) + {f}
    ensures r.Success? ==> Inserted(rules, start, rank[f := n], n, before, done + 1, store.Facts())
    ensures r.Failure? ==> store.Facts() == old(store.Facts()) && Stopped(rules, start, before, store.Facts(), r.error)
  {
    ghost var previous := store.Facts();
    var inserted := store.Insert(f);
    if inserted.Failure? {
      assert store.Facts() == previous;
      store.ArityHasFact(f.pred);
      StopsAtMismatch(rules, start, before, previous, f, inserted.error);
      return Failure(GraphFailure(inserted.error));
    }
    InsertedStep(rules, start, rank, n, before, done, previous, f);
    return Success(inserted.value);
  }

  /** Inserts a batch in order; stops at the first arity mismatch, with the facts before it in place. */
  method InsertBatch(rules: seq<Rule>, store: G.GraphStore, batch: seq<G.Fact>,
                     ghost start: set<G.Fact>, ghost rank: map<G.Fact, nat>, ghost n: nat)
    returns (r: Result<nat, EvalError>, ghost rank': map<G.Fact, nat>)
    requires store.Valid() && GoodBatch(rules, store.Facts(), batch)
    requires Sound(rules, start, store.Facts(), rank) && n > 0 && RankedFrom(rank, n, store.Facts())
    modifies store
    ensures store.Valid() && old(store.Facts()) <= store.Facts()
    ensures Sound(rules, start, store.Facts(), rank') && RankedFrom(rank', n, old(store.Facts()))
    ensures r.Success? ==> r.value == |batch| == |store.Facts()| - |old(store.Facts())|
    ensures r.Success? ==> PartOfPass(rules, old(store.Facts()), store.Facts())
    ensures r.Success? ==> SplitAt(batch, |batch|, store.Facts())
    ensures r.Failure? ==> Stopped(rules, start, old(store.Facts()), store.Facts(), r.error)
  {
    ghost var before := store.Facts();
    var added := 0;
    rank' := rank;
    for i := 0 to |batch|
      invariant store.Valid()
      invariant SplitAt(batch, i, store.Facts())
      invariant Inserted(rules, start, rank', n, before, i, store.Facts())
      invariant added == i
    {
      var f := batch[i];
      assert f in batch;
      SplitStep(batch, i, store.Facts());
      var inserted := InsertOne(rules, store, f, start, rank', n, before, i);
      if inserted.Failure? {
        return Failure(inserted.error), rank';
      }
      if inserted.value {
        added := added + 1;
      }
      rank' := rank'[f := n];
    }
    return Success(added), rank';
  }

  /**
   `evaluate`. It succeeds exactly when some model exists and then leaves the least one; it always
   terminates; whatever it adds, also on failure, follows from the start facts.
   */
  method Evaluate(rules: seq<Rule>, store: G.GraphStore)
    returns (r: Result<EvalStats, EvalError>, ghost rank: map<G.Fact, nat>)
    requires store.Valid()
    modifies store
    ensures store.Valid()
    ensures r.Success? <==> exists m :: IsModel(rules, old(store.Facts()), m)
    ensures r.Success? ==> IsModel(rules, old(store.Facts()), store.Facts())
    ensures r.Success? ==> IsLeastModel(rules, old(store.Facts()), store.Facts())
    ensures r.Success? ==>
              && r.value.derived == |store.Facts()| - |old(store.Facts())|
              && 1 <= r.value.iterations <= r.value.derived + 1
              && LastPass(rules, old(store.Facts()), r.value.iterations, store.Facts())
              && r.value.derived <= BaseBound(rules, |Domain(rules, old(store.Facts()))|)
              && forall f :: f in rank ==> rank[f] < r.value.iterations
    ensures r.Failure? ==> Explained(rules, old(store.Facts()), store.Facts(), r.error)
    ensures BelowEveryClosed(rules, old(store.Facts()), store.Facts())
    ensures Ranked(rules, old(store.Facts()), store.Facts(), rank)
  {
    ghost var start := store.Facts();
    ghost var universe := start + Base(rules, Domain(rules, start));
    rank := map f | f in start :: 0;
    var derived, iterations := 0, 0;
    NoPasses(rules, start);
    while true
      invariant store.Valid()
      invariant Sound(rules, start, store.Facts(), rank)
      invariant forall f :: f in rank ==> rank[f] <= iterations
      invariant derived == |store.Facts()| - |start| && iterations <= derived
      invariant AfterPasses(rules, start, iterations, store.Facts())
      decreases |universe| - |store.Facts()|
    {
      SubsetSize(store.Facts(), universe);
      ghost var before := store.Facts();
      iterations := iterations + 1;
      var collected := CollectBatch(rules, store);
      if collected.Failure? {
        NoModelIfUnbound(rules, start, store.Facts());
        UnboundExplains(rules, before, collected.error);
        return Failure(collected.error), rank;
      }
      if collected.value == [] {
        assert LastPass(rules, start, iterations, store.Facts());
        ClosedAtFixpoint(rules, store.Facts());
        StoreArityConsistent(store);
        GrowthBounded(rules, start, store.Facts());
        assert IsModel(rules, start, store.Facts());
        return Success(EvalStats(derived, iterations)), rank;
      }
      var inserted;
      inserted, rank := InsertBatch(rules, store, collected.value, start, rank, iterations);
      if inserted.Failure? {
        assert Explains(rules, before, store.Facts(), inserted.error);
        return Failure(inserted.error), rank;
      }
      PassAdds(rules, start, iterations, before, collected.value, store.Facts());
      SubsetSize(store.Facts(), universe);
      derived := derived + inserted.value;
    }
  }

  lemma UnboundExplains(rules: seq<Rule>, before: set<G.Fact>, error: EvalError)
    requires exists i :: FirstOpenRule(rules, i, before, error)
    ensures Explains(rules, before, before, error)
  {}

  lemma PassAdds(rules: seq<Rule>, start: set<G.Fact>, n: nat, before: set<G.Fact>, batch: seq<G.Fact>, after: set<G.Fact>)
    requires n > 0 && AfterPasses(rules, start, n - 1, before)
    requires GoodBatch(rules, before, batch) && batch != [] && PartOfPass(rules, before, after)
    requires SplitAt(batch, |batch|, after)
    requires forall f :: Fires(rules, before, f) ==> f in before || f in batch
    ensures AfterPasses(rules, start, n, after)
  {
    assert batch[0] in after && batch[0] in batch && batch[0] !in before;
    OneMorePass(rules, start, n - 1, before, after);
  }

  lemma NoModelIfUnbound(rules: seq<Rule>, start: set<G.Fact>, facts: set<G.Fact>)
    requires BelowEveryClosed(rules, start, facts) && !HeadsBound(rules, facts)
    ensures forall m :: !IsModel(rules, start, m)
  {}

  lemma GrowthBounded(rules: seq<Rule>, start: set<G.Fact>, facts: set<G.Fact>)
    requires start <= facts <= start + Base(rules, Domain(rules, start))
    ensures |facts| - |start| <= BaseBound(rules, |Domain(rules, start)|)
  {
    var base := Base(rules, Domain(rules, start));
    SubsetSize(facts - start, base);
    BaseSize(rules, Domain(rules, start));
    assert facts == start + (facts - start);
  }

  lemma SubsetSize<T>(a: set<T>, b: set<T>)
    requires a <= b
    ensures |a| <= |b|
  {
    assert b == a + (b - a);
  }

  lemma ClosedAtFixpoint(rules: seq<Rule>, facts: set<G.Fact>)
    requires forall f :: Fires(rules, facts, f) ==> f in facts
    ensures Closed(rules, facts)
  {}

  lemma StoreArityConsistent(store: G.GraphStore)
    requires store.Valid()
    ensures G.ArityConsistent(store.Facts())
  {}

  /** Every head variable of a rule occurs in its body. */
  ghost predicate RangeRestricted(rules: seq<Rule>) {
    forall r :: r in rules ==> AtomVars(r.head) <= BodyVars(r.body)
  }

  /** A predicate has one arity over all rule heads and start facts. */
  ghost predicate OneArity(rules: seq<Rule>, start: set<G.Fact>) {
    && G.ArityConsistent(start)
    && (forall r, s :: r in rules && s in rules && r.head.pred == s.head.pred ==> |r.head.args| == |s.head.args|)
    && forall r, f :: r in rules && f in start && r.head.pred == f.pred ==> |r.head.args| == |f.args|
  }

  /** Two checks on the program text are enough for `evaluate` to succeed: the whole universe is a model. */
  lemma WellFormedProgramHasModel(rules: seq<Rule>, start: set<G.Fact>)
    requires RangeRestricted(rules) && OneArity(rules, start)
    ensures IsModel(rules, start, start + Base(rules, Domain(rules, start)))
  {
    var domain := Domain(rules, start);
    var all := start + Base(rules, domain);
    forall r, b, f | r in rules && Satisfies(b, r.body, all) && Concludes(r, b, f) ensures f in all {
      ConclusionInBase(rules, start, all, r, b, f);
    }
    forall r, b | r in rules && Satisfies(b, r.body, all) ensures !HeadUnbound(r, b) {
      assert forall t :: t in r.head.args && t.Var? ==> t.name in AtomVars(r.head);
    }
    forall f | f in Base(rules, domain) ensures exists r :: r in rules && r.head.pred == f.pred && |r.head.args| == |f.args| {
      var r :| r in rules && f in HeadFacts(r, domain);
      TupleLength(domain, |r.head.args|, f.args);
    }
  }

  /** A second run adds nothing and stops after one iteration. */
  method EvaluateTwice(rules: seq<Rule>, store: G.GraphStore) returns (first: Result<EvalStats, EvalError>, second: Result<EvalStats, EvalError>)
    requires store.Valid()
    modifies store
    ensures store.Valid()
    ensures first.Success? ==> second == Success(EvalStats(0, 1))
    ensures first.Success? ==> IsLeastModel(rules, old(store.Facts()), store.Facts())
  {
    ghost var start := store.Facts();
    ghost var rank;
    first, rank := Evaluate(rules, store);
    if first.Success? {
      second := EvaluateModel(rules, store);
    } else {
      second, rank := Evaluate(rules, store);
    }
  }

  /**
   Evaluating, adding facts and evaluating again succeeds throughout exactly when one evaluation of the union would, and
   then leaves what that would leave.
   */
  method EvaluateAddEvaluate(rules: seq<Rule>, store: G.GraphStore, added: seq<G.Fact>) returns (ok: bool)
    requires store.Valid()
    modifies store
    ensures store.Valid()
    ensures ok <==> exists m :: IsModel(rules, old(store.Facts()) + Elements(added), m)
    ensures ok ==> IsLeastModel(rules, old(store.Facts()) + Elements(added), store.Facts())
  {
    ghost var start := store.Facts();
    ghost var all := start + Elements(added);
    var r, rank := Evaluate(rules, store);
    ModelOfFewer(rules, start, all);
    if r.Failure? {
      return false;
    }
    ghost var first := store.Facts();
    var inserted := InsertAll(store, added);
    if !inserted {
      NoModelOfClash(rules, start, first, Elements(added));
      return false;
    }
    r, rank := Evaluate(rules, store);
    ModelOfUnion(rules, start, first, Elements(added));
    return r.Success?;
  }

  ghost function Elements(facts: seq<G.Fact>): set<G.Fact> {
    set f | f in facts
  }

  /** Inserts facts until one has a second arity. */
  method InsertAll(store: G.GraphStore, added: seq<G.Fact>) returns (ok: bool)
    requires store.Valid()
    modifies store
    ensures store.Valid()
    ensures ok ==> store.Facts() == old(store.Facts()) + Elements(added)
    ensures !ok ==> !G.ArityConsistent(old(store.Facts()) + Elements(added))
  {
    ghost var before := store.Facts();
    for i := 0 to |added|
      invariant store.Valid() && store.Facts() == before + Elements(added[..i])
    {
      assert added[..i + 1] == added[..i] + [added[i]];
      var r := store.Insert(added[i]);
      if r.Failure? {
        ghost var g :| g in before + Elements(added[..i]) && g.pred == added[i].pred && |g.args| != |added[i].args|;
        assert g in before + Elements(added) && added[i] in before + Elements(added);
        return false;
      }
    }
    assert added[..|added|] == added;
    return true;
  }

  lemma ModelOfFewer(rules: seq<Rule>, few: set<G.Fact>, many: set<G.Fact>)
    requires few <= many
    ensures forall m :: IsModel(rules, many, m) ==> IsModel(rules, few, m)
  {}

  lemma NoModelOfClash(rules: seq<Rule>, start: set<G.Fact>, first: set<G.Fact>, added: set<G.Fact>)
    requires IsLeastModel(rules, start, first) && !G.ArityConsistent(first + added)
    ensures forall m :: !IsModel(rules, start + added, m)
  {
    forall m | start + added <= m && Closed(rules, m) ensures first + added <= m {
      assert start <= m;
    }
  }

  /** The union has a model exactly if the first result with the added facts has; and they have the same least one. */
  lemma ModelOfUnion(rules: seq<Rule>, start: set<G.Fact>, first: set<G.Fact>, added: set<G.Fact>)
    requires IsLeastModel(rules, start, first)
    ensures forall m :: IsModel(rules, start + added, m) <==> IsModel(rules, first + added, m)
    ensures forall m :: IsLeastModel(rules, first + added, m) ==> IsLeastModel(rules, start + added, m)
  {
    forall m ensures IsModel(rules, start + added, m) <==> IsModel(rules, first + added, m) {
      if IsModel(rules, start + added, m) {
        assert start <= m && Closed(rules, m);
        assert first + added <= m;
      }
      if IsModel(rules, first + added, m) {
        assert start + added <= m;
      }
    }
    forall m | IsLeastModel(rules, first + added, m) ensures IsLeastModel(rules, start + added, m) {
      forall n | start + added <= n && Closed(rules, n) ensures m <= n {
        assert start <= n;
        assert first + added <= n;
      }
    }
  }

  /** A run over a model. */
  method EvaluateModel(rules: seq<Rule>, store: G.GraphStore) returns (r: Result<EvalStats, EvalError>)
    requires store.Valid() && IsModel(rules, store.Facts(), store.Facts())
    modifies store
    ensures store.Valid() && store.Facts() == old(store.Facts()) && r == Success(EvalStats(0, 1))
  {
    ghost var facts := store.Facts();
    ghost var rank;
    r, rank := Evaluate(rules, store);
    ModelStays(rules, facts, store.Facts());
  }

  lemma ModelStays(rules: seq<Rule>, facts: set<G.Fact>, after: set<G.Fact>)
    requires Closed(rules, facts) && facts <= after && BelowEveryClosed(rules, facts, after)
    ensures after == facts
  {}
}
