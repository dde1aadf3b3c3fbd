/** The provenance tracer of crates/aa-rules/src/trace.rs, and what it says about an evaluated store. */
module Trace {
  import opened Wrappers
  import G = Graph
  import opened Datalog
  import opened Evaluator

  /** One rule activation: the head it concludes and the body atoms it rests on. */
  datatype Derivation = Derivation(ruleIndex: nat, headName: string, head: G.Fact, premises: seq<G.Fact>)

  function PremiseArg(t: Term, b: Binding): string {
    match t
    case Const(c) => c
    case Var(v) => if v in b then b[v] else "?" + v
  }

  function InstantiateBodyAtom(atom: Atom, b: Binding): G.Fact {
    G.Fact(atom.pred, seq(|atom.args|, i requires 0 <= i < |atom.args| => PremiseArg(atom.args[i], b)), G.Observed)
  }

  function Premises(body: seq<Atom>, b: Binding): seq<G.Fact> {
    seq(|body|, i requires 0 <= i < |body| => InstantiateBodyAtom(body[i], b))
  }

  /** `d` is the activation of one of `rules` under a binding that satisfies its body. */
  ghost predicate Activation(rules: seq<Rule>, facts: set<G.Fact>, d: Derivation) {
    exists b :: ActivationUnder(rules, facts, d, b)
  }

  ghost predicate ActivationUnder(rules: seq<Rule>, facts: set<G.Fact>, d: Derivation, b: Binding) {
    && d.ruleIndex < |rules|
    && Satisfies(b, rules[d.ruleIndex].body, facts)
    && Concludes(rules[d.ruleIndex], b, d.head)
    && d.headName == rules[d.ruleIndex].head.pred
    && d.premises == Premises(rules[d.ruleIndex].body, b)
  }

  /** `trace_derivations`: every activation, and nothing else; activations with an unbound head are skipped. */
  method TraceDerivations(rules: seq<Rule>, store: G.GraphStore) returns (out: seq<Derivation>)
    requires store.Valid()
    ensures forall d :: d in out <==> Activation(rules, store.Facts(), d)
  {
    ghost var facts := store.Facts();
    out := [];
    for i := 0 to |rules|
      invariant forall d :: d in out <==> Activation(rules, facts, d) && d.ruleIndex < i
    {
      var some := TraceRule(rules, i, store);
      out := out + some;
    }
  }

  method TraceRule(rules: seq<Rule>, i: nat, store: G.GraphStore) returns (out: seq<Derivation>)
    requires store.Valid() && i < |rules|
    ensures forall d :: d in out <==> Activation(rules, store.Facts(), d) && d.ruleIndex == i
  {
    ghost var facts := store.Facts();
    var bindings := SolveBody(rules[i].body, store);
    out := [];
    for j := 0 to |bindings|
      invariant forall d :: d in out ==> Activation(rules, facts, d) && d.ruleIndex == i
      invariant forall k, d: Derivation :: 0 <= k < j && d.ruleIndex == i && ActivationUnder(rules, facts, d, bindings[k]) ==> d in out
    {
      assert bindings[j] in bindings;
      var some := TraceBinding(rules, i, bindings[j], facts);
      out := out + some;
    }
    forall d | Activation(rules, facts, d) && d.ruleIndex == i ensures d in out {
      var b :| ActivationUnder(rules, facts, d, b);
      assert b in bindings;
    }
  }

  method TraceBinding(rules: seq<Rule>, i: nat, b: Binding, ghost facts: set<G.Fact>) returns (out: seq<Derivation>)
    requires i < |rules| && Satisfies(b, rules[i].body, facts)
    ensures forall d :: d in out <==> d.ruleIndex == i && ActivationUnder(rules, facts, d, b)
  {
    var rule := rules[i];
    var head := InstantiateHead(rule, b);
    if head.Failure? {
      UnboundConcludesNothing(rule, b);
      return [];
    }
    forall f | Concludes(rule, b, f) ensures f == head.value {
      ConclusionUnique(rule, b, f, head.value);
    }
    return [Derivation(i, rule.head.pred, head.value, Premises(rule.body, b))];
  }

  lemma UnboundConcludesNothing(rule: Rule, b: Binding)
    requires HeadUnbound(rule, b)
    ensures forall f :: !Concludes(rule, b, f)
  {}

  /** `p` is in `facts`, except that the tracer always writes the layer Observed. */
  ghost predicate PresentUpToLayer(p: G.Fact, facts: set<G.Fact>) {
    exists f :: f in facts && f.pred == p.pred && f.args == p.args
  }

  lemma PremisesPresent(body: seq<Atom>, b: Binding, facts: set<G.Fact>)
    requires Satisfies(b, body, facts)
    ensures |Premises(body, b)| == |body|
    ensures forall p :: p in Premises(body, b) ==> PresentUpToLayer(p, facts)
  {
    forall p | p in Premises(body, b) ensures PresentUpToLayer(p, facts) {
      var i :| 0 <= i < |body| && p == InstantiateBodyAtom(body[i], b);
      assert AtomHolds(body[i], b, facts);
      var f :| f in facts && f.pred == body[i].pred && Grounds(body[i].args, b, f.args);
      forall k | 0 <= k < |f.args| ensures f.args[k] == p.args[k] {
        assert TermIs(body[i].args[k], f.args[k], b);
      }
      assert f.args == p.args;
    }
  }

  /**
   After a successful `evaluate`, the trace is sound: each traced head and each premise is in the store.
   It is also complete: each added fact has a traced derivation whose premises all appeared in a strictly
   earlier iteration.
   */
  lemma ProvenanceWellFounded(rules: seq<Rule>, start: set<G.Fact>, facts: set<G.Fact>,
                              rank: map<G.Fact, nat>, trace: seq<Derivation>)
    requires Closed(rules, facts) && Ranked(rules, start, facts, rank)
    requires forall d :: d in trace <==> Activation(rules, facts, d)
    ensures forall d :: d in trace ==> d.head in facts && forall p :: p in d.premises ==> PresentUpToLayer(p, facts)
    ensures forall f :: f in facts - start ==>
                          exists d :: d in trace && d.head == f
                                      && forall p :: p in d.premises ==> PresentUpToLayer(p, Below(rank, rank[f]))
  {
    forall d | d in trace ensures d.head in facts && forall p :: p in d.premises ==> PresentUpToLayer(p, facts) {
      var b :| ActivationUnder(rules, facts, d, b);
      PremisesPresent(rules[d.ruleIndex].body, b, facts);
    }
    forall f | f in facts - start
      ensures exists d :: d in trace && d.head == f
                          && forall p :: p in d.premises ==> PresentUpToLayer(p, Below(rank, rank[f]))
    {
      assert DerivedEarlier(rules, rank, f);
      var earlier := Below(rank, rank[f]);
      var i, b :| 0 <= i < |rules| && Satisfies(b, rules[i].body, earlier) && Concludes(rules[i], b, f);
      SatisfiesMonotone(b, rules[i].body, earlier, facts);
      PremisesPresent(rules[i].body, b, earlier);
      var d := Derivation(i, rules[i].head.pred, f, Premises(rules[i].body, b));
      assert ActivationUnder(rules, facts, d, b);
    }
  }

  // ----- finite proof trees -----

  /** A proof: a given fact, or a rule applied under a binding to one proof per body atom. */
  datatype Proof = Given(fact: G.Fact) | ByRule(rule: nat, binding: Binding, fact: G.Fact, children: seq<Proof>)

  ghost predicate ValidProof(p: Proof, rules: seq<Rule>, start: set<G.Fact>) {
    match p
    case Given(f) => f in start
    case ByRule(i, b, f, children) =>
      && i < |rules|
      && b.Keys == BodyVars(rules[i].body)
      && Concludes(rules[i], b, f)
      && |children| == |rules[i].body|
      && (forall k :: 0 <= k < |children| ==>
                        && ValidProof(children[k], rules, start)
                        && children[k].fact.pred == rules[i].body[k].pred
                        && Grounds(rules[i].body[k].args, b, children[k].fact.args))
  }

  /** What has a proof is in every closed set above the start facts. */
  lemma {:induction false} ProofSound(p: Proof, rules: seq<Rule>, start: set<G.Fact>, m: set<G.Fact>)
    requires ValidProof(p, rules, start) && start <= m && Closed(rules, m)
    ensures p.fact in m
  {
    if p.ByRule? {
      var body := rules[p.rule].body;
      forall a | a in body ensures AtomHolds(a, p.binding, m) {
        var k :| 0 <= k < |body| && body[k] == a;
        ProofSound(p.children[k], rules, start, m);
      }
    }
  }

  /** Ranks unfold into proofs. */
  lemma {:induction false} RankedHasProof(rules: seq<Rule>, start: set<G.Fact>, facts: set<G.Fact>,
                                          rank: map<G.Fact, nat>, f: G.Fact) returns (p: Proof)
    requires Ranked(rules, start, facts, rank) && f in facts
    ensures ValidProof(p, rules, start) && p.fact == f
    decreases rank[f], 0
  {
    if f in start {
      return Given(f);
    }
    assert DerivedEarlier(rules, rank, f);
    var i, b :| 0 <= i < |rules| && Satisfies(b, rules[i].body, Below(rank, rank[f])) && Concludes(rules[i], b, f);
    var children := BodyProofs(rules, start, facts, rank, f, b, rules[i].body);
    p := ByRule(i, b, f, children);
  }

  lemma {:induction false} BodyProofs(rules: seq<Rule>, start: set<G.Fact>, facts: set<G.Fact>, rank: map<G.Fact, nat>,
                                      f: G.Fact, b: Binding, body: seq<Atom>) returns (children: seq<Proof>)
    requires Ranked(rules, start, facts, rank) && f in facts
    requires forall a :: a in body ==> AtomHolds(a, b, Below(rank, rank[f]))
    ensures |children| == |body|
    ensures forall k :: 0 <= k < |children| ==>
                          && ValidProof(children[k], rules, start)
                          && children[k].fact.pred == body[k].pred
                          && Grounds(body[k].args, b, children[k].fact.args)
    decreases rank[f], 0, |body|
  {
    if body == [] {
      return [];
    }
    assert AtomHolds(body[0], b, Below(rank, rank[f]));
    var g :| g in Below(rank, rank[f]) && g.pred == body[0].pred && Grounds(body[0].args, b, g.args);
    var first := RankedHasProof(rules, start, facts, rank, g);
    var rest := BodyProofs(rules, start, facts, rank, f, b, body[1..]);
    children := [first] + rest;
  }

  /** The least model is exactly the set of facts with a finite proof. */
  lemma LeastModelIsProvable(rules: seq<Rule>, start: set<G.Fact>, facts: set<G.Fact>, rank: map<G.Fact, nat>)
    requires IsLeastModel(rules, start, facts) && Ranked(rules, start, facts, rank)
    ensures forall f :: f in facts <==> exists p :: ValidProof(p, rules, start) && p.fact == f
  {
    forall f | f in facts ensures exists p :: ValidProof(p, rules, start) && p.fact == f {
      var p := RankedHasProof(rules, start, facts, rank, f);
    }
    forall p | ValidProof(p, rules, start) ensures p.fact in facts {
      ProofSound(p, rules, start, facts);
    }
  }

  /** `evaluate` followed by `trace_derivations`: the explainer's use of both. */
  method EvaluateAndTrace(rules: seq<Rule>, store: G.GraphStore)
    returns (r: Result<EvalStats, EvalError>, trace: seq<Derivation>, ghost rank: map<G.Fact, nat>)
    requires store.Valid()
    modifies store
    ensures store.Valid()
    ensures Ranked(rules, old(store.Facts()), store.Facts(), rank)
    ensures r.Success? ==> forall f :: f in store.Facts() - old(store.Facts()) ==>
                             exists d :: d in trace && d.head == f
                                         && forall p :: p in d.premises ==> PresentUpToLayer(p, Below(rank, rank[f]))
    ensures r.Success? ==> forall d :: d in trace ==> d.head in store.Facts()
    ensures r.Success? ==> forall f :: f in store.Facts() <==>
                             exists p :: ValidProof(p, rules, old(store.Facts())) && p.fact == f
  {
    ghost var start := store.Facts();
    r, rank := Evaluate(rules, store);
    trace := TraceDerivations(rules, store);
    if r.Success? {
      ProvenanceWellFounded(rules, start, store.Facts(), rank, trace);
      LeastModelIsProvable(rules, start, store.Facts(), rank);
    }
  }
}
