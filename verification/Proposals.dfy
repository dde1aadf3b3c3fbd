/**
 What proposed facts do to a store: resolving and inserting candidates, as crates/aa-llm/src/propose.rs and
 crates/aa-llm/src/refine.rs both do. A proposal can only add candidate facts about known entities.
 */
module Proposals {
  import opened Wrappers
  import opened Graph
  import opened ContextWalk
  import opened Text

  datatype Proposal = Proposal(pred: string, args: seq<string>, justification: string)

  datatype Reason = EmptyArgs | NotLowercase | UnknownId(id: string) | Arity(error: GraphError)

  datatype Outcome = Outcome(proposal: Proposal, reason: Option<Reason>) {
    predicate Accepted() {
      reason.None?
    }
  }

  /** The contents of a store. */
  datatype Store = Store(buckets: Buckets, arities: map<string, nat>) {
    ghost predicate Sound() {
      buckets.Keys == arities.Keys && forall p :: p in buckets ==> GoodBucket(p, buckets[p], arities[p])
    }

    function Bucket(p: string): seq<Fact> {
      BucketOf(buckets, p)
    }

    ghost predicate Has(f: Fact) {
      f in Bucket(f.pred)
    }

    function Inserted(f: Fact): Store {
      Store(buckets[f.pred := if f in Bucket(f.pred) then Bucket(f.pred) else Bucket(f.pred) + [f]],
            arities[f.pred := |f.args|])
    }
  }

  ghost function Contents(graph: GraphStore): Store
    reads graph
  {
    Store(graph.buckets, graph.arities)
  }

  // ----- known entities -----

  const ENTITY_PREDICATES: seq<string> :=
    ["module", "package", "file", "function", "type_def", "trait_def", "struct_def", "field", "variable", "macro_def"]

  function FirstArgs(facts: seq<Fact>): set<string> {
    set f | f in facts && f.args != [] :: f.args[0]
  }

  function FirstArgsOf(s: Store, preds: seq<string>): set<string> {
    set p, id | p in preds && id in FirstArgs(s.Bucket(p)) :: id
  }

  /** The ids that stand first in a fact of an entity predicate. */
  function KnownIds(s: Store): set<string> {
    FirstArgsOf(s, ENTITY_PREDICATES)
  }

  method KnownEntityIds(graph: GraphStore) returns (ids: set<string>)
    requires graph.Valid()
    ensures ids == KnownIds(Contents(graph))
  {
    ids := {};
    ghost var s := Contents(graph);
    for i := 0 to |ENTITY_PREDICATES|
      invariant ids == FirstArgsOf(s, ENTITY_PREDICATES[..i])
    {
      var p := ENTITY_PREDICATES[i];
      assert ENTITY_PREDICATES[..i + 1] == ENTITY_PREDICATES[..i] + [p];
      assert graph.FactsOf(p) == s.Bucket(p);
      ids := ids + FirstArgs(graph.FactsOf(p));
    }
    assert ENTITY_PREDICATES[..|ENTITY_PREDICATES|] == ENTITY_PREDICATES;
  }

  // ----- resolving -----

  function FirstUnknown(args: seq<string>, known: set<string>): (r: Option<string>)
    ensures r.None? <==> forall a :: a in args ==> a in known
    ensures r.Some? ==> r.value in args && r.value !in known
  {
    if args == [] then None
    else if args[0] !in known then Some(args[0])
    else
      assert args == [args[0]] + args[1..];
      FirstUnknown(args[1..], known)
  }

  /** `resolve`: why a proposal is turned down before it reaches the store. */
  function Resolve(c: Proposal, known: set<string>): (r: Option<Reason>)
    ensures r.None? <==> c.args != [] && c.pred != "" && IsLower(c.pred[0]) && forall a :: a in c.args ==> a in known
  {
    if c.args == [] then Some(EmptyArgs)
    else if c.pred == "" || !IsLower(c.pred[0]) then Some(NotLowercase)
    else match FirstUnknown(c.args, known) case None => None case Some(id) => Some(UnknownId(id))
  }

  function CandidateOf(c: Proposal): Fact {
    Fact(c.pred, c.args, Candidate)
  }

  function Judge(s: Store, known: set<string>, c: Proposal): Outcome {
    if Resolve(c, known).Some? then Outcome(c, Resolve(c, known))
    else if c.pred in s.arities && s.arities[c.pred] != |c.args| then
      Outcome(c, Some(Arity(ArityMismatch(c.pred, s.arities[c.pred], |c.args|))))
    else Outcome(c, None)
  }

  /** The store after one proposal. */
  function Absorb(s: Store, known: set<string>, c: Proposal): Store {
    if Judge(s, known, c).Accepted() then s.Inserted(CandidateOf(c)) else s
  }

  function AbsorbAll(s: Store, known: set<string>, cs: seq<Proposal>): Store
    decreases |cs|
  {
    if cs == [] then s else AbsorbAll(Absorb(s, known, cs[0]), known, cs[1..])
  }

  function JudgeAll(s: Store, known: set<string>, cs: seq<Proposal>): (r: seq<Outcome>)
    ensures |r| == |cs|
    decreases |cs|
  {
    if cs == [] then [] else [Judge(s, known, cs[0])] + JudgeAll(Absorb(s, known, cs[0]), known, cs[1..])
  }

  method Take(graph: GraphStore, known: set<string>, c: Proposal) returns (o: Outcome)
    requires graph.Valid()
    modifies graph
    ensures graph.Valid()
    ensures o == Judge(old(Contents(graph)), known, c) && Contents(graph) == Absorb(old(Contents(graph)), known, c)
  {
    var reason := Resolve(c, known);
    if reason.Some? {
      return Outcome(c, reason);
    }
    ghost var s := Contents(graph);
    var inserted := graph.Insert(CandidateOf(c));
    assert inserted.Success? ==> graph.FactsOf(c.pred) == s.Inserted(CandidateOf(c)).Bucket(c.pred);
    o := Outcome(c, if inserted.Failure? then Some(Arity(inserted.error)) else None);
  }

  /** The loop over the candidates of one answer. */
  method TakeAll(graph: GraphStore, known: set<string>, cs: seq<Proposal>) returns (outcomes: seq<Outcome>)
    requires graph.Valid()
    modifies graph
    ensures graph.Valid()
    ensures outcomes == JudgeAll(old(Contents(graph)), known, cs)
    ensures Contents(graph) == AbsorbAll(old(Contents(graph)), known, cs)
  {
    outcomes := [];
    for i := 0 to |cs|
      invariant graph.Valid()
      invariant AbsorbAll(Contents(graph), known, cs[i..]) == AbsorbAll(old(Contents(graph)), known, cs)
      invariant outcomes + JudgeAll(Contents(graph), known, cs[i..]) == JudgeAll(old(Contents(graph)), known, cs)
    {
      ghost var before := Contents(graph);
      assert cs[i..] == [cs[i]] + cs[i + 1..];
      var o := Take(graph, known, cs[i]);
      OutcomesAssoc(outcomes, o, JudgeAll(Contents(graph), known, cs[i + 1..]));
      outcomes := outcomes + [o];
    }
    assert cs[|cs|..] == [];
  }

  lemma OutcomesAssoc(a: seq<Outcome>, o: Outcome, b: seq<Outcome>)
    ensures a + ([o] + b) == a + [o] + b
  {}

  // ----- what becomes of each proposal -----

  /** Lower-case predicate, at least one argument, and all of them known. */
  predicate Grounded(c: Proposal, known: set<string>) {
    c.args != [] && c.pred != "" && IsLower(c.pred[0]) && forall a :: a in c.args ==> a in known
  }

  /** The arity fits the store and the proposals accepted before. */
  ghost predicate Fits(s: Store, outcomes: seq<Outcome>, i: nat)
    requires i < |outcomes|
  {
    var c := outcomes[i].proposal;
    && (c.pred in s.arities ==> s.arities[c.pred] == |c.args|)
    && forall j :: 0 <= j < i && outcomes[j].Accepted() && outcomes[j].proposal.pred == c.pred ==>
                     |outcomes[j].proposal.args| == |c.args|
  }

  /** A reason says what is wrong with the proposal. */
  ghost predicate Names(reason: Reason, c: Proposal, known: set<string>) {
    match reason
    case EmptyArgs => c.args == []
    case NotLowercase => c.args != [] && (c.pred == "" || !IsLower(c.pred[0]))
    case UnknownId(id) =>
      && c.args != [] && c.pred != "" && IsLower(c.pred[0])
      && exists k :: 0 <= k < |c.args| && c.args[k] == id && id !in known && forall j :: 0 <= j < k ==> c.args[j] in known
    case Arity(error) =>
      Grounded(c, known) && error.pred == c.pred && error.got == |c.args| && error.expected != error.got
  }

  /** Outcome `i` of an answer taken at `s`. */
  ghost predicate FaredAt(s: Store, known: set<string>, outcomes: seq<Outcome>, i: nat)
    requires i < |outcomes|
  {
    var o := outcomes[i];
    && (o.Accepted() <==> Grounded(o.proposal, known) && Fits(s, outcomes, i))
    && (!o.Accepted() ==> Names(o.reason.value, o.proposal, known))
  }

  /** The store has gained exactly the accepted proposals, as candidates. */
  ghost predicate Gained(s: Store, outcomes: seq<Outcome>, t: Store) {
    forall f :: t.Has(f) <==> s.Has(f) || exists i :: 0 <= i < |outcomes| && outcomes[i].Accepted()
                                                      && f == CandidateOf(outcomes[i].proposal)
  }

  /** What an answer leads to: proposal by proposal, and in the store. */
  ghost predicate Fared(s: Store, known: set<string>, outcomes: seq<Outcome>, t: Store) {
    && (forall i :: 0 <= i < |outcomes| ==> FaredAt(s, known, outcomes, i))
    && Gained(s, outcomes, t)
  }

  lemma {:induction false} FirstUnknownAt(args: seq<string>, known: set<string>)
    requires FirstUnknown(args, known).Some?
    ensures exists k :: 0 <= k < |args| && args[k] == FirstUnknown(args, known).value && args[k] !in known
                        && forall j :: 0 <= j < k ==> args[j] in known
  {
    if args[0] in known {
      FirstUnknownAt(args[1..], known);
      var k :| 0 <= k < |args[1..]| && args[1..][k] == FirstUnknown(args, known).value && args[1..][k] !in known
               && forall j :: 0 <= j < k ==> args[1..][j] in known;
      forall j | 0 <= j < k + 1 ensures args[j] in known {
        assert j > 0 ==> args[1..][j - 1] == args[j];
      }
      assert args[k + 1] == args[1..][k];
    }
  }

  lemma JudgedByItself(s: Store, known: set<string>, c: Proposal)
    ensures var o := Judge(s, known, c);
            && o.proposal == c
            && (o.Accepted() <==> Grounded(c, known) && (c.pred in s.arities ==> s.arities[c.pred] == |c.args|))
            && (!o.Accepted() ==> Names(o.reason.value, c, known))
  {
    if c.args != [] && c.pred != "" && IsLower(c.pred[0]) && FirstUnknown(c.args, known).Some? {
      FirstUnknownAt(c.args, known);
    }
  }

  /** One proposal in front of an answer judged after it. */
  lemma FaredCons(s: Store, known: set<string>, o: Outcome, later: seq<Outcome>, i: nat)
    requires i < |later| && o == Judge(s, known, o.proposal)
    requires FaredAt(Absorb(s, known, o.proposal), known, later, i)
    ensures FaredAt(s, known, [o] + later, i + 1)
  {
    var t, all, c := Absorb(s, known, o.proposal), [o] + later, later[i].proposal;
    assert all[i + 1] == later[i] && forall j :: 0 <= j < |later| ==> all[j + 1] == later[j];
    JudgedByItself(s, known, o.proposal);
    if Fits(s, all, i + 1) {
      assert all[0] == o;
      forall j | 0 <= j < i && later[j].Accepted() && later[j].proposal.pred == c.pred
        ensures |later[j].proposal.args| == |c.args|
      {
        assert all[j + 1] == later[j];
      }
      assert Fits(t, later, i);
    }
    if Fits(t, later, i) {
      forall j | 0 <= j < i + 1 && all[j].Accepted() && all[j].proposal.pred == c.pred
        ensures |all[j].proposal.args| == |c.args|
      {
        assert j > 0 ==> all[j] == later[j - 1];
      }
      assert Fits(s, all, i + 1);
    }
  }

  lemma GainedCons(s: Store, known: set<string>, o: Outcome, later: seq<Outcome>, u: Store)
    requires o == Judge(s, known, o.proposal) && Gained(Absorb(s, known, o.proposal), later, u)
    ensures Gained(s, [o] + later, u)
  {
    var t, all := Absorb(s, known, o.proposal), [o] + later;
    forall f ensures u.Has(f) <==> s.Has(f) || exists i :: 0 <= i < |all| && all[i].Accepted()
                                                           && f == CandidateOf(all[i].proposal)
    {
      assert t.Has(f) <==> s.Has(f) || (o.Accepted() && f == CandidateOf(o.proposal));
      if i :| 0 <= i < |later| && later[i].Accepted() && f == CandidateOf(later[i].proposal) {
        assert all[i + 1] == later[i];
      }
      if i :| 0 <= i < |all| && all[i].Accepted() && f == CandidateOf(all[i].proposal) {
        assert i > 0 ==> all[i] == later[i - 1];
      }
      assert all[0] == o;
    }
  }

  /** Proposals are accepted exactly if they are grounded and fit, and the store gains the accepted ones. */
  lemma {:induction false} EachProposalFares(s: Store, known: set<string>, cs: seq<Proposal>)
    ensures var outcomes := JudgeAll(s, known, cs);
            && (forall i :: 0 <= i < |cs| ==> outcomes[i].proposal == cs[i])
            && Fared(s, known, outcomes, AbsorbAll(s, known, cs))
    decreases |cs|
  {
    if cs != [] {
      var o, t := Judge(s, known, cs[0]), Absorb(s, known, cs[0]);
      var later, u := JudgeAll(t, known, cs[1..]), AbsorbAll(t, known, cs[1..]);
      JudgedByItself(s, known, cs[0]);
      EachProposalFares(t, known, cs[1..]);
      forall i | 0 <= i < |cs| ensures FaredAt(s, known, [o] + later, i) && ([o] + later)[i].proposal == cs[i] {
        if i > 0 {
          FaredCons(s, known, o, later, i - 1);
        }
      }
      GainedCons(s, known, o, later, u);
    }
  }

  // ----- isolation -----

  /** A candidate about known entities. */
  predicate Harmless(f: Fact, known: set<string>) {
    f.layer.Candidate? && f.args != [] && forall a :: a in f.args ==> a in known
  }

  /** `t` is `s` with harmless candidates added behind the facts of each predicate, arities kept. */
  ghost predicate Isolated(s: Store, t: Store) {
    && (forall p :: s.Bucket(p) <= t.Bucket(p))
    && (forall p, i :: |s.Bucket(p)| <= i < |t.Bucket(p)| ==> Harmless(t.Bucket(p)[i], KnownIds(s)))
    && (forall p :: p in s.arities ==> p in t.arities && t.arities[p] == s.arities[p])
  }

  lemma AddedHarmless(s: Store, t: Store, p: string, f: Fact)
    requires Isolated(s, t) && f in t.Bucket(p)
    ensures f in s.Bucket(p) || Harmless(f, KnownIds(s))
  {}

  /** No entity becomes known, and none unknown. */
  lemma KnownIdsKept(s: Store, t: Store)
    requires Isolated(s, t)
    ensures KnownIds(t) == KnownIds(s)
  {
    forall id | id in KnownIds(s) ensures id in KnownIds(t) {
      var p :| p in ENTITY_PREDICATES && id in FirstArgs(s.Bucket(p));
      var f :| f in s.Bucket(p) && f.args != [] && f.args[0] == id;
      assert s.Bucket(p) <= t.Bucket(p);
      assert f in t.Bucket(p) && id in FirstArgs(t.Bucket(p));
    }
    forall id | id in KnownIds(t) ensures id in KnownIds(s) {
      var p :| p in ENTITY_PREDICATES && id in FirstArgs(t.Bucket(p));
      var f :| f in t.Bucket(p) && f.args != [] && f.args[0] == id;
      AddedHarmless(s, t, p, f);
      assert f.args[0] in f.args;
      assert f in s.Bucket(p) ==> id in FirstArgs(s.Bucket(p));
    }
  }

  lemma IsolatedOn(s: Store, t: Store, u: Store)
    requires Isolated(s, t) && Isolated(t, u)
    ensures Isolated(s, u)
  {
    KnownIdsKept(s, t);
    forall p ensures s.Bucket(p) <= u.Bucket(p) {
      assert s.Bucket(p) <= t.Bucket(p) <= u.Bucket(p);
    }
    forall p, i | |s.Bucket(p)| <= i < |u.Bucket(p)| ensures Harmless(u.Bucket(p)[i], KnownIds(s)) {
      assert t.Bucket(p) <= u.Bucket(p);
      if i < |t.Bucket(p)| {
        assert u.Bucket(p)[i] == t.Bucket(p)[i];
      }
    }
  }

  /** Facts of every other layer are the same. */
  lemma OtherLayersKept(s: Store, t: Store, f: Fact)
    requires Isolated(s, t) && !f.layer.Candidate?
    ensures s.Has(f) <==> t.Has(f)
  {}

  lemma {:induction false} TrustedAppend(facts: seq<Fact>, more: seq<Fact>)
    requires forall f :: f in more ==> f.layer.Candidate?
    ensures Trusted(facts + more) == Trusted(facts)
    decreases |facts| + |more|
  {
    if facts != [] {
      assert facts + more == [facts[0]] + (facts[1..] + more);
      TrustedAppend(facts[1..], more);
    } else if more != [] {
      assert facts + more == more;
      TrustedAppend([], more[1..]);
      assert [] + more[1..] == more[1..];
    }
  }

  /** The walk over the trusted facts has the same facts to go over in the same order. */
  lemma ContextKept(s: Store, t: Store)
    requires Isolated(s, t) && Filed(s.buckets) && Filed(t.buckets)
    ensures Context(t.buckets) == Context(s.buckets)
  {
    forall p ensures Trusted(BucketOf(s.buckets, p)) == Trusted(BucketOf(t.buckets, p)) {
      var a, b := s.Bucket(p), t.Bucket(p);
      assert a <= b && b == a + b[|a|..];
      TrustedAppend(a, b[|a|..]);
    }
    OnlyTrustedMatter(s.buckets, t.buckets);
  }

  lemma InsertedSound(s: Store, f: Fact)
    requires s.Sound() && (f.pred in s.arities ==> s.arities[f.pred] == |f.args|)
    ensures s.Inserted(f).Sound()
  {}

  lemma InsertedIsolated(s: Store, f: Fact)
    requires s.Sound() && Harmless(f, KnownIds(s)) && (f.pred in s.arities ==> s.arities[f.pred] == |f.args|)
    ensures Isolated(s, s.Inserted(f))
  {}

  lemma AbsorbIsolated(s: Store, known: set<string>, c: Proposal)
    requires s.Sound() && known == KnownIds(s)
    ensures Isolated(s, Absorb(s, known, c)) && Absorb(s, known, c).Sound()
  {
    if Judge(s, known, c).Accepted() {
      InsertedSound(s, CandidateOf(c));
      InsertedIsolated(s, CandidateOf(c));
    }
  }

  /** Whatever is proposed, only harmless candidates are added. */
  lemma {:induction false} AbsorbAllIsolated(s: Store, known: set<string>, cs: seq<Proposal>)
    requires s.Sound() && known == KnownIds(s)
    ensures Isolated(s, AbsorbAll(s, known, cs)) && AbsorbAll(s, known, cs).Sound()
    decreases |cs|
  {
    if cs != [] {
      var t := Absorb(s, known, cs[0]);
      AbsorbIsolated(s, known, cs[0]);
      KnownIdsKept(s, t);
      AbsorbAllIsolated(t, known, cs[1..]);
      IsolatedOn(s, t, AbsorbAll(t, known, cs[1..]));
    }
  }

  // ----- proposing again -----

  lemma JudgedAgain(s: Store, known: set<string>, c: Proposal, u: Store)
    requires s.Sound() && u.Sound() && known == KnownIds(s) && Isolated(Absorb(s, known, c), u)
    ensures Judge(u, known, c) == Judge(s, known, c) && Absorb(u, known, c) == u
  {
    var t := Absorb(s, known, c);
    if Judge(s, known, c).Accepted() {
      assert CandidateOf(c) in t.Bucket(c.pred) && t.Bucket(c.pred) <= u.Bucket(c.pred);
      assert u.arities[c.pred] == |c.args|;
      assert u.buckets[c.pred := u.Bucket(c.pred)] == u.buckets;
    }
  }

  /** Judged again after they, and any later harmless candidates, were absorbed, proposals fare alike and add nothing. */
  lemma {:induction false} AllJudgedAgain(s: Store, known: set<string>, cs: seq<Proposal>, u: Store)
    requires s.Sound() && u.Sound() && known == KnownIds(s) && Isolated(AbsorbAll(s, known, cs), u)
    ensures JudgeAll(u, known, cs) == JudgeAll(s, known, cs) && AbsorbAll(u, known, cs) == u
    decreases |cs|
  {
    if cs != [] {
      var t := Absorb(s, known, cs[0]);
      AbsorbIsolated(s, known, cs[0]);
      KnownIdsKept(s, t);
      AbsorbAllIsolated(t, known, cs[1..]);
      IsolatedOn(t, AbsorbAll(t, known, cs[1..]), u);
      JudgedAgain(s, known, cs[0], u);
      AllJudgedAgain(t, known, cs[1..], u);
    }
  }
}
