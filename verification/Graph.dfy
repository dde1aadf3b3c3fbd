/** The in-memory fact store of crates/aa-graph/src/lib.rs and pattern matching over it. */
module Graph {
  import opened Wrappers

  datatype Layer = Observed | Inferred | Candidate | Validated | Constraint

  datatype Fact = Fact(pred: string, args: seq<string>, layer: Layer)

  datatype GraphError = ArityMismatch(pred: string, expected: nat, got: nat)

  /** One term of a query pattern. */
  datatype Term = Atom(value: string) | Var(name: string)

  datatype Pattern = Pattern(pred: string, args: seq<Term>)

  type Binding = map<string, string>

  ghost predicate Distinct<T>(s: seq<T>) {
    forall i, j :: 0 <= i < j < |s| ==> s[i] != s[j]
  }

  /** No two facts of one predicate differ in arity. */
  ghost predicate ArityConsistent(facts: set<Fact>) {
    forall f, g :: f in facts && g in facts && f.pred == g.pred ==> |f.args| == |g.args|
  }

  /** What a bucket holds: at least one fact, no duplicates, one predicate, one arity. */
  ghost predicate GoodBucket(p: string, bucket: seq<Fact>, arity: nat) {
    && bucket != []
    && Distinct(bucket)
    && forall f :: f in bucket ==> f.pred == p && |f.args| == arity
  }

  class GraphStore {
    // predicate -> facts in insertion order, without duplicates (an IndexSet)
    var buckets: map<string, seq<Fact>>
    // predicate -> arity, fixed by the first insertion
    var arities: map<string, nat>

    ghost predicate Valid()
      reads this
    {
      && buckets.Keys == arities.Keys
      && forall p :: p in buckets ==> GoodBucket(p, buckets[p], arities[p])
    }

    /** The abstract value: the facts of every bucket. */
    ghost function Facts(): (facts: set<Fact>)
      reads this
    {
      set p, f | p in buckets && f in buckets[p] :: f
    }

    constructor ()
      ensures Valid() && Facts() == {}
    {
      buckets, arities := map[], map[];
    }

    function FactsOf(p: string): (facts: seq<Fact>)
      reads this
      ensures Valid() ==> forall f :: f in facts <==> f in Facts() && f.pred == p
      ensures Valid() ==> Distinct(facts)
    {
      if p in buckets then buckets[p] else []
    }

    predicate Contains(fact: Fact)
      reads this
      requires Valid()
      ensures Contains(fact) <==> fact in Facts()
    {
      fact.pred in buckets && fact in buckets[fact.pred]
    }

    /** Every recorded arity is that of some fact. */
    lemma ArityHasFact(p: string)
      requires Valid() && p in arities
      ensures exists g :: g in Facts() && g.pred == p && |g.args| == arities[p]
    {
      assert GoodBucket(p, buckets[p], arities[p]);
      assert buckets[p][0] in buckets[p] && buckets[p][0] in Facts();
    }

    /** `insert`: refuses a second arity, otherwise adds the fact at the end of its bucket. */
    method Insert(fact: Fact) returns (r: Result<bool, GraphError>)
      requires Valid()
      modifies this
      ensures Valid()
      ensures r.Failure? <==>
              exists g :: g in old(Facts()) && g.pred == fact.pred && |g.args| != |fact.args|
      ensures r.Failure? <==> fact.pred in old(arities) && old(arities)[fact.pred] != |fact.args|
      ensures r.Failure? ==>
                && buckets == old(buckets) && arities == old(arities)
                && r.error == ArityMismatch(fact.pred, old(arities)[fact.pred], |fact.args|)
      ensures r.Success? ==>
                && r.value == (fact !in old(Facts()))
                && Facts() == old(Facts()) + {fact}
                && FactsOf(fact.pred) == old(FactsOf(fact.pred)) + (if r.value then [fact] else [])
                && (forall q :: q != fact.pred ==> FactsOf(q) == old(FactsOf(q)))
                && arities == old(arities)[fact.pred := |fact.args|]
                && buckets == old(buckets)[fact.pred := FactsOf(fact.pred)]
    {
      var p, ar := fact.pred, |fact.args|;
      if p in arities && arities[p] != ar {
        assert GoodBucket(p, buckets[p], arities[p]);
        var g := buckets[p][0];
        assert g in buckets[p] && g in Facts();
        return Failure(ArityMismatch(p, arities[p], ar));
      }
      if p !in arities {
        arities := arities[p := ar];
      }
      var bucket := FactsOf(p);
      var isNew := fact !in bucket;
      buckets := buckets[p := if isNew then bucket + [fact] else bucket];
      forall f ensures f in Facts() <==> f in old(Facts()) + {fact} {
        assert fact in buckets[p];
        if f in old(Facts()) {
          var q :| q in old(buckets) && f in old(buckets)[q];
          assert f in buckets[q];
        }
      }
      return Success(isNew);
    }
  }

  /** The variables of a pattern. */
  ghost function PatternVars(pattern: seq<Term>): set<string> {
    set t | t in pattern && t.Var? :: t.name
  }

  ghost predicate TermMatches(t: Term, a: string, b: Binding) {
    match t
    case Atom(x) => x == a
    case Var(v) => v in b && b[v] == a
  }

  /** `b` binds exactly the pattern's variables and turns the pattern into `args`. */
  ghost predicate Unifies(pattern: seq<Term>, args: seq<string>, b: Binding) {
    && |pattern| == |args|
    && b.Keys == PatternVars(pattern)
    && forall i :: 0 <= i < |pattern| ==> TermMatches(pattern[i], args[i], b)
  }

  /** `unify`: finds the one binding that unifies, and None exactly when there is none. */
  method Unify(pattern: seq<Term>, args: seq<string>) returns (r: Option<Binding>)
    ensures forall b :: Unifies(pattern, args, b) <==> r == Some(b)
  {
    if |pattern| != |args| {
      return None;
    }
    var bind: Binding := map[];
    for i := 0 to |pattern|
      invariant Unifies(pattern[..i], args[..i], bind)
      invariant forall b: Binding :: Unifies(pattern, args, b) ==>
                                       forall v :: v in bind ==> v in b && b[v] == bind[v]
    {
      assert pattern[..i + 1] == pattern[..i] + [pattern[i]];
      ghost var before := bind;
      match pattern[i]
      case Atom(x) =>
        if x != args[i] {
          assert forall b: Binding :: Unifies(pattern, args, b) ==> TermMatches(pattern[i], args[i], b);
          return None;
        }
      case Var(name) =>
        assert forall b: Binding :: Unifies(pattern, args, b) ==> TermMatches(pattern[i], args[i], b);
        if name in bind {
          if bind[name] != args[i] {
            return None;
          }
        } else {
          bind := bind[name := args[i]];
        }
    }
    assert pattern[..|pattern|] == pattern && args[..|args|] == args;
    forall b | Unifies(pattern, args, b) ensures b == bind {
      assert b.Keys == bind.Keys;
    }
    return Some(bind);
  }

  /** `Pattern::matches`: one binding per fact of the predicate that unifies. The layer is not looked at. */
  method Matches(pattern: Pattern, store: GraphStore) returns (r: seq<Binding>)
    requires store.Valid()
    ensures forall b :: b in r <==>
                          exists f :: f in store.Facts() && f.pred == pattern.pred
                                      && Unifies(pattern.args, f.args, b)
  {
    r := [];
    var facts := store.FactsOf(pattern.pred);
    for i := 0 to |facts|
      invariant forall b :: b in r <==> exists k :: 0 <= k < i && Unifies(pattern.args, facts[k].args, b)
    {
      var m := Unify(pattern.args, facts[i].args);
      if m.Some? {
        r := r + [m.value];
      }
    }
  }
}
