/**
 The context walk `ContextSelector::k_hop` of crates/aa-llm/src/context.rs: breadth-first over the trusted facts of a
 store, taken in the order of a stable sort by predicate and arguments.
 */
module ContextWalk {
  import opened Graph

  predicate IsTrusted(l: Layer) {
    l.Observed? || l.Inferred?
  }

  // ----- the order -----

  /** Lexicographic order of texts. */
  predicate LeText(a: string, b: string) {
    a == "" || (b != "" && (a[0] < b[0] || (a[0] == b[0] && LeText(a[1..], b[1..]))))
  }

  /** At the first difference the smaller character decides; a beginning comes before what it begins. */
  lemma {:induction false} LeTextIs(a: string, b: string)
    ensures LeText(a, b) <==> a <= b || exists i :: 0 <= i < |a| && i < |b| && a[..i] == b[..i] && a[i] < b[i]
  {
    if a != "" && b != "" && a[0] == b[0] {
      LeTextIs(a[1..], b[1..]);
      if i :| 0 <= i < |a[1..]| && i < |b[1..]| && a[1..][..i] == b[1..][..i] && a[1..][i] < b[1..][i] {
        assert a[..i + 1] == [a[0]] + a[1..][..i] && b[..i + 1] == [b[0]] + b[1..][..i];
      }
      if i :| 0 <= i < |a| && i < |b| && a[..i] == b[..i] && a[i] < b[i] {
        assert i > 0 && a[1..][..i - 1] == a[..i][1..] && b[1..][..i - 1] == b[..i][1..];
        assert a[1..][i - 1] < b[1..][i - 1];
      }
    } else if a != "" && b != "" {
      if a[0] < b[0] {
        assert a[..0] == b[..0];
      }
      forall i | 0 < i < |a| && i < |b| ensures a[..i] != b[..i] {
        assert a[..i][0] == a[0] && b[..i][0] == b[0];
      }
    }
  }

  /** Lexicographic order of argument lists. */
  predicate LeArgs(a: seq<string>, b: seq<string>) {
    a == [] || (b != [] && (if a[0] == b[0] then LeArgs(a[1..], b[1..]) else LeText(a[0], b[0])))
  }

  lemma {:induction false} LeArgsIs(a: seq<string>, b: seq<string>)
    ensures LeArgs(a, b) <==>
            a <= b || exists i :: 0 <= i < |a| && i < |b| && a[..i] == b[..i] && a[i] != b[i] && LeText(a[i], b[i])
  {
    if a != [] && b != [] && a[0] == b[0] {
      LeArgsIs(a[1..], b[1..]);
      if i :| 0 <= i < |a[1..]| && i < |b[1..]| && a[1..][..i] == b[1..][..i] && a[1..][i] != b[1..][i]
              && LeText(a[1..][i], b[1..][i]) {
        assert a[..i + 1] == [a[0]] + a[1..][..i] && b[..i + 1] == [b[0]] + b[1..][..i];
      }
      if i :| 0 <= i < |a| && i < |b| && a[..i] == b[..i] && a[i] != b[i] && LeText(a[i], b[i]) {
        assert i > 0 && a[1..][..i - 1] == a[..i][1..] && b[1..][..i - 1] == b[..i][1..];
        assert a[1..][i - 1] == a[i] && b[1..][i - 1] == b[i];
      }
    } else if a != [] && b != [] {
      assert a[..0] == b[..0];
      forall i | 0 < i < |a| && i < |b| ensures a[..i] != b[..i] {
        assert a[..i][0] == a[0] && b[..i][0] == b[0];
      }
    }
  }

  /** By predicate, then by arguments; the layer is not looked at. */
  predicate LeFact(f: Fact, g: Fact) {
    if f.pred == g.pred then LeArgs(f.args, g.args) else LeText(f.pred, g.pred)
  }

  lemma {:induction false} TextOrder(a: string, b: string, c: string)
    ensures LeText(a, b) || LeText(b, a)
    ensures LeText(a, b) && LeText(b, a) ==> a == b
    ensures LeText(a, b) && LeText(b, c) ==> LeText(a, c)
  {
    if a != "" && b != "" {
      TextOrder(a[1..], b[1..], if c != "" then c[1..] else "");
      assert a == [a[0]] + a[1..] && b == [b[0]] + b[1..];
    }
  }

  lemma {:induction false} ArgsOrder(a: seq<string>, b: seq<string>, c: seq<string>)
    ensures LeArgs(a, b) || LeArgs(b, a)
    ensures LeArgs(a, b) && LeArgs(b, a) ==> a == b
    ensures LeArgs(a, b) && LeArgs(b, c) ==> LeArgs(a, c)
    decreases |a|
  {
    if a != [] && b != [] {
      ArgsOrder(a[1..], b[1..], if c != [] then c[1..] else []);
      TextOrder(a[0], b[0], if c != [] then c[0] else "");
      TextOrder(a[0], if c != [] then c[0] else "", b[0]);
      TextOrder(b[0], if c != [] then c[0] else "", a[0]);
      assert a == [a[0]] + a[1..] && b == [b[0]] + b[1..];
    }
  }

  predicate SameKey(f: Fact, g: Fact) {
    f.pred == g.pred && f.args == g.args
  }

  lemma FactOrder(f: Fact, g: Fact, h: Fact)
    ensures LeFact(f, g) || LeFact(g, f)
    ensures LeFact(f, g) && LeFact(g, f) ==> SameKey(f, g)
    ensures LeFact(f, g) && LeFact(g, h) ==> LeFact(f, h)
  {
    ArgsOrder(f.args, g.args, h.args);
    TextOrder(f.pred, g.pred, h.pred);
    TextOrder(g.pred, h.pred, f.pred);
  }

  // ----- the stable sort -----

  predicate Ascending(facts: seq<Fact>) {
    forall i, j :: 0 <= i < j < |facts| ==> LeFact(facts[i], facts[j])
  }

  /** Before the first fact that is not below `f`. */
  function InsertSorted(f: Fact, facts: seq<Fact>): seq<Fact> {
    if facts == [] || LeFact(f, facts[0]) then [f] + facts else [facts[0]] + InsertSorted(f, facts[1..])
  }

  /** `sort_by`: facts with the same key stay in their order. */
  function Sorted(facts: seq<Fact>): seq<Fact> {
    if facts == [] then [] else InsertSorted(facts[0], Sorted(facts[1..]))
  }

  /** The facts with the key of `k`, in order. */
  function WithKey(facts: seq<Fact>, k: Fact): seq<Fact> {
    if facts == [] then []
    else if SameKey(facts[0], k) then [facts[0]] + WithKey(facts[1..], k)
    else WithKey(facts[1..], k)
  }

  function Trusted(facts: seq<Fact>): seq<Fact> {
    if facts == [] then []
    else if IsTrusted(facts[0].layer) then [facts[0]] + Trusted(facts[1..])
    else Trusted(facts[1..])
  }

  function OfPred(facts: seq<Fact>, p: string): seq<Fact> {
    if facts == [] then []
    else if facts[0].pred == p then [facts[0]] + OfPred(facts[1..], p)
    else OfPred(facts[1..], p)
  }

  lemma {:induction false} InsertAscending(f: Fact, facts: seq<Fact>)
    requires Ascending(facts)
    ensures Ascending(InsertSorted(f, facts))
    ensures forall g :: g in InsertSorted(f, facts) <==> g == f || g in facts
  {
    if facts == [] {
    } else if LeFact(f, facts[0]) {
      forall j | 0 <= j < |facts| ensures LeFact(f, facts[j]) {
        FactOrder(f, facts[0], facts[j]);
      }
    } else {
      InsertAscending(f, facts[1..]);
      FactOrder(f, facts[0], f);
      var tail := InsertSorted(f, facts[1..]);
      forall j | 0 <= j < |tail| ensures LeFact(facts[0], tail[j]) {
        assert tail[j] in tail;
      }
    }
  }

  lemma {:induction false} InsertStable(f: Fact, facts: seq<Fact>, k: Fact)
    ensures WithKey(InsertSorted(f, facts), k) == if SameKey(f, k) then [f] + WithKey(facts, k) else WithKey(facts, k)
  {
    if facts != [] && !LeFact(f, facts[0]) {
      InsertStable(f, facts[1..], k);
      FactOrder(f, facts[0], f);
      ArgsOrder(f.args, f.args, f.args);
    } else {
      assert ([f] + facts)[1..] == facts;
    }
  }

  /** Sorted, with the facts of each key in their original order. */
  lemma {:induction false} SortedIsStable(facts: seq<Fact>)
    ensures Ascending(Sorted(facts))
    ensures forall k :: WithKey(Sorted(facts), k) == WithKey(facts, k)
    ensures forall f :: f in Sorted(facts) <==> f in facts
  {
    if facts != [] {
      SortedIsStable(facts[1..]);
      InsertAscending(facts[0], Sorted(facts[1..]));
      forall k ensures WithKey(Sorted(facts), k) == WithKey(facts, k) {
        InsertStable(facts[0], Sorted(facts[1..]), k);
      }
      assert facts == [facts[0]] + facts[1..];
    }
  }

  lemma {:induction false} WithKeyMember(facts: seq<Fact>, k: Fact)
    ensures WithKey(facts, k) != [] ==> exists f :: f in facts && SameKey(f, k)
    ensures (exists f :: f in facts && SameKey(f, k)) ==> WithKey(facts, k) != []
  {
    if facts != [] {
      WithKeyMember(facts[1..], k);
      assert facts == [facts[0]] + facts[1..];
    }
  }

  /** There is one ascending list with given facts for each key. */
  lemma {:induction false} AscendingUnique(s: seq<Fact>, t: seq<Fact>)
    requires Ascending(s) && Ascending(t) && forall k :: WithKey(s, k) == WithKey(t, k)
    ensures s == t
    decreases |s|
  {
    if s == [] || t == [] {
      if s != [] {
        WithKeyMember(s, s[0]);
      }
      if t != [] {
        WithKeyMember(t, t[0]);
      }
    } else {
      HeadsAgree(s, t);
      forall k ensures WithKey(s[1..], k) == WithKey(t[1..], k) {
        var head := if SameKey(s[0], k) then [s[0]] else [];
        assert WithKey(s, k)[|head|..] == WithKey(s[1..], k) && WithKey(t, k)[|head|..] == WithKey(t[1..], k);
      }
      AscendingUnique(s[1..], t[1..]);
    }
  }

  lemma HeadsAgree(s: seq<Fact>, t: seq<Fact>)
    requires s != [] && t != []
    requires Ascending(s) && Ascending(t) && forall k :: WithKey(s, k) == WithKey(t, k)
    ensures s[0] == t[0]
  {
    WithKeyMember(t, s[0]);
    WithKeyMember(s, t[0]);
    assert WithKey(s, s[0])[0] == s[0] && WithKey(t, t[0])[0] == t[0];
    var f :| f in t && SameKey(f, s[0]);
    var g :| g in s && SameKey(g, t[0]);
    FactOrder(s[0], g, t[0]);
    FactOrder(t[0], f, s[0]);
    FactOrder(s[0], t[0], s[0]);
    ArgsOrder(s[0].args, s[0].args, s[0].args);
  }

  // ----- filtering -----

  lemma {:induction false} TrustedAscending(facts: seq<Fact>)
    requires Ascending(facts)
    ensures Ascending(Trusted(facts))
    ensures forall f :: f in Trusted(facts) <==> f in facts && IsTrusted(f.layer)
  {
    if facts != [] {
      TrustedAscending(facts[1..]);
      assert facts == [facts[0]] + facts[1..];
    }
  }

  lemma ConsTail(f: Fact, tail: seq<Fact>)
    ensures ([f] + tail)[1..] == tail
  {}

  lemma {:induction false} TrustedOfKey(facts: seq<Fact>, k: Fact)
    ensures WithKey(Trusted(facts), k) == Trusted(WithKey(facts, k))
  {
    if facts != [] {
      TrustedOfKey(facts[1..], k);
      ConsTail(facts[0], Trusted(facts[1..]));
      ConsTail(facts[0], WithKey(facts[1..], k));
    }
  }

  /** Leaving out the untrusted facts commutes with the sort. */
  lemma TrustedCommutesWithSort(facts: seq<Fact>)
    ensures Trusted(Sorted(facts)) == Sorted(Trusted(facts))
  {
    SortedIsStable(facts);
    SortedIsStable(Trusted(facts));
    TrustedAscending(Sorted(facts));
    forall k ensures WithKey(Trusted(Sorted(facts)), k) == WithKey(Sorted(Trusted(facts)), k) {
      TrustedOfKey(Sorted(facts), k);
      TrustedOfKey(facts, k);
    }
    AscendingUnique(Trusted(Sorted(facts)), Sorted(Trusted(facts)));
  }

  lemma {:induction false} KeyOfPred(facts: seq<Fact>, k: Fact)
    ensures WithKey(OfPred(facts, k.pred), k) == WithKey(facts, k)
  {
    if facts != [] {
      KeyOfPred(facts[1..], k);
      ConsTail(facts[0], OfPred(facts[1..], k.pred));
    }
  }

  lemma {:induction false} TrustedOfPred(facts: seq<Fact>, p: string)
    ensures OfPred(Trusted(facts), p) == Trusted(OfPred(facts, p))
  {
    if facts != [] {
      TrustedOfPred(facts[1..], p);
      ConsTail(facts[0], OfPred(facts[1..], p));
      ConsTail(facts[0], Trusted(facts[1..]));
    }
  }

  /**
   The walk sees the same list of facts whatever the order of the predicates, as long as each predicate has the same
   trusted facts in the same order.
   */
  lemma OrderOfPredicatesIrrelevant(a: seq<Fact>, b: seq<Fact>)
    requires forall p :: Trusted(OfPred(a, p)) == Trusted(OfPred(b, p))
    ensures Trusted(Sorted(a)) == Trusted(Sorted(b))
  {
    TrustedCommutesWithSort(a);
    TrustedCommutesWithSort(b);
    SortedIsStable(Trusted(a));
    SortedIsStable(Trusted(b));
    forall k ensures WithKey(Sorted(Trusted(a)), k) == WithKey(Sorted(Trusted(b)), k) {
      KeyOfPred(Trusted(a), k);
      KeyOfPred(Trusted(b), k);
      TrustedOfPred(a, k.pred);
      TrustedOfPred(b, k.pred);
    }
    AscendingUnique(Sorted(Trusted(a)), Sorted(Trusted(b)));
  }

  // ----- the walk -----

  /** Facts found, ids seen, ids to go on from. */
  datatype Walk = Walk(out: seq<Fact>, seen: set<string>, next: seq<string>)

  /** The ids of `args` not seen yet, each once. */
  function Unseen(args: seq<string>, seen: set<string>): seq<string> {
    if args == [] then []
    else if args[0] in seen then Unseen(args[1..], seen)
    else [args[0]] + Unseen(args[1..], seen + {args[0]})
  }

  function SetOf(args: seq<string>): set<string> {
    set a | a in args
  }

  function VisitFact(w: Walk, id: string, f: Fact): Walk {
    if id in f.args && f !in w.out then Walk(w.out + [f], w.seen + SetOf(f.args), w.next + Unseen(f.args, w.seen)) else w
  }

  function VisitId(w: Walk, id: string, facts: seq<Fact>): Walk
    decreases |facts|
  {
    if facts == [] then w else VisitId(VisitFact(w, id, facts[0]), id, facts[1..])
  }

  function VisitLevel(w: Walk, frontier: seq<string>, facts: seq<Fact>): Walk
    decreases |frontier|
  {
    if frontier == [] then w else VisitLevel(VisitId(w, frontier[0], facts), frontier[1..], facts)
  }

  function Levels(w: Walk, n: nat, facts: seq<Fact>): seq<Fact>
    decreases n
  {
    if n == 0 then w.out else Levels(VisitLevel(w.(next := []), w.next, facts), n - 1, facts)
  }

  function Start(anchor: string): Walk {
    Walk([], {anchor}, [anchor])
  }

  /** Everything the walk finds without a cap. */
  function Found(facts: seq<Fact>, anchor: string, hops: nat): seq<Fact> {
    Levels(Start(anchor), hops + 1, facts)
  }

  function Capped(facts: seq<Fact>, maxFacts: nat): seq<Fact> {
    var n := if maxFacts == 0 then 1 else maxFacts;
    if |facts| <= n then facts else facts[..n]
  }

  // ----- what is found -----

  /** The ids within `k` steps of the anchor, a step going from an id to any id it shares a fact with. */
  function Reach(facts: seq<Fact>, anchor: string, k: nat): set<string> {
    if k == 0 then {anchor}
    else
      var near := Reach(facts, anchor, k - 1);
      near + ArgsOf(Touching(facts, near))
  }

  predicate Touches(f: Fact, ids: set<string>) {
    exists a :: a in f.args && a in ids
  }

  function Touching(facts: seq<Fact>, ids: set<string>): set<Fact> {
    set f | f in facts && Touches(f, ids)
  }

  function ArgsOf(facts: set<Fact>): set<string> {
    set f, a | f in facts && a in f.args :: a
  }

  function FactSet(facts: seq<Fact>): set<Fact> {
    set f | f in facts
  }

  lemma {:induction false} UnseenIsNew(args: seq<string>, seen: set<string>)
    ensures SetOf(Unseen(args, seen)) == SetOf(args) - seen
  {
    if args != [] {
      var a, rest := args[0], args[1..];
      UnseenIsNew(rest, if a in seen then seen else seen + {a});
      assert args == [a] + rest;
      assert SetOf([a] + Unseen(rest, seen + {a})) == {a} + SetOf(Unseen(rest, seen + {a}));
    }
  }

  /** From `w` the walk went to `v` and found `more`. */
  ghost predicate Grows(w: Walk, v: Walk, more: set<Fact>) {
    && w.out <= v.out && (Distinct(w.out) ==> Distinct(v.out))
    && FactSet(v.out) == FactSet(w.out) + more
    && (ArgsOf(FactSet(w.out)) <= w.seen ==> v.seen == w.seen + ArgsOf(more) && ArgsOf(FactSet(v.out)) <= v.seen)
    && w.seen <= v.seen
    && SetOf(v.next) == SetOf(w.next) + (v.seen - w.seen)
  }

  lemma VisitFactGrows(w: Walk, id: string, f: Fact)
    ensures Grows(w, VisitFact(w, id, f), if id in f.args then {f} else {})
  {
    UnseenIsNew(f.args, w.seen);
    var v := VisitFact(w, id, f);
    assert SetOf(w.next + Unseen(f.args, w.seen)) == SetOf(w.next) + SetOf(Unseen(f.args, w.seen));
    assert forall a :: a in f.args <==> a in ArgsOf({f});
    assert ArgsOf({}) == {};
    if id in f.args && f in w.out {
      assert ArgsOf({f}) <= ArgsOf(FactSet(w.out));
    }
  }

  lemma GrowsOn(w: Walk, v: Walk, u: Walk, a: set<Fact>, b: set<Fact>)
    requires Grows(w, v, a) && Grows(v, u, b)
    ensures Grows(w, u, a + b)
  {}

  lemma {:induction false} VisitIdGrows(w: Walk, id: string, facts: seq<Fact>)
    ensures Grows(w, VisitId(w, id, facts), Touching(facts, {id}))
    decreases |facts|
  {
    if facts == [] {
      assert ArgsOf({}) == {};
    } else {
      var f, v := facts[0], VisitFact(w, id, facts[0]);
      var here := if id in f.args then {f} else {};
      VisitFactGrows(w, id, f);
      VisitIdGrows(v, id, facts[1..]);
      GrowsOn(w, v, VisitId(v, id, facts[1..]), here, Touching(facts[1..], {id}));
      assert facts == [f] + facts[1..];
      assert Touching(facts, {id}) == here + Touching(facts[1..], {id}) by {
        assert Touches(f, {id}) <==> id in f.args;
      }
    }
  }

  lemma TouchingUnion(facts: seq<Fact>, a: set<string>, b: set<string>)
    ensures Touching(facts, a + b) == Touching(facts, a) + Touching(facts, b)
  {}

  lemma {:induction false} VisitLevelGrows(w: Walk, frontier: seq<string>, facts: seq<Fact>)
    ensures Grows(w, VisitLevel(w, frontier, facts), Touching(facts, SetOf(frontier)))
    decreases |frontier|
  {
    if frontier == [] {
      assert ArgsOf({}) == {} && Touching(facts, {}) == {};
    } else {
      var id, v := frontier[0], VisitId(w, frontier[0], facts);
      VisitIdGrows(w, id, facts);
      VisitLevelGrows(v, frontier[1..], facts);
      GrowsOn(w, v, VisitLevel(v, frontier[1..], facts), Touching(facts, {id}), Touching(facts, SetOf(frontier[1..])));
      TouchingUnion(facts, {id}, SetOf(frontier[1..]));
      assert frontier == [id] + frontier[1..];
      assert SetOf(frontier) == {id} + SetOf(frontier[1..]);
    }
  }

  /** Reached before the `d`th level: nothing for `d` = 0. */
  function Before(facts: seq<Fact>, anchor: string, d: nat): set<string> {
    if d == 0 then {} else Reach(facts, anchor, d - 1)
  }

  /** `d` levels are done: found are the facts touching what was within reach then, to go on from what is newly so. */
  ghost predicate AtLevel(w: Walk, facts: seq<Fact>, anchor: string, d: nat) {
    && Distinct(w.out) && FactSet(w.out) == Touching(facts, Before(facts, anchor, d))
    && w.seen == Reach(facts, anchor, d) && ArgsOf(FactSet(w.out)) <= w.seen
    && SetOf(w.next) == Reach(facts, anchor, d) - Before(facts, anchor, d)
  }

  lemma LevelStep(w: Walk, facts: seq<Fact>, anchor: string, d: nat)
    requires AtLevel(w, facts, anchor, d)
    ensures AtLevel(VisitLevel(w.(next := []), w.next, facts), facts, anchor, d + 1)
  {
    var v := VisitLevel(w.(next := []), w.next, facts);
    var old_, near := Before(facts, anchor, d), Reach(facts, anchor, d);
    VisitLevelGrows(w.(next := []), w.next, facts);
    assert old_ <= near;
    assert old_ + SetOf(w.next) == near;
    TouchingUnion(facts, old_, SetOf(w.next));
    var a, b := Touching(facts, old_), Touching(facts, SetOf(w.next));
    assert ArgsOf(a + b) == ArgsOf(a) + ArgsOf(b);
    assert v.seen == near + ArgsOf(b) == Reach(facts, anchor, d + 1);
  }

  lemma {:induction false} LevelsFind(w: Walk, n: nat, facts: seq<Fact>, anchor: string, d: nat)
    requires AtLevel(w, facts, anchor, d)
    ensures Distinct(Levels(w, n, facts))
    ensures FactSet(Levels(w, n, facts)) == Touching(facts, Before(facts, anchor, d + n))
    decreases n
  {
    if n > 0 {
      LevelStep(w, facts, anchor, d);
      LevelsFind(VisitLevel(w.(next := []), w.next, facts), n - 1, facts, anchor, d + 1);
    }
  }

  /**
   The uncapped walk is exact: it finds each fact that has an argument within `hops` steps of the anchor, once, and
   nothing else.
   */
  lemma FoundExactly(facts: seq<Fact>, anchor: string, hops: nat)
    ensures Distinct(Found(facts, anchor, hops))
    ensures forall f :: f in Found(facts, anchor, hops) <==> f in facts && Touches(f, Reach(facts, anchor, hops))
  {
    assert Touching(facts, {}) == {} && ArgsOf({}) == {};
    LevelsFind(Start(anchor), hops + 1, facts, anchor, 0);
    assert forall f :: f in Found(facts, anchor, hops) <==> f in FactSet(Found(facts, anchor, hops));
  }

  lemma {:induction false} LevelsExtend(w: Walk, n: nat, facts: seq<Fact>)
    ensures w.out <= Levels(w, n, facts)
    decreases n
  {
    if n > 0 {
      VisitLevelGrows(w.(next := []), w.next, facts);
      LevelsExtend(VisitLevel(w.(next := []), w.next, facts), n - 1, facts);
    }
  }

  lemma {:induction false} MoreLevels(w: Walk, n: nat, facts: seq<Fact>)
    ensures Levels(w, n, facts) <= Levels(w, n + 1, facts)
    decreases n
  {
    if n == 0 {
      LevelsExtend(w, 1, facts);
    } else {
      MoreLevels(VisitLevel(w.(next := []), w.next, facts), n - 1, facts);
    }
  }

  /** Nearer facts come first: what fewer hops find is the beginning of what more hops find. */
  lemma {:induction false} NearestFirst(facts: seq<Fact>, anchor: string, few: nat, many: nat)
    requires few <= many
    ensures Found(facts, anchor, few) <= Found(facts, anchor, many)
    decreases many
  {
    if few < many {
      NearestFirst(facts, anchor, few, many - 1);
      MoreLevels(Start(anchor), many, facts);
    }
  }

  lemma {:induction false} NothingNext(w: Walk, n: nat, facts: seq<Fact>)
    requires w.next == []
    ensures Levels(w, n, facts) == w.out
    decreases n
  {
    if n > 0 {
      NothingNext(w, n - 1, facts);
      assert w.(next := []) == w;
    }
  }

  // ----- the store's facts -----

  type Buckets = map<string, seq<Fact>>

  /** `facts_of`. */
  function BucketOf(buckets: Buckets, p: string): seq<Fact> {
    if p in buckets then buckets[p] else []
  }

  /** A listing of all facts, the predicates in any order: each predicate's facts are those of its bucket, in order. */
  ghost predicate Lists(buckets: Buckets, facts: seq<Fact>) {
    forall p :: OfPred(facts, p) == BucketOf(buckets, p)
  }

  ghost predicate Filed(buckets: Buckets) {
    forall p, f :: p in buckets && f in buckets[p] ==> f.pred == p
  }

  lemma {:induction false} OfPredConcat(a: seq<Fact>, b: seq<Fact>, p: string)
    ensures OfPred(a + b, p) == OfPred(a, p) + OfPred(b, p)
  {
    if a == [] {
      assert a + b == b;
    } else {
      assert a + b == [a[0]] + (a[1..] + b);
      OfPredConcat(a[1..], b, p);
    }
  }

  lemma {:induction false} OfPredBucket(bucket: seq<Fact>, q: string, p: string)
    requires forall f :: f in bucket ==> f.pred == q
    ensures OfPred(bucket, p) == if p == q then bucket else []
  {
    if bucket != [] {
      OfPredBucket(bucket[1..], q, p);
      assert bucket == [bucket[0]] + bucket[1..];
    }
  }

  lemma AnotherBucket(buckets: Buckets, done: set<string>, facts: seq<Fact>, p: string)
    requires Filed(buckets) && p in buckets && p !in done
    requires forall q :: OfPred(facts, q) == if q in buckets && q in done then buckets[q] else []
    ensures forall q :: OfPred(facts + buckets[p], q) == if q in buckets && q in done + {p} then buckets[q] else []
  {
    forall q ensures OfPred(facts + buckets[p], q) == if q in buckets && q in done + {p} then buckets[q] else [] {
      OfPredConcat(facts, buckets[p], q);
      OfPredBucket(buckets[p], p, q);
    }
  }

  /** One listing. */
  ghost function Listing(buckets: Buckets, done: set<string>): (facts: seq<Fact>)
    requires Filed(buckets)
    ensures forall q :: OfPred(facts, q) == if q in buckets && q in done then buckets[q] else []
    decreases |done|
  {
    if done == {} then []
    else
      var p :| p in done;
      if p in buckets then
        var rest := Listing(buckets, done - {p});
        AnotherBucket(buckets, done - {p}, rest, p);
        assert done - {p} + {p} == done;
        rest + buckets[p]
      else Listing(buckets, done - {p})
  }

  /** What the walk goes over: the trusted facts, sorted. */
  ghost function Context(buckets: Buckets): seq<Fact>
    requires Filed(buckets)
  {
    Trusted(Sorted(Listing(buckets, buckets.Keys)))
  }

  lemma ContextOfListing(buckets: Buckets, facts: seq<Fact>)
    requires Filed(buckets) && Lists(buckets, facts)
    ensures Trusted(Sorted(facts)) == Context(buckets)
  {
    OrderOfPredicatesIrrelevant(facts, Listing(buckets, buckets.Keys));
  }

  /** Only the trusted facts of each predicate and their order matter. */
  lemma OnlyTrustedMatter(a: Buckets, b: Buckets)
    requires Filed(a) && Filed(b)
    requires forall p :: Trusted(BucketOf(a, p)) == Trusted(BucketOf(b, p))
    ensures Context(a) == Context(b)
  {
    var x, y := Listing(a, a.Keys), Listing(b, b.Keys);
    forall p ensures Trusted(OfPred(x, p)) == Trusted(OfPred(y, p)) {
      assert OfPred(x, p) == BucketOf(a, p) && OfPred(y, p) == BucketOf(b, p);
    }
    OrderOfPredicatesIrrelevant(x, y);
  }

  /** The context holds exactly the trusted facts of the store. */
  lemma ContextHoldsTrusted(buckets: Buckets, f: Fact)
    requires Filed(buckets)
    ensures f in Context(buckets) <==> f.pred in buckets && f in buckets[f.pred] && IsTrusted(f.layer)
  {
    var facts := Listing(buckets, buckets.Keys);
    SortedIsStable(facts);
    TrustedAscending(Sorted(facts));
    InOfPred(facts, f);
  }

  lemma {:induction false} InOfPred(facts: seq<Fact>, f: Fact)
    ensures f in OfPred(facts, f.pred) <==> f in facts
  {
    if facts != [] {
      InOfPred(facts[1..], f);
      assert facts == [facts[0]] + facts[1..];
    }
  }

  /** `all_facts`: the order in which a hash map gives its buckets is not known. */
  lemma DoneOneMore(all: set<string>, left: set<string>, p: string)
    requires p in left && left <= all
    ensures all - (left - {p}) == all - left + {p}
  {}

  method AllFacts(store: GraphStore) returns (facts: seq<Fact>)
    requires store.Valid()
    ensures Lists(store.buckets, facts)
  {
    facts := [];
    var left := store.buckets.Keys;
    while left != {}
      invariant left <= store.buckets.Keys
      invariant forall q :: OfPred(facts, q) ==
                            if q in store.buckets && q in store.buckets.Keys - left then store.buckets[q] else []
      decreases |left|
    {
      var p :| p in left;
      AnotherBucket(store.buckets, store.buckets.Keys - left, facts, p);
      DoneOneMore(store.buckets.Keys, left, p);
      facts := facts + store.buckets[p];
      left := left - {p};
    }
  }

  // ----- the method -----

  /** The ids of a found fact that were not seen before are to be visited next. */
  method MarkSeen(w: Walk, args: seq<string>) returns (v: Walk)
    ensures v == Walk(w.out, w.seen + SetOf(args), w.next + Unseen(args, w.seen))
  {
    var seen, next := w.seen, w.next;
    for i := 0 to |args|
      invariant seen == w.seen + SetOf(args[..i])
      invariant next + Unseen(args[i..], seen) == w.next + Unseen(args, w.seen)
    {
      assert args[i..] == [args[i]] + args[i + 1..] && args[..i + 1] == args[..i] + [args[i]];
      assert SetOf(args[..i + 1]) == SetOf(args[..i]) + {args[i]};
      if args[i] !in seen {
        AppendFirst(next, args[i], Unseen(args[i + 1..], seen + {args[i]}));
        seen, next := seen + {args[i]}, next + [args[i]];
      } else {
        assert seen + {args[i]} == seen;
      }
    }
    assert args[..|args|] == args && args[|args|..] == [];
    v := Walk(w.out, seen, next);
  }

  lemma AppendFirst(next: seq<string>, id: string, more: seq<string>)
    ensures next + [id] + more == next + ([id] + more)
  {}

  /** The facts of one id, until `cap` facts are found. */
  method VisitFacts(facts: seq<Fact>, id: string, w: Walk, cap: nat) returns (v: Walk, full: bool)
    requires |w.out| < cap
    ensures !full ==> v == VisitId(w, id, Trusted(facts)) && |v.out| < cap
    ensures full ==> |v.out| == cap && v.out <= VisitId(w, id, Trusted(facts)).out
  {
    v := w;
    ghost var want := VisitId(w, id, Trusted(facts));
    for i := 0 to |facts|
      invariant |v.out| < cap && VisitId(v, id, Trusted(facts[i..])) == want
    {
      var f := facts[i];
      assert facts[i..] == [f] + facts[i + 1..];
      if IsTrusted(f.layer) {
        ConsTail(f, Trusted(facts[i + 1..]));
        if id in f.args && f !in v.out {
          v := MarkSeen(v.(out := v.out + [f]), f.args);
          if |v.out| >= cap {
            VisitIdGrows(v, id, Trusted(facts[i + 1..]));
            return v, true;
          }
        }
      }
    }
    full := false;
  }

  lemma LevelNext(w: Walk, frontier: seq<string>, j: nat, facts: seq<Fact>)
    requires j < |frontier|
    ensures VisitLevel(w, frontier[j..], facts) == VisitLevel(VisitId(w, frontier[j], facts), frontier[j + 1..], facts)
    ensures VisitId(w, frontier[j], facts).out <= VisitLevel(w, frontier[j..], facts).out
  {
    assert frontier[j..] == [frontier[j]] + frontier[j + 1..];
    VisitLevelGrows(VisitId(w, frontier[j], facts), frontier[j + 1..], facts);
  }

  /** One level of the walk. */
  method VisitFrontier(store: GraphStore, frontier: seq<string>, w: Walk, cap: nat) returns (v: Walk, full: bool)
    requires store.Valid() && |w.out| < cap
    ensures !full ==> v == VisitLevel(w, frontier, Context(store.buckets)) && |v.out| < cap
    ensures full ==> |v.out| == cap && v.out <= VisitLevel(w, frontier, Context(store.buckets)).out
  {
    v := w;
    ghost var context := Context(store.buckets);
    for j := 0 to |frontier|
      invariant |v.out| < cap && VisitLevel(v, frontier[j..], context) == VisitLevel(w, frontier, context)
    {
      LevelNext(v, frontier, j, context);
      var facts := AllFacts(store);
      ContextOfListing(store.buckets, facts);
      v, full := VisitFacts(Sorted(facts), frontier[j], v, cap);
      if full {
        return;
      }
    }
    full := false;
  }

  /** `k_hop`: what the uncapped walk finds, cut off after the first `maxFacts` (but not before the first) fact. */
  method KHop(store: GraphStore, maxFacts: nat, anchor: string, hops: nat) returns (out: seq<Fact>)
    requires store.Valid()
    ensures out == Capped(Found(Context(store.buckets), anchor, hops), maxFacts)
    ensures var all := Found(Context(store.buckets), anchor, hops);
            out <= all && |out| == if |all| <= maxFacts then |all| else if maxFacts > 0 || all == [] then maxFacts else 1
  {
    var cap := if maxFacts == 0 then 1 else maxFacts;
    var w := Start(anchor);
    ghost var context := Context(store.buckets);
    for i := 0 to hops + 1
      invariant |w.out| < cap && Levels(w, hops + 1 - i, context) == Found(context, anchor, hops)
    {
      var v, full := VisitFrontier(store, w.next, w.(next := []), cap);
      if full {
        LevelsExtend(VisitLevel(w.(next := []), w.next, context), hops - i, context);
        return v.out;
      }
      w := v;
      if w.next == [] {
        NothingNext(w, hops - i, context);
        break;
      }
    }
    out := w.out;
  }
}
