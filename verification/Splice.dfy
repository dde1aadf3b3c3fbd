/**
 Splicing a list of range edits into a text, shared by every transform of aa-patch: sort by start, refuse
 overlaps, replace from the last edit to the first. The reference is simultaneous replacement, which walks
 the original text once and never sees an intermediate one. A text is its bytes, one per character.
 */
module Splice {
  import opened Wrappers
  import opened Text

  datatype Edit = Edit(start: nat, end: nat, text: string)

  /** Every range lies inside a text of length `n`. */
  ghost predicate InRange(edits: seq<Edit>, n: nat) {
    forall i :: 0 <= i < |edits| ==> edits[i].start <= edits[i].end <= n
  }

  // ----- the reference: simultaneous replacement -----

  /** The texts of the edits that start at `p`, in list order. */
  function TextsAt(edits: seq<Edit>, p: nat): string {
    if edits == [] then []
    else if edits[0].start == p then edits[0].text + TextsAt(edits[1..], p)
    else TextsAt(edits[1..], p)
  }

  predicate Covers(e: Edit, p: nat) {
    e.start <= p < e.end
  }

  predicate Covered(edits: seq<Edit>, p: nat) {
    edits != [] && (Covers(edits[0], p) || Covered(edits[1..], p))
  }

  lemma {:induction false} CoveredBySome(edits: seq<Edit>, p: nat)
    ensures Covered(edits, p) <==> exists i :: 0 <= i < |edits| && Covers(edits[i], p)
  {
    if edits != [] {
      CoveredBySome(edits[1..], p);
      if i :| 0 <= i < |edits[1..]| && Covers(edits[1..][i], p) {
        assert Covers(edits[i + 1], p);
      }
      if i :| 0 <= i < |edits| && Covers(edits[i], p) {
        assert i > 0 ==> Covers(edits[1..][i - 1], p);
      }
    }
  }

  /** What the result holds for position `p`: the new texts that start there, the old element unless covered. */
  function Emit(src: string, edits: seq<Edit>, p: nat): string {
    if p >= |src| || Covered(edits, p) then TextsAt(edits, p) else TextsAt(edits, p) + [src[p]]
  }

  function SimultaneousFrom(src: string, edits: seq<Edit>, p: nat): string
    requires p <= |src|
    decreases |src| - p
  {
    if p == |src| then Emit(src, edits, p) else Emit(src, edits, p) + SimultaneousFrom(src, edits, p + 1)
  }

  /** One pass over the positions of the original text. */
  function Simultaneous(src: string, edits: seq<Edit>): string {
    SimultaneousFrom(src, edits, 0)
  }

  // ----- the implementation: sort, check, splice descending -----

  function ReplaceRange(s: string, e: Edit): string
    requires e.start <= e.end <= |s|
  {
    s[..e.start] + e.text + s[e.end..]
  }

  function InsertByStart(e: Edit, sorted: seq<Edit>): seq<Edit> {
    if sorted == [] || e.start <= sorted[0].start then [e] + sorted
    else [sorted[0]] + InsertByStart(e, sorted[1..])
  }

  /** `sort_by_key(start)`: stable. */
  function SortByStart(edits: seq<Edit>): seq<Edit> {
    if edits == [] then [] else InsertByStart(edits[0], SortByStart(edits[1..]))
  }

  ghost predicate SortedByStart(edits: seq<Edit>) {
    forall i, j :: 0 <= i < j < |edits| ==> edits[i].start <= edits[j].start
  }

  /** No edit starts before an earlier one of the list has ended. */
  ghost predicate Chained(edits: seq<Edit>) {
    forall i, j :: 0 <= i < j < |edits| ==> edits[i].end <= edits[j].start
  }

  predicate AdjacentOk(edits: seq<Edit>) {
    forall i :: 0 <= i < |edits| - 1 ==> edits[i].end <= edits[i + 1].start
  }

  /** Two edits, `x` before `y` in the list as given, can be applied together. */
  predicate Compatible(x: Edit, y: Edit) {
    if x.start <= y.start then x.end <= y.start else y.end <= x.start
  }

  ghost predicate AllCompatible(edits: seq<Edit>) {
    forall i, j :: 0 <= i < j < |edits| ==> Compatible(edits[i], edits[j])
  }

  /** Splices from the end so that earlier offsets stay valid. */
  method SpliceDescending(src: string, edits: seq<Edit>) returns (out: string)
    requires InRange(edits, |src|) && Chained(edits) && SortedByStart(edits)
    ensures out == Simultaneous(src, edits)
  {
    out := src;
    var i := |edits|;
    assert edits[i..] == [];
    NoEdits(src, 0);
    while i > 0
      invariant 0 <= i <= |edits|
      invariant out == Simultaneous(src, edits[i..])
    {
      i := i - 1;
      var e := edits[i];
      assert edits[i..] == [e] + edits[i + 1..];
      SpliceOne(src, e, edits[i + 1..]);
      out := out[..e.start] + e.text + out[e.end..];
    }
    assert edits[0..] == edits;
  }

  /** Every edit replaces a range by the text that is there; the ranges may overlap. */
  predicate Idle(src: string, edits: seq<Edit>) {
    forall i :: 0 <= i < |edits| ==> IdleEdit(src, edits[i])
  }

  predicate IdleEdit(src: string, e: Edit) {
    e.start <= e.end <= |src| && src[e.start..e.end] == e.text
  }

  ghost predicate InOrder(src: string, edits: seq<Edit>) {
    InRange(edits, |src|) && Chained(edits) && SortedByStart(edits)
  }

  /** Sorts the sites of a text by where they start and splices from the end: sites in order, or such that change nothing. */
  method SpliceSites(src: string, edits: seq<Edit>) returns (out: string)
    requires InOrder(src, edits) || Idle(src, edits)
    ensures Idle(src, edits) ==> out == src
    ensures InOrder(src, edits) ==> out == Simultaneous(src, edits)
  {
    var sorted := SortByStart(edits);
    SortedSites(src, edits);
    out := src;
    var i := |sorted|;
    assert sorted[i..] == [];
    NoEdits(src, 0);
    while i > 0
      invariant 0 <= i <= |sorted| && SplicedFrom(src, sorted, i, out)
    {
      i := i - 1;
      var e := sorted[i];
      OneMoreSpliced(src, sorted, i, out);
      out := out[..e.start] + e.text + out[e.end..];
    }
    assert sorted[0..] == sorted;
    if InOrder(src, edits) && Idle(src, edits) {
      IdleSimultaneous(src, edits);
    }
  }

  ghost predicate SplicedFrom(src: string, sorted: seq<Edit>, i: nat, out: string)
    requires i <= |sorted|
  {
    out == if Idle(src, sorted) then src else Simultaneous(src, sorted[i..])
  }

  lemma SortedSites(src: string, edits: seq<Edit>)
    requires InOrder(src, edits) || Idle(src, edits)
    ensures var sorted := SortByStart(edits);
            && (Idle(src, edits) <==> Idle(src, sorted)) && (InOrder(src, edits) ==> sorted == edits)
            && (Idle(src, sorted) || InOrder(src, sorted))
  {
    assert Idle(src, edits) ==> forall i :: 0 <= i < |edits| ==> IdleEdit(src, edits[i]);
    SortKeeps(edits, |src|);
    IdleMembers(src, edits);
    IdleMembers(src, SortByStart(edits));
    if InOrder(src, edits) {
      SortedStays(edits);
    }
  }

  lemma IdleMembers(src: string, edits: seq<Edit>)
    ensures Idle(src, edits) <==> forall e :: e in edits ==> IdleEdit(src, e)
  {}

  lemma OneMoreSpliced(src: string, sorted: seq<Edit>, i: nat, out: string)
    requires (InOrder(src, sorted) || Idle(src, sorted)) && i < |sorted| && SplicedFrom(src, sorted, i + 1, out)
    ensures var e := sorted[i];
            e.start <= e.end <= |out| && SplicedFrom(src, sorted, i, out[..e.start] + e.text + out[e.end..])
  {
    var e := sorted[i];
    if Idle(src, sorted) {
      assert IdleEdit(src, e);
      IdleSplice(src, e);
    } else {
      assert sorted[i..] == [e] + sorted[i + 1..];
      SpliceOne(src, e, sorted[i + 1..]);
    }
  }

  lemma {:induction false} IdleSimultaneous(src: string, edits: seq<Edit>)
    requires InOrder(src, edits) && Idle(src, edits)
    ensures Simultaneous(src, edits) == src
  {
    if edits == [] {
      NoEdits(src, 0);
    } else {
      var e, rest := edits[0], edits[1..];
      assert edits == [e] + rest && forall i :: 0 <= i < |rest| ==> rest[i] == edits[i + 1];
      IdleSimultaneous(src, rest);
      SpliceOne(src, e, rest);
      assert IdleEdit(src, e);
      IdleSplice(src, e);
    }
  }

  lemma IdleSplice(src: string, e: Edit)
    ensures IdleEdit(src, e) ==> src[..e.start] + e.text + src[e.end..] == src
  {}

  lemma {:induction false} SortedStays(edits: seq<Edit>)
    requires SortedByStart(edits)
    ensures SortByStart(edits) == edits
  {
    if edits != [] {
      assert forall i :: 0 <= i < |edits[1..]| ==> edits[1..][i] == edits[i + 1];
      SortedStays(edits[1..]);
      assert edits == [edits[0]] + edits[1..];
    }
  }

  /** The common tail of every edit list: accepts exactly the pairwise compatible lists. */
  method ApplyEdits(src: string, edits: seq<Edit>) returns (r: Option<string>)
    requires InRange(edits, |src|)
    ensures r.Some? <==> AllCompatible(edits)
    ensures r.Some? ==> r.value == Simultaneous(src, edits)
    ensures r.Some? ==> |r.value| == |src| - TotalRemoved(edits) + TotalAdded(edits)
  {
    var sorted := SortByStart(edits);
    SortKeeps(edits, |src|);
    var i := 0;
    while i + 1 < |sorted|
      invariant 0 <= i && (i == 0 || i < |sorted|)
      invariant forall k :: 0 <= k < i ==> sorted[k].end <= sorted[k + 1].start
    {
      if sorted[i + 1].start < sorted[i].end {
        return None;
      }
      i := i + 1;
    }
    AdjacentIsChained(sorted, |src|);
    var out := SpliceDescending(src, sorted);
    SortSameSimultaneous(src, edits, 0);
    ChainedLength(src, sorted, 0);
    SortSameTotals(edits);
    return Some(out);
  }

  // ----- sorting -----

  lemma {:induction false} InsertMembers(e: Edit, s: seq<Edit>)
    ensures multiset(InsertByStart(e, s)) == multiset(s) + multiset{e}
    ensures forall x :: x in InsertByStart(e, s) <==> x == e || x in s
  {
    if s != [] && s[0].start < e.start {
      InsertMembers(e, s[1..]);
      assert s == [s[0]] + s[1..];
    }
  }

  lemma {:induction false} InsertSorted(e: Edit, s: seq<Edit>)
    requires SortedByStart(s)
    ensures SortedByStart(InsertByStart(e, s))
  {
    if s != [] && s[0].start < e.start {
      var t := InsertByStart(e, s[1..]);
      InsertSorted(e, s[1..]);
      InsertMembers(e, s[1..]);
      forall j | 0 <= j < |t| ensures s[0].start <= t[j].start {
        assert t[j] in t;
      }
    }
  }

  lemma {:induction false} InsertChained(e: Edit, s: seq<Edit>)
    requires SortedByStart(s)
    ensures Chained(InsertByStart(e, s)) <==> Chained(s) && forall x :: x in s ==> Compatible(e, x)
  {
    if s == [] || e.start <= s[0].start {
      ChainedCons(e, s);
      assert forall x :: x in s ==> e.start <= x.start;
    } else {
      var x, rest := s[0], s[1..];
      assert s == [x] + rest;
      InsertChained(e, rest);
      InsertMembers(e, rest);
      ChainedCons(x, rest);
      ChainedCons(x, InsertByStart(e, rest));
      assert Compatible(e, x) <==> x.end <= e.start;
      assert (forall y :: y in s ==> Compatible(e, y)) <==> Compatible(e, x) && forall y :: y in rest ==> Compatible(e, y);
    }
  }

  lemma ChainedCons(x: Edit, s: seq<Edit>)
    ensures Chained([x] + s) <==> Chained(s) && forall y :: y in s ==> x.end <= y.start
  {
    var r := [x] + s;
    if Chained(r) {
      forall i, j | 0 <= i < j < |s| ensures s[i].end <= s[j].start {
        assert r[i + 1].end <= r[j + 1].start;
      }
      forall y | y in s ensures x.end <= y.start {
        var i :| 0 <= i < |s| && s[i] == y;
        assert r[0].end <= r[i + 1].start;
      }
    }
  }

  lemma AllCompatibleCons(e: Edit, s: seq<Edit>)
    ensures AllCompatible([e] + s) <==> AllCompatible(s) && forall x :: x in s ==> Compatible(e, x)
  {
    var r := [e] + s;
    if AllCompatible(r) {
      forall i, j | 0 <= i < j < |s| ensures Compatible(s[i], s[j]) {
        assert Compatible(r[i + 1], r[j + 1]);
      }
      forall x | x in s ensures Compatible(e, x) {
        var i :| 0 <= i < |s| && s[i] == x;
        assert Compatible(r[0], r[i + 1]);
      }
    }
  }

  /** Sorting permutes the list, orders it, and chains it exactly when the list was pairwise compatible. */
  lemma {:induction false} SortKeeps(edits: seq<Edit>, n: nat)
    requires InRange(edits, n)
    ensures SortedByStart(SortByStart(edits)) && InRange(SortByStart(edits), n)
    ensures multiset(SortByStart(edits)) == multiset(edits)
    ensures forall x :: x in SortByStart(edits) <==> x in edits
    ensures Chained(SortByStart(edits)) <==> AllCompatible(edits)
  {
    if edits != [] {
      var e, rest := edits[0], edits[1..];
      assert edits == [e] + rest;
      SortKeeps(rest, n);
      InsertMembers(e, SortByStart(rest));
      InsertSorted(e, SortByStart(rest));
      InsertChained(e, SortByStart(rest));
      AllCompatibleCons(e, rest);
      MembersInRange(edits, SortByStart(edits), n);
    }
  }

  lemma MembersInRange(edits: seq<Edit>, s: seq<Edit>, n: nat)
    requires InRange(edits, n) && forall x :: x in s ==> x in edits
    ensures InRange(s, n)
  {
    forall i | 0 <= i < |s| ensures s[i].start <= s[i].end <= n {
      assert s[i] in edits;
    }
  }

  /** The adjacent-pair check is enough: over sorted ranges it implies the check of all pairs. */
  lemma AdjacentIsChained(sorted: seq<Edit>, n: nat)
    requires SortedByStart(sorted) && InRange(sorted, n)
    ensures AdjacentOk(sorted) <==> Chained(sorted)
  {
    if AdjacentOk(sorted) {
      forall i, j | 0 <= i < j < |sorted| ensures sorted[i].end <= sorted[j].start {
        assert sorted[i].end <= sorted[i + 1].start <= sorted[j].start;
      }
    }
  }

  ghost predicate Disjoint(x: Edit, y: Edit) {
    forall p: nat :: !(Covers(x, p) && Covers(y, p))
  }

  /** For non-empty ranges the accepted lists are exactly those whose ranges share no position. */
  lemma CompatibleIsDisjoint(edits: seq<Edit>)
    requires forall i :: 0 <= i < |edits| ==> edits[i].start < edits[i].end
    ensures AllCompatible(edits) <==> forall i, j :: 0 <= i < j < |edits| ==> Disjoint(edits[i], edits[j])
  {
    forall i, j | 0 <= i < j < |edits| ensures Compatible(edits[i], edits[j]) <==> Disjoint(edits[i], edits[j]) {
      var x, y := edits[i], edits[j];
      var p := if x.start <= y.start then y.start else x.start;
      assert !Compatible(x, y) ==> Covers(x, p) && Covers(y, p);
    }
  }

  lemma {:induction false} InsertTextsAt(e: Edit, s: seq<Edit>, p: nat)
    ensures TextsAt(InsertByStart(e, s), p) == (if e.start == p then e.text else []) + TextsAt(s, p)
  {
    if s == [] || e.start <= s[0].start {
      assert ([e] + s)[1..] == s;
    } else {
      InsertTextsAt(e, s[1..], p);
      assert ([s[0]] + InsertByStart(e, s[1..]))[1..] == InsertByStart(e, s[1..]);
    }
  }

  lemma {:induction false} SortTextsAt(edits: seq<Edit>, p: nat)
    ensures TextsAt(SortByStart(edits), p) == TextsAt(edits, p)
  {
    if edits != [] {
      SortTextsAt(edits[1..], p);
      InsertTextsAt(edits[0], SortByStart(edits[1..]), p);
    }
  }

  lemma SortCovered(edits: seq<Edit>, n: nat, p: nat)
    requires InRange(edits, n)
    ensures Covered(SortByStart(edits), p) <==> Covered(edits, p)
  {
    CoveredBySome(edits, p);
    CoveredBySome(SortByStart(edits), p);
    SortKeeps(edits, n);
    var s := SortByStart(edits);
    if i :| 0 <= i < |s| && Covers(s[i], p) {
      assert s[i] in s;
      var k :| 0 <= k < |edits| && edits[k] == s[i];
    }
    if i :| 0 <= i < |edits| && Covers(edits[i], p) {
      assert edits[i] in s;
      var k :| 0 <= k < |s| && s[k] == edits[i];
    }
  }

  // ----- the reference position by position -----

  function Flatten(parts: seq<string>): string {
    if parts == [] then [] else parts[0] + Flatten(parts[1..])
  }

  function Emits(src: string, edits: seq<Edit>, p: nat): (parts: seq<string>)
    requires p <= |src|
    ensures |parts| == |src| + 1 - p && forall k :: 0 <= k < |parts| ==> parts[k] == Emit(src, edits, p + k)
  {
    seq(|src| + 1 - p, k requires 0 <= k < |src| + 1 - p => Emit(src, edits, p + k))
  }

  lemma {:induction false} IsFlattened(src: string, edits: seq<Edit>, p: nat)
    requires p <= |src|
    ensures SimultaneousFrom(src, edits, p) == Flatten(Emits(src, edits, p))
    decreases |src| - p
  {
    var parts := Emits(src, edits, p);
    if p < |src| {
      IsFlattened(src, edits, p + 1);
      assert parts[1..] == Emits(src, edits, p + 1);
    } else {
      assert parts[1..] == [];
    }
  }

  /** Two passes that emit the same at every position give the same. */
  lemma SamePass(src: string, edits: seq<Edit>, p: nat, src': string, edits': seq<Edit>, p': nat)
    requires p <= |src| && p' <= |src'| && Emits(src, edits, p) == Emits(src', edits', p')
    ensures SimultaneousFrom(src, edits, p) == SimultaneousFrom(src', edits', p')
  {
    IsFlattened(src, edits, p);
    IsFlattened(src', edits', p');
  }

  /** Because the sort is stable, it does not change the reference result. */
  lemma SortSameSimultaneous(src: string, edits: seq<Edit>, p: nat)
    requires InRange(edits, |src|) && p <= |src|
    ensures SimultaneousFrom(src, SortByStart(edits), p) == SimultaneousFrom(src, edits, p)
  {
    var parts, parts' := Emits(src, SortByStart(edits), p), Emits(src, edits, p);
    forall k | 0 <= k < |parts| ensures parts[k] == parts'[k] {
      SortTextsAt(edits, p + k);
      SortCovered(edits, |src|, p + k);
    }
    SamePass(src, SortByStart(edits), p, src, edits, p);
  }

  // ----- splicing -----

  lemma {:induction false} NoEdits(src: string, p: nat)
    requires p <= |src|
    ensures SimultaneousFrom(src, [], p) == src[p..]
    decreases |src| - p
  {
    if p < |src| {
      NoEdits(src, p + 1);
      assert src[p..] == [src[p]] + src[p + 1..];
    }
  }

  lemma {:induction false} NoTextsElsewhere(edits: seq<Edit>, p: nat)
    requires forall i :: 0 <= i < |edits| ==> edits[i].start != p
    ensures TextsAt(edits, p) == []
  {
    if edits != [] {
      NoTextsElsewhere(edits[1..], p);
    }
  }

  /** No edit starts at `k`, and `k` is covered or not as stated. */
  ghost predicate Plain(edits: seq<Edit>, k: nat, covered: bool) {
    TextsAt(edits, k) == [] && Covered(edits, k) == covered
  }

  lemma OneStep(src: string, edits: seq<Edit>, p: nat)
    requires p < |src|
    ensures SimultaneousFrom(src, edits, p) == Emit(src, edits, p) + SimultaneousFrom(src, edits, p + 1)
  {}

  lemma DroppedStep(src: string, edits: seq<Edit>, p: nat)
    requires p < |src| && Plain(edits, p, true)
    ensures SimultaneousFrom(src, edits, p) == SimultaneousFrom(src, edits, p + 1)
  {
    assert Emit(src, edits, p) == [];
    OneStep(src, edits, p);
  }

  lemma KeptStep(src: string, edits: seq<Edit>, p: nat)
    requires p < |src| && Plain(edits, p, false)
    ensures SimultaneousFrom(src, edits, p) == [src[p]] + SimultaneousFrom(src, edits, p + 1)
  {
    assert Emit(src, edits, p) == [src[p]];
    OneStep(src, edits, p);
  }

  lemma {:induction false} DroppedStretch(src: string, edits: seq<Edit>, p: nat, b: nat)
    requires p <= b <= |src|
    requires forall k :: p <= k < b ==> Plain(edits, k, true)
    ensures SimultaneousFrom(src, edits, p) == SimultaneousFrom(src, edits, b)
    decreases b - p
  {
    if p < b {
      DroppedStep(src, edits, p);
      DroppedStretch(src, edits, p + 1, b);
    }
  }

  lemma {:induction false} KeptStretch(src: string, edits: seq<Edit>, p: nat, b: nat)
    requires p <= b <= |src|
    requires forall k :: p <= k < b ==> Plain(edits, k, false)
    ensures SimultaneousFrom(src, edits, p) == src[p..b] + SimultaneousFrom(src, edits, b)
    decreases b - p
  {
    if p < b {
      assert Plain(edits, p, false);
      KeptStretch(src, edits, p + 1, b);
      JoinSlice(src, p, b, SimultaneousFrom(src, edits, b));
      KeptStep(src, edits, p);
    }
  }

  lemma JoinSlice(src: string, p: nat, b: nat, tail: string)
    requires p < b <= |src|
    ensures [src[p]] + (src[p + 1..b] + tail) == src[p..b] + tail
  {}

  /** Up to the first edit the text is kept. */
  lemma KeptPrefix(src: string, edits: seq<Edit>, b: nat)
    requires b <= |src|
    requires forall i :: 0 <= i < |edits| ==> b <= edits[i].start
    ensures Simultaneous(src, edits) == src[0..b] + SimultaneousFrom(src, edits, b)
  {
    forall k | 0 <= k < b ensures Plain(edits, k, false) {
      NoTextsElsewhere(edits, k);
      CoveredBySome(edits, k);
    }
    KeptStretch(src, edits, 0, b);
  }

  lemma EmitPast(src: string, e: Edit, rest: seq<Edit>, p: nat)
    requires e.start < p && e.end <= p
    ensures Emit(src, [e] + rest, p) == Emit(src, rest, p)
  {
    assert ([e] + rest)[1..] == rest;
    CoveredCons(e, rest, p);
  }

  /** From the end of `e` on, `e` has no effect. */
  lemma PastEdit(src: string, e: Edit, rest: seq<Edit>, p: nat)
    requires e.start < p && e.end <= p <= |src|
    ensures SimultaneousFrom(src, [e] + rest, p) == SimultaneousFrom(src, rest, p)
  {
    var parts, parts' := Emits(src, [e] + rest, p), Emits(src, rest, p);
    forall k | 0 <= k < |parts| ensures parts[k] == parts'[k] {
      EmitPast(src, e, rest, p + k);
    }
    SamePass(src, [e] + rest, p, src, rest, p);
  }

  lemma CoveredCons(e: Edit, rest: seq<Edit>, p: nat)
    ensures Covered([e] + rest, p) <==> Covers(e, p) || Covered(rest, p)
  {
    assert ([e] + rest)[1..] == rest;
  }

  /** Inside the range of `e` everything is dropped. */
  lemma InsideEdit(src: string, e: Edit, rest: seq<Edit>, p: nat)
    requires e.start < p <= e.end <= |src|
    requires forall i :: 0 <= i < |rest| ==> e.end <= rest[i].start
    ensures SimultaneousFrom(src, [e] + rest, p) == SimultaneousFrom(src, rest, e.end)
  {
    forall k | p <= k < e.end ensures Plain([e] + rest, k, true) {
      NoTextsElsewhere([e] + rest, k);
      CoveredCons(e, rest, k);
    }
    DroppedStretch(src, [e] + rest, p, e.end);
    PastEdit(src, e, rest, e.end);
  }

  lemma EmitAtStart(src: string, e: Edit, rest: seq<Edit>)
    requires forall i :: 0 <= i < |rest| ==> e.end <= rest[i].start
    ensures e.start < e.end ==> Emit(src, [e] + rest, e.start) == e.text
    ensures e.start == e.end ==> Emit(src, [e] + rest, e.start) == e.text + Emit(src, rest, e.start)
  {
    var all, p := [e] + rest, e.start;
    assert all[1..] == rest;
    CoveredCons(e, rest, p);
    if p < e.end {
      NoTextsElsewhere(rest, p);
    }
  }

  lemma InsertAtFront(src: string, e: Edit, rest: seq<Edit>)
    requires e.start == e.end <= |src|
    requires forall i :: 0 <= i < |rest| ==> e.end <= rest[i].start
    ensures SimultaneousFrom(src, [e] + rest, e.start) == e.text + SimultaneousFrom(src, rest, e.end)
  {
    var all, p := [e] + rest, e.start;
    EmitAtStart(src, e, rest);
    if p < |src| {
      OneStep(src, all, p);
      PastEdit(src, e, rest, p + 1);
      Assoc(e.text, Emit(src, rest, p), SimultaneousFrom(src, rest, p + 1));
      OneStep(src, rest, p);
    }
  }

  /** With `e` first in the list, its text comes at its start and everything up to its end is dropped. */
  lemma EditAtFront(src: string, e: Edit, rest: seq<Edit>)
    requires e.start <= e.end <= |src|
    requires forall i :: 0 <= i < |rest| ==> e.end <= rest[i].start
    ensures SimultaneousFrom(src, [e] + rest, e.start) == e.text + SimultaneousFrom(src, rest, e.end)
  {
    if e.start == e.end {
      InsertAtFront(src, e, rest);
    } else {
      ReplaceAtFront(src, e, rest);
    }
  }

  lemma ReplaceAtFront(src: string, e: Edit, rest: seq<Edit>)
    requires e.start < e.end <= |src|
    requires forall i :: 0 <= i < |rest| ==> e.end <= rest[i].start
    ensures SimultaneousFrom(src, [e] + rest, e.start) == e.text + SimultaneousFrom(src, rest, e.end)
  {
    EmitAtStart(src, e, rest);
    InsideEdit(src, e, rest, e.start + 1);
    StepIs(src, [e] + rest, e.start, e.text, SimultaneousFrom(src, rest, e.end));
  }

  lemma StepIs(src: string, edits: seq<Edit>, p: nat, here: string, later: string)
    requires p < |src| && Emit(src, edits, p) == here && SimultaneousFrom(src, edits, p + 1) == later
    ensures SimultaneousFrom(src, edits, p) == here + later
  {
    OneStep(src, edits, p);
  }

  /** Replacing one more range, left of all the others, is what the reference does with that edit added. */
  lemma SpliceOne(src: string, e: Edit, rest: seq<Edit>)
    requires e.start <= e.end <= |src|
    requires forall i :: 0 <= i < |rest| ==> e.end <= rest[i].start
    ensures e.end <= |Simultaneous(src, rest)|
    ensures ReplaceRange(Simultaneous(src, rest), e) == Simultaneous(src, [e] + rest)
  {
    KeptPrefix(src, rest, e.end);
    KeptPrefix(src, [e] + rest, e.start);
    EditAtFront(src, e, rest);
    ReplaceInConcat(src[0..e.end], SimultaneousFrom(src, rest, e.end), e);
    assert src[0..e.end][..e.start] == src[0..e.start];
  }

  lemma ReplaceInConcat(left: string, tail: string, e: Edit)
    requires e.start <= e.end == |left|
    ensures ReplaceRange(left + tail, e) == left[..e.start] + (e.text + tail)
  {}

  // ----- lengths -----

  function TotalRemoved(edits: seq<Edit>): int {
    if edits == [] then 0 else edits[0].end - edits[0].start + TotalRemoved(edits[1..])
  }

  function TotalAdded(edits: seq<Edit>): nat {
    if edits == [] then 0 else |edits[0].text| + TotalAdded(edits[1..])
  }

  lemma {:induction false} InsertTotals(e: Edit, s: seq<Edit>)
    ensures TotalRemoved(InsertByStart(e, s)) == e.end - e.start + TotalRemoved(s)
    ensures TotalAdded(InsertByStart(e, s)) == |e.text| + TotalAdded(s)
  {
    if s == [] || e.start <= s[0].start {
      assert ([e] + s)[1..] == s;
    } else {
      InsertTotals(e, s[1..]);
      assert ([s[0]] + InsertByStart(e, s[1..]))[1..] == InsertByStart(e, s[1..]);
    }
  }

  lemma {:induction false} SortSameTotals(edits: seq<Edit>)
    ensures TotalRemoved(SortByStart(edits)) == TotalRemoved(edits)
    ensures TotalAdded(SortByStart(edits)) == TotalAdded(edits)
  {
    if edits != [] {
      SortSameTotals(edits[1..]);
      InsertTotals(edits[0], SortByStart(edits[1..]));
    }
  }

  /** Length is conserved: what is added is the new texts, what is lost is the ranges. */
  lemma {:induction false} ChainedLength(src: string, edits: seq<Edit>, i: nat)
    requires InRange(edits, |src|) && Chained(edits) && i <= |edits|
    ensures |Simultaneous(src, edits[i..])| == |src| - TotalRemoved(edits[i..]) + TotalAdded(edits[i..])
    decreases |edits| - i
  {
    if i == |edits| {
      NoEdits(src, 0);
    } else {
      ChainedLength(src, edits, i + 1);
      assert edits[i..] == [edits[i]] + edits[i + 1..];
      SpliceOne(src, edits[i], edits[i + 1..]);
    }
  }

  // ----- composition -----

  function Shift(edits: seq<Edit>, d: nat): (r: seq<Edit>)
    ensures |r| == |edits|
    ensures forall i :: 0 <= i < |r| ==> r[i] == Edit(edits[i].start + d, edits[i].end + d, edits[i].text)
  {
    seq(|edits|, i requires 0 <= i < |edits| => Edit(edits[i].start + d, edits[i].end + d, edits[i].text))
  }

  lemma {:induction false} TextsAtConcat(a: seq<Edit>, b: seq<Edit>, p: nat)
    ensures TextsAt(a + b, p) == TextsAt(a, p) + TextsAt(b, p)
  {
    if a == [] {
      assert a + b == b;
    } else {
      TextsAtConcat(a[1..], b, p);
      assert (a + b)[1..] == a[1..] + b;
      Assoc(if a[0].start == p then a[0].text else [], TextsAt(a[1..], p), TextsAt(b, p));
    }
  }

  lemma {:induction false} TextsAtShift(edits: seq<Edit>, d: nat, p: nat)
    ensures TextsAt(Shift(edits, d), p) == if d <= p then TextsAt(edits, p - d) else []
  {
    if edits != [] {
      TextsAtShift(edits[1..], d, p);
      assert Shift(edits, d)[1..] == Shift(edits[1..], d);
    }
  }

  lemma {:induction false} CoveredConcat(a: seq<Edit>, b: seq<Edit>, p: nat)
    ensures Covered(a + b, p) <==> Covered(a, p) || Covered(b, p)
  {
    if a == [] {
      assert a + b == b;
    } else {
      assert a + b == [a[0]] + (a[1..] + b);
      CoveredConcat(a[1..], b, p);
      CoveredCons(a[0], a[1..] + b, p);
    }
  }

  lemma {:induction false} CoveredShift(edits: seq<Edit>, d: nat, p: nat)
    ensures Covered(Shift(edits, d), p) <==> d <= p && Covered(edits, p - d)
  {
    if edits != [] {
      assert Shift(edits, d)[1..] == Shift(edits[1..], d);
      CoveredShift(edits[1..], d, p);
    }
  }

  lemma EmitLeft(a: string, b: string, ea: seq<Edit>, eb: seq<Edit>, p: nat)
    requires InRange(ea, |a|) && p < |a|
    ensures Emit(a + b, ea + Shift(eb, |a|), p) == Emit(a, ea, p)
  {
    TextsAtConcat(ea, Shift(eb, |a|), p);
    TextsAtShift(eb, |a|, p);
    CoveredConcat(ea, Shift(eb, |a|), p);
    CoveredShift(eb, |a|, p);
  }

  lemma EmitMiddle(a: string, b: string, ea: seq<Edit>, eb: seq<Edit>)
    requires InRange(ea, |a|)
    ensures Emit(a + b, ea + Shift(eb, |a|), |a|) == Emit(a, ea, |a|) + Emit(b, eb, 0)
  {
    var n, all := |a|, ea + Shift(eb, |a|);
    assert TextsAt(all, n) == TextsAt(ea, n) + TextsAt(eb, 0) by {
      TextsAtConcat(ea, Shift(eb, n), n);
      TextsAtShift(eb, n, n);
    }
    assert Covered(all, n) == Covered(eb, 0) by {
      CoveredBySome(ea, n);
      CoveredConcat(ea, Shift(eb, n), n);
      CoveredShift(eb, n, n);
    }
    if b != [] && !Covered(eb, 0) {
      Assoc(TextsAt(ea, n), TextsAt(eb, 0), [b[0]]);
    }
  }

  lemma EmitRight(a: string, b: string, ea: seq<Edit>, eb: seq<Edit>, q: nat)
    requires InRange(ea, |a|) && 0 < q
    ensures Emit(a + b, ea + Shift(eb, |a|), |a| + q) == Emit(b, eb, q)
  {
    var p, all := |a| + q, ea + Shift(eb, |a|);
    assert TextsAt(all, p) == TextsAt(eb, q) by {
      TextsAtConcat(ea, Shift(eb, |a|), p);
      TextsAtShift(eb, |a|, p);
      NoTextsElsewhere(ea, p);
    }
    assert Covered(all, p) == Covered(eb, q) by {
      CoveredBySome(ea, p);
      CoveredConcat(ea, Shift(eb, |a|), p);
      CoveredShift(eb, |a|, p);
    }
    assert q < |b| ==> (a + b)[p] == b[q];
  }

  /** Editing two texts side by side is editing each on its own. */
  lemma SimultaneousConcat(a: string, b: string, ea: seq<Edit>, eb: seq<Edit>)
    requires InRange(ea, |a|)
    ensures Simultaneous(a + b, ea + Shift(eb, |a|)) == Simultaneous(a, ea) + Simultaneous(b, eb)
  {
    LeftPart(a, b, ea, eb, 0);
  }

  lemma {:induction false} LeftPart(a: string, b: string, ea: seq<Edit>, eb: seq<Edit>, p: nat)
    requires InRange(ea, |a|) && p <= |a|
    ensures SimultaneousFrom(a + b, ea + Shift(eb, |a|), p) == SimultaneousFrom(a, ea, p) + Simultaneous(b, eb)
    decreases |a| - p
  {
    if p < |a| {
      EmitLeft(a, b, ea, eb, p);
      LeftPart(a, b, ea, eb, p + 1);
      OneStep(a + b, ea + Shift(eb, |a|), p);
      OneStep(a, ea, p);
      Assoc(Emit(a, ea, p), SimultaneousFrom(a, ea, p + 1), Simultaneous(b, eb));
    } else {
      MiddlePart(a, b, ea, eb);
    }
  }

  lemma MiddlePart(a: string, b: string, ea: seq<Edit>, eb: seq<Edit>)
    requires InRange(ea, |a|)
    ensures SimultaneousFrom(a + b, ea + Shift(eb, |a|), |a|) == SimultaneousFrom(a, ea, |a|) + Simultaneous(b, eb)
  {
    EmitMiddle(a, b, ea, eb);
    if b != [] {
      RightPart(a, b, ea, eb, 1);
      OneStep(a + b, ea + Shift(eb, |a|), |a|);
      OneStep(b, eb, 0);
      Assoc(Emit(a, ea, |a|), Emit(b, eb, 0), SimultaneousFrom(b, eb, 1));
    }
  }

  lemma RightPart(a: string, b: string, ea: seq<Edit>, eb: seq<Edit>, q: nat)
    requires InRange(ea, |a|) && 0 < q <= |b|
    ensures SimultaneousFrom(a + b, ea + Shift(eb, |a|), |a| + q) == SimultaneousFrom(b, eb, q)
  {
    var parts, parts' := Emits(a + b, ea + Shift(eb, |a|), |a| + q), Emits(b, eb, q);
    forall k | 0 <= k < |parts| ensures parts[k] == parts'[k] {
      EmitRight(a, b, ea, eb, q + k);
    }
    SamePass(a + b, ea + Shift(eb, |a|), |a| + q, b, eb, q);
  }
}
