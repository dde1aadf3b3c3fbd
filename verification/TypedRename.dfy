/**
 `apply_text_edits` of crates/aa-patch/src/typed_rename.rs (repeated in crates/aa-core/src/ra_pool.rs): LSP text
 edits resolved to byte ranges, sorted, checked for overlap and spliced from the end.
 */
module TypedRename {
  import opened Wrappers
  import opened Splice
  import opened Text
  import opened Positions

  datatype Position = Position(line: nat, character: nat)

  datatype TextEdit = TextEdit(start: Position, end: Position, newText: string)

  datatype EditError = StartOutOfRange | EndOutOfRange | EndPrecedesStart | OverlappingEdits

  ghost predicate LocatesChar(text: string, p: Position, i: nat) {
    i <= |text| && Locates(text, p.line, p.character, Some(Offset(text, i)))
  }

  ghost predicate ResolvesTo(text: string, e: TextEdit, c: Edit) {
    && LocatesChar(text, e.start, c.start)
    && LocatesChar(text, e.end, c.end)
    && c.start <= c.end
    && c.text == e.newText
  }

  /** The edits in terms of characters: every position exists and no range is reversed. */
  ghost predicate Resolved(text: string, edits: seq<TextEdit>, chars: seq<Edit>) {
    |chars| == |edits| && forall i :: 0 <= i < |edits| ==> ResolvesTo(text, edits[i], chars[i])
  }

  function ByteEdit(text: string, c: Edit): Edit
    requires c.start <= |text| && c.end <= |text|
  {
    Edit(Offset(text, c.start), Offset(text, c.end), Utf8(c.text))
  }

  ghost predicate IsByteEdits(text: string, chars: seq<Edit>, bytes: seq<Edit>) {
    && InRange(chars, |text|)
    && |bytes| == |chars|
    && forall i :: 0 <= i < |chars| ==> bytes[i] == ByteEdit(text, chars[i])
  }

  /** Resolves one end of a range; a missing position resolves to no character. */
  method ResolvePosition(lineStarts: seq<nat>, text: string, p: Position) returns (b: Option<nat>, ghost i: nat)
    requires lineStarts == Starts(Utf8(text))
    ensures b.Some? ==> LocatesChar(text, p, i) && b.value == Offset(text, i)
    ensures b.None? ==> forall k :: !LocatesChar(text, p, k)
  {
    b := LinecolToByte(lineStarts, text, p.line, p.character);
    i := 0;
    if b.Some? {
      LocatesBoundary(text, p.line, p.character, b.value);
      ghost var k :| 0 <= k <= |text| && Offset(text, k) == b.value;
      i := k;
    } else {
      forall k ensures !LocatesChar(text, p, k) {
        if LocatesChar(text, p, k) {
          LocatesUnique(text, p.line, p.character, b, Some(Offset(text, k)));
        }
      }
    }
  }

  lemma LocatesCharUnique(text: string, p: Position, i: nat, k: nat)
    requires LocatesChar(text, p, i) && LocatesChar(text, p, k)
    ensures i == k
  {
    LocatesUnique(text, p.line, p.character, Some(Offset(text, i)), Some(Offset(text, k)));
    OffsetOrder(text, i, k);
  }

  lemma OffsetOrder(text: string, i: nat, j: nat)
    requires i <= |text| && j <= |text|
    ensures i < j <==> Offset(text, i) < Offset(text, j)
    ensures i == j <==> Offset(text, i) == Offset(text, j)
  {
    if i < j {
      OffsetSplit(text, i, j);
    } else if j < i {
      OffsetSplit(text, j, i);
    }
  }

  /** Resolves one edit, with the error of the first check that fails. */
  method ResolveEdit(lineStarts: seq<nat>, text: string, e: TextEdit) returns (r: Result<Edit, EditError>, ghost c: Edit)
    requires lineStarts == Starts(Utf8(text))
    ensures r.Success? ==> ResolvesTo(text, e, c) && r.value == ByteEdit(text, c)
    ensures r.Failure? ==> r.error != OverlappingEdits && forall d :: !ResolvesTo(text, e, d)
  {
    c := Edit(0, 0, []);
    var a, b;
    ghost var ca, cb;
    a, ca := ResolvePosition(lineStarts, text, e.start);
    if a.None? {
      return Failure(StartOutOfRange), c;
    }
    b, cb := ResolvePosition(lineStarts, text, e.end);
    if b.None? {
      return Failure(EndOutOfRange), c;
    }
    OffsetOrder(text, cb, ca);
    if b.value < a.value {
      forall d ensures !ResolvesTo(text, e, d) {
        if ResolvesTo(text, e, d) {
          LocatesCharUnique(text, e.start, ca, d.start);
          LocatesCharUnique(text, e.end, cb, d.end);
        }
      }
      return Failure(EndPrecedesStart), c;
    }
    return Success(Edit(a.value, b.value, Utf8(e.newText))), Edit(ca, cb, e.newText);
  }

  /** Resolves the edits in order and stops at the first that cannot be resolved. */
  method ResolveEdits(source: string, edits: seq<TextEdit>)
    returns (r: Result<seq<Edit>, EditError>, ghost chars: seq<Edit>)
    ensures r.Success? ==> Resolved(source, edits, chars) && IsByteEdits(source, chars, r.value)
    ensures r.Failure? ==> r.error != OverlappingEdits && forall cs :: !Resolved(source, edits, cs)
  {
    var lineStarts := LineStarts(Utf8(source));
    var byteEdits: seq<Edit> := [];
    chars := [];
    for i := 0 to |edits|
      invariant Resolved(source, edits[..i], chars)
      invariant IsByteEdits(source, chars, byteEdits)
    {
      var one;
      ghost var c;
      one, c := ResolveEdit(lineStarts, source, edits[i]);
      if one.Failure? {
        Unresolvable(source, edits, i);
        return Failure(one.error), chars;
      }
      ResolvedSnoc(source, edits[..i], chars, byteEdits, edits[i], c);
      TakeSnoc(edits, i);
      byteEdits := byteEdits + [one.value];
      chars := chars + [c];
    }
    assert edits[..|edits|] == edits;
    return Success(byteEdits), chars;
  }

  lemma TakeSnoc(edits: seq<TextEdit>, i: nat)
    requires i < |edits|
    ensures edits[..i + 1] == edits[..i] + [edits[i]]
  {}

  lemma Unresolvable(text: string, edits: seq<TextEdit>, i: nat)
    requires i < |edits| && forall d :: !ResolvesTo(text, edits[i], d)
    ensures forall cs :: !Resolved(text, edits, cs)
  {
    assert forall cs: seq<Edit> :: Resolved(text, edits, cs) ==> ResolvesTo(text, edits[i], cs[i]);
  }

  lemma ResolvedSnoc(text: string, edits: seq<TextEdit>, chars: seq<Edit>, bytes: seq<Edit>, e: TextEdit, c: Edit)
    requires Resolved(text, edits, chars) && IsByteEdits(text, chars, bytes) && ResolvesTo(text, e, c)
    ensures Resolved(text, edits + [e], chars + [c])
    ensures IsByteEdits(text, chars + [c], bytes + [ByteEdit(text, c)])
  {}

  /** The edits can be made: all positions exist, no range is reversed and all are pairwise compatible. */
  ghost predicate Applicable(source: string, edits: seq<TextEdit>) {
    exists cs :: Resolved(source, edits, cs) && AllCompatible(cs)
  }

  /**
   Succeeds exactly when the edits are applicable, and then returns the UTF-8 of the text with all
   replacements made at once on its characters.
   */
  method ApplyTextEdits(source: string, edits: seq<TextEdit>) returns (r: Result<string, EditError>, ghost chars: seq<Edit>)
    ensures r.Success? <==> Applicable(source, edits)
    ensures r.Success? ==> Resolved(source, edits, chars) && r.value == Utf8(Simultaneous(source, chars))
    ensures r == Failure(OverlappingEdits) <==> !Applicable(source, edits) && exists cs :: Resolved(source, edits, cs)
  {
    var resolved;
    resolved, chars := ResolveEdits(source, edits);
    if resolved.Failure? {
      return Failure(resolved.error), chars;
    }
    var byteEdits := resolved.value;
    BytesInRange(source, chars, byteEdits);
    CompatibleInBytes(source, chars, byteEdits);
    var out := ApplyEdits(Utf8(source), byteEdits);
    if out.None? {
      forall cs | Resolved(source, edits, cs) ensures cs == chars {
        ResolvedUnique(source, edits, chars, cs);
      }
      return Failure(OverlappingEdits), chars;
    }
    BytesFollowChars(source, chars, byteEdits);
    return Success(out.value), chars;
  }

  lemma ResolvedUnique(text: string, edits: seq<TextEdit>, cs: seq<Edit>, ds: seq<Edit>)
    requires Resolved(text, edits, cs) && Resolved(text, edits, ds)
    ensures cs == ds
  {
    forall i | 0 <= i < |edits| ensures cs[i] == ds[i] {
      LocatesCharUnique(text, edits[i].start, cs[i].start, ds[i].start);
      LocatesCharUnique(text, edits[i].end, cs[i].end, ds[i].end);
    }
  }

  lemma BytesInRange(text: string, chars: seq<Edit>, bytes: seq<Edit>)
    requires IsByteEdits(text, chars, bytes)
    ensures InRange(bytes, |Utf8(text)|)
  {
    assert text[..|text|] == text;
    forall i | 0 <= i < |bytes| ensures bytes[i].start <= bytes[i].end <= |Utf8(text)| {
      OffsetOrder(text, chars[i].end, chars[i].start);
      OffsetOrder(text, |text|, chars[i].end);
    }
  }

  lemma CompatibleInBytes(text: string, chars: seq<Edit>, bytes: seq<Edit>)
    requires IsByteEdits(text, chars, bytes)
    ensures AllCompatible(bytes) <==> AllCompatible(chars)
  {
    forall i, j | 0 <= i < j < |chars| ensures Compatible(bytes[i], bytes[j]) <==> Compatible(chars[i], chars[j]) {
      OffsetOrder(text, chars[j].start, chars[i].start);
      OffsetOrder(text, chars[j].start, chars[i].end);
      OffsetOrder(text, chars[i].start, chars[j].end);
    }
  }

  // ----- editing the bytes is editing the characters -----

  lemma {:induction false} TextsInBytes(text: string, chars: seq<Edit>, bytes: seq<Edit>, p: nat)
    requires IsByteEdits(text, chars, bytes) && p <= |text|
    ensures TextsAt(bytes, Offset(text, p)) == Utf8(TextsAt(chars, p))
  {
    if chars != [] {
      TextsInBytes(text, chars[1..], bytes[1..], p);
      OffsetOrder(text, chars[0].start, p);
      var first := if chars[0].start == p then chars[0].text else [];
      Utf8Concat(first, TextsAt(chars[1..], p));
    }
  }

  lemma NoTextsInside(text: string, chars: seq<Edit>, bytes: seq<Edit>, p: nat, q: nat)
    requires IsByteEdits(text, chars, bytes) && p < |text| && Offset(text, p) < q < Offset(text, p + 1)
    ensures TextsAt(bytes, q) == []
  {
    forall i | 0 <= i < |bytes| ensures bytes[i].start != q {
      OffsetOrder(text, p, chars[i].start);
      OffsetOrder(text, chars[i].start, p + 1);
    }
    NoTextsElsewhere(bytes, q);
  }

  /** An edit covers all bytes of a character or none. */
  lemma CoveredInBytes(text: string, chars: seq<Edit>, bytes: seq<Edit>, p: nat, q: nat)
    requires IsByteEdits(text, chars, bytes) && p < |text| && Offset(text, p) <= q < Offset(text, p + 1)
    ensures Covered(bytes, q) <==> Covered(chars, p)
  {
    CoveredBySome(chars, p);
    CoveredBySome(bytes, q);
    forall i | 0 <= i < |chars| ensures Covers(bytes[i], q) <==> Covers(chars[i], p) {
      OffsetOrder(text, p, chars[i].start);
      OffsetOrder(text, chars[i].start, p + 1);
      OffsetOrder(text, p, chars[i].end);
      OffsetOrder(text, chars[i].end, p + 1);
    }
  }

  lemma CharBytes(text: string, p: nat)
    requires p < |text|
    ensures Offset(text, p) < Offset(text, p + 1) <= |Utf8(text)|
    ensures Utf8(text)[Offset(text, p)..Offset(text, p + 1)] == Utf8Char(text[p])
  {
    assert text == text[..p + 1] + text[p + 1..];
    Utf8Concat(text[..p + 1], text[p + 1..]);
    assert text[..p + 1][..p] == text[..p];
  }

  /** Past its first byte a character is kept or dropped as a whole, and nothing is inserted. */
  lemma PlainInside(text: string, chars: seq<Edit>, bytes: seq<Edit>, p: nat, q: nat)
    requires IsByteEdits(text, chars, bytes) && p < |text| && Offset(text, p) < q < Offset(text, p + 1)
    ensures Plain(bytes, q, Covered(chars, p))
  {
    NoTextsInside(text, chars, bytes, p, q);
    CoveredInBytes(text, chars, bytes, p, q);
  }

  lemma RestOfChar(text: string, chars: seq<Edit>, bytes: seq<Edit>, p: nat, src: string, a: nat, e: nat)
    requires IsByteEdits(text, chars, bytes) && p < |text|
    requires src == Utf8(text) && a == Offset(text, p) < e == Offset(text, p + 1) <= |src|
    ensures Covered(chars, p) ==> SimultaneousFrom(src, bytes, a + 1) == SimultaneousFrom(src, bytes, e)
    ensures !Covered(chars, p) ==> SimultaneousFrom(src, bytes, a + 1) == src[a + 1..e] + SimultaneousFrom(src, bytes, e)
  {
    forall q | a < q < e ensures Plain(bytes, q, Covered(chars, p)) {
      PlainInside(text, chars, bytes, p, q);
    }
    RestOfStretch(src, bytes, a, e, Covered(chars, p));
  }

  lemma RestOfStretch(src: string, bytes: seq<Edit>, a: nat, e: nat, covered: bool)
    requires a < e <= |src| && forall q :: a < q < e ==> Plain(bytes, q, covered)
    ensures covered ==> SimultaneousFrom(src, bytes, a + 1) == SimultaneousFrom(src, bytes, e)
    ensures !covered ==> SimultaneousFrom(src, bytes, a + 1) == src[a + 1..e] + SimultaneousFrom(src, bytes, e)
  {
    if covered {
      DroppedStretch(src, bytes, a + 1, e);
    } else {
      KeptStretch(src, bytes, a + 1, e);
    }
  }

  lemma KeptCharBytes(text: string, texts: string, p: nat, src: string, a: nat, e: nat)
    requires p < |text|
    requires src == Utf8(text) && a == Offset(text, p) < e == Offset(text, p + 1) <= |src|
    ensures Utf8(texts + [text[p]]) == (Utf8(texts) + [src[a]]) + src[a + 1..e]
  {
    CharBytes(text, p);
    assert (texts + [text[p]])[..|texts|] == texts;
    assert src[a..e] == [src[a]] + src[a + 1..e];
    Assoc(Utf8(texts), [src[a]], src[a + 1..e]);
  }

  lemma EmitInBytes(text: string, chars: seq<Edit>, bytes: seq<Edit>, p: nat, src: string, a: nat, e: nat)
    requires IsByteEdits(text, chars, bytes) && p < |text|
    requires src == Utf8(text) && a == Offset(text, p) < e == Offset(text, p + 1) <= |src|
    ensures Covered(chars, p) ==> Emit(src, bytes, a) == Utf8(Emit(text, chars, p))
    ensures !Covered(chars, p) ==> Emit(src, bytes, a) + src[a + 1..e] == Utf8(Emit(text, chars, p))
  {
    TextsInBytes(text, chars, bytes, p);
    CoveredInBytes(text, chars, bytes, p, a);
    KeptCharBytes(text, TextsAt(chars, p), p, src, a, e);
    if Covered(chars, p) {
      assert Emit(text, chars, p) == TextsAt(chars, p) && Emit(src, bytes, a) == TextsAt(bytes, a);
    }
  }

  /** One character of the reference, seen in bytes. */
  lemma CharStep(text: string, chars: seq<Edit>, bytes: seq<Edit>, p: nat, src: string, a: nat, e: nat)
    requires IsByteEdits(text, chars, bytes) && p < |text|
    requires src == Utf8(text) && a == Offset(text, p) < e == Offset(text, p + 1) <= |src|
    ensures SimultaneousFrom(src, bytes, a) == Utf8(Emit(text, chars, p)) + SimultaneousFrom(src, bytes, e)
  {
    var first, rest := Emit(src, bytes, a), SimultaneousFrom(src, bytes, e);
    OneStep(src, bytes, a);
    RestOfChar(text, chars, bytes, p, src, a, e);
    EmitInBytes(text, chars, bytes, p, src, a, e);
    if !Covered(chars, p) {
      Assoc(first, src[a + 1..e], rest);
    }
  }

  /** The result of the byte edits is the UTF-8 of the result of the character edits. */
  lemma {:induction false} BytesFollowCharsFrom(text: string, chars: seq<Edit>, bytes: seq<Edit>, p: nat, src: string, a: nat)
    requires IsByteEdits(text, chars, bytes) && p <= |text|
    requires src == Utf8(text) && a == Offset(text, p) <= |src|
    ensures SimultaneousFrom(src, bytes, a) == Utf8(SimultaneousFrom(text, chars, p))
    decreases |text| - p
  {
    if p == |text| {
      assert text[..p] == text;
      TextsInBytes(text, chars, bytes, p);
      assert SimultaneousFrom(text, chars, p) == TextsAt(chars, p);
    } else {
      CharBytes(text, p);
      var e := Offset(text, p + 1);
      CharStep(text, chars, bytes, p, src, a, e);
      BytesFollowCharsFrom(text, chars, bytes, p + 1, src, e);
      Utf8Concat(Emit(text, chars, p), SimultaneousFrom(text, chars, p + 1));
    }
  }

  lemma BytesFollowChars(text: string, chars: seq<Edit>, bytes: seq<Edit>)
    requires IsByteEdits(text, chars, bytes)
    ensures Simultaneous(Utf8(text), bytes) == Utf8(Simultaneous(text, chars))
  {
    assert text[..0] == [];
    BytesFollowCharsFrom(text, chars, bytes, 0, Utf8(text), 0);
  }
}
