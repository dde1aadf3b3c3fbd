/**
 Adding and removing derives, crates/aa-patch/src/add_derive.rs, on a source whose target type has been located. A
 source is its text around the type's first `#[derive(...)]`, or around the type's own tokens when it has none.
 */
module Derive {
  import opened Wrappers
  import opened Text
  import opened Positions

  // ----- derive paths -----

  function Join(parts: seq<string>, sep: string): string {
    if parts == [] then "" else if |parts| == 1 then parts[0] else parts[0] + sep + Join(parts[1..], sep)
  }

  /** Identifiers joined by `::`. */
  ghost predicate IsPath(s: string) {
    exists segments: seq<string> :: IsPathOf(segments, s)
  }

  ghost predicate IsPathOf(segments: seq<string>, s: string) {
    segments != [] && (forall i :: 0 <= i < |segments| ==> IsValidIdent(segments[i])) && Join(segments, "::") == s
  }

  /** What the scan accepts of the rest of a text; `start` says whether a segment has to begin. */
  predicate Scans(s: string, start: bool) {
    if s == "" then !start
    else if start then IsIdentStart(s[0]) && Scans(s[1..], false)
    else if s[0] == ':' then |s| > 1 && s[1] == ':' && Scans(s[2..], true)
    else IsIdentChar(s[0]) && Scans(s[1..], false)
  }

  method IsValidDerivePath(s: string) returns (ok: bool)
    ensures ok <==> IsPath(s)
    ensures ok <==> Scans(s, true)
  {
    ScansExactlyPaths(s);
    if s == "" {
      return false;
    }
    var i, start := 0, true;
    while i < |s|
      invariant 0 <= i <= |s|
      invariant Scans(s, true) <==> Scans(s[i..], start)
    {
      var c := s[i];
      assert s[i..][1..] == s[i + 1..];
      i := i + 1;
      if start {
        if !IsIdentStart(c) {
          return false;
        }
        start := false;
      } else if c == ':' {
        if i == |s| || s[i] != ':' {
          return false;
        }
        assert s[i - 1..][2..] == s[i + 1..];
        i := i + 1;
        start := true;
      } else if !IsIdentChar(c) {
        return false;
      }
    }
    assert s[|s|..] == "";
    ok := !start;
  }

  lemma ScansExactlyPaths(s: string)
    ensures Scans(s, true) <==> IsPath(s)
  {
    if Scans(s, true) {
      ScannedIsPath(s);
    }
    if IsPath(s) {
      var segments: seq<string> :| IsPathOf(segments, s);
      PathScans(segments);
    }
  }

  /** Past an identifier the scan is inside a segment. */
  lemma {:induction false} PartScans(part: string, rest: string)
    requires forall i :: 0 <= i < |part| ==> IsIdentChar(part[i])
    ensures Scans(part + rest, false) <==> Scans(rest, false)
  {
    if part == "" {
      assert part + rest == rest;
    } else {
      PartScans(part[1..], rest);
      assert (part + rest)[1..] == part[1..] + rest;
    }
  }

  lemma IdentScans(ident: string, rest: string)
    requires IsValidIdent(ident)
    ensures Scans(ident + rest, true) <==> Scans(rest, false)
  {
    PartScans(ident[1..], rest);
    assert (ident + rest)[1..] == ident[1..] + rest;
  }

  lemma {:induction false} PathScans(segments: seq<string>)
    requires segments != [] && forall i :: 0 <= i < |segments| ==> IsValidIdent(segments[i])
    ensures Scans(Join(segments, "::"), true)
  {
    if |segments| == 1 {
      IdentScans(segments[0], "");
      assert segments[0] + "" == segments[0];
    } else {
      var rest := Join(segments[1..], "::");
      PathScans(segments[1..]);
      IdentScans(segments[0], "::" + rest);
      assert segments[0] + "::" + rest == segments[0] + ("::" + rest);
      assert ("::" + rest)[2..] == rest;
    }
  }

  /** How far the identifier at the front reaches. */
  function PartLength(s: string): (n: nat)
    ensures n <= |s| && (forall i :: 0 <= i < n ==> IsIdentChar(s[i])) && (n < |s| ==> !IsIdentChar(s[n]))
  {
    if s != "" && IsIdentChar(s[0]) then 1 + PartLength(s[1..]) else 0
  }

  lemma {:induction false} ScannedIsPath(s: string)
    requires Scans(s, true)
    ensures IsPath(s)
    decreases |s|
  {
    var n := PartLength(s);
    var ident, rest := s[..n], s[n..];
    assert IsValidIdent(ident) && s == ident + rest;
    IdentScans(ident, rest);
    if rest == "" {
      assert s == ident && IsPathOf([ident], s);
    } else {
      ScannedIsPath(rest[2..]);
      var more: seq<string> :| IsPathOf(more, rest[2..]);
      assert rest == "::" + rest[2..];
      OneMoreSegment(ident, more, rest[2..]);
      assert ident + "::" + rest[2..] == s;
    }
  }

  lemma OneMoreSegment(ident: string, more: seq<string>, rest: string)
    requires IsValidIdent(ident) && IsPathOf(more, rest)
    ensures IsPathOf([ident] + more, ident + "::" + rest)
  {}

  // ----- derive lists -----

  /** `normalise`: white space dropped. */
  function Normalise(s: string): string {
    if s == "" then "" else (if IsSpace(s[0]) then "" else [s[0]]) + Normalise(s[1..])
  }

  predicate SameDerive(a: string, b: string) {
    Normalise(a) == Normalise(b)
  }

  function Flush(current: string): seq<string> {
    if current == "" then [] else [current]
  }

  /** The entries of the rest of a list, `current` being the one begun. */
  function ListedFrom(s: string, current: string): seq<string> {
    if s == "" then Flush(current)
    else if s[0] == ',' then Flush(current) + ListedFrom(s[1..], "")
    else if IsSpace(s[0]) then ListedFrom(s[1..], current)
    else ListedFrom(s[1..], current + [s[0]])
  }

  /** The derives between the parentheses, their tokens run together. */
  function Listed(inner: string): seq<string> {
    ListedFrom(inner, "")
  }

  /** `collect_listed_derives`, a character for a token. */
  method CollectListed(inner: string) returns (out: seq<string>)
    ensures out == Listed(inner)
  {
    out := [];
    var current := "";
    for i := 0 to |inner|
      invariant out + ListedFrom(inner[i..], current) == Listed(inner)
    {
      assert inner[i..][1..] == inner[i + 1..];
      if inner[i] == ',' {
        PartsAssoc(out, Flush(current), ListedFrom(inner[i + 1..], ""));
        if current != "" {
          out := out + [current];
        } else {
          assert out + [] == out;
        }
        current := "";
      } else if !IsSpace(inner[i]) {
        current := current + [inner[i]];
      }
    }
    assert inner[|inner|..] == "";
    if current != "" {
      out := out + [current];
    } else {
      assert out + [] == out;
    }
  }

  lemma {:induction false} ListedComma(a: string, b: string, current: string)
    ensures ListedFrom(a + ("," + b), current) == ListedFrom(a, current) + ListedFrom(b, "")
  {
    if a == "" {
      assert a + ("," + b) == "," + b && ("," + b)[1..] == b;
    } else {
      assert (a + ("," + b))[1..] == a[1..] + ("," + b);
      ListedComma(a[1..], b, if a[0] == ',' then "" else if IsSpace(a[0]) then current else current + [a[0]]);
    }
  }

  predicate AllSpace(s: string) {
    forall i :: 0 <= i < |s| ==> IsSpace(s[i])
  }

  lemma {:induction false} ListedSpaceAfter(a: string, space: string, current: string)
    requires AllSpace(space)
    ensures ListedFrom(a + space, current) == ListedFrom(a, current)
  {
    if a != "" {
      assert (a + space)[1..] == a[1..] + space;
      ListedSpaceAfter(a[1..], space, if a[0] == ',' then "" else if IsSpace(a[0]) then current else current + [a[0]]);
    } else if space != "" {
      assert a + space == space && "" + space[1..] == space[1..];
      ListedSpaceAfter("", space[1..], current);
    }
  }

  /** No comma and no white space, as in every valid path. */
  predicate Solid(d: string) {
    d != "" && forall i :: 0 <= i < |d| ==> d[i] != ',' && !IsSpace(d[i])
  }

  lemma {:induction false} ListedSolid(d: string, current: string)
    requires forall i :: 0 <= i < |d| ==> d[i] != ',' && !IsSpace(d[i])
    ensures ListedFrom(d, current) == Flush(current + d)
  {
    if d == "" {
      assert current + d == current;
    } else {
      ListedSolid(d[1..], current + [d[0]]);
      assert current + [d[0]] + d[1..] == current + d;
    }
  }

  lemma {:induction false} JoinedIsListed(ds: seq<string>)
    requires forall d :: d in ds ==> Solid(d)
    ensures Listed(Join(ds, ", ")) == ds
  {
    if ds != [] {
      assert Solid(ds[0]) && ds == [ds[0]] + ds[1..];
      ListedSolid(ds[0], "");
      assert "" + ds[0] == ds[0];
      if |ds| > 1 {
        var rest := Join(ds[1..], ", ");
        JoinedIsListed(ds[1..]);
        ListedComma(ds[0], " " + rest, "");
        assert ds[0] + ", " + rest == ds[0] + ("," + (" " + rest));
        assert (" " + rest)[1..] == rest;
      }
    }
  }

  lemma PathIsSolid(d: string)
    requires IsPath(d)
    ensures Solid(d)
  {
    ScansExactlyPaths(d);
    ScannedSolid(d, true);
  }

  lemma {:induction false} ScannedSolid(s: string, start: bool)
    requires Scans(s, start)
    ensures forall i :: 0 <= i < |s| ==> s[i] != ',' && !IsSpace(s[i])
    decreases |s|
  {
    if s != "" {
      if !start && s[0] == ':' {
        ScannedSolid(s[2..], true);
        assert forall i :: 2 <= i < |s| ==> s[i] == s[2..][i - 2];
      } else {
        ScannedSolid(s[1..], false);
        assert forall i :: 1 <= i < |s| ==> s[i] == s[1..][i - 1];
      }
    }
  }

  // ----- sources -----

  /** A stretch of text in front of a keyword. An attribute, a doc comment included, is one token. */
  datatype Piece = Space(text: string) | Comment(text: string) | Token(text: string)

  function PrintPieces(pieces: seq<Piece>): string {
    if pieces == [] then "" else pieces[0].text + PrintPieces(pieces[1..])
  }

  datatype Source =
    | NoType(text: string)
    // `before` ends with the last token that is not the type's own; `text` starts with the keyword
    | Bare(before: string, attributes: seq<Piece>, visibility: seq<Piece>, text: string)
    // the attribute is `#`, `mid`, `(`, `inner`, `)` and starts `right`'s line off with its `]`
    | Derived(left: string, mid: string, inner: string, right: string)

  /** The text in front of the keyword. */
  function Head(src: Source): string
    requires src.Bare?
  {
    src.before + PrintPieces(src.attributes) + PrintPieces(src.visibility)
  }

  function Print(src: Source): string {
    match src
    case NoType(text) => text
    case Bare(_, _, _, text) => Head(src) + text
    case Derived(left, mid, inner, right) => left + "#" + mid + "(" + inner + ")" + right
  }

  predicate AllBlank(s: string) {
    forall i :: 0 <= i < |s| ==> IsBlank(s[i])
  }

  predicate EndsLine(s: string) {
    s == "" || s[|s| - 1] == '\n'
  }

  predicate WellFormed(src: Source) {
    match src
    case NoType(_) => true
    case Bare(_, _, _, text) => text != ""
    case Derived(_, mid, _, _) => '#' !in mid
  }

  /** The blanks a keyword's line starts with. */
  function Blanks(s: string): (n: nat)
    ensures n <= |s| && (forall i :: 0 <= i < n ==> IsBlank(s[i])) && (n < |s| ==> !IsBlank(s[n]))
  {
    if s != "" && IsBlank(s[0]) then 1 + Blanks(s[1..]) else 0
  }

  /** Where the last line of a text starts. */
  function LastLine(s: string): (n: nat)
    ensures n <= |s| && EndsLine(s[..n]) && '\n' !in s[n..]
  {
    if s == "" || s[|s| - 1] == '\n' then |s| else LastLine(s[..|s| - 1])
  }

  /** A new attribute goes to where the line of the keyword starts. */
  function InsertionPoint(src: Source): (n: nat)
    requires src.Bare?
    ensures n <= |Head(src)|
  {
    LastLine(Head(src))
  }

  function Indent(src: Source): (indent: string)
    requires src.Bare?
    ensures AllBlank(indent)
  {
    var line := Head(src)[InsertionPoint(src)..];
    line[..Blanks(line)]
  }

  /** Position `p` of the pieces is not inside a comment or a token. */
  predicate AtGap(pieces: seq<Piece>, p: nat) {
    p == 0 || (pieces != [] && if p < |pieces[0].text| then pieces[0].Space? else AtGap(pieces[1..], p - |pieces[0].text|))
  }

  /**
   What stands there becomes the type's own attribute: behind every token that is not the type's, not behind its
   visibility, and not inside a comment or another attribute.
   */
  predicate Own(src: Source)
    requires src.Bare?
  {
    var n := InsertionPoint(src);
    |src.before| <= n <= |src.before| + |PrintPieces(src.attributes)| && AtGap(src.attributes, n - |src.before|)
  }

  /** What the finder reports of a source. */
  datatype Target = Missing | InsertAbove(lineStart: nat, indent: string) | ExistingDerive(start: nat, end: nat, listed: seq<string>)

  function TargetOf(src: Source): Target {
    match src
    case NoType(_) => Missing
    case Bare(_, _, _, _) => InsertAbove(InsertionPoint(src), Indent(src))
    case Derived(left, mid, inner, _) =>
      ExistingDerive(|left| + |mid| + 2, |left| + |mid| + 2 + |inner|, Listed(inner))
  }

  predicate LineAt(s: string, n: nat) {
    n <= |s| && EndsLine(s[..n])
  }

  lemma {:induction false} StartsAre(s: string)
    ensures forall k :: 0 <= k < |Starts(s)| ==> LineAt(s, Starts(s)[k])
    ensures forall p :: 0 <= p < |s| && s[p] == '\n' ==> p + 1 in Starts(s)
  {
    if s != "" {
      var init := s[..|s| - 1];
      StartsAre(init);
      assert s[..|s|] == s;
      forall k | 0 <= k < |Starts(s)| ensures LineAt(s, Starts(s)[k]) {
        if k < |Starts(init)| {
          assert LineAt(init, Starts(init)[k]) && init[..Starts(init)[k]] == s[..Starts(init)[k]];
        }
      }
    }
  }

  /** The last line to start at or before the keyword. */
  method LineBefore(source: string, keyword: nat) returns (lineStart: nat)
    requires keyword < |source|
    ensures lineStart == LastLine(source[..keyword])
  {
    var starts := LineStarts(source);
    StartsAre(source);
    StartsIncrease(source);
    var i := |starts| - 1;
    while starts[i] > keyword
      invariant 0 <= i < |starts| && forall j :: i < j < |starts| ==> starts[j] > keyword
    {
      i := i - 1;
    }
    lineStart := starts[i];
    assert LineAt(source, starts[i]) && source[..keyword][..lineStart] == source[..lineStart];
    LastLineIs(source[..keyword], lineStart);
  }

  /** `locate` without a derive: the line of the keyword, and its blanks. */
  method FindLine(source: string, keyword: nat, ghost src: Source) returns (target: Target)
    requires source == Print(src) && src.Bare? && WellFormed(src) && keyword == |Head(src)|
    ensures target == TargetOf(src)
  {
    var lineStart := LineBefore(source, keyword);
    Splits(Head(src), src.text, keyword);
    target := InsertAbove(lineStart, source[lineStart..lineStart + Blanks(source[lineStart..keyword])]);
    SameLine(source, keyword, lineStart);
  }

  lemma SameLine(s: string, k: nat, n: nat)
    requires n <= k <= |s|
    ensures s[n..k] == s[..k][n..]
    ensures var b := Blanks(s[n..k]); s[n..n + b] == s[..k][n..][..b]
  {}

  lemma {:induction false} LastLineIs(s: string, n: nat)
    requires n <= |s| && EndsLine(s[..n]) && forall p :: 0 <= p < |s| && s[p] == '\n' ==> p < n
    ensures LastLine(s) == n
  {
    if s != "" && s[|s| - 1] != '\n' {
      assert s[..|s| - 1][..n] == s[..n];
      LastLineIs(s[..|s| - 1], n);
    }
  }

  // ----- adding -----

  /** `trim_end`. */
  function TrimEnd(s: string): (t: string)
    ensures t <= s && AllSpace(s[|t|..]) && (t != "" ==> !IsSpace(t[|t| - 1]))
  {
    if s != "" && IsSpace(s[|s| - 1]) then TrimEnd(s[..|s| - 1]) else s
  }

  function Trailing(s: string): string {
    s[|TrimEnd(s)|..]
  }

  function NotListed(ds: seq<string>, listed: seq<string>): seq<string> {
    if ds == [] then []
    else (if exists e :: e in listed && SameDerive(e, ds[0]) then [] else [ds[0]]) + NotListed(ds[1..], listed)
  }

  function Append(acc: string, ds: seq<string>): string
    decreases |ds|
  {
    if ds == [] then acc else Append(acc + (if Trim(acc) == "" then ds[0] else ", " + ds[0]), ds[1..])
  }

  function Extended(inner: string, ds: seq<string>): string {
    Append(TrimEnd(inner), ds) + Trailing(inner)
  }

  function AttributeLine(indent: string, ds: seq<string>): string {
    indent + "#[derive(" + Join(ds, ", ") + ")]\n"
  }

  /** The source with that line as the type's own attribute. */
  function WithAttribute(before: string, indent: string, ds: seq<string>, rest: string): Source {
    Derived(before + indent, "[derive", Join(ds, ", "), "]\n" + rest)
  }

  /** Text put into the pieces at position `p`. */
  function PutInto(pieces: seq<Piece>, p: nat, text: string): seq<Piece> {
    if pieces == [] then [Space(text)]
    else if p <= |pieces[0].text| then
      [pieces[0].(text := pieces[0].text[..p] + text + pieces[0].text[p..])] + pieces[1..]
    else [pieces[0]] + PutInto(pieces[1..], p - |pieces[0].text|, text)
  }

  /** The source with a line at a place where it is not the type's: nothing changes for the type. */
  function Misplaced(src: Source, n: nat, line: string): Source
    requires src.Bare?
  {
    var a, v := |src.before|, |src.before| + |PrintPieces(src.attributes)|;
    if n < a then src.(before := src.before[..n] + line + src.before[n..])
    else if n <= v then src.(attributes := PutInto(src.attributes, n - a, line))
    else src.(visibility := PutInto(src.visibility, n - v, line))
  }

  /**
   The source after adding, and how many were added. A new attribute that is not the type's own belongs to something
   else, is part of a comment or does not parse.
   */
  function AddTo(src: Source, ds: seq<string>): (Source, nat) {
    match src
    case NoType(_) => (src, 0)
    case Bare(_, _, _, text) =>
      var head, n := Head(src), InsertionPoint(src);
      if Own(src) then (WithAttribute(head[..n], Indent(src), ds, head[n..] + text), |ds|)
      else (Misplaced(src, n, AttributeLine(Indent(src), ds)), |ds|)
    case Derived(left, mid, inner, right) =>
      var new_ := NotListed(ds, Listed(inner));
      if new_ == [] then (src, 0) else (Derived(left, mid, Extended(inner, new_), right), |new_|)
  }

  datatype DeriveError = InvalidPath(path: string)

  ghost predicate AllPaths(ds: seq<string>) {
    forall d :: d in ds ==> IsPath(d)
  }

  /** `d` is the first of the derives that is no path. */
  ghost predicate FirstBad(ds: seq<string>, d: string) {
    exists i :: 0 <= i < |ds| && ds[i] == d && !IsPath(d) && AllPaths(ds[..i])
  }

  /** The first derive that is no path. */
  method CheckPaths(ds: seq<string>) returns (bad: Option<string>)
    ensures bad == None <==> AllPaths(ds)
    ensures bad.Some? ==> FirstBad(ds, bad.value)
  {
    for i := 0 to |ds|
      invariant AllPaths(ds[..i])
    {
      var ok := IsValidDerivePath(ds[i]);
      if !ok {
        assert FirstBad(ds, ds[i]) && ds[i] in ds;
        return Some(ds[i]);
      }
      assert ds[..i + 1] == ds[..i] + [ds[i]];
    }
    assert ds[..|ds|] == ds;
    bad := None;
  }

  method AppendDerives(acc: string, ds: seq<string>) returns (r: string)
    ensures r == Append(acc, ds)
  {
    r := acc;
    for i := 0 to |ds|
      invariant Append(r, ds[i..]) == Append(acc, ds)
    {
      assert ds[i..][0] == ds[i] && ds[i..][1..] == ds[i + 1..];
      if Trim(r) == "" {
        r := r + ds[i];
      } else {
        r := r + (", " + ds[i]);
      }
    }
    assert ds[|ds|..] == [];
  }

  /** `add_derive` up to the parse of its result. */
  method AddDerive(source: string, target: Target, derives: seq<string>, ghost src: Source)
    returns (r: Result<(string, nat), DeriveError>)
    requires source == Print(src) && target == TargetOf(src)
    ensures r.Success? <==> AllPaths(derives)
    ensures r.Failure? ==> FirstBad(derives, r.error.path)
    ensures r.Success? ==>
              r.value == if derives == [] then (source, 0) else (Print(AddTo(src, derives).0), AddTo(src, derives).1)
  {
    if derives == [] {
      return Success((source, 0));
    }
    var bad := CheckPaths(derives);
    if bad.Some? {
      return Failure(InvalidPath(bad.value));
    }
    match target
    case Missing =>
      r := Success((source, 0));
    case InsertAbove(lineStart, indent) =>
      var attrLine := AttributeLine(indent, derives);
      InsertedAbove(src, derives);
      r := Success((source[..lineStart] + attrLine + source[lineStart..], |derives|));
    case ExistingDerive(start, end, listed) =>
      var newList := NotListed(derives, listed);
      if newList == [] {
        return Success((source, 0));
      }
      InnerAt(src);
      var existing := source[start..end];
      var inner := AppendDerives(TrimEnd(existing), newList);
      inner := inner + existing[|TrimEnd(existing)|..];
      InnerReplaced(src, inner);
      r := Success((source[..start] + inner + source[end..], |newList|));
  }

  lemma InsertedAbove(src: Source, ds: seq<string>)
    requires src.Bare?
    ensures var source, n := Print(src), InsertionPoint(src);
            n <= |source| && source[..n] + AttributeLine(Indent(src), ds) + source[n..] == Print(AddTo(src, ds).0)
  {
    var head, n, line := Head(src), InsertionPoint(src), AttributeLine(Indent(src), ds);
    Splits(head, src.text, n);
    if Own(src) {
      Regroup(head[..n], Indent(src), Join(ds, ", "), head[n..] + src.text);
    } else {
      MisplacedPrint(src, n, line);
      Assoc(head[..n] + line, head[n..], src.text);
    }
  }

  lemma Splits(a: string, b: string, n: nat)
    requires n <= |a|
    ensures (a + b)[..n] == a[..n] && (a + b)[n..] == a[n..] + b
  {}

  lemma {:induction false} PutIntoPrint(pieces: seq<Piece>, p: nat, text: string)
    requires p <= |PrintPieces(pieces)|
    ensures PrintPieces(PutInto(pieces, p, text)) == PrintPieces(pieces)[..p] + text + PrintPieces(pieces)[p..]
  {
    if pieces != [] {
      var first, rest := pieces[0].text, PrintPieces(pieces[1..]);
      if p <= |first| {
        Splits(first, rest, p);
        Assoc(first[..p] + text, first[p..], rest);
      } else {
        PutIntoPrint(pieces[1..], p - |first|, text);
        assert (first + rest)[..p] == first + rest[..p - |first|] && (first + rest)[p..] == rest[p - |first|..];
      }
    }
  }

  lemma PutFirst(b: string, a: string, v: string, k: nat, line: string)
    requires k <= |b|
    ensures (b[..k] + line + b[k..]) + a + v == (b + a + v)[..k] + line + (b + a + v)[k..]
  {
    assert (b + a + v)[..k] == b[..k] && (b + a + v)[k..] == b[k..] + a + v;
  }

  lemma PutSecond(b: string, a: string, v: string, k: nat, line: string)
    requires k <= |a|
    ensures b + (a[..k] + line + a[k..]) + v == (b + a + v)[..|b| + k] + line + (b + a + v)[|b| + k..]
  {
    assert (b + a + v)[..|b| + k] == b + a[..k] && (b + a + v)[|b| + k..] == a[k..] + v;
  }

  lemma PutThird(b: string, a: string, v: string, k: nat, line: string)
    requires k <= |v|
    ensures b + a + (v[..k] + line + v[k..]) == (b + a + v)[..|b| + |a| + k] + line + (b + a + v)[|b| + |a| + k..]
  {
    assert (b + a + v)[..|b| + |a| + k] == b + a + v[..k] && (b + a + v)[|b| + |a| + k..] == v[k..];
  }

  lemma MisplacedPrint(src: Source, n: nat, line: string)
    requires src.Bare? && n <= |Head(src)|
    ensures Misplaced(src, n, line).Bare? && Misplaced(src, n, line).text == src.text
    ensures Head(Misplaced(src, n, line)) == Head(src)[..n] + line + Head(src)[n..]
  {
    var b, a, v := src.before, PrintPieces(src.attributes), PrintPieces(src.visibility);
    var new_ := Misplaced(src, n, line);
    if n < |b| {
      assert Head(new_) == (b[..n] + line + b[n..]) + a + v;
      PutFirst(b, a, v, n, line);
    } else if n <= |b| + |a| {
      var k := n - |b|;
      PutIntoPrint(src.attributes, k, line);
      assert Head(new_) == b + (a[..k] + line + a[k..]) + v;
      PutSecond(b, a, v, k, line);
    } else {
      var k := n - |b| - |a|;
      PutIntoPrint(src.visibility, k, line);
      assert Head(new_) == b + a + (v[..k] + line + v[k..]);
      PutThird(b, a, v, k, line);
    }
  }

  lemma Regroup(before: string, indent: string, list: string, rest: string)
    ensures before + (indent + "#[derive(" + list + ")]\n") + rest
            == before + indent + "#" + "[derive" + "(" + list + ")" + ("]\n" + rest)
  {}

  lemma InnerAt(src: Source)
    requires src.Derived?
    ensures TargetOf(src).end <= |Print(src)| && Print(src)[TargetOf(src).start..TargetOf(src).end] == src.inner
  {}

  lemma InnerReplaced(src: Source, inner: string)
    requires src.Derived?
    ensures TargetOf(src).end <= |Print(src)|
    ensures Print(src)[..TargetOf(src).start] + inner + Print(src)[TargetOf(src).end..] == Print(src.(inner := inner))
  {}

  // ----- removing -----

  /** Without the blanks at the end. */
  function TrimBlanks(s: string): (t: string)
    ensures t <= s && AllBlank(s[|t|..]) && (t != "" ==> !IsBlank(t[|t| - 1]))
  {
    if s != "" && IsBlank(s[|s| - 1]) then TrimBlanks(s[..|s| - 1]) else s
  }

  /** What follows the line a text starts on. */
  function AfterLine(s: string): (t: string)
    ensures |t| <= |s|
  {
    if s == "" then "" else if s[0] == '\n' then s[1..] else AfterLine(s[1..])
  }

  function Kept(listed: seq<string>, ds: seq<string>): (kept: seq<string>)
    ensures |kept| <= |listed|
  {
    if listed == [] then []
    else (if exists r :: r in ds && SameDerive(listed[0], r) then [] else [listed[0]]) + Kept(listed[1..], ds)
  }

  /** The text after removing, and how many were removed. An emptied attribute goes with the rest of its line. */
  function RemoveFrom(src: Source, ds: seq<string>): (string, nat) {
    if !src.Derived? then (Print(src), 0)
    else
      var kept := Kept(Listed(src.inner), ds);
      var removed := |Listed(src.inner)| - |kept|;
      if removed == 0 then (Print(src), 0)
      else if kept == [] then (TrimBlanks(src.left) + AfterLine(src.right), removed)
      else (Print(src.(inner := Join(kept, ", ") + Trailing(src.inner))), removed)
  }

  /** `attribute_full_range`: from the attribute's blanks to the end of its line. */
  method AttributeFullRange(source: string, innerStart: nat, innerEnd: nat, ghost src: Source) returns (start: nat, end: nat)
    requires src.Derived? && WellFormed(src) && source == Print(src)
    requires innerStart == TargetOf(src).start && innerEnd == TargetOf(src).end
    ensures start == |TrimBlanks(src.left)| && end == |source| - |AfterLine(src.right)|
    ensures start <= end <= |source|
  {
    var hash := FindHash(source, innerStart, src);
    assert source[..hash] == src.left;
    start := BackOverBlanks(source, hash);
    end := FindLineEnd(source, innerEnd, src);
    assert |TrimBlanks(src.left)| <= |src.left| && |AfterLine(src.right)| <= |src.right|;
  }

  method BackOverBlanks(source: string, from: nat) returns (start: nat)
    requires from <= |source|
    ensures start == |TrimBlanks(source[..from])|
  {
    start := from;
    while start > 0 && IsBlank(source[start - 1])
      invariant start <= from && TrimBlanks(source[..start]) == TrimBlanks(source[..from])
    {
      assert source[..start][..start - 1] == source[..start - 1];
      start := start - 1;
    }
  }

  /** Back from the parenthesis to the `#`. */
  method FindHash(source: string, innerStart: nat, ghost src: Source) returns (start: nat)
    requires src.Derived? && WellFormed(src) && source == Print(src) && innerStart == TargetOf(src).start
    ensures start == |src.left| && start < |source|
  {
    ghost var head := src.left + "#" + src.mid + "(";
    assert source[..|head|] == head;
    start := innerStart - 1;
    while start > 0 && source[start] != '#'
      invariant |src.left| <= start < |head|
    {
      assert source[start] == head[start];
      assert start > |src.left|;
      start := start - 1;
    }
    assert source[start] == head[start];
  }

  lemma AfterInner(source: string, innerEnd: nat, src: Source)
    requires src.Derived? && source == Print(src) && innerEnd == TargetOf(src).end
    ensures innerEnd <= |source| && source[innerEnd..] == ")" + src.right
    ensures AfterLine(source[innerEnd..]) == AfterLine(src.right)
  {}

  /** Past the newline behind the attribute, if there is one. */
  method FindLineEnd(source: string, innerEnd: nat, ghost src: Source) returns (end: nat)
    requires src.Derived? && source == Print(src) && innerEnd == TargetOf(src).end
    ensures end <= |source| && |source| - end == |AfterLine(src.right)|
  {
    AfterInner(source, innerEnd, src);
    end := innerEnd;
    while end < |source| && source[end] != '\n'
      invariant innerEnd <= end <= |source| && AfterLine(source[end..]) == AfterLine(src.right)
    {
      assert source[end..][1..] == source[end + 1..];
      end := end + 1;
    }
    if end < |source| {
      assert source[end..][1..] == source[end + 1..];
      end := end + 1;
    }
  }

  /** `remove_derive` up to the parse of its result. */
  method RemoveDerive(source: string, target: Target, derives: seq<string>, ghost src: Source)
    returns (r: Result<(string, nat), DeriveError>)
    requires source == Print(src) && target == TargetOf(src) && WellFormed(src)
    ensures r.Success? <==> AllPaths(derives)
    ensures r.Failure? ==> FirstBad(derives, r.error.path)
    ensures r.Success? ==> r.value == if derives == [] then (source, 0) else RemoveFrom(src, derives)
  {
    if derives == [] {
      return Success((source, 0));
    }
    var bad := CheckPaths(derives);
    if bad.Some? {
      return Failure(InvalidPath(bad.value));
    }
    if !target.ExistingDerive? {
      return Success((source, 0));
    }
    var out, removed := RemoveListed(source, target, derives, src);
    r := Success((out, removed));
  }

  method RemoveListed(source: string, target: Target, derives: seq<string>, ghost src: Source) returns (out: string, removed: nat)
    requires source == Print(src) && target == TargetOf(src) && WellFormed(src) && src.Derived?
    ensures (out, removed) == RemoveFrom(src, derives)
  {
    var kept := Kept(target.listed, derives);
    removed := |target.listed| - |kept|;
    if removed == 0 {
      return source, 0;
    }
    if kept == [] {
      var start, end := AttributeFullRange(source, target.start, target.end, src);
      LineCut(src, start, end);
      out := source[..start] + source[end..];
    } else {
      InnerAt(src);
      var existing := source[target.start..target.end];
      var inner := Join(kept, ", ") + existing[|TrimEnd(existing)|..];
      InnerReplaced(src, inner);
      out := source[..target.start] + inner + source[target.end..];
    }
  }

  lemma {:induction false} AfterLineIsEnd(s: string)
    ensures s[|s| - |AfterLine(s)|..] == AfterLine(s)
  {
    if s != "" && s[0] != '\n' {
      AfterLineIsEnd(s[1..]);
    }
  }

  lemma LineCut(src: Source, start: nat, end: nat)
    requires src.Derived? && start == |TrimBlanks(src.left)| && end == |Print(src)| - |AfterLine(src.right)|
    ensures start <= end && Print(src)[..start] + Print(src)[end..] == TrimBlanks(src.left) + AfterLine(src.right)
  {
    AfterLineIsEnd(src.right);
    AttributeParts(src.left, src.mid, src.inner, src.right);
    CutMiddle(src.left, "#" + src.mid + "(" + src.inner + ")", src.right, start, |src.right| - |AfterLine(src.right)|);
    assert src.left[..start] == TrimBlanks(src.left);
  }

  lemma AttributeParts(left: string, mid: string, inner: string, right: string)
    ensures Print(Derived(left, mid, inner, right)) == left + ("#" + mid + "(" + inner + ")") + right
  {}

  lemma CutMiddle(a: string, b: string, c: string, i: nat, j: nat)
    requires i <= |a| && j <= |c|
    ensures (a + b + c)[..i] == a[..i] && (a + b + c)[|a + b| + j..] == c[j..]
  {}

  // ----- adding and removing undo each other -----

  lemma {:induction false} TrimBlanksAll(s: string, blanks: string)
    requires AllBlank(blanks)
    ensures TrimBlanks(s + blanks) == TrimBlanks(s)
  {
    if blanks == "" {
      assert s + blanks == s;
    } else {
      var n := |blanks| - 1;
      assert (s + blanks)[..|s + blanks| - 1] == s + blanks[..n];
      TrimBlanksAll(s, blanks[..n]);
    }
  }

  lemma {:induction false} AfterLineOf(line: string, rest: string)
    requires '\n' !in line
    ensures AfterLine(line + ("\n" + rest)) == rest
  {
    if line == "" {
      assert line + ("\n" + rest) == "\n" + rest && ("\n" + rest)[1..] == rest;
    } else {
      assert (line + ("\n" + rest))[1..] == line[1..] + ("\n" + rest);
      AfterLineOf(line[1..], rest);
    }
  }

  // ----- what removing keeps -----

  lemma {:induction false} NormaliseSolid(d: string)
    requires forall i :: 0 <= i < |d| ==> !IsSpace(d[i])
    ensures Normalise(d) == d
  {
    if d != "" {
      NormaliseSolid(d[1..]);
    }
  }

  /** What the list holds has no white space, so that removing compares texts. */
  lemma {:induction false} ListedEntriesSolid(s: string, current: string)
    requires forall i :: 0 <= i < |current| ==> current[i] != ',' && !IsSpace(current[i])
    ensures forall e :: e in ListedFrom(s, current) ==> Solid(e)
  {
    if s != "" {
      ListedEntriesSolid(s[1..], if s[0] == ',' then "" else if IsSpace(s[0]) then current else current + [s[0]]);
    }
  }

  lemma {:induction false} KeptConcat(a: seq<string>, b: seq<string>, ds: seq<string>)
    ensures Kept(a + b, ds) == Kept(a, ds) + Kept(b, ds)
  {
    if a == [] {
      assert a + b == b;
    } else {
      assert (a + b)[1..] == a[1..] + b;
      KeptConcat(a[1..], b, ds);
      PartsAssoc(if exists r :: r in ds && SameDerive(a[0], r) then [] else [a[0]], Kept(a[1..], ds), Kept(b, ds));
    }
  }

  /** Entry by entry, in order: it goes exactly if it is one of the derives to remove. */
  lemma KeptEach(a: seq<string>, e: string, b: seq<string>, ds: seq<string>)
    requires Solid(e) && AllPaths(ds)
    ensures Kept(a + [e] + b, ds) == Kept(a, ds) + (if e in ds then [] else [e]) + Kept(b, ds)
    ensures Kept([], ds) == []
  {
    KeptConcat(a + [e], b, ds);
    KeptConcat(a, [e], ds);
    assert [e][1..] == [];
    if r :| r in ds && SameDerive(e, r) {
      PathIsSolid(r);
      NormaliseSolid(e);
      NormaliseSolid(r);
    }
    assert SameDerive(e, e);
  }

  /** Nothing goes exactly if no entry is to be removed. */
  lemma {:induction false} AllKept(listed: seq<string>, ds: seq<string>)
    ensures |Kept(listed, ds)| == |listed| <==> Apart(listed, ds)
    ensures Apart(listed, ds) ==> Kept(listed, ds) == listed
    ensures Apart(Kept(listed, ds), ds)
    ensures forall e :: e in Kept(listed, ds) ==> e in listed
  {
    if listed != [] {
      AllKept(listed[1..], ds);
      assert listed == [listed[0]] + listed[1..];
    }
  }

  /**
   Removing some of the derives but not all leaves an attribute that lists exactly the kept ones, with its white space at
   the end; removing them again changes nothing.
   */
  lemma PartlyRemoved(src: Source, ds: seq<string>)
    requires src.Derived? && Kept(Listed(src.inner), ds) != [] && !Apart(Listed(src.inner), ds)
    ensures var listed := Listed(src.inner);
            var after := src.(inner := Join(Kept(listed, ds), ", ") + Trailing(src.inner));
            && RemoveFrom(src, ds) == (Print(after), |listed| - |Kept(listed, ds)|)
            && Listed(after.inner) == Kept(listed, ds)
            && RemoveFrom(after, ds) == (Print(after), 0)
  {
    var listed := Listed(src.inner);
    var kept := Kept(listed, ds);
    AllKept(listed, ds);
    AllKept(kept, ds);
    ListedEntriesSolid(src.inner, "");
    JoinedIsListed(kept);
    ListedSpaceAfter(Join(kept, ", "), Trailing(src.inner), "");
  }

  /** Without an entry to remove nothing changes. */
  lemma NothingRemoved(src: Source, ds: seq<string>)
    requires src.Derived? ==> Apart(Listed(src.inner), ds)
    ensures RemoveFrom(src, ds) == (Print(src), 0)
  {
    if src.Derived? {
      AllKept(Listed(src.inner), ds);
    }
  }

  lemma {:induction false} NoneKept(listed: seq<string>, ds: seq<string>)
    requires forall e :: e in listed ==> e in ds
    ensures Kept(listed, ds) == []
  {
    if listed != [] {
      NoneKept(listed[1..], ds);
      assert SameDerive(listed[0], listed[0]) && listed[0] in ds;
    }
  }

  /** Removing the only derives drops the attribute's line and nothing else: all of it, whatever follows the bracket. */
  lemma LineIsDropped(src: Source, indent: string, before: string, tail: string, rest: string, ds: seq<string>)
    requires src.Derived? && Listed(src.inner) != [] && forall e :: e in Listed(src.inner) ==> e in ds
    requires src.left == before + indent && EndsLine(before) && AllBlank(indent)
    requires src.right == tail + ("\n" + rest) && '\n' !in tail
    ensures RemoveFrom(src, ds) == (before + rest, |Listed(src.inner)|)
  {
    NoneKept(Listed(src.inner), ds);
    TrimBlanksAll(before, indent);
    AfterLineOf(tail, rest);
  }

  lemma PathsAreSolid(ds: seq<string>)
    requires AllPaths(ds)
    ensures forall d :: d in ds ==> Solid(d)
  {
    forall d | d in ds ensures Solid(d) {
      PathIsSolid(d);
    }
  }

  /**
   Removing from a type without derives what was just added gives back the exact text, and says so, if and only if the
   new attribute is the type's own.
   */
  lemma AddedThenRemoved(src: Source, ds: seq<string>)
    requires src.Bare? && ds != [] && AllPaths(ds)
    ensures AddTo(src, ds).1 == |ds|
    ensures RemoveFrom(AddTo(src, ds).0, ds) == (Print(src), |ds|) <==> Own(src)
  {
    if Own(src) {
      OwnRemoved(src, ds);
    } else {
      MisplacedStays(src, ds);
    }
  }

  lemma MisplacedStays(src: Source, ds: seq<string>)
    requires src.Bare? && !Own(src)
    ensures AddTo(src, ds).0.Bare? && AddTo(src, ds).1 == |ds|
    ensures RemoveFrom(AddTo(src, ds).0, ds) == (Print(AddTo(src, ds).0), 0)
  {
    MisplacedPrint(src, InsertionPoint(src), AttributeLine(Indent(src), ds));
  }

  lemma OwnRemoved(src: Source, ds: seq<string>)
    requires src.Bare? && Own(src) && ds != [] && AllPaths(ds)
    ensures AddTo(src, ds).1 == |ds| && RemoveFrom(AddTo(src, ds).0, ds) == (Print(src), |ds|)
  {
    var head, n := Head(src), InsertionPoint(src);
    OwnLineDropped(head[..n], Indent(src), head[n..] + src.text, ds);
    CutAndJoined(head, src.text, n);
  }

  lemma CutAndJoined(a: string, b: string, n: nat)
    requires n <= |a|
    ensures a[..n] + (a[n..] + b) == a + b
  {}

  lemma OwnLineDropped(before: string, indent: string, rest: string, ds: seq<string>)
    requires EndsLine(before) && AllBlank(indent) && ds != [] && AllPaths(ds)
    ensures RemoveFrom(WithAttribute(before, indent, ds, rest), ds) == (before + rest, |ds|)
  {
    PathsAreSolid(ds);
    JoinedIsListed(ds);
    assert "]\n" + rest == "]" + ("\n" + rest);
    LineIsDropped(WithAttribute(before, indent, ds, rest), indent, before, "]", rest, ds);
  }

  lemma CountAdded(src: Source, ds: seq<string>)
    ensures src.Bare? ==> AddTo(src, ds).1 == |ds|
  {}

  /**
   `mod m { struct A; }`: the attribute is put in front of `mod` and belongs to the module. Adding again adds again, and
   removing removes nothing.
   */
  lemma AttributeOfModule()
    ensures
      var (added, count) := AddTo(ModuleSource(), ["Debug"]);
      && !Own(ModuleSource()) && count == 1 && Print(added) == "#[derive(Debug)]\nmod m { struct A; }\n"
      && AddTo(added, ["Debug"]).1 == 1
      && RemoveFrom(added, ["Debug"]) == (Print(added), 0)
  {
    var src := ModuleSource();
    ModuleHead();
    MisplacedStays(src, ["Debug"]);
    CountAdded(AddTo(src, ["Debug"]).0, ["Debug"]);
    AddedAtFront(src, ["Debug"]);
    DebugLine();
  }

  function ModuleSource(): (src: Source)
    ensures src.Bare?
  {
    Bare("mod m {", [Space(" ")], [], "struct A; }\n")
  }

  lemma AddedAtFront(src: Source, ds: seq<string>)
    requires src.Bare? && InsertionPoint(src) == 0
    ensures Print(AddTo(src, ds).0) == AttributeLine(Indent(src), ds) + Print(src)
  {
    InsertedAbove(src, ds);
    AtFront(AttributeLine(Indent(src), ds), Print(src));
  }

  lemma AtFront(line: string, s: string)
    ensures s[..0] + line + s[0..] == line + s
  {}

  lemma DebugLine()
    ensures AttributeLine("", ["Debug"]) + "mod m { struct A; }\n" == "#[derive(Debug)]\nmod m { struct A; }\n"
  {
    assert Join(["Debug"], ", ") == "Debug";
  }

  lemma ModuleHead()
    ensures var src := ModuleSource();
            InsertionPoint(src) == 0 && Indent(src) == "" && !Own(src) && Print(src) == "mod m { struct A; }\n"
  {
    var src := ModuleSource();
    assert PrintPieces([Space(" ")]) == " " && Head(src) == "mod m { ";
    LastLineIs(Head(src), 0);
    assert Head(src)[0..] == Head(src) && Blanks(Head(src)) == 0;
  }

  lemma {:induction false} NotListedAll(ds: seq<string>, listed: seq<string>)
    requires forall d :: d in ds ==> d in listed
    ensures NotListed(ds, listed) == []
  {
    if ds != [] {
      NotListedAll(ds[1..], listed);
      assert ds[0] in listed && SameDerive(ds[0], ds[0]);
    }
  }

  lemma {:induction false} NotListedMembers(ds: seq<string>, listed: seq<string>)
    ensures forall d :: d in NotListed(ds, listed) ==> d in ds
    ensures forall d :: d in ds && d !in NotListed(ds, listed) ==> exists e :: e in listed && SameDerive(e, d)
  {
    if ds != [] {
      NotListedMembers(ds[1..], listed);
      assert ds == [ds[0]] + ds[1..];
    }
  }

  /** Derive by derive, in order: it is added exactly if it is not listed yet. */
  lemma {:induction false} NotListedEach(a: seq<string>, d: string, b: seq<string>, listed: seq<string>)
    requires IsPath(d) && forall e :: e in listed ==> Solid(e)
    ensures NotListed(a + [d] + b, listed) == NotListed(a, listed) + (if d in listed then [] else [d]) + NotListed(b, listed)
    ensures NotListed([], listed) == []
    decreases |a|
  {
    if a == [] {
      assert a + [d] + b == [d] + b && ([d] + b)[1..] == b;
      PathIsSolid(d);
      NormaliseSolid(d);
      forall e | e in listed ensures SameDerive(e, d) <==> e == d {
        NormaliseSolid(e);
      }
    } else {
      assert (a + [d] + b)[0] == a[0] && (a + [d] + b)[1..] == a[1..] + [d] + b;
      NotListedEach(a[1..], d, b, listed);
    }
  }

  /** Text that ends solid. */
  predicate EndsSolid(s: string) {
    s != "" && !IsSpace(s[|s| - 1])
  }

  lemma TrimOfSolidEnd(s: string)
    requires EndsSolid(s)
    ensures Trim(s) != ""
  {}

  lemma ListedOneMore(acc: string, d: string)
    requires Solid(d)
    ensures Listed(acc + (", " + d)) == Listed(acc) + [d]
  {
    assert acc + (", " + d) == acc + ("," + (" " + d));
    ListedComma(acc, " " + d, "");
    assert (" " + d)[1..] == d;
    ListedSolid(d, "");
    assert "" + d == d;
  }

  lemma {:induction false} AppendListed(acc: string, ds: seq<string>)
    requires EndsSolid(acc) && forall d :: d in ds ==> Solid(d)
    ensures Listed(Append(acc, ds)) == Listed(acc) + ds && EndsSolid(Append(acc, ds))
    decreases |ds|
  {
    if ds == [] {
      assert Listed(acc) + [] == Listed(acc);
    } else {
      var d := ds[0];
      assert Solid(d) && ds == [d] + ds[1..];
      TrimOfSolidEnd(acc);
      ListedOneMore(acc, d);
      AppendListed(acc + (", " + d), ds[1..]);
      PartsAssoc(Listed(acc), [d], ds[1..]);
    }
  }

  /** The new list is the old one with the new derives behind it, and its white space at the end is kept. */
  lemma ExtendedListed(inner: string, ds: seq<string>)
    requires ds != [] && forall d :: d in ds ==> Solid(d)
    ensures Listed(Extended(inner, ds)) == Listed(inner) + ds
    ensures Trailing(Extended(inner, ds)) == Trailing(inner)
  {
    var acc, space := TrimEnd(inner), Trailing(inner);
    assert inner == acc + space;
    ListedSpaceAfter(acc, space, "");
    if acc == "" {
      assert Solid(ds[0]) && Trim("") == "";
      assert "" + ds[0] == ds[0];
      AppendListed(ds[0], ds[1..]);
      ListedSolid(ds[0], "");
      assert ds == [ds[0]] + ds[1..];
    } else {
      AppendListed(acc, ds);
    }
    ListedSpaceAfter(Append(acc, ds), space, "");
    TrimEndAppend(Append(acc, ds), space);
  }

  lemma {:induction false} TrimEndAppend(s: string, space: string)
    requires EndsSolid(s) && AllSpace(space)
    ensures TrimEnd(s + space) == s && Trailing(s + space) == space
  {
    if space == "" {
      assert s + space == s;
    } else {
      var n := |space| - 1;
      assert (s + space)[..|s + space| - 1] == s + space[..n];
      TrimEndAppend(s, space[..n]);
    }
  }

  /** Adding the same derives again adds none and changes nothing, unless a new attribute is not the type's own. */
  lemma AddedTwice(src: Source, ds: seq<string>)
    requires AllPaths(ds) && ds != []
    ensures AddTo(AddTo(src, ds).0, ds) == (AddTo(src, ds).0, 0) <==> (src.Bare? ==> Own(src))
  {
    PathsAreSolid(ds);
    if src.Bare? {
      JoinedIsListed(ds);
      NotListedAll(ds, ds);
    } else if src.Derived? {
      var listed := Listed(src.inner);
      var new_ := NotListed(ds, listed);
      NotListedMembers(ds, listed);
      if new_ != [] {
        ExtendedListed(src.inner, new_);
        AllListedNow(ds, listed, listed + new_);
      }
    }
  }

  lemma {:induction false} AllListedNow(ds: seq<string>, listed: seq<string>, now: seq<string>)
    requires forall e :: e in listed ==> e in now
    requires forall d :: d in ds ==> d in now || exists e :: e in listed && SameDerive(e, d)
    ensures NotListed(ds, now) == []
  {
    if ds != [] {
      AllListedNow(ds[1..], listed, now);
      assert ds[0] in ds && SameDerive(ds[0], ds[0]);
    }
  }

  predicate Apart(listed: seq<string>, ds: seq<string>) {
    forall e, d :: e in listed && d in ds ==> !SameDerive(e, d)
  }

  lemma {:induction false} AllNew(ds: seq<string>, listed: seq<string>)
    requires Apart(listed, ds)
    ensures NotListed(ds, listed) == ds
  {
    if ds != [] {
      AllNew(ds[1..], listed);
      assert ds == [ds[0]] + ds[1..];
    }
  }

  lemma {:induction false} OldKept(listed: seq<string>, ds: seq<string>)
    requires Apart(listed, ds)
    ensures Kept(listed + ds, ds) == listed
  {
    if listed == [] {
      assert listed + ds == ds;
      NoneKept(ds, ds);
    } else {
      assert (listed + ds)[1..] == listed[1..] + ds && listed == [listed[0]] + listed[1..];
      OldKept(listed[1..], ds);
    }
  }

  /** The list as removing renders it: its entries joined by a comma and a space, and its white space at the end. */
  function Canonical(inner: string): string {
    Join(Listed(inner), ", ") + Trailing(inner)
  }

  /**
   Removing from a derive list what was just added to it gives the list in canonical form, so the exact text back if
   and only if the list was in that form.
   */
  lemma AddedToListThenRemoved(src: Source, ds: seq<string>)
    requires src.Derived? && Listed(src.inner) != [] && ds != [] && AllPaths(ds) && Apart(Listed(src.inner), ds)
    ensures RemoveFrom(AddTo(src, ds).0, ds) == (Print(src.(inner := Canonical(src.inner))), |ds|)
    ensures RemoveFrom(AddTo(src, ds).0, ds).0 == Print(src) <==> src.inner == Canonical(src.inner)
  {
    PathsAreSolid(ds);
    var listed := Listed(src.inner);
    AllNew(ds, listed);
    ExtendedListed(src.inner, ds);
    OldKept(listed, ds);
    SamePrint(src, Canonical(src.inner));
  }

  lemma SamePrint(src: Source, inner: string)
    requires src.Derived?
    ensures Print(src.(inner := inner)) == Print(src) ==> inner == src.inner
  {
    var head := src.left + "#" + src.mid + "(";
    assert Print(src) == head + src.inner + (")" + src.right);
    assert Print(src.(inner := inner)) == head + inner + (")" + src.right);
    assert Print(src)[|head|..|head| + |src.inner|] == src.inner;
    assert Print(src.(inner := inner))[|head|..|head| + |inner|] == inner;
  }
}
