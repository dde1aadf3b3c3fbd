/**
 Positions in UTF-8 text: `line_starts` and the two `linecol_to_byte` functions of
 crates/aa-patch/src/typed_rename.rs (UTF-16 columns) and crates/aa-patch/src/util.rs (character columns).
 A text is its Unicode scalar values; its bytes are `Utf8(text)`, one byte per character of that string.
 */
module Positions {
  import opened Wrappers
  import opened Text

  // ----- encodings -----

  /** UTF-8 of one scalar value (RFC 3629, section 3). */
  function Utf8Char(c: char): (bytes: string)
    ensures 1 <= |bytes| <= 4
  {
    var u := c as int;
    if u < 0x80 then [c]
    else if u < 0x800 then [(0xC0 + u / 64) as char, (0x80 + u % 64) as char]
    else if u < 0x10000 then
      [(0xE0 + u / 4096) as char, (0x80 + u / 64 % 64) as char, (0x80 + u % 64) as char]
    else
      [(0xF0 + u / 262144) as char, (0x80 + u / 4096 % 64) as char, (0x80 + u / 64 % 64) as char, (0x80 + u % 64) as char]
  }

  function Utf8(text: string): string {
    if text == [] then [] else Utf8(text[..|text| - 1]) + Utf8Char(text[|text| - 1])
  }

  /** `char::len_utf16` (RFC 2781, section 2.1). */
  function Utf16Len(c: char): nat {
    if c as int < 0x10000 then 1 else 2
  }

  function Utf16(text: string): nat {
    if text == [] then 0 else Utf16(text[..|text| - 1]) + Utf16Len(text[|text| - 1])
  }

  /** The byte offset of the boundary before character `i`. */
  function Offset(text: string, i: nat): nat
    requires i <= |text|
  {
    |Utf8(text[..i])|
  }

  ghost predicate IsBoundary(text: string, b: nat) {
    exists i :: 0 <= i <= |text| && Offset(text, i) == b
  }

  predicate IsAscii(text: string) {
    forall i :: 0 <= i < |text| ==> text[i] as int < 0x80
  }

  lemma {:induction false} Utf8Concat(a: string, b: string)
    ensures Utf8(a + b) == Utf8(a) + Utf8(b)
  {
    if b == [] {
      assert a + b == a;
    } else {
      var n := |b| - 1;
      Utf8Concat(a, b[..n]);
      assert (a + b)[..|a + b| - 1] == a + b[..n] && (a + b)[|a + b| - 1] == b[n];
      Assoc(Utf8(a), Utf8(b[..n]), Utf8Char(b[n]));
    }
  }

  lemma {:induction false} Utf16Concat(a: string, b: string)
    ensures Utf16(a + b) == Utf16(a) + Utf16(b)
  {
    if b == [] {
      assert a + b == a;
    } else {
      var n := |b| - 1;
      Utf16Concat(a, b[..n]);
      assert (a + b)[..|a + b| - 1] == a + b[..n];
    }
  }

  lemma OffsetSplit(text: string, i: nat, j: nat)
    requires i <= j <= |text|
    ensures Offset(text, j) == Offset(text, i) + |Utf8(text[i..j])|
    ensures i < j ==> Offset(text, i) < Offset(text, j)
  {
    assert text[..j] == text[..i] + text[i..j];
    Utf8Concat(text[..i], text[i..j]);
  }

  lemma OffsetsInOrder(text: string, i: nat, j: nat)
    requires i <= j <= |text|
    ensures Offset(text, i) <= Offset(text, j)
  {
    OffsetSplit(text, i, j);
  }

  lemma {:induction false} AsciiUnits(text: string)
    requires IsAscii(text)
    ensures |Utf8(text)| == |text| == Utf16(text)
  {
    if text != [] {
      AsciiUnits(text[..|text| - 1]);
    }
  }

  /** A non-ASCII text has more bytes than characters. */
  lemma {:induction false} BytesAtLeastChars(text: string)
    ensures |text| <= |Utf8(text)| && |text| <= Utf16(text)
  {
    if text != [] {
      BytesAtLeastChars(text[..|text| - 1]);
    }
  }

  // ----- line starts -----

  /** 0 and the index after every newline. */
  function Starts(s: string): (v: seq<nat>)
    ensures |v| > 0 && v[0] == 0
  {
    if s == [] then [0]
    else
      var n := |s| - 1;
      Starts(s[..n]) + if s[n] == '\n' then [|s|] else []
  }

  lemma {:induction false} StartsIncrease(s: string)
    ensures forall k :: 0 <= k < |Starts(s)| ==> Starts(s)[k] <= |s|
    ensures forall j, k :: 0 <= j < k < |Starts(s)| ==> Starts(s)[j] < Starts(s)[k]
  {
    if s != [] {
      StartsIncrease(s[..|s| - 1]);
    }
  }

  method LineStarts(bytes: string) returns (v: seq<nat>)
    ensures v == Starts(bytes)
  {
    v := [0];
    for i := 0 to |bytes|
      invariant v == Starts(bytes[..i])
    {
      assert bytes[..i + 1][..i] == bytes[..i];
      if bytes[i] == '\n' {
        v := v + [i + 1];
      }
    }
    assert bytes[..|bytes|] == bytes;
  }

  lemma {:induction false} StartsWithoutNewline(s: string, t: string)
    requires '\n' !in t
    ensures Starts(s + t) == Starts(s)
  {
    if t == [] {
      assert s + t == s;
    } else {
      var n := |t| - 1;
      StartsWithoutNewline(s, t[..n]);
      assert (s + t)[..|s + t| - 1] == s + t[..n];
    }
  }

  /** Looking for newline bytes finds exactly the starts of the lines of characters. */
  lemma {:induction false} StartsOfBytes(text: string)
    ensures |Starts(Utf8(text))| == |Starts(text)|
    ensures forall k :: 0 <= k < |Starts(text)| ==>
                          Starts(text)[k] <= |text| && Starts(Utf8(text))[k] == Offset(text, Starts(text)[k])
  {
    if text != [] {
      var n := |text| - 1;
      var init, c := text[..n], text[n];
      StartsOfBytes(init);
      StartsIncrease(init);
      forall k | 0 <= k < |Starts(init)| ensures Offset(init, Starts(init)[k]) == Offset(text, Starts(init)[k]) {
        assert init[..Starts(init)[k]] == text[..Starts(init)[k]];
      }
      if c == '\n' {
        assert Utf8(text)[..|Utf8(text)| - 1] == Utf8(init);
        assert text[..|text|] == text;
      } else {
        StartsWithoutNewline(Utf8(init), Utf8Char(c));
      }
    }
  }

  // ----- lines -----

  function LineStart(text: string, line: nat): (s: nat)
    requires line < |Starts(text)|
    ensures s <= |text|
  {
    StartsIncrease(text);
    Starts(text)[line]
  }

  /** The end of a line is the start of the next one, so it includes the newline. */
  function LineEnd(text: string, line: nat): (e: nat)
    requires line < |Starts(text)|
    ensures LineStart(text, line) <= e <= |text|
  {
    StartsIncrease(text);
    if line + 1 < |Starts(text)| then Starts(text)[line + 1] else |text|
  }

  function LineText(text: string, line: nat): string
    requires line < |Starts(text)|
  {
    text[LineStart(text, line)..LineEnd(text, line)]
  }

  // ----- the UTF-16 lookup -----

  /** `k` is the first boundary of `line` at or after UTF-16 column `character`. */
  ghost predicate FirstAtLeast(line: string, character: nat, k: nat) {
    && k <= |line|
    && character <= Utf16(line[..k])
    && forall j :: 0 <= j < k ==> Utf16(line[..j]) < character
  }

  /** `b` is the byte offset, within its line, of the boundary that `character` leads to. */
  ghost predicate LocatesInLine(line: string, character: nat, b: nat) {
    exists k: nat :: FirstAtLeast(line, character, k) && b == |Utf8(line[..k])|
  }

  /** What `linecol_to_byte` of typed_rename.rs answers, for ASCII lines and others alike. */
  ghost predicate Locates(text: string, line: nat, character: nat, r: Option<nat>) {
    if line >= |Starts(text)| || Utf16(LineText(text, line)) < character then r == None
    else r.Some? && Offset(text, LineStart(text, line)) <= r.value
         && LocatesInLine(LineText(text, line), character, r.value - Offset(text, LineStart(text, line)))
  }

  lemma {:induction false} Utf16Prefix(s: string, i: nat, j: nat)
    requires i <= j <= |s|
    ensures Utf16(s[..i]) + (j - i) <= Utf16(s[..j])
  {
    assert s[..j] == s[..i] + s[i..j];
    Utf16Concat(s[..i], s[i..j]);
    BytesAtLeastChars(s[i..j]);
  }

  lemma AsciiFirstAtLeast(line: string, character: nat)
    requires IsAscii(line)
    ensures Utf16(line) == |line|
    ensures character <= |line| ==> FirstAtLeast(line, character, character)
  {
    AsciiUnits(line);
    forall j | 0 <= j <= |line| ensures Utf16(line[..j]) == j {
      AsciiUnits(line[..j]);
    }
  }

  lemma LineBytes(text: string, line: nat, k: nat)
    requires line < |Starts(text)| && k <= |LineText(text, line)|
    ensures Offset(text, LineStart(text, line) + k) == Offset(text, LineStart(text, line)) + |Utf8(LineText(text, line)[..k])|
  {
    var s, e := LineStart(text, line), LineEnd(text, line);
    SliceBytes(text, s, e, k);
  }

  lemma SliceBytes(text: string, s: nat, e: nat, k: nat)
    requires s <= e <= |text| && k <= e - s
    ensures Offset(text, s + k) == Offset(text, s) + |Utf8(text[s..e][..k])|
  {
    OffsetSplit(text, s, s + k);
    assert text[s..s + k] == text[s..e][..k];
  }

  /** The byte offsets of a line, read from the byte-level line starts. */
  lemma LineOffsets(text: string, line: nat)
    requires line < |Starts(text)|
    ensures |Starts(Utf8(text))| == |Starts(text)|
    ensures Starts(Utf8(text))[line] == Offset(text, LineStart(text, line))
    ensures (if line + 1 < |Starts(text)| then Starts(Utf8(text))[line + 1] else |Utf8(text)|) == Offset(text, LineEnd(text, line))
    ensures Offset(text, LineEnd(text, line)) == Offset(text, LineStart(text, line)) + |Utf8(LineText(text, line))|
  {
    StartsOfBytes(text);
    assert text[..|text|] == text;
    OffsetSplit(text, LineStart(text, line), LineEnd(text, line));
  }

  method LinecolToByte(lineStarts: seq<nat>, text: string, line: nat, character: nat) returns (r: Option<nat>)
    requires lineStarts == Starts(Utf8(text))
    ensures Locates(text, line, character, r)
  {
    StartsOfBytes(text);
    if line >= |lineStarts| {
      return None;
    }
    LineOffsets(text, line);
    var lineStart := lineStarts[line];
    var lineEnd := if line + 1 < |lineStarts| then lineStarts[line + 1] else |Utf8(text)|;
    var lineText := LineText(text, line);  // the slice of the source between the two offsets
    if IsAscii(lineText) {
      AsciiFirstAtLeast(lineText, character);
      AsciiUnits(lineText);
      if lineStart + character > lineEnd {
        return None;
      }
      AsciiUnits(lineText[..character]);
      assert LocatesInLine(lineText, character, character);
      return Some(lineStart + character);
    }
    var i := WalkUtf16(lineText, character);
    if i.None? {
      return None;
    }
    return Some(lineStart + i.value);
  }

  /** The walk over the characters of a line, counting UTF-16 units. */
  method WalkUtf16(lineText: string, character: nat) returns (r: Option<nat>)
    ensures r.None? <==> Utf16(lineText) < character
    ensures r.Some? ==> LocatesInLine(lineText, character, r.value)
  {
    var cu, i := 0, 0;  // UTF-16 units and bytes before character `k`
    for k := 0 to |lineText|
      invariant cu == Utf16(lineText[..k]) && i == |Utf8(lineText[..k])|
      invariant forall j :: 0 <= j < k ==> Utf16(lineText[..j]) < character
    {
      if cu >= character {
        Utf16Prefix(lineText, k, |lineText|);
        assert lineText[..|lineText|] == lineText;
        assert FirstAtLeast(lineText, character, k);
        return Some(i);
      }
      assert lineText[..k + 1][..k] == lineText[..k];
      cu := cu + Utf16Len(lineText[k]);
      i := i + |Utf8Char(lineText[k])|;
    }
    assert lineText[..|lineText|] == lineText;
    if cu >= character {
      assert FirstAtLeast(lineText, character, |lineText|);
      return Some(i);
    }
    return None;
  }

  lemma FirstUnique(line: string, character: nat, j: nat, k: nat)
    requires FirstAtLeast(line, character, j) && FirstAtLeast(line, character, k)
    ensures j == k
  {}

  /** The answer is unique. */
  lemma LocatesUnique(text: string, line: nat, character: nat, r: Option<nat>, s: Option<nat>)
    requires Locates(text, line, character, r) && Locates(text, line, character, s)
    ensures r == s
  {
    if r.Some? && s.Some? {
      var t, base := LineText(text, line), Offset(text, LineStart(text, line));
      var j: nat :| FirstAtLeast(t, character, j) && r.value - base == |Utf8(t[..j])|;
      var k: nat :| FirstAtLeast(t, character, k) && s.value - base == |Utf8(t[..k])|;
      FirstUnique(t, character, j, k);
    }
  }

  /** It always lands on a character boundary, within the line. */
  lemma LocatesBoundary(text: string, line: nat, character: nat, b: nat)
    requires Locates(text, line, character, Some(b))
    ensures IsBoundary(text, b)
    ensures Offset(text, LineStart(text, line)) <= b <= Offset(text, LineEnd(text, line))
  {
    var k := LocatedAt(text, line, character, b);
    OffsetsInOrder(text, LineStart(text, line), LineStart(text, line) + k);
    OffsetsInOrder(text, LineStart(text, line) + k, LineEnd(text, line));
  }

  lemma LocatedAt(text: string, line: nat, character: nat, b: nat) returns (k: nat)
    requires Locates(text, line, character, Some(b))
    ensures k <= LineEnd(text, line) - LineStart(text, line) && b == Offset(text, LineStart(text, line) + k)
  {
    var t, s := LineText(text, line), LineStart(text, line);
    k :| FirstAtLeast(t, character, k) && b - Offset(text, s) == |Utf8(t[..k])|;
    LineBytes(text, line, k);
  }

  lemma LinesInOrder(text: string, line1: nat, line2: nat)
    requires line1 < line2 < |Starts(text)|
    ensures Offset(text, LineEnd(text, line1)) <= Offset(text, LineStart(text, line2))
  {
    StartsIncrease(text);
    OffsetsInOrder(text, LineEnd(text, line1), LineStart(text, line2));
  }

  /** A later position never maps to an earlier byte. */
  lemma LocatesMonotone(text: string, line1: nat, char1: nat, line2: nat, char2: nat, b1: nat, b2: nat)
    requires line1 < line2 || (line1 == line2 && char1 <= char2)
    requires Locates(text, line1, char1, Some(b1)) && Locates(text, line2, char2, Some(b2))
    ensures b1 <= b2
  {
    if line1 < line2 {
      LocatesBoundary(text, line1, char1, b1);
      LocatesBoundary(text, line2, char2, b2);
      LinesInOrder(text, line1, line2);
    } else {
      MonotoneInLine(LineText(text, line1), char1, char2,
                     b1 - Offset(text, LineStart(text, line1)), b2 - Offset(text, LineStart(text, line1)));
    }
  }

  lemma MonotoneInLine(line: string, char1: nat, char2: nat, b1: nat, b2: nat)
    requires char1 <= char2 && LocatesInLine(line, char1, b1) && LocatesInLine(line, char2, b2)
    ensures b1 <= b2
  {
    var j: nat :| FirstAtLeast(line, char1, j) && b1 == |Utf8(line[..j])|;
    var k: nat :| FirstAtLeast(line, char2, k) && b2 == |Utf8(line[..k])|;
    assert j <= k;
    OffsetsInOrder(line, j, k);
  }

  // ----- from boundaries to positions -----

  /** The last line that starts at or before character `i`. */
  function LineOf(text: string, i: nat): (line: nat)
    requires i <= |text|
    ensures line < |Starts(text)| && LineStart(text, line) <= i <= LineEnd(text, line)
    ensures i < LineEnd(text, line) || LineEnd(text, line) == |text|
  {
    LineOfPrefix(text, i);
    StartsIncrease(text[..i]);
    |Starts(text[..i])| - 1
  }

  lemma {:induction false} LineOfPrefix(text: string, i: nat)
    requires i <= |text|
    ensures Starts(text[..i]) <= Starts(text)
    ensures forall k :: |Starts(text[..i])| <= k < |Starts(text)| ==> i < Starts(text)[k]
    decreases |text|
  {
    if i == |text| {
      assert text[..i] == text;
    } else {
      var n := |text| - 1;
      LineOfPrefix(text[..n], i);
      assert text[..n][..i] == text[..i];
    }
  }

  /** The UTF-16 column of character `i` in its line. */
  function ColumnOf(text: string, i: nat): nat
    requires i <= |text|
  {
    Utf16(text[LineStart(text, LineOf(text, i))..i])
  }

  /** Looking up the position of a boundary gives the boundary back. */
  lemma LocatesLeftInverse(text: string, i: nat)
    requires i <= |text|
    ensures Locates(text, LineOf(text, i), ColumnOf(text, i), Some(Offset(text, i)))
  {
    var line := LineOf(text, i);
    var s, t := LineStart(text, line), LineText(text, line);
    var k := i - s;
    assert t[..k] == text[s..i];
    forall j | 0 <= j < k ensures Utf16(t[..j]) < ColumnOf(text, i) {
      Utf16Prefix(t, j, k);
    }
    assert FirstAtLeast(t, ColumnOf(text, i), k);
    Utf16Prefix(t, k, |t|);
    assert t[..|t|] == t;
    LineBytes(text, line, k);
    assert LocatesInLine(t, ColumnOf(text, i), |Utf8(t[..k])|);
  }

  // ----- the character-column lookup of util.rs -----

  /**
   The answer of util.rs for a column of a line whose first byte is at `start`: the boundary of that column if the
   line has it; otherwise the end of the line, or past it when the line is ASCII and the end is not checked.
   */
  function ColumnOffset(lineText: string, start: nat, column: nat): nat {
    if column <= |lineText| then start + |Utf8(lineText[..column])|
    else if IsAscii(lineText) then start + column
    else start + |Utf8(lineText)|
  }

  lemma AsciiColumn(lineText: string, column: nat)
    requires IsAscii(lineText)
    ensures column <= |lineText| ==> |Utf8(lineText[..column])| == column
  {
    if column <= |lineText| {
      AsciiUnits(lineText[..column]);
    }
  }

  /** Lines count from 1 and columns count characters. */
  method LinecolToByteChars(lineStarts: seq<nat>, text: string, line: nat, column: nat) returns (r: Option<nat>)
    requires lineStarts == Starts(Utf8(text))
    ensures r.None? <==> line == 0 || line > |Starts(text)|
    ensures r.Some? ==>
              r.value == ColumnOffset(LineText(text, line - 1), Offset(text, LineStart(text, line - 1)), column)
  {
    StartsOfBytes(text);
    if line == 0 || line > |lineStarts| {
      return None;
    }
    LineOffsets(text, line - 1);
    var lineStart := lineStarts[line - 1];
    var lineEnd := if line < |lineStarts| then lineStarts[line] else |Utf8(text)|;
    var offset := ColumnToByte(LineText(text, line - 1), lineStart, lineEnd, column);
    r := Some(offset);
  }

  /** The part of the look-up that works on one line. */
  method ColumnToByte(lineText: string, lineStart: nat, lineEnd: nat, column: nat) returns (offset: nat)
    requires lineEnd == lineStart + |Utf8(lineText)|
    ensures offset == ColumnOffset(lineText, lineStart, column)
  {
    assert lineText[..|lineText|] == lineText;
    if IsAscii(lineText) {
      AsciiColumn(lineText, column);
      return lineStart + column;
    }
    var i := WalkChars(lineText, column);
    return if i.None? then lineEnd else lineStart + i.value;
  }

  /** In range it is the boundary of that column. */
  lemma ColumnInRange(text: string, line: nat, column: nat)
    requires line < |Starts(text)| && column <= |LineText(text, line)|
    ensures ColumnOffset(LineText(text, line), Offset(text, LineStart(text, line)), column)
            == Offset(text, LineStart(text, line) + column)
  {
    LineBytes(text, line, column);
  }

  /** Looking up a boundary's line and character column gives the boundary back. */
  lemma ColumnLeftInverse(text: string, i: nat)
    requires i <= |text|
    ensures ColumnOffset(LineText(text, LineOf(text, i)), Offset(text, LineStart(text, LineOf(text, i))),
                         i - LineStart(text, LineOf(text, i))) == Offset(text, i)
  {
    ColumnInRange(text, LineOf(text, i), i - LineStart(text, LineOf(text, i)));
  }

  /** The answer leaves its line exactly when the column is past the end and the line is ASCII. */
  lemma ColumnEscapes(lineText: string, start: nat, column: nat)
    ensures ColumnOffset(lineText, start, column) > start + |Utf8(lineText)|
            <==> column > |lineText| && IsAscii(lineText)
  {
    if column <= |lineText| {
      OffsetSplit(lineText, column, |lineText|);
      assert lineText[..|lineText|] == lineText;
    } else if IsAscii(lineText) {
      AsciiUnits(lineText);
    }
  }

  /** Looks for a character with `column` characters before it. */
  method WalkChars(lineText: string, column: nat) returns (r: Option<nat>)
    ensures r == if column < |lineText| then Some(|Utf8(lineText[..column])|) else None
  {
    var i := 0;
    for priorChars := 0 to |lineText|
      invariant i == |Utf8(lineText[..priorChars])| && priorChars <= column
    {
      if priorChars == column {
        return Some(i);
      }
      assert lineText[..priorChars + 1][..priorChars] == lineText[..priorChars];
      i := i + |Utf8Char(lineText[priorChars])|;
    }
    return None;
  }
}
