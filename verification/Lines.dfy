/** The line index of a source: byte offsets to one-based lines and columns. */
module Lines {
  import opened Basics

  type Byte = x: nat | x < 0x100

  const NEWLINE: Byte := 0x0A
  const FIRST_LINE: nat := 1
  const FIRST_COLUMN: nat := 1

  datatype LineColumn = LineColumn(line: nat, column: nat)

  /** `str::is_char_boundary`: not inside a UTF-8 sequence. */
  predicate IsCharBoundary(text: seq<Byte>, offset: nat) {
    offset == |text| || (offset < |text| && !(0x80 <= text[offset] < 0xC0))
  }

  // ---------- what a position is, by counting ----------

  function Newlines(text: seq<Byte>): nat {
    if text == [] then 0 else Newlines(text[..|text| - 1]) + if text[|text| - 1] == NEWLINE then 1 else 0
  }

  /** Where the line that is open at the end of the text began. */
  function LastLineStart(text: seq<Byte>): (start: nat)
    ensures start <= |text|
  {
    if text == [] then 0 else if text[|text| - 1] == NEWLINE then |text| else LastLineStart(text[..|text| - 1])
  }

  /** One past the newlines before it, and one past the bytes since the last of them. */
  function Counted(text: seq<Byte>, offset: nat): LineColumn
    requires offset <= |text|
  {
    LineColumn(Newlines(text[..offset]) + FIRST_LINE, offset - LastLineStart(text[..offset]) + FIRST_COLUMN)
  }

  // ---------- the index ----------

  function Starts(text: seq<Byte>): (starts: seq<nat>)
    ensures |starts| == Newlines(text) + 1 && starts[0] == 0 && starts[|starts| - 1] == LastLineStart(text)
    ensures forall i :: 0 <= i < |starts| ==> starts[i] <= |text|
    ensures forall i, j :: 0 <= i < j < |starts| ==> starts[i] < starts[j]
  {
    if text == [] then [0]
    else Starts(text[..|text| - 1]) + if text[|text| - 1] == NEWLINE then [|text|] else []
  }

  /** `LineIndex::new`. */
  method NewLineIndex(text: seq<Byte>) returns (starts: seq<nat>)
    ensures starts == Starts(text)
  {
    starts := [0];
    for offset := 0 to |text|
      invariant starts == Starts(text[..offset])
    {
      assert text[..offset + 1][..offset] == text[..offset];
      if text[offset] == NEWLINE {
        starts := starts + [offset + 1];
      }
    }
    assert text[..|text|] == text;
  }

  /** `binary_search`: the place of the value, or where it would go. */
  method BinarySearch(starts: seq<nat>, offset: nat) returns (found: bool, index: nat)
    requires forall i, j :: 0 <= i < j < |starts| ==> starts[i] < starts[j]
    ensures index <= |starts| && (found ==> index < |starts| && starts[index] == offset)
    ensures !found ==> (forall i :: 0 <= i < index ==> starts[i] < offset) && forall i :: index <= i < |starts| ==> offset < starts[i]
  {
    var low, high := 0, |starts|;
    while low < high
      invariant low <= high <= |starts|
      invariant forall i :: 0 <= i < low ==> starts[i] < offset
      invariant forall i :: high <= i < |starts| ==> offset < starts[i]
    {
      var middle := low + (high - low) / 2;
      if starts[middle] < offset {
        low := middle + 1;
      } else if offset < starts[middle] {
        high := middle;
      } else {
        return true, middle;
      }
    }
    return false, low;
  }

  /** The starts of a prefix come first, and the others lie beyond it. */
  ghost predicate SplitAt(starts: seq<nat>, before: seq<nat>, offset: nat) {
    before <= starts && forall i :: |before| <= i < |starts| ==> offset < starts[i]
  }

  lemma SplitGrows(starts: seq<nat>, before: seq<nat>, offset: nat, next: nat)
    requires SplitAt(starts, before, offset) && offset < next
    ensures SplitAt(starts + [next], before, offset)
  {
  }

  lemma {:induction false} StartsBefore(text: seq<Byte>, offset: nat)
    requires offset <= |text|
    ensures SplitAt(Starts(text), Starts(text[..offset]), offset)
    decreases |text|
  {
    hide Newlines, LastLineStart, SplitAt;
    if offset == |text| {
      assert text[..offset] == text;
      SplitWhole(Starts(text), offset);
    } else {
      var earlier := text[..|text| - 1];
      StartsBefore(earlier, offset);
      assert earlier[..offset] == text[..offset];
      SplitGrows(Starts(earlier), Starts(text[..offset]), offset, |text|);
      assert Starts(earlier) + [] == Starts(earlier);
    }
  }

  lemma SplitWhole(starts: seq<nat>, offset: nat)
    ensures SplitAt(starts, starts, offset)
  {
  }

  /** The search lands just past the last start that is not beyond the offset. */
  lemma SearchLands(starts: seq<nat>, before: seq<nat>, offset: nat, found: bool, index: nat)
    requires forall i, j :: 0 <= i < j < |starts| ==> starts[i] < starts[j]
    requires SplitAt(starts, before, offset) && before != [] && before[|before| - 1] <= offset
    requires index <= |starts| && (found ==> index < |starts| && starts[index] == offset)
    requires !found ==> (forall i :: 0 <= i < index ==> starts[i] < offset) && forall i :: index <= i < |starts| ==> offset < starts[i]
    ensures |before| == if found then index + 1 else index
    ensures starts[|before| - 1] == before[|before| - 1]
  {
    var n := |before|;
    assert starts[n - 1] == before[n - 1];
    assert n < |starts| ==> offset < starts[n];
  }

  /** `LineIndex::locate` agrees with counting. */
  method Locate(starts: seq<nat>, text: seq<Byte>, offset: nat) returns (position: Option<LineColumn>)
    requires starts == Starts(text)
    ensures position == if offset <= |text| && IsCharBoundary(text, offset) then Some(Counted(text, offset)) else None
  {
    hide Starts, SplitAt, Newlines, LastLineStart, IsCharBoundary;
    if offset > |text| || !IsCharBoundary(text, offset) {
      return None;
    }
    StartsBefore(text, offset);
    var found, index := BinarySearch(starts, offset);
    SearchLands(starts, Starts(text[..offset]), offset, found, index);
    if !found {
      if index == 0 {
        return None;
      }
      index := index - 1;
    }
    return Some(LineColumn(index + FIRST_LINE, offset - starts[index] + FIRST_COLUMN));
  }

  predicate Before(a: LineColumn, b: LineColumn) {
    a.line < b.line || (a.line == b.line && a.column < b.column)
  }

  lemma {:induction false} NextPosition(text: seq<Byte>, offset: nat)
    requires offset < |text|
    ensures Before(Counted(text, offset), Counted(text, offset + 1))
  {
    assert text[..offset + 1][..offset] == text[..offset];
  }

  /** Positions grow strictly with offsets, so no two offsets share one. */
  lemma {:induction false} PositionsGrow(text: seq<Byte>, a: nat, b: nat)
    requires a < b <= |text|
    ensures Before(Counted(text, a), Counted(text, b))
    decreases b
  {
    NextPosition(text, b - 1);
    if a < b - 1 {
      PositionsGrow(text, a, b - 1);
    }
  }
}
