/** The source scan behind the diagnostic-producer gate: which characters of a
    Rust source are live code, outside comments, literals and `#[cfg(test)]` items. */
module SourceScan {
  import opened Basics

  datatype Mode =
    | Code
    | LineComment
    | BlockComment(depth: nat)
    | StringLiteral
    | RawStringLiteral(hashes: nat)
    | CharLiteral

  // ---------- one lexical step ----------

  /** `starts_with_at`. */
  predicate StartsWith(chars: string, index: nat, needle: string) {
    index + |needle| <= |chars| && chars[index..index + |needle|] == needle
  }

  function PrefixLen(chars: string, index: nat): nat {
    if StartsWith(chars, index, "br") then 2 else 1
  }

  /** How many hash signs stand from `index` on. */
  function HashRun(chars: string, index: nat): (n: nat)
    requires index <= |chars|
    ensures index + n <= |chars|
    decreases |chars| - index
  {
    if index < |chars| && chars[index] == '#' then 1 + HashRun(chars, index + 1) else 0
  }

  /** `raw_string_prefix_hashes`. */
  function RawStringHashes(chars: string, index: nat): (n: Option<nat>)
    ensures n.Some? ==> index + PrefixLen(chars, index) + n.value < |chars|
  {
    if !StartsWith(chars, index, "r") && !StartsWith(chars, index, "br") then None
    else
      var from := index + PrefixLen(chars, index);
      var hashes := HashRun(chars, from);
      if from + hashes < |chars| && chars[from + hashes] == '"' then Some(hashes) else None
  }

  predicate HasHashRun(chars: string, index: nat, hashes: nat) {
    index + hashes <= |chars| && forall k :: index <= k < index + hashes ==> chars[k] == '#'
  }

  /** An escaped char literal closes before the line ends. */
  predicate ClosesOnLine(chars: string, cursor: nat)
    decreases |chars| - cursor
  {
    cursor < |chars| && (chars[cursor] == '\'' || (chars[cursor] != '\n' && ClosesOnLine(chars, cursor + 1)))
  }

  /** `is_char_literal`: told from a lifetime. */
  predicate IsCharLiteral(chars: string, index: nat) {
    && index + 1 < |chars|
    && if chars[index + 1] == '\\' then ClosesOnLine(chars, index + 2) else index + 2 < |chars| && chars[index + 2] == '\''
  }

  /** `advance`: the next position and mode. Every step moves on, and none leaves the text. */
  function Advance(chars: string, index: nat, mode: Mode): (next: (nat, Mode))
    requires index < |chars|
    ensures index < next.0 <= |chars|
  {
    match mode
    case Code =>
      if StartsWith(chars, index, "//") then (index + 2, LineComment)
      else if StartsWith(chars, index, "/*") then (index + 2, BlockComment(1))
      else if chars[index] == '"' then (index + 1, StringLiteral)
      else
        (match RawStringHashes(chars, index)
         case Some(hashes) => (index + PrefixLen(chars, index) + 1 + hashes, RawStringLiteral(hashes))
         case None => (index + 1, if chars[index] == '\'' && IsCharLiteral(chars, index) then CharLiteral else Code))
    case LineComment => (index + 1, if chars[index] == '\n' then Code else LineComment)
    case BlockComment(depth) =>
      if StartsWith(chars, index, "/*") then (index + 2, BlockComment(depth + 1))
      else if StartsWith(chars, index, "*/") then (index + 2, if depth <= 1 then Code else BlockComment(depth - 1))
      else (index + 1, mode)
    case StringLiteral =>
      if chars[index] == '\\' && index + 1 < |chars| then (index + 2, StringLiteral)
      else (index + 1, if chars[index] == '"' then Code else StringLiteral)
    case RawStringLiteral(hashes) =>
      if chars[index] == '"' && HasHashRun(chars, index + 1, hashes) then (index + 1 + hashes, Code) else (index + 1, mode)
    case CharLiteral => (index + 1, if chars[index] == '\'' then Code else CharLiteral)
  }

  /** The mode the scan is in when it stops at position `i`, having set out from
      `index`; none if it steps over `i`. */
  function ModeAt(chars: string, index: nat, mode: Mode, i: nat): Option<Mode>
    requires index <= |chars|
    decreases |chars| - index
  {
    if index == |chars| || i < index then None
    else if i == index then Some(mode)
    else ModeAt(chars, Advance(chars, index, mode).0, Advance(chars, index, mode).1, i)
  }

  /** The position is reached in code. */
  predicate IsCode(chars: string, i: nat) {
    ModeAt(chars, 0, Code, i) == Some(Code)
  }

  function CodeMask(chars: string): seq<bool> {
    seq(|chars|, i requires 0 <= i < |chars| => IsCode(chars, i))
  }

  /** `code_positions`. */
  method CodePositions(chars: string) returns (mask: array<bool>)
    ensures fresh(mask) && mask[..] == CodeMask(chars)
  {
    mask := new bool[|chars|](_ => false);
    var mode := Code;
    var index := 0;
    while index < |chars|
      invariant 0 <= index <= |chars|
      invariant forall i :: 0 <= i < index ==> (mask[i] <==> IsCode(chars, i))
      invariant forall i :: index <= i < |chars| ==> !mask[i]
      invariant forall i :: index <= i ==> ModeAt(chars, 0, Code, i) == ModeAt(chars, index, mode, i)
    {
      mask[index] := mode.Code?;
      var next := Advance(chars, index, mode);
      assert ModeAt(chars, index, mode, index) == Some(mode);
      assert forall i :: index < i ==> ModeAt(chars, index, mode, i) == ModeAt(chars, next.0, next.1, i);
      assert forall i :: index < i < next.0 ==> ModeAt(chars, next.0, next.1, i) == None;
      index, mode := next.0, next.1;
    }
  }

  lemma StartsWithHead(chars: string, index: nat, needle: string)
    requires needle != ""
    ensures StartsWith(chars, index, needle) ==> index < |chars| && chars[index] == needle[0]
  {
    if StartsWith(chars, index, needle) {
      assert chars[index..index + |needle|][0] == chars[index];
    }
  }

  /** A text read in code keeps the scan in code while it starts no comment or literal. */
  lemma CodeGoesOn(chars: string, i: nat)
    requires i < |chars| && IsCode(chars, i) && chars[i] !in {'/', '"', 'r', 'b', '\''}
    ensures i + 1 < |chars| ==> IsCode(chars, i + 1)
  {
    StartsWithHead(chars, i, "//");
    StartsWithHead(chars, i, "/*");
    StartsWithHead(chars, i, "r");
    StartsWithHead(chars, i, "br");
    assert Advance(chars, i, Code) == (i + 1, Code);
    ModeAfter(chars, 0, Code, i);
  }

  lemma {:induction false} ModeAfter(chars: string, index: nat, mode: Mode, i: nat)
    requires index <= i < |chars| && ModeAt(chars, index, mode, i).Some?
    ensures var m := ModeAt(chars, index, mode, i).value;
            forall j :: Advance(chars, i, m).0 <= j ==>
              ModeAt(chars, index, mode, j) == ModeAt(chars, Advance(chars, i, m).0, Advance(chars, i, m).1, j)
    decreases |chars| - index
  {
    if index < i {
      ModeAfter(chars, Advance(chars, index, mode).0, Advance(chars, index, mode).1, i);
    }
  }

  // ---------- brackets ----------

  /** Opens less closes among the code positions of a stretch. */
  function Balance(chars: string, mask: seq<bool>, open: char, close: char, from: nat, end: nat): int
    requires |mask| == |chars| && end <= |chars|
    decreases end - from
  {
    if end <= from then 0
    else
      Balance(chars, mask, open, close, from, end - 1) +
      if !mask[end - 1] then 0 else if chars[end - 1] == open then 1 else if chars[end - 1] == close then -1 else 0
  }

  /** The code bracket at `k` brings the stretch from `from` back into balance. */
  predicate Balances(chars: string, mask: seq<bool>, open: char, close: char, from: nat, k: nat)
    requires |mask| == |chars|
  {
    from <= k < |chars| && mask[k] && chars[k] != open && chars[k] == close && Balance(chars, mask, open, close, from, k + 1) == 0
  }

  /** The first balance from `k` on. */
  function FirstBalance(chars: string, mask: seq<bool>, open: char, close: char, from: nat, k: nat): (found: Option<nat>)
    requires |mask| == |chars|
    ensures found.Some? ==> k <= found.value && Balances(chars, mask, open, close, from, found.value)
                            && forall j :: k <= j < found.value ==> !Balances(chars, mask, open, close, from, j)
    ensures found.None? ==> forall j :: k <= j ==> !Balances(chars, mask, open, close, from, j)
    decreases |chars| - k
  {
    if k >= |chars| then None
    else if Balances(chars, mask, open, close, from, k) then Some(k)
    else FirstBalance(chars, mask, open, close, from, k + 1)
  }

  /** `matching_bracket`. */
  method MatchingBracket(chars: string, mask: array<bool>, openIndex: nat, open: char, close: char) returns (found: Option<nat>)
    requires mask.Length == |chars|
    ensures found == FirstBalance(chars, mask[..], open, close, openIndex, openIndex)
  {
    var depth := 0;
    var index := openIndex;
    while index < |chars|
      invariant openIndex <= index
      invariant index <= |chars| ==> depth == Balance(chars, mask[..], open, close, openIndex, index)
      invariant FirstBalance(chars, mask[..], open, close, openIndex, openIndex) == FirstBalance(chars, mask[..], open, close, openIndex, index)
    {
      if mask[index] {
        if chars[index] == open {
          depth := depth + 1;
        } else if chars[index] == close {
          depth := depth - 1;
          if depth == 0 {
            return Some(index);
          }
        }
      }
      index := index + 1;
    }
    return None;
  }

  /** From an opening bracket in code, no balance is reached before the match:
      the stretch stays open at every position up to it. */
  lemma {:induction false} StaysOpen(chars: string, mask: seq<bool>, open: char, close: char, from: nat, end: nat)
    requires |mask| == |chars| && from < end <= |chars| && open != close && mask[from] && chars[from] == open
    requires forall k :: from <= k < end ==> !Balances(chars, mask, open, close, from, k)
    ensures Balance(chars, mask, open, close, from, end) > 0
    decreases end
  {
    if end > from + 1 {
      StaysOpen(chars, mask, open, close, from, end - 1);
      assert !Balances(chars, mask, open, close, from, end - 1);
    } else {
      assert Balance(chars, mask, open, close, from, from) == 0;
    }
  }

  // ---------- gated items ----------

  /** The first code position from `from` on holding one of the characters. */
  function FirstCode(chars: string, mask: seq<bool>, from: nat, targets: set<char>): (found: Option<nat>)
    requires |mask| == |chars|
    ensures found.Some? ==> from <= found.value < |chars| && mask[found.value] && chars[found.value] in targets
                            && forall j :: from <= j < found.value ==> !(mask[j] && chars[j] in targets)
    ensures found.None? ==> forall j :: from <= j < |chars| ==> !(mask[j] && chars[j] in targets)
    decreases |chars| - from
  {
    if from >= |chars| then None
    else if mask[from] && chars[from] in targets then Some(from)
    else FirstCode(chars, mask, from + 1, targets)
  }

  /** Where a gated item ends: at the brace that balances its first brace, at its
      first semicolon if that comes earlier, or with the text. */
  function GatedItemEnd(chars: string, mask: seq<bool>, from: nat): (end: nat)
    requires |mask| == |chars| && 0 < from <= |chars|
    ensures from - 1 <= end < |chars|
  {
    match FirstCode(chars, mask, from, {'{', ';'})
    case None => |chars| - 1
    case Some(k) =>
      if chars[k] == ';' then k
      else
        match FirstBalance(chars, mask, '{', '}', k, k)
        case Some(end) => end
        case None => |chars| - 1
  }

  /** The item ends where its first brace is first balanced, open all the way to
      there; or at its first semicolon before any brace; or with the text, its
      brace never balanced or neither of them found. */
  lemma GatedItemEndsAtTheTrueBalance(chars: string, mask: seq<bool>, from: nat)
    requires |mask| == |chars| && 0 < from <= |chars|
    ensures var end := GatedItemEnd(chars, mask, from);
            match FirstCode(chars, mask, from, {'{', ';'})
            case None => end == |chars| - 1
            case Some(k) =>
              if chars[k] == ';' then end == k
              else if exists j :: k < j <= |chars| && Balance(chars, mask, '{', '}', k, j) == 0
              then
                && mask[end] && chars[end] == '}' && Balance(chars, mask, '{', '}', k, end + 1) == 0
                && forall j :: k < j <= end ==> Balance(chars, mask, '{', '}', k, j) > 0
              else end == |chars| - 1
  {
    var first := FirstCode(chars, mask, from, {'{', ';'});
    if first.Some? && chars[first.value] == '{' {
      var k := first.value;
      var end := GatedItemEnd(chars, mask, from);
      var last := match FirstBalance(chars, mask, '{', '}', k, k) case Some(e) => e case None => |chars|;
      forall j | k < j <= last ensures Balance(chars, mask, '{', '}', k, j) > 0 {
        StaysOpen(chars, mask, '{', '}', k, j);
      }
    }
  }

  /** `gated_item_end`. */
  method FindGatedItemEnd(chars: string, mask: array<bool>, from: nat) returns (end: nat)
    requires mask.Length == |chars| && 0 < from <= |chars|
    ensures end == GatedItemEnd(chars, mask[..], from)
  {
    var index := from;
    while index < |chars|
      invariant from <= index <= |chars|
      invariant FirstCode(chars, mask[..], from, {'{', ';'}) == FirstCode(chars, mask[..], index, {'{', ';'})
    {
      if mask[index] {
        if chars[index] == '{' {
          var close := MatchingBracket(chars, mask, index, '{', '}');
          return if close.Some? then close.value else |chars| - 1;
        }
        if chars[index] == ';' {
          return index;
        }
      }
      index := index + 1;
    }
    return |chars| - 1;
  }

  const TEST := "test"

  predicate IsWordChar(isAlphanumeric: char -> bool, c: char) {
    isAlphanumeric(c) || c == '_'
  }

  predicate WordAt(isAlphanumeric: char -> bool, body: string, offset: nat) {
    && StartsWith(body, offset, TEST)
    && (offset > 0 ==> !IsWordChar(isAlphanumeric, body[offset - 1]))
    && (offset + 4 < |body| ==> !IsWordChar(isAlphanumeric, body[offset + 4]))
  }

  /** The word stands somewhere in the body. */
  predicate GatesTest(isAlphanumeric: char -> bool, body: string) {
    exists offset :: 0 <= offset <= |body| && WordAt(isAlphanumeric, body, offset)
  }

  lemma NoWordInsideAWord(isAlphanumeric: char -> bool, body: string, offset: nat)
    requires isAlphanumeric('s') && StartsWith(body, offset, TEST)
    ensures forall k :: offset < k < offset + 4 ==> !WordAt(isAlphanumeric, body, k)
  {
    assert body[offset..offset + 4][1] == 'e' && body[offset..offset + 4][2] == 's' && body[offset..offset + 4][3] == 't';
    StartsWithHead(body, offset + 1, TEST);
    StartsWithHead(body, offset + 2, TEST);
  }

  /** `attribute_gates_test`: the matches tried do not overlap, yet none is missed. */
  method AttributeGatesTest(isAlphanumeric: char -> bool, body: string) returns (gates: bool)
    requires isAlphanumeric('s')
    ensures gates <==> GatesTest(isAlphanumeric, body)
  {
    var offset := 0;
    while offset + 4 <= |body|
      invariant forall k :: 0 <= k < offset ==> !WordAt(isAlphanumeric, body, k)
    {
      if StartsWith(body, offset, TEST) {
        var beforeOk := offset == 0 || !IsWordChar(isAlphanumeric, body[offset - 1]);
        var afterOk := offset + 4 == |body| || !IsWordChar(isAlphanumeric, body[offset + 4]);
        if beforeOk && afterOk {
          assert WordAt(isAlphanumeric, body, offset);
          return true;
        }
        NoWordInsideAWord(isAlphanumeric, body, offset);
        offset := offset + 4;
      } else {
        offset := offset + 1;
      }
    }
    return false;
  }

  const GATE := "#[cfg("

  /** A gate found in code is in code throughout, so the bracket counted from
      there is one the scan sees. */
  lemma GateIsCode(chars: string, index: nat)
    requires IsCode(chars, index) && StartsWith(chars, index, GATE)
    ensures forall k :: index <= k < index + 6 ==> IsCode(chars, k)
    ensures chars[index + 5] == '('
  {
    var gate := chars[index..index + 6];
    assert gate[0] == '#' && gate[1] == '[' && gate[2] == 'c' && gate[3] == 'f' && gate[4] == 'g' && gate[5] == '(';
    CodeGoesOn(chars, index);
    CodeGoesOn(chars, index + 1);
    CodeGoesOn(chars, index + 2);
    CodeGoesOn(chars, index + 3);
    CodeGoesOn(chars, index + 4);
  }

  /** What the search finds at a position: where the gated item ends, or how far to move on. */
  datatype Found = Region(end: nat) | MoveTo(next: nat)

  function GateAt(isAlphanumeric: char -> bool, chars: string, mask: seq<bool>, index: nat): (found: Found)
    requires |mask| == |chars| && index + 6 <= |chars|
    ensures found.Region? ==> index + 5 < found.end < |chars| && mask[index] && StartsWith(chars, index, GATE)
    ensures found.MoveTo? ==> index < found.next <= |chars|
  {
    if !mask[index] || !StartsWith(chars, index, GATE) then MoveTo(index + 1)
    else
      var close := FirstBalance(chars, mask, '(', ')', index + 5, index + 5);
      if close.None? then MoveTo(index + 1)
      else
        assert chars[index..index + 6][5] == '(';
        var attributeClose := FirstCode(chars, mask, close.value + 1, {']'});
        if !GatesTest(isAlphanumeric, chars[index + 6..close.value]) || attributeClose.None? then MoveTo(close.value + 1)
        else Region(GatedItemEnd(chars, mask, attributeClose.value + 1))
  }

  /** The gated regions from `index` on, ends included: in bounds, in order, apart. */
  function Regions(isAlphanumeric: char -> bool, chars: string, mask: seq<bool>, index: nat): (regions: seq<(nat, nat)>)
    requires |mask| == |chars| && index <= |chars|
    ensures forall i :: 0 <= i < |regions| ==>
              && index <= regions[i].0 < regions[i].1 < |chars|
              && mask[regions[i].0] && StartsWith(chars, regions[i].0, GATE)
              && GateAt(isAlphanumeric, chars, mask, regions[i].0) == Region(regions[i].1)
    ensures forall i, j :: 0 <= i < j < |regions| ==> regions[i].1 < regions[j].0
    decreases |chars| - index
  {
    if index + 6 > |chars| then []
    else
      match GateAt(isAlphanumeric, chars, mask, index)
      case Region(end) => [(index, end)] + Regions(isAlphanumeric, chars, mask, end + 1)
      case MoveTo(next) => Regions(isAlphanumeric, chars, mask, next)
  }

  predicate Gated(regions: seq<(nat, nat)>, i: nat) {
    exists k :: 0 <= k < |regions| && regions[k].0 <= i <= regions[k].1
  }

  /** One turn of the search of `mark_cfg_test_regions`. */
  method FindGate(isAlphanumeric: char -> bool, chars: string, mask: array<bool>, index: nat) returns (found: Found)
    requires isAlphanumeric('s') && mask.Length == |chars| && index + 6 <= |chars|
    ensures found == GateAt(isAlphanumeric, chars, mask[..], index)
  {
    if !mask[index] || !StartsWith(chars, index, GATE) {
      return MoveTo(index + 1);
    }
    var close := MatchingBracket(chars, mask, index + 5, '(', ')');
    if close.None? {
      return MoveTo(index + 1);
    }
    assert chars[index..index + 6][5] == '(';
    var gates := AttributeGatesTest(isAlphanumeric, chars[index + 6..close.value]);
    if !gates {
      return MoveTo(close.value + 1);
    }
    var attributeClose := FirstCode(chars, mask[..], close.value + 1, {']'});
    if attributeClose.None? {
      return MoveTo(close.value + 1);
    }
    var end := FindGatedItemEnd(chars, mask, attributeClose.value + 1);
    return Region(end);
  }

  lemma RegionsStep(isAlphanumeric: char -> bool, chars: string, mask: seq<bool>, index: nat, done: seq<(nat, nat)>)
    requires |mask| == |chars| && index + 6 <= |chars|
    ensures var found := GateAt(isAlphanumeric, chars, mask, index);
            var rest := Regions(isAlphanumeric, chars, mask, index);
            && (found.MoveTo? ==> rest == Regions(isAlphanumeric, chars, mask, found.next))
            && (found.Region? ==> done + rest == (done + [(index, found.end)]) + Regions(isAlphanumeric, chars, mask, found.end + 1))
  {
    hide GateAt;
    var found := GateAt(isAlphanumeric, chars, mask, index);
    if found.Region? {
      var others := Regions(isAlphanumeric, chars, mask, found.end + 1);
      assert done + ([(index, found.end)] + others) == (done + [(index, found.end)]) + others;
    }
  }

  /** `mark_cfg_test_regions`. */
  method MarkCfgTestRegions(isAlphanumeric: char -> bool, chars: string, mask: array<bool>, excluded: array<bool>)
    requires isAlphanumeric('s') && mask.Length == excluded.Length == |chars| && mask != excluded
    requires forall i :: 0 <= i < |chars| ==> !excluded[i]
    modifies excluded
    ensures forall i :: 0 <= i < |chars| ==> (excluded[i] <==> Gated(Regions(isAlphanumeric, chars, mask[..], 0), i))
  {
    hide GateAt, Gated;
    ghost var all := Regions(isAlphanumeric, chars, mask[..], 0);
    ghost var done: seq<(nat, nat)> := [];
    assert done + all == all;
    var index := 0;
    NothingGated();
    while index + 6 <= |chars|
      invariant index <= |chars|
      invariant all == done + Regions(isAlphanumeric, chars, mask[..], index)
      invariant forall i :: 0 <= i < |chars| ==> (excluded[i] <==> Gated(done, i))
      decreases |chars| - index
    {
      var found := FindGate(isAlphanumeric, chars, mask, index);
      RegionsStep(isAlphanumeric, chars, mask[..], index, done);
      match found {
        case MoveTo(next) => index := next;
        case Region(end) =>
          MarkRegion(excluded, index, end, done);
          done := done + [(index, end)];
          index := end + 1;
      }
    }
    assert done + [] == done;
  }

  lemma NothingGated()
    ensures forall i :: !Gated([], i)
  {
  }

  method MarkRegion(excluded: array<bool>, start: nat, end: nat, ghost done: seq<(nat, nat)>)
    requires start <= end < excluded.Length
    requires forall i :: 0 <= i < excluded.Length ==> (excluded[i] <==> Gated(done, i))
    modifies excluded
    ensures forall i :: 0 <= i < excluded.Length ==> (excluded[i] <==> Gated(done + [(start, end)], i))
  {
    for slot := start to end + 1
      invariant forall i :: 0 <= i < excluded.Length ==> (excluded[i] <==> start <= i < slot || Gated(done, i))
    {
      excluded[slot] := true;
    }
    ghost var more := done + [(start, end)];
    forall i | 0 <= i < excluded.Length ensures excluded[i] <==> Gated(more, i) {
      assert more[|done|] == (start, end);
      if Gated(done, i) {
        var k :| 0 <= k < |done| && done[k].0 <= i <= done[k].1;
        assert more[k] == done[k];
      }
    }
  }

  /** What survives the scan at a position. */
  function Kept(isAlphanumeric: char -> bool, chars: string, mask: seq<bool>, i: nat): char
    requires |mask| == |chars| && i < |chars|
  {
    if chars[i] == '\n' then '\n'
    else if mask[i] && !Gated(Regions(isAlphanumeric, chars, mask, 0), i) then chars[i] else ' '
  }

  /** `code_only`: the same length, every newline kept, and a character kept only
      where the scan is in code outside every gated region. */
  method CodeOnly(isAlphanumeric: char -> bool, source: string) returns (code: string)
    requires isAlphanumeric('s')
    ensures |code| == |source|
    ensures forall i :: 0 <= i < |source| ==> (code[i] == '\n' <==> source[i] == '\n')
    ensures forall i :: 0 <= i < |source| ==> code[i] == Kept(isAlphanumeric, source, CodeMask(source), i)
  {
    var mask := CodePositions(source);
    var excluded := new bool[|source|](_ => false);
    MarkCfgTestRegions(isAlphanumeric, source, mask, excluded);
    code := "";
    for i := 0 to |source|
      invariant |code| == i && forall k :: 0 <= k < i ==> code[k] == Kept(isAlphanumeric, source, mask[..], k)
    {
      var c := if source[i] == '\n' then '\n' else if mask[i] && !excluded[i] then source[i] else ' ';
      code := code + [c];
    }
  }
}
