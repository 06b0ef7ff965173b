/** The layout formatter: tokens and verbatim islands written out again with
    fresh white space between them. */
module Layout {
  import opened Basics
  import opened Orders

  datatype Kind =
    | Whitespace | LineComment | BlockComment
    | ParenOpen | ParenClose | BracketOpen | BracketClose | BraceOpen | BraceClose
    | Comma | Semicolon | Arrow | Dot | PathSeparator | Colon
    | Dollar | Tilde | At | NewSymbol | HashStoreOpen | HashIslandOpen | Hash | IslandEnd
    | OtherToken

  datatype Range = Range(start: nat, end: nat)

  datatype Token = Token(kind: Kind, text: string, range: Range)

  /** `needs_space`. */
  predicate NeedsSpace(previous: Option<Kind>, current: Kind) {
    && previous.Some?
    && previous.value !in {Dollar, Tilde, At, NewSymbol, HashStoreOpen, HashIslandOpen, Hash, Dot, PathSeparator, Arrow,
                           ParenOpen, BracketOpen, BraceOpen}
    && current !in {Dot, PathSeparator, ParenClose, BracketClose, Comma, Semicolon, ParenOpen, BracketOpen, IslandEnd}
  }

  function SaturatingAdd(a: nat, b: nat): nat {
    if a + b > USIZE_MAX then USIZE_MAX else a + b
  }

  // ---------- what is written ----------

  predicate IsBlank(s: string) {
    forall c :: c in s ==> c == ' ' || c == '\n'
  }

  /** `cut` is `whole` without some of the spaces at its end. */
  predicate CutsTo(whole: string, cut: string) {
    cut <= whole && forall i :: |cut| <= i < |whole| ==> whole[i] == ' '
  }

  predicate Cuts(wholes: seq<string>, cuts: seq<string>) {
    |wholes| == |cuts| && forall i :: 0 <= i < |cuts| ==> CutsTo(wholes[i], cuts[i])
  }

  lemma CutsCompose(a: seq<string>, b: seq<string>, c: seq<string>)
    requires Cuts(a, b) && Cuts(b, c)
    ensures Cuts(a, c)
  {
    forall i | 0 <= i < |c| ensures CutsTo(a[i], c[i]) {
      assert CutsTo(a[i], b[i]) && CutsTo(b[i], c[i]);
    }
  }

  /** The pieces in order, each with the white space written before it. */
  function Woven(gaps: seq<string>, pieces: seq<string>): string
    requires |gaps| == |pieces|
  {
    if pieces == [] then ""
    else Woven(gaps[..|gaps| - 1], pieces[..|pieces| - 1]) + (gaps[|gaps| - 1] + pieces[|pieces| - 1])
  }

  lemma WovenAppend(gaps: seq<string>, pieces: seq<string>, gap: string, piece: string)
    requires |gaps| == |pieces|
    ensures Woven(gaps + [gap], pieces + [piece]) == (Woven(gaps, pieces) + gap) + piece
  {
    assert (gaps + [gap])[..|gaps|] == gaps && (pieces + [piece])[..|pieces|] == pieces;
  }

  lemma DropLast(a: string, b: string)
    requires b != ""
    ensures (a + b)[..|a + b| - 1] == a + b[..|b| - 1] && (a + b)[|a + b| - 1] == b[|b| - 1]
  {
  }

  lemma DropsToCut(s: string)
    requires s != "" && s[|s| - 1] == ' '
    ensures CutsTo(s, s[..|s| - 1]) && CutsTo("", "") && CutsTo(s, s)
  {
  }

  lemma SameCuts(s: seq<string>)
    ensures Cuts(s, s)
  {
  }

  lemma CutsAppend(wholes: seq<string>, cuts: seq<string>, whole: string, cut: string)
    requires Cuts(wholes, cuts) && CutsTo(whole, cut)
    ensures Cuts(wholes + [whole], cuts + [cut])
  {
    hide CutsTo;
  }

  /** A space dropped from the end of the text is dropped from the end of one gap or one piece. */
  lemma {:induction false} DropSpace(gaps: seq<string>, shown: seq<string>, gap: string) returns (g: seq<string>, s: seq<string>, e: string)
    requires |gaps| == |shown|
    requires var text := Woven(gaps, shown) + gap; text != "" && text[|text| - 1] == ' '
    ensures |g| == |s| && Cuts(gaps, g) && Cuts(shown, s) && CutsTo(gap, e)
    ensures var text := Woven(gaps, shown) + gap; Woven(g, s) + e == text[..|text| - 1]
    decreases |gaps|
  {
    hide Cuts, CutsTo;
    SameCuts(gaps);
    g, e := gaps, "";
    if gap != "" {
      DropLast(Woven(gaps, shown), gap);
      DropsToCut(gap);
      SameCuts(shown);
      s, e := shown, gap[..|gap| - 1];
    } else {
      var n := |gaps| - 1;
      var before := Woven(gaps[..n], shown[..n]);
      assert gaps == gaps[..n] + [gaps[n]] && shown == shown[..n] + [shown[n]];
      assert Woven(gaps, shown) + gap == (before + gaps[n]) + shown[n];
      SameCuts(shown[..n]);
      DropsToCut(" ");
      if shown[n] != "" {
        var piece := shown[n][..|shown[n]| - 1];
        DropLast(before + gaps[n], shown[n]);
        DropsToCut(shown[n]);
        s := shown[..n] + [piece];
        CutsAppend(shown[..n], shown[..n], shown[n], piece);
        WovenAppend(gaps[..n], shown[..n], gaps[n], piece);
      } else {
        assert (before + gaps[n]) + shown[n] == before + gaps[n];
        var gs, ss, left := DropSpace(gaps[..n], shown[..n], gaps[n]);
        CutsAppend(gaps[..n], gs, gaps[n], left);
        CutsAppend(shown[..n], ss, "", "");
        WovenAppend(gs, ss, left, "");
        g, s := gs + [left], ss + [""];
        assert Woven(g, s) + e == Woven(gs, ss) + left;
      }
    }
  }

  // ---------- which pieces ----------

  /** `source.get(start..end).unwrap_or_default()`. */
  function Slice(source: string, range: Range): string {
    if range.start <= range.end <= |source| then source[range.start..range.end] else ""
  }

  predicate OpensIsland(islands: seq<Range>, index: nat, range: Range) {
    index < |islands| && range.start == islands[index].start
  }

  predicate InsideIsland(islands: seq<Range>, index: nat, range: Range) {
    0 < index <= |islands| && range.start >= islands[index - 1].start && range.end <= islands[index - 1].end
  }

  datatype Progress = Progress(pieces: seq<string>, index: nat)

  /** What one token adds: nothing for white space and for what an island already
      covers, the whole island where it starts, the token's text otherwise. */
  function After(source: string, islands: seq<Range>, p: Progress, token: Token): Progress {
    if token.kind == Whitespace then p
    else if OpensIsland(islands, p.index, token.range) then Progress(p.pieces + [Slice(source, islands[p.index])], p.index + 1)
    else if InsideIsland(islands, p.index, token.range) then p
    else Progress(p.pieces + [token.text], p.index)
  }

  function AfterAll(source: string, islands: seq<Range>, tokens: seq<Token>): Progress {
    if tokens == [] then Progress([], 0)
    else After(source, islands, AfterAll(source, islands, tokens[..|tokens| - 1]), tokens[|tokens| - 1])
  }

  /** The order `sort_by_key` puts the islands in. */
  function ByStart(a: Range, b: Range): Order {
    CompareNat(a.start, b.start)
  }

  // ---------- white space ----------

  /** How far the last line reaches. */
  function LineLength(s: string): nat {
    if s == "" || s[|s| - 1] == '\n' then 0 else 1 + LineLength(s[..|s| - 1])
  }

  function Spaces(n: nat): (s: string)
    ensures |s| == n && forall c :: c in s ==> c == ' '
  {
    seq(n, i => ' ')
  }

  /** A newline at the front stays there. */
  predicate KeepsNewline(before: string, after: string) {
    before != "" && before[0] == '\n' ==> after != "" && after[0] == '\n'
  }

  predicate StartsNewline(gap: string) {
    gap != "" && gap[0] == '\n'
  }

  /** What is written after piece `i`. */
  function Following(gaps: seq<string>, gap: string, i: nat): string {
    if i + 1 < |gaps| then gaps[i + 1] else gap
  }

  predicate EndsNewline(piece: string) {
    piece != "" && piece[|piece| - 1] == '\n'
  }

  /** Every line comment of which anything is shown ends its line. */
  ghost predicate CommentsEnd(comments: set<nat>, gaps: seq<string>, shown: seq<string>, gap: string) {
    forall i :: i in comments ==>
      && i < |shown| == |gaps|
      && (shown[i] == "" || EndsNewline(shown[i]) || StartsNewline(Following(gaps, gap, i)))
  }

  /** What is laid out so far, and one more piece after it. */
  predicate Grown(gaps: seq<string>, shown: seq<string>, gap: string, moreGaps: seq<string>, moreShown: seq<string>) {
    var n := |gaps|;
    && |shown| == n && |moreGaps| == |moreShown| == n + 1
    && Cuts(gaps, moreGaps[..n]) && Cuts(shown, moreShown[..n]) && KeepsNewline(gap, moreGaps[n])
  }

  lemma CutsKeepNewline(whole: string, cut: string)
    requires CutsTo(whole, cut)
    ensures KeepsNewline(whole, cut) && (IsBlank(whole) ==> IsBlank(cut))
  {
    assert forall c :: c in cut ==> c in whole;
  }

  lemma GapsStayBlank(gaps: seq<string>, cut: seq<string>)
    requires Cuts(gaps, cut) && forall g :: g in gaps ==> IsBlank(g)
    ensures forall g :: g in cut ==> IsBlank(g)
  {
    hide CutsTo, IsBlank;
    forall i | 0 <= i < |cut| ensures IsBlank(cut[i]) {
      assert gaps[i] in gaps;
      CutsKeepNewline(gaps[i], cut[i]);
    }
  }

  /** Cutting before the piece is written. */
  lemma CutThenGrown(gaps: seq<string>, shown: seq<string>, gap: string, cutGaps: seq<string>, cutShown: seq<string>, cutGap: string,
                     moreGaps: seq<string>, moreShown: seq<string>)
    requires Cuts(gaps, cutGaps) && Cuts(shown, cutShown) && KeepsNewline(gap, cutGap)
    requires Grown(cutGaps, cutShown, cutGap, moreGaps, moreShown)
    ensures Grown(gaps, shown, gap, moreGaps, moreShown)
  {
    hide CutsTo;
    CutsCompose(gaps, cutGaps, moreGaps[..|gaps|]);
    CutsCompose(shown, cutShown, moreShown[..|gaps|]);
  }

  /** Cutting after the piece is written. */
  lemma GrownThenCut(gaps: seq<string>, shown: seq<string>, gap: string, moreGaps: seq<string>, moreShown: seq<string>,
                     cutGaps: seq<string>, cutShown: seq<string>)
    requires Grown(gaps, shown, gap, moreGaps, moreShown) && Cuts(moreGaps, cutGaps) && Cuts(moreShown, cutShown)
    ensures Grown(gaps, shown, gap, cutGaps, cutShown)
  {
    hide CutsTo;
    var n := |gaps|;
    assert forall i :: 0 <= i < n ==> CutsTo(moreGaps[..n][i], cutGaps[..n][i]) && CutsTo(moreShown[..n][i], cutShown[..n][i]);
    CutsCompose(gaps, moreGaps[..n], cutGaps[..n]);
    CutsCompose(shown, moreShown[..n], cutShown[..n]);
    CutsKeepNewline(moreGaps[n], cutGaps[n]);
  }

  // ---------- the formatter ----------

  class LayoutFormatter {
    const isSpace: char -> bool
    const source: string
    const islands: seq<Range>
    const lineWidth: nat
    var islandIndex: nat
    var output: string
    var previous: Option<Kind>
    var parens: nat
    var brackets: seq<bool>
    var braces: nat
    var lineStart: bool
    ghost var gaps: seq<string>
    ghost var pieces: seq<string>
    ghost var shown: seq<string>
    ghost var gap: string
    ghost var comments: set<nat>

    constructor (isSpace: char -> bool, source: string, islands: seq<Range>, lineWidth: nat)
      ensures this.isSpace == isSpace && this.source == source && this.islands == Sort(ByStart, islands) && this.lineWidth == lineWidth
      ensures Valid() && pieces == [] && islandIndex == 0 && comments == {} && CommentsEnd(comments, gaps, shown, gap)
    {
      this.isSpace, this.source, this.islands, this.lineWidth := isSpace, source, Sort(ByStart, islands), lineWidth;
      islandIndex, output, previous := 0, "", None;
      parens, brackets, braces, lineStart := 0, [], 0, true;
      gaps, pieces, shown, gap, comments := [], [], [], "", {};
    }

    /** The output is the pieces, some without the spaces at their ends, with
        blanks before, between and after them. */
    ghost predicate Valid()
      reads this`output, this`gaps, this`pieces, this`shown, this`gap
    {
      && |gaps| == |shown|
      && output == Woven(gaps, shown) + gap
      && IsBlank(gap)
      && (forall g :: g in gaps ==> IsBlank(g))
      && Cuts(pieces, shown)
    }

    /** The same pieces, with spaces cut at most. */
    twostate predicate Kept()
      reads this`gaps, this`shown, this`gap
    {
      Cuts(old(gaps), gaps) && Cuts(old(shown), shown) && KeepsNewline(old(gap), gap)
    }

    method TrimSpace()
      requires Valid()
      modifies this`output, this`gaps, this`shown, this`gap
      ensures Valid() && Kept() && CutsTo(old(gap), gap)
      ensures output == "" || output[|output| - 1] != ' '
    {
      hide Woven, IsBlank, Cuts, CutsTo;
      SameCuts(gaps);
      SameCuts(shown);
      NothingCut(gap);
      while output != "" && output[|output| - 1] == ' '
        invariant Valid() && Cuts(old(gaps), gaps) && Cuts(old(shown), shown) && CutsTo(old(gap), gap)
        decreases |output|
      {
        ghost var g, s, e := DropSpace(gaps, shown, gap);
        CutsCompose(old(gaps), gaps, g);
        CutsCompose(old(shown), shown, s);
        CutsCompose(pieces, shown, s);
        OneCut(old(gap), gap, e);
        GapsStayBlank(gaps, g);
        CutsKeepNewline(gap, e);
        output := output[..|output| - 1];
        gaps, shown, gap := g, s, e;
      }
      CutsKeepNewline(old(gap), gap);
    }

    method Push(s: string)
      requires Valid() && IsBlank(s)
      modifies this`output, this`gap
      ensures Valid() && KeepsNewline(old(gap), gap) && gap == old(gap) + s
    {
      output := output + s;
      gap := gap + s;
    }

    method PushPiece(text: string)
      requires Valid()
      modifies this`output, this`gaps, this`pieces, this`shown, this`gap
      ensures Valid() && gaps == old(gaps) + [old(gap)] && shown == old(shown) + [text] && pieces == old(pieces) + [text] && gap == ""
      ensures Grown(old(gaps), old(shown), old(gap), gaps, shown)
    {
      hide Woven;
      WovenAppend(gaps, shown, gap, text);
      output := output + text;
      gaps, shown, pieces := gaps + [gap], shown + [text], pieces + [text];
      gap := "";
      assert gaps[..|old(gaps)|] == old(gaps) && shown[..|old(shown)|] == old(shown);
    }

    method Newline()
      requires Valid()
      modifies this`output, this`gaps, this`shown, this`gap, this`lineStart
      ensures Valid() && Kept()
      ensures old(gap) == "" ==> StartsNewline(gap) || (gap == "" && EndsNewline(output))
    {
      hide Woven, Cuts;
      TrimSpace();
      if output == "" || output[|output| - 1] != '\n' {
        Push("\n");
      }
      lineStart := true;
    }

    method Indent()
      requires Valid()
      modifies this`output, this`gap, this`lineStart
      ensures Valid() && KeepsNewline(old(gap), gap)
    {
      if lineStart {
        Push(Spaces(4 * (parens + braces + 1)));
        lineStart := false;
      }
    }

    method WhitespaceBefore(width: nat)
      requires Valid()
      modifies this`output, this`gaps, this`shown, this`gap, this`lineStart
      ensures Valid() && Kept()
    {
      hide Woven;
      if !lineStart && !(output != "" && isSpace(output[|output| - 1])) {
        if SaturatingAdd(SaturatingAdd(LineLength(output), 1), width) > lineWidth {
          Newline();
          Indent();
        } else {
          Push(" ");
        }
      }
    }

    method WriteBefore(kind: Kind, width: nat)
      requires Valid()
      modifies this`output, this`gaps, this`shown, this`gap, this`lineStart
      ensures Valid() && Kept()
    {
      hide Woven;
      if NeedsSpace(previous, kind) {
        WhitespaceBefore(width);
      }
    }

    /** One more piece, and the gap before it settled. */
    twostate predicate Added(text: string)
      reads this`gaps, this`pieces, this`shown, this`gap
    {
      pieces == old(pieces) + [text] && Grown(old(gaps), old(shown), old(gap), gaps, shown)
    }

    method SpaceAndPush(kind: Kind, text: string)
      requires Valid()
      modifies this`output, this`gap, this`gaps, this`pieces, this`shown, this`lineStart
      ensures Valid() && Added(text) && gap == "" && shown[|shown| - 1] == text
    {
      hide Woven, Cuts, Grown, Valid;
      WriteBefore(kind, |text|);
      ghost var g, s, e := gaps, shown, gap;
      PushPiece(text);
      CutThenGrown(old(gaps), old(shown), old(gap), g, s, e, gaps, shown);
    }

    method TrimAndPush(text: string)
      requires Valid()
      modifies this`output, this`gap, this`gaps, this`pieces, this`shown
      ensures Valid() && Added(text)
    {
      hide Woven, Cuts, Grown, Valid;
      TrimSpace();
      ghost var g, s, e := gaps, shown, gap;
      PushPiece(text);
      CutThenGrown(old(gaps), old(shown), old(gap), g, s, e, gaps, shown);
    }

    method CloseBracket(text: string)
      requires Valid()
      modifies this`output, this`gap, this`gaps, this`pieces, this`shown, this`lineStart, this`brackets
      ensures Valid() && Added(text)
    {
      hide Woven, Cuts, Grown, Valid;
      var multiline := brackets != [] && brackets[|brackets| - 1];
      if brackets != [] {
        brackets := brackets[..|brackets| - 1];
      }
      SameCuts(gaps);
      SameCuts(shown);
      if multiline && !lineStart {
        Newline();
      }
      ghost var g, s, e := gaps, shown, gap;
      TrimAndPush(text);
      CutThenGrown(old(gaps), old(shown), old(gap), g, s, e, gaps, shown);
    }

    method WriteComma(text: string)
      requires Valid()
      modifies this`output, this`gap, this`gaps, this`pieces, this`shown, this`lineStart
      ensures Valid() && Added(text)
    {
      hide Woven, Cuts, Grown, Valid;
      TrimAndPush(text);
      if brackets != [] && brackets[|brackets| - 1] {
        ghost var g, s := gaps, shown;
        Newline();
        GrownThenCut(old(gaps), old(shown), old(gap), g, s, gaps, shown);
        Indent();
      }
    }

    method WriteSemicolon(text: string)
      requires Valid()
      modifies this`output, this`gap, this`gaps, this`pieces, this`shown, this`lineStart
      ensures Valid() && Added(text)
    {
      hide Woven, Cuts, Grown, Valid;
      TrimAndPush(text);
      ghost var g, s := gaps, shown;
      Newline();
      GrownThenCut(old(gaps), old(shown), old(gap), g, s, gaps, shown);
    }

    method WriteArrow(text: string)
      requires Valid()
      modifies this`output, this`gap, this`gaps, this`pieces, this`shown, this`lineStart
      ensures Valid() && Added(text)
    {
      hide Woven, Cuts, Grown, Valid;
      TrimSpace();
      ghost var g, s, e := gaps, shown, gap;
      SameCuts(gaps);
      SameCuts(shown);
      if !lineStart {
        Newline();
      }
      CutsCompose(old(gaps), g, gaps);
      CutsCompose(old(shown), s, shown);
      Indent();
      g, s, e := gaps, shown, gap;
      PushPiece(text);
      CutThenGrown(old(gaps), old(shown), old(gap), g, s, e, gaps, shown);
    }

    /** The match on the kind of an ordinary token: white space, the text, more white space. */
    method WriteToken(kind: Kind, text: string)
      requires Valid()
      modifies this`output, this`gap, this`gaps, this`pieces, this`shown, this`lineStart, this`parens, this`brackets, this`braces
      ensures Valid() && Added(text)
    {
      hide Valid, NeedsSpace, Grown;
      match kind {
        case ParenOpen =>
          SpaceAndPush(kind, text);
          parens := parens + 1;
        case ParenClose =>
          TrimAndPush(text);
          parens := if parens == 0 then 0 else parens - 1;
        case BracketOpen =>
          SpaceAndPush(kind, text);
          brackets := brackets + [previous == Some(Tilde)];
        case BracketClose => CloseBracket(text);
        case BraceOpen =>
          SpaceAndPush(kind, text);
          braces := braces + 1;
        case BraceClose =>
          TrimAndPush(text);
          braces := if braces == 0 then 0 else braces - 1;
        case Comma => WriteComma(text);
        case Semicolon => WriteSemicolon(text);
        case Arrow => WriteArrow(text);
        case Dot => TrimAndPush(text);
        case PathSeparator => TrimAndPush(text);
        case Colon => TrimAndPush(text);
        case _ => SpaceAndPush(kind, text);
      }
    }

    /** `copy_island_if_open`, once the island is known to open here. */
    method CopyIsland()
      requires Valid() && islandIndex < |islands|
      modifies this`output, this`gap, this`gaps, this`pieces, this`shown, this`lineStart, this`islandIndex, this`previous
      ensures Valid() && Added(Slice(source, islands[old(islandIndex)])) && islandIndex == old(islandIndex) + 1
    {
      hide Valid, Grown;
      var text := Slice(source, islands[islandIndex]);
      SpaceAndPush(Hash, text);
      islandIndex := islandIndex + 1;
      previous := Some(Hash);
      lineStart := false;
    }

    method WriteComment(kind: Kind, text: string)
      requires Valid()
      modifies this`output, this`gap, this`gaps, this`pieces, this`shown, this`lineStart, this`previous
      ensures Valid() && Added(text)
      ensures kind == LineComment ==> var last := shown[|shown| - 1]; last == "" || EndsNewline(last) || StartsNewline(gap)
    {
      hide Cuts, Grown, Woven, Valid;
      WhitespaceBefore(|text|);
      ghost var g, s, e := gaps, shown, gap;
      PushPiece(text);
      CutThenGrown(old(gaps), old(shown), old(gap), g, s, e, gaps, shown);
      GrownLonger(old(gaps), old(shown), old(gap), gaps, shown);
      if kind == LineComment {
        g, s := gaps, shown;
        Newline();
        GrownThenCut(old(gaps), old(shown), old(gap), g, s, gaps, shown);
        GrownLonger(old(gaps), old(shown), old(gap), gaps, shown);
        if gap == "" && EndsNewline(output) {
          LastShown();
        }
      }
      previous := Some(kind);
    }

    /** Without a gap at the end, the text ends as its last piece does. */
    lemma LastShown()
      requires Valid() && gap == "" && shown != []
      ensures shown[|shown| - 1] != "" ==> output != "" && output[|output| - 1] == shown[|shown| - 1][|shown[|shown| - 1]| - 1]
    {
      var n := |shown| - 1;
      assert output == Woven(gaps[..n], shown[..n]) + (gaps[n] + shown[n]);
    }

    /** `token`. */
    method Token(token: Token)
      requires Valid() && CommentsEnd(comments, gaps, shown, gap)
      modifies this
      ensures Valid() && CommentsEnd(comments, gaps, shown, gap)
      ensures Progress(pieces, islandIndex) == After(source, islands, old(Progress(pieces, islandIndex)), token)
      ensures comments == old(comments) + (if IsComment(source, islands, old(islandIndex), token) then {|old(pieces)|} else {})
    {
      hide Woven, Grown, CommentsEnd, Cuts;
      if token.kind == Whitespace {
        return;
      }
      ghost var g, s, e := gaps, shown, gap;
      if OpensIsland(islands, islandIndex, token.range) {
        CopyIsland();
        CommentsStay(comments, g, s, e, gaps, shown, gap);
        return;
      }
      if InsideIsland(islands, islandIndex, token.range) {
        return;
      }
      if token.kind == LineComment || token.kind == BlockComment {
        WriteComment(token.kind, token.text);
        CommentsStay(comments, g, s, e, gaps, shown, gap);
        if token.kind == LineComment {
          GrownLonger(g, s, e, gaps, shown);
          AnotherComment(comments, gaps, shown, gap);
          comments := comments + {|shown| - 1};
          assert |pieces| == |shown| by { SameLength(pieces, shown); }
        }
        return;
      }
      WriteToken(token.kind, token.text);
      CommentsStay(comments, g, s, e, gaps, shown, gap);
      previous := Some(token.kind);
      if token.kind != Semicolon {
        lineStart := false;
      }
    }

    /** `finish`. */
    method Finish() returns (text: string)
      requires Valid() && CommentsEnd(comments, gaps, shown, gap)
      modifies this
      ensures Valid() && CommentsEnd(comments, gaps, shown, gap) && text == output
      ensures pieces == old(pieces) && comments == old(comments) && islandIndex == old(islandIndex)
    {
      hide Woven;
      TrimSpace();
      if output != "" && output[|output| - 1] != '\n' {
        Push("\n");
      }
      CommentsCut(comments, old(gaps), old(shown), old(gap), gaps, shown, gap);
      return output;
    }
  }

  lemma SameLength(wholes: seq<string>, cuts: seq<string>)
    requires Cuts(wholes, cuts)
    ensures |wholes| == |cuts|
  {
  }

  lemma NothingCut(s: string)
    ensures CutsTo(s, s)
  {
  }

  lemma OneCut(a: string, b: string, c: string)
    requires CutsTo(a, b) && CutsTo(b, c)
    ensures CutsTo(a, c)
  {
  }

  lemma GrownLonger(gaps: seq<string>, shown: seq<string>, gap: string, moreGaps: seq<string>, moreShown: seq<string>)
    requires Grown(gaps, shown, gap, moreGaps, moreShown)
    ensures |moreShown| == |moreGaps| == |gaps| + 1
  {
  }

  /** A piece that does not end in a space is shown whole. */
  lemma SolidPiecesShow(piece: string, cut: string)
    requires CutsTo(piece, cut) && (piece == "" || piece[|piece| - 1] != ' ')
    ensures cut == piece
  {
  }

  /** The token is written as a line comment of its own. */
  predicate IsComment(source: string, islands: seq<Range>, index: nat, token: Token) {
    token.kind == LineComment && !OpensIsland(islands, index, token.range) && !InsideIsland(islands, index, token.range)
  }

  lemma CutPiece(whole: string, cut: string)
    requires CutsTo(whole, cut) && (whole == "" || EndsNewline(whole))
    ensures cut == whole
  {
  }

  /** Cutting spaces leaves the line comments ended. */
  lemma CommentsCut(comments: set<nat>, gaps: seq<string>, shown: seq<string>, gap: string, cutGaps: seq<string>, cutShown: seq<string>, cutGap: string)
    requires |gaps| == |shown| && CommentsEnd(comments, gaps, shown, gap)
    requires Cuts(gaps, cutGaps) && Cuts(shown, cutShown) && KeepsNewline(gap, cutGap)
    ensures CommentsEnd(comments, cutGaps, cutShown, cutGap)
  {
    hide CutsTo;
    forall i | i in comments
      ensures i < |cutShown| && (cutShown[i] == "" || EndsNewline(cutShown[i]) || StartsNewline(Following(cutGaps, cutGap, i)))
    {
      if shown[i] == "" || EndsNewline(shown[i]) {
        CutPiece(shown[i], cutShown[i]);
      } else if i + 1 < |gaps| {
        CutsKeepNewline(gaps[i + 1], cutGaps[i + 1]);
      }
    }
  }

  /** One more piece leaves the earlier line comments ended. */
  lemma CommentsStay(comments: set<nat>, gaps: seq<string>, shown: seq<string>, gap: string, moreGaps: seq<string>, moreShown: seq<string>, moreGap: string)
    requires CommentsEnd(comments, gaps, shown, gap) && Grown(gaps, shown, gap, moreGaps, moreShown)
    ensures CommentsEnd(comments, moreGaps, moreShown, moreGap)
  {
    hide CutsTo;
    var n := |gaps|;
    CommentsCut(comments, gaps, shown, gap, moreGaps[..n], moreShown[..n], moreGaps[n]);
    forall i | i in comments
      ensures i < |moreShown| && (moreShown[i] == "" || EndsNewline(moreShown[i]) || StartsNewline(Following(moreGaps, moreGap, i)))
    {
      assert moreShown[..n][i] == moreShown[i];
      assert i + 1 < n ==> moreGaps[..n][i + 1] == moreGaps[i + 1];
    }
  }

  lemma AnotherComment(comments: set<nat>, gaps: seq<string>, shown: seq<string>, gap: string)
    requires CommentsEnd(comments, gaps, shown, gap) && |gaps| == |shown| > 0
    requires var last := shown[|shown| - 1]; last == "" || EndsNewline(last) || StartsNewline(gap)
    ensures CommentsEnd(comments + {|shown| - 1}, gaps, shown, gap)
  {
  }

  // ---------- a whole query ----------

  /** The places, among the pieces, of the line comments written on their own. */
  function CommentPlaces(source: string, islands: seq<Range>, tokens: seq<Token>): set<nat> {
    if tokens == [] then {}
    else
      var earlier, last := tokens[..|tokens| - 1], tokens[|tokens| - 1];
      var p := AfterAll(source, islands, earlier);
      CommentPlaces(source, islands, earlier) + if IsComment(source, islands, p.index, last) then {|p.pieces|} else {}
  }

  /** The text is these pieces in order, each without some of the spaces at its
      end, with only spaces and newlines around them, and every line comment among
      them ends its line. A piece that does not end in a space is there verbatim. */
  ghost predicate LaidOut(text: string, pieces: seq<string>, comments: set<nat>) {
    exists gaps: seq<string>, shown: seq<string>, gap: string ::
      |gaps| == |shown| && Lays(text, gaps, shown, gap) && Cuts(pieces, shown) && CommentsEnd(comments, gaps, shown, gap)
  }

  ghost predicate Lays(text: string, gaps: seq<string>, shown: seq<string>, gap: string)
    requires |gaps| == |shown|
  {
    text == Woven(gaps, shown) + gap && IsBlank(gap) && forall g :: g in gaps ==> IsBlank(g)
  }

  /** The tokens are the whole source, islands cover whole tokens, and white-space tokens are white space. */
  ghost predicate Lexed(isSpace: char -> bool, source: string, islands: seq<Range>, tokens: seq<Token>) {
    && isSpace(' ') && isSpace('\n')
    && Tile(source, tokens) && EndOf(tokens) == |source| && Aligned(source, islands, tokens)
    && (forall i :: 0 <= i < |tokens| && tokens[i].kind == Whitespace ==> forall c :: c in tokens[i].text ==> isSpace(c))
  }

  /** Formatting writes the non-white-space tokens and the islands in source
      order, with only spaces and newlines between them and nothing cut from them
      but spaces at their ends, and ends the line of every line comment. For a
      lexed source, nothing but white space changes. */
  method Format(isSpace: char -> bool, source: string, islands: seq<Range>, tokens: seq<Token>, lineWidth: nat) returns (text: string)
    ensures LaidOut(text, AfterAll(source, Sort(ByStart, islands), tokens).pieces, CommentPlaces(source, Sort(ByStart, islands), tokens))
    ensures Lexed(isSpace, source, Sort(ByStart, islands), tokens) ==> Stripped(isSpace, text) == Stripped(isSpace, source)
  {
    hide Woven, After, Sort, Lexed, CommentsEnd, Stripped, Cuts;
    var formatter := new LayoutFormatter(isSpace, source, islands, lineWidth);
    for i := 0 to |tokens|
      invariant fresh(formatter) && formatter.Valid()
      invariant CommentsEnd(formatter.comments, formatter.gaps, formatter.shown, formatter.gap)
      invariant formatter.comments == CommentPlaces(source, formatter.islands, tokens[..i])
      invariant Progress(formatter.pieces, formatter.islandIndex) == AfterAll(source, formatter.islands, tokens[..i])
    {
      assert tokens[..i + 1][..i] == tokens[..i];
      formatter.Token(tokens[i]);
    }
    assert tokens[..|tokens|] == tokens;
    text := formatter.Finish();
    assert Lays(text, formatter.gaps, formatter.shown, formatter.gap);
    if Lexed(isSpace, source, formatter.islands, tokens) {
      FormattingKeepsContent(isSpace, source, formatter.islands, tokens, text, formatter.gaps, formatter.shown, formatter.gap);
    }
  }

  // ---------- only white space changes ----------

  /** The text without its white space. */
  function Stripped(isSpace: char -> bool, s: string): string {
    if s == "" then "" else (if isSpace(s[0]) then "" else [s[0]]) + Stripped(isSpace, s[1..])
  }

  lemma {:induction false} StrippedAppend(isSpace: char -> bool, a: string, b: string)
    ensures Stripped(isSpace, a + b) == Stripped(isSpace, a) + Stripped(isSpace, b)
  {
    if a == "" {
      assert a + b == b;
    } else {
      assert (a + b)[1..] == a[1..] + b;
      StrippedAppend(isSpace, a[1..], b);
    }
  }

  lemma {:induction false} StrippedBlank(isSpace: char -> bool, s: string)
    requires forall c :: c in s ==> isSpace(c)
    ensures Stripped(isSpace, s) == ""
  {
    if s != "" {
      StrippedBlank(isSpace, s[1..]);
    }
  }

  function Concat(pieces: seq<string>): string {
    if pieces == [] then "" else Concat(pieces[..|pieces| - 1]) + pieces[|pieces| - 1]
  }

  lemma StrippedCut(isSpace: char -> bool, whole: string, cut: string)
    requires isSpace(' ') && CutsTo(whole, cut)
    ensures Stripped(isSpace, cut) == Stripped(isSpace, whole)
  {
    assert whole == cut + whole[|cut|..];
    StrippedAppend(isSpace, cut, whole[|cut|..]);
    StrippedBlank(isSpace, whole[|cut|..]);
  }

  lemma {:induction false} StrippedWoven(isSpace: char -> bool, gaps: seq<string>, pieces: seq<string>, shown: seq<string>)
    requires isSpace(' ') && isSpace('\n') && |gaps| == |shown| && Cuts(pieces, shown) && forall g :: g in gaps ==> IsBlank(g)
    ensures Stripped(isSpace, Woven(gaps, shown)) == Stripped(isSpace, Concat(pieces))
  {
    hide CutsTo;
    if pieces != [] {
      var n := |pieces| - 1;
      assert forall i :: 0 <= i < n ==> CutsTo(pieces[..n][i], shown[..n][i]);
      StrippedWoven(isSpace, gaps[..n], pieces[..n], shown[..n]);
      assert IsBlank(gaps[n]);
      StrippedBlank(isSpace, gaps[n]);
      StrippedAppend(isSpace, Woven(gaps[..n], shown[..n]), gaps[n] + shown[n]);
      StrippedAppend(isSpace, gaps[n], shown[n]);
      StrippedCut(isSpace, pieces[n], shown[n]);
      StrippedAppend(isSpace, Concat(pieces[..n]), pieces[n]);
    }
  }

  function EndOf(tokens: seq<Token>): nat {
    if tokens == [] then 0 else tokens[|tokens| - 1].range.end
  }

  predicate Reads(source: string, token: Token, start: nat) {
    && token.range.start == start <= token.range.end <= |source|
    && token.text == source[token.range.start..token.range.end]
  }

  /** The tokens lie end to end over the source from its start. */
  predicate Tile(source: string, tokens: seq<Token>) {
    tokens != [] ==>
      && Tile(source, tokens[..|tokens| - 1])
      && Reads(source, tokens[|tokens| - 1], EndOf(tokens[..|tokens| - 1]))
  }

  /** Each island lies in the source, covers whole tokens and begins where the last one is over. */
  predicate Aligned(source: string, islands: seq<Range>, tokens: seq<Token>) {
    && (forall j :: 0 <= j < |islands| ==> islands[j].start < islands[j].end <= |source|)
    && (forall j :: 0 < j < |islands| ==> islands[j - 1].end <= islands[j].start)
    && (forall i, j :: 0 <= i < |tokens| && 0 <= j < |islands| ==> Apart(tokens[i].range, islands[j]))
  }

  predicate Apart(token: Range, island: Range) {
    token.end <= island.start || island.end <= token.start || (island.start <= token.start && token.end <= island.end)
  }

  /** How far the source is accounted for. */
  function Covered(islands: seq<Range>, index: nat, position: nat): nat {
    if 0 < index <= |islands| && position < islands[index - 1].end then islands[index - 1].end else position
  }

  lemma StrippedPrefix(isSpace: char -> bool, source: string, start: nat, end: nat)
    requires start <= end <= |source|
    ensures Stripped(isSpace, source[..end]) == Stripped(isSpace, source[..start]) + Stripped(isSpace, source[start..end])
  {
    assert source[..end] == source[..start] + source[start..end];
    StrippedAppend(isSpace, source[..start], source[start..end]);
  }

  ghost predicate Spelled(isSpace: char -> bool, source: string, islands: seq<Range>, p: Progress, position: nat) {
    && p.index <= |islands| && position <= |source|
    && (p.index > 0 ==> islands[p.index - 1].start <= position && islands[p.index - 1].end <= |source|)
    && Stripped(isSpace, Concat(p.pieces)) == Stripped(isSpace, source[..Covered(islands, p.index, position)])
  }

  lemma PieceSpells(isSpace: char -> bool, source: string, pieces: seq<string>, start: nat, end: nat)
    requires start <= end <= |source| && Stripped(isSpace, Concat(pieces)) == Stripped(isSpace, source[..start])
    ensures Stripped(isSpace, Concat(pieces + [source[start..end]])) == Stripped(isSpace, source[..end])
  {
    var piece := source[start..end];
    assert (pieces + [piece])[..|pieces|] == pieces;
    StrippedAppend(isSpace, Concat(pieces), piece);
    StrippedPrefix(isSpace, source, start, end);
  }

  lemma TokenSpells(isSpace: char -> bool, source: string, islands: seq<Range>, p: Progress, token: Token)
    requires Spelled(isSpace, source, islands, p, token.range.start)
    requires token.range.start <= token.range.end <= |source| && token.text == source[token.range.start..token.range.end]
    requires forall j :: 0 <= j < |islands| ==> islands[j].start < islands[j].end <= |source| && Apart(token.range, islands[j])
    requires forall j :: 0 < j < |islands| ==> islands[j - 1].end <= islands[j].start
    requires token.kind == Whitespace ==> forall c :: c in token.text ==> isSpace(c)
    ensures Spelled(isSpace, source, islands, After(source, islands, p, token), token.range.end)
  {
    hide Concat, Stripped;
    var s, e := token.range.start, token.range.end;
    assert p.index > 0 ==> Apart(token.range, islands[p.index - 1]);
    if token.kind == Whitespace {
      StrippedBlank(isSpace, token.text);
      StrippedPrefix(isSpace, source, s, e);
      assert Stripped(isSpace, source[..s]) + "" == Stripped(isSpace, source[..s]);
    } else if OpensIsland(islands, p.index, token.range) {
      var island := islands[p.index];
      assert Apart(token.range, island);
      assert p.index > 0 ==> islands[p.index - 1].end <= island.start;
      PieceSpells(isSpace, source, p.pieces, s, island.end);
    } else if !InsideIsland(islands, p.index, token.range) {
      PieceSpells(isSpace, source, p.pieces, s, e);
    }
  }

  lemma LastToken(isSpace: char -> bool, source: string, islands: seq<Range>, tokens: seq<Token>)
    requires tokens != [] && Tile(source, tokens) && Aligned(source, islands, tokens)
    requires forall i :: 0 <= i < |tokens| && tokens[i].kind == Whitespace ==> forall c :: c in tokens[i].text ==> isSpace(c)
    ensures var earlier, last := tokens[..|tokens| - 1], tokens[|tokens| - 1];
            && Tile(source, earlier) && Aligned(source, islands, earlier)
            && last.range.start == EndOf(earlier) && last.range.start <= last.range.end <= |source|
            && last.text == source[last.range.start..last.range.end]
            && (forall j :: 0 <= j < |islands| ==> Apart(last.range, islands[j]))
  {
    hide Apart;
    assert forall i :: 0 <= i < |tokens| - 1 ==> tokens[..|tokens| - 1][i] == tokens[i];
  }

  lemma {:induction false} PiecesSpell(isSpace: char -> bool, source: string, islands: seq<Range>, tokens: seq<Token>)
    requires Tile(source, tokens) && Aligned(source, islands, tokens)
    requires forall i :: 0 <= i < |tokens| && tokens[i].kind == Whitespace ==> forall c :: c in tokens[i].text ==> isSpace(c)
    ensures Spelled(isSpace, source, islands, AfterAll(source, islands, tokens), EndOf(tokens))
    decreases |tokens|
  {
    hide After, Spelled, Tile, Apart;
    if tokens == [] {
      NothingSpelled(isSpace, source, islands);
    } else {
      LastToken(isSpace, source, islands, tokens);
      var earlier, last := tokens[..|tokens| - 1], tokens[|tokens| - 1];
      PiecesSpell(isSpace, source, islands, earlier);
      TokenSpells(isSpace, source, islands, AfterAll(source, islands, earlier), last);
    }
  }

  lemma NothingSpelled(isSpace: char -> bool, source: string, islands: seq<Range>)
    ensures Spelled(isSpace, source, islands, Progress([], 0), 0)
  {
    assert source[..0] == "" && Concat([]) == "";
  }

  /** Formatting changes nothing but white space: for tokens that lie end to end
      over the whole source, with islands over whole tokens, the formatted text
      and the source are the same once their white space is dropped. */
  lemma FormattingKeepsContent(isSpace: char -> bool, source: string, islands: seq<Range>, tokens: seq<Token>,
                               text: string, gaps: seq<string>, shown: seq<string>, gap: string)
    requires Lexed(isSpace, source, islands, tokens)
    requires |gaps| == |shown| && Lays(text, gaps, shown, gap) && Cuts(AfterAll(source, islands, tokens).pieces, shown)
    ensures Stripped(isSpace, text) == Stripped(isSpace, source)
  {
    hide AfterAll, Concat, Stripped, Woven;
    var p := AfterAll(source, islands, tokens);
    PiecesSpell(isSpace, source, islands, tokens);
    StrippedWoven(isSpace, gaps, p.pieces, shown);
    StrippedBlank(isSpace, gap);
    StrippedAppend(isSpace, Woven(gaps, shown), gap);
    assert source[..|source|] == source;
  }
}
