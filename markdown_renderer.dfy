/**
 * `renderMarkdown` of the lesson story renderer: the story text is split into lines and
 * each line is classified on its own, except that a line whose trimmed form starts with
 * three backticks toggles a code-block mode in which lines are collected verbatim.
 */
module MarkdownRenderer {
  import opened Wrappers
  import opened Text
  import opened InlineMarkdown

  /** One rendered element; the inline content of each is what `processInlineMarkdown` made of it. */
  datatype Block =
    | CodeBlock(code: string)
    | Heading(level: nat, content: Inline)
    | ListItem(content: Inline)
    | EmojiItem(emoji: string, bold: string, rest: Inline)
    | Paragraph(content: Inline)
    | LineBreak

  const Fence: string := "```"
  const LineSeparator: char := '\n'

  /** A line that opens or closes a code block. */
  predicate IsFence(line: string)
  {
    StartsWith(Trim(line), Fence)
  }

  /** The text of a header line, `line.replace(/^#\s+/, '').trim()` for the marker `#`:
      the marker and the whitespace after it go only when the marker starts at column 0;
      removing that whitespace and then trimming is trimming what follows the marker. */
  function HeaderText(line: string, marker: string): string
  {
    if StartsWith(line, marker) && |line| > |marker| && IsWhitespace(line[|marker|]) then
      Trim(line[|marker|..])
    else
      Trim(line)
  }

  /** `line.substring(line.indexOf('- ') + 2)`; when there is no `- ` the index is -1 and
      the substring starts at 1. */
  function ListText(line: string): (r: string)
    ensures |r| <= |line| && r == line[|line| - |r|..]
  {
    match IndexOfFrom(line, "- ", 0)
    case Some(k) => line[k + 2..]
    case None => if |line| >= 1 then line[1..] else ""
  }

  /** `line.split('**')` when it has at least three pieces: the trimmed first piece, the
      second piece, and the remaining pieces joined again with `**`. */
  function EmojiParts(line: string): Option<(string, string, string)>
  {
    var parts := SplitOn(line, BoldMarker);
    if |parts| >= 3 then Some((Trim(parts[0]), parts[1], Join(parts[2..], BoldMarker)))
    else None
  }

  /** The pieces sit around the first two `**` of the line: there are parts exactly when a
      second `**` follows the first, and then they are the trimmed text before the first,
      the text between the two, and everything after the second (later `**` included). */
  lemma EmojiPartsAtMarkers(line: string)
    ensures match IndexOfFrom(line, BoldMarker, 0)
      case None => EmojiParts(line).None?
      case Some(p) =>
        match IndexOfFrom(line, BoldMarker, p + 2)
        case None => EmojiParts(line).None?
        case Some(q) => EmojiParts(line) == Some((Trim(line[..p]), line[p + 2..q], line[q + 2..]))
  {
    match IndexOfFrom(line, BoldMarker, 0)
    case None =>
      EmojiPartsOnePiece(line);
    case Some(p) =>
      match IndexOfFrom(line, BoldMarker, p + 2)
      case None =>
        EmojiPartsTwoPieces(line, p);
      case Some(q) =>
        EmojiPartsFound(line, p, q);
  }

  lemma EmojiPartsOnePiece(line: string)
    requires IndexOfFrom(line, BoldMarker, 0).None?
    ensures |SplitOn(line, BoldMarker)| == 1 && EmojiParts(line).None?
  {
  }

  lemma EmojiPartsTwoPieces(line: string, p: nat)
    requires IndexOfFrom(line, BoldMarker, 0) == Some(p)
    requires IndexOfFrom(line, BoldMarker, p + 2).None?
    ensures |SplitOn(line, BoldMarker)| == 2 && EmojiParts(line).None?
  {
    assert SplitFrom(line, BoldMarker, p + 2) == [line[p + 2..]];
  }

  lemma EmojiPartsFound(line: string, p: nat, q: nat)
    requires IndexOfFrom(line, BoldMarker, 0) == Some(p)
    requires IndexOfFrom(line, BoldMarker, p + 2) == Some(q)
    ensures EmojiParts(line) == Some((Trim(line[..p]), line[p + 2..q], line[q + 2..]))
  {
    SplitOnAtTwo(line, BoldMarker, p, q);
    EmojiPartsOfPieces(line, line[..p], line[p + 2..q], line[q + 2..]);
  }

  lemma EmojiPartsOfPieces(line: string, before: string, bold: string, rest: string)
    requires var parts := SplitOn(line, BoldMarker);
      |parts| >= 3 && parts[0] == before && parts[1] == bold && Join(parts[2..], BoldMarker) == rest
    ensures EmojiParts(line) == Some((Trim(before), bold, rest))
  {
  }

  /** What a line outside a code block is, with the text that inline processing then gets. */
  datatype Shape =
    | HeadingLine(level: nat, text: string)
    | ListLine(text: string)
    | EmojiLine(emoji: string, bold: string, rest: string)
    | ParagraphLine(text: string)
    | BlankLine

  /** The `if` chain of the loop body for a line that is not a fence. `emojiItem` stands
      for the emoji-list regular expression applied to the trimmed line. */
  function LineShape(line: string, emojiItem: string -> bool): Shape
  {
    var t := Trim(line);
    if StartsWith(t, "### ") then HeadingLine(3, HeaderText(line, "###"))
    else if StartsWith(t, "## ") then HeadingLine(2, HeaderText(line, "##"))
    else if StartsWith(t, "# ") then HeadingLine(1, HeaderText(line, "#"))
    else if StartsWith(t, "- ") then ListLine(ListText(line))
    else if emojiItem(t) && EmojiParts(line).Some? then
      var (emoji, bold, rest) := EmojiParts(line).value;
      EmojiLine(emoji, bold, rest)
    else if t != [] then ParagraphLine(line)
    else BlankLine
  }

  /** The shape follows the marker the trimmed line starts with: the three header markers
      exclude one another, so `### ` wins over `## ` and `# `, and a list marker, an emoji
      item or a paragraph is only considered when no header marker is present. */
  lemma ShapeFollowsMarker(line: string, emojiItem: string -> bool)
    ensures var s := LineShape(line, emojiItem); var t := Trim(line);
      (s.HeadingLine? <==> StartsWith(t, "# ") || StartsWith(t, "## ") || StartsWith(t, "### "))
      && (s.ListLine? <==> StartsWith(t, "- "))
      && (s.EmojiLine? ==> emojiItem(t))
  {
    MarkersExclusive(Trim(line));
  }

  /** The heading level is the length of the marker the trimmed line starts with. */
  lemma LevelFollowsMarker(line: string, emojiItem: string -> bool)
    requires LineShape(line, emojiItem).HeadingLine?
    ensures var level := LineShape(line, emojiItem).level; var t := Trim(line);
      (level == 3 <==> StartsWith(t, "### "))
      && (level == 2 <==> StartsWith(t, "## "))
      && (level == 1 <==> StartsWith(t, "# "))
  {
    MarkersExclusive(Trim(line));
  }

  /** No header or list marker starts the trimmed line. */
  predicate Unmarked(t: string)
  {
    !StartsWith(t, "# ") && !StartsWith(t, "## ") && !StartsWith(t, "### ") && !StartsWith(t, "- ")
  }

  /** An unmarked line is an emoji item exactly when the emoji test accepts it and
      `split('**')` gives at least three pieces; the item then holds the trimmed first
      piece, the second piece and the rest joined again with `**`. */
  lemma EmojiShape(line: string, emojiItem: string -> bool)
    ensures var s := LineShape(line, emojiItem); var parts := SplitOn(line, BoldMarker);
      (s.EmojiLine? <==> Unmarked(Trim(line)) && emojiItem(Trim(line)) && |parts| >= 3)
      && (s.EmojiLine? ==> s == EmojiLine(Trim(parts[0]), parts[1], Join(parts[2..], BoldMarker)))
  {
    ShapeOfEmojiParts(line, emojiItem);
  }

  /** The emoji and paragraph branches of `LineShape`, stated over `EmojiParts`. */
  lemma ShapeOfEmojiParts(line: string, emojiItem: string -> bool)
    ensures var s := LineShape(line, emojiItem); var t := Trim(line);
      (s.EmojiLine? <==> Unmarked(t) && emojiItem(t) && EmojiParts(line).Some?)
      && (s.EmojiLine? ==> EmojiParts(line) == Some((s.emoji, s.bold, s.rest)))
      && (s.ParagraphLine? <==> Unmarked(t) && !(emojiItem(t) && EmojiParts(line).Some?) && t != [])
      && (s.ParagraphLine? ==> s.text == line)
  {
    MarkersExclusive(Trim(line));
  }

  /** An unmarked, non-blank line that is not an emoji item (the emoji test rejects it, or
      it has fewer than three `**` pieces) is a paragraph of the whole line. */
  lemma ParagraphShape(line: string, emojiItem: string -> bool)
    ensures var s := LineShape(line, emojiItem); var t := Trim(line);
      (s.ParagraphLine? <==>
         Unmarked(t) && !(emojiItem(t) && |SplitOn(line, BoldMarker)| >= 3) && t != [])
      && (s.ParagraphLine? ==> s.text == line)
  {
    ShapeOfEmojiParts(line, emojiItem);
  }

  /** No two of the line markers can start the same text. */
  lemma MarkersExclusive(t: string)
    ensures StartsWith(t, "### ") ==> !StartsWith(t, "## ") && !StartsWith(t, "# ") && !StartsWith(t, "- ")
    ensures StartsWith(t, "## ") ==> !StartsWith(t, "# ") && !StartsWith(t, "- ")
    ensures StartsWith(t, "# ") ==> !StartsWith(t, "- ")
  {
    if StartsWith(t, "### ") {
      assert t[1] == '#' && t[2] == '#';
    } else if StartsWith(t, "## ") {
      assert t[1] == '#';
    }
  }

  /** The element for a shape: every text except the emoji item's bold part goes through
      inline processing. */
  function Build(shape: Shape): Block
  {
    match shape
    case HeadingLine(level, text) => Heading(level, InlineOf(text))
    case ListLine(text) => ListItem(InlineOf(text))
    case EmojiLine(emoji, bold, rest) => EmojiItem(emoji, bold, InlineOf(rest))
    case ParagraphLine(text) => Paragraph(InlineOf(text))
    case BlankLine => LineBreak
  }

  function ClassifyLine(line: string, emojiItem: string -> bool): Block
  {
    Build(LineShape(line, emojiItem))
  }

  /** The renderer's loop state: the elements emitted, whether a code block is open, and
      the lines collected for it. */
  datatype RenderState = RenderState(blocks: seq<Block>, inCode: bool, pending: seq<string>)

  const Start: RenderState := RenderState([], false, [])

  /** How the loop treats one line: whether it is a fence, and its element otherwise. */
  datatype Rules = Rules(isFence: string -> bool, classify: string -> Block)

  /** One turn of the loop. */
  function Step(st: RenderState, line: string, rules: Rules): RenderState
  {
    if rules.isFence(line) then
      if st.inCode then RenderState(st.blocks + [CodeBlock(Join(st.pending, [LineSeparator]))], false, [])
      else st.(inCode := true)
    else if st.inCode then st.(pending := st.pending + [line])
    else st.(blocks := st.blocks + [rules.classify(line)])
  }

  /** The loop state after the given lines. */
  function Run(lines: seq<string>, rules: Rules): RenderState
    decreases |lines|
  {
    if lines == [] then Start
    else Step(Run(lines[..|lines| - 1], rules), lines[|lines| - 1], rules)
  }

  /** The rules of the renderer. */
  function Renderer(emojiItem: string -> bool): (rules: Rules)
    ensures forall line :: rules.isFence(line) == IsFence(line)
    ensures forall line :: rules.classify(line) == ClassifyLine(line, emojiItem)
  {
    Rules(IsFence, line => ClassifyLine(line, emojiItem))
  }

  /** `renderMarkdown(text)`: what is still collected for an unclosed code block is not emitted. */
  function Rendered(text: string, emojiItem: string -> bool): seq<Block>
  {
    Run(Split(text, LineSeparator), Renderer(emojiItem)).blocks
  }

  lemma RunSnoc(lines: seq<string>, line: string, rules: Rules)
    ensures Run(lines + [line], rules) == Step(Run(lines, rules), line, rules)
  {
    assert (lines + [line])[..|lines|] == lines;
  }

  /** The state after one more line of the same text is one more step. */
  lemma RunPrefix(lines: seq<string>, i: nat, rules: Rules)
    requires i < |lines|
    ensures Run(lines[..i + 1], rules) == Step(Run(lines[..i], rules), lines[i], rules)
  {
    TakeOneMore(lines, i);
    RunSnoc(lines[..i], lines[i], rules);
  }

  /** Lines are collected only inside a code block. */
  lemma {:induction false} PendingOnlyInCode(lines: seq<string>, rules: Rules)
    ensures !Run(lines, rules).inCode ==> Run(lines, rules).pending == []
    decreases |lines|
  {
    if lines != [] {
      PendingOnlyInCode(lines[..|lines| - 1], rules);
    }
  }

  /** The output only grows: later lines never change what earlier lines emitted. */
  lemma {:induction false} OutputOnlyGrows(lines: seq<string>, more: seq<string>, rules: Rules)
    ensures Run(lines, rules).blocks <= Run(lines + more, rules).blocks
    decreases |more|
  {
    if more == [] {
      assert lines + more == lines;
    } else {
      var init := more[..|more| - 1];
      OutputOnlyGrows(lines, init, rules);
      assert lines + more == (lines + init) + [more[|more| - 1]];
      RunSnoc(lines + init, more[|more| - 1], rules);
    }
  }

  /** `blocks` is `earlier` followed by the classification of each line, in order. */
  predicate ClassifiedAfter(blocks: seq<Block>, earlier: seq<Block>, lines: seq<string>,
                            classify: string -> Block)
  {
    |blocks| == |earlier| + |lines| && blocks[..|earlier|] == earlier
    && forall k :: 0 <= k < |lines| ==> blocks[|earlier| + k] == classify(lines[k])
  }

  /** Outside code blocks every line yields exactly one element: after any prefix that
      leaves no code block open (a closed block included), fence-free lines each append
      their own classification, in order, and leave no block open. */
  lemma {:induction false} OneBlockPerLine(pre: seq<string>, lines: seq<string>, rules: Rules)
    requires !Run(pre, rules).inCode
    requires forall l <- lines :: !rules.isFence(l)
    ensures !Run(pre + lines, rules).inCode && Run(pre + lines, rules).pending == []
    ensures ClassifiedAfter(Run(pre + lines, rules).blocks, Run(pre, rules).blocks, lines, rules.classify)
    decreases |lines|
  {
    if lines == [] {
      assert pre + lines == pre;
      PendingOnlyInCode(pre, rules);
    } else {
      var init, last := lines[..|lines| - 1], lines[|lines| - 1];
      assert lines == init + [last];
      assert forall l <- init :: l in lines;
      OneBlockPerLine(pre, init, rules);
      assert pre + lines == (pre + init) + [last] by {
        assert pre + (init + [last]) == (pre + init) + [last];
      }
      RunSnoc(pre + init, last, rules);
      var mid := Run(pre + init, rules);
      assert !rules.isFence(last) && !mid.inCode;
      assert Run(pre + lines, rules).blocks == mid.blocks + [rules.classify(last)];
      AppendClassified(Run(pre, rules).blocks, mid.blocks, init, last, rules.classify);
    }
  }

  /** Appending the classification of one more line keeps the output "earlier blocks, then
      one classification per line". */
  lemma AppendClassified(b: seq<Block>, mid: seq<Block>, init: seq<string>, last: string,
                         classify: string -> Block)
    requires ClassifiedAfter(mid, b, init, classify)
    ensures ClassifiedAfter(mid + [classify(last)], b, init + [last], classify)
  {
    var after, lines := mid + [classify(last)], init + [last];
    assert after[..|b|] == mid[..|b|];
    forall k | 0 <= k < |lines|
      ensures after[|b| + k] == classify(lines[k])
    {
      if k < |init| {
        assert lines[k] == init[k];
      }
    }
  }

  /** After an opening fence, fence-free lines are collected and nothing is emitted. */
  lemma {:induction false} CollectsInsideFence(pre: seq<string>, open: string, body: seq<string>,
                                               rules: Rules)
    requires !Run(pre, rules).inCode && rules.isFence(open)
    requires forall l <- body :: !rules.isFence(l)
    ensures Run(pre + [open] + body, rules) == RenderState(Run(pre, rules).blocks, true, body)
    decreases |body|
  {
    if body == [] {
      assert pre + [open] + body == pre + [open];
      RunSnoc(pre, open, rules);
      PendingOnlyInCode(pre, rules);
    } else {
      var init := body[..|body| - 1];
      assert forall l <- init :: l in body;
      CollectsInsideFence(pre, open, init, rules);
      assert pre + [open] + body == (pre + [open] + init) + [body[|body| - 1]];
      RunSnoc(pre + [open] + init, body[|body| - 1], rules);
      assert init + [body[|body| - 1]] == body;
    }
  }

  /** Lines between a matched pair of fences come out verbatim as one code block, joined
      by newlines; neither fence is emitted itself. */
  lemma FencedLinesFormOneBlock(pre: seq<string>, open: string, body: seq<string>, close: string,
                                rules: Rules)
    requires !Run(pre, rules).inCode && rules.isFence(open) && rules.isFence(close)
    requires forall l <- body :: !rules.isFence(l)
    ensures Run(pre + [open] + body + [close], rules)
         == RenderState(Run(pre, rules).blocks + [CodeBlock(Join(body, "\n"))], false, [])
  {
    CollectsInsideFence(pre, open, body, rules);
    RunSnoc(pre + [open] + body, close, rules);
  }

  /** An unterminated code fence loses every line after it: nothing is flushed at the end. */
  lemma UnterminatedFenceIsDropped(pre: seq<string>, open: string, body: seq<string>,
                                   rules: Rules)
    requires !Run(pre, rules).inCode && rules.isFence(open)
    requires forall l <- body :: !rules.isFence(l)
    ensures Run(pre + [open] + body, rules).blocks == Run(pre, rules).blocks
  {
    CollectsInsideFence(pre, open, body, rules);
  }

  /** A whitespace-only line, and only such a line, becomes a line break. */
  lemma BlankLineIsBreak(line: string, emojiItem: string -> bool)
    ensures LineShape(line, emojiItem) == BlankLine <==> AllWhitespace(line)
  {
    TrimEmptyIffBlank(line);
    if AllWhitespace(line) {
      BlankHasNoBold(line);
    }
  }

  lemma BlankHasNoBold(line: string)
    requires AllWhitespace(line)
    ensures IndexOfFrom(line, BoldMarker, 0).None?
  {
    var first := IndexOfFrom(line, BoldMarker, 0);
    if first.Some? {
      WhitespaceAt(line, first.value);
      BoldMarkerChars(line, first.value);
    }
  }

  /** A header marker is stripped only at column 0: an indented `## ` line keeps its marker
      in the header text. */
  lemma IndentedHeaderKeepsMarker(line: string, emojiItem: string -> bool)
    requires |line| > 0 && IsWhitespace(line[0])
    requires StartsWith(Trim(line), "## ") && !StartsWith(Trim(line), "### ")
    ensures LineShape(line, emojiItem) == HeadingLine(2, Trim(line))
    ensures StartsWith(HeaderText(line, "##"), "## ")
  {
    IndentedHeaderText(line);
  }

  lemma IndentedHeaderText(line: string)
    requires |line| > 0 && IsWhitespace(line[0])
    ensures HeaderText(line, "##") == Trim(line)
  {
    assert line[0] != '#';
    if |line| >= 2 {
      assert line[..2][0] == line[0];
    }
  }

  /** A header marker at column 0 is removed together with the whitespace after it; a
      marker followed by nothing but whitespace is not a header at all. */
  lemma HeaderAtColumnZero(line: string, emojiItem: string -> bool)
    requires StartsWith(line, "## ") && !AllWhitespace(line[3..])
    ensures LineShape(line, emojiItem) == HeadingLine(2, Trim(line[3..]))
  {
    LevelTwoAtColumnZero(line);
  }

  lemma LevelTwoAtColumnZero(line: string)
    requires StartsWith(line, "## ") && !AllWhitespace(line[3..])
    ensures StartsWith(Trim(line), "## ") && !StartsWith(Trim(line), "### ")
    ensures HeaderText(line, "##") == Trim(line[3..])
  {
    var k := NonBlankAt(line[3..]);
    assert line[3..][k] == line[3 + k];
    MarkerSurvivesTrim(line, 3 + k);
    HeaderTextAfterMarker(line);
  }

  lemma HeaderTextAfterMarker(line: string)
    requires StartsWith(line, "## ")
    ensures HeaderText(line, "##") == Trim(line[3..])
  {
    assert line[..2] == line[..3][..2];
    assert line[2] == line[..3][2];
    assert HeaderText(line, "##") == Trim(line[2..]);
    TrimDropsBlank(line[2..]);
    assert line[2..][1..] == line[3..];
  }

  lemma MarkerSurvivesTrim(line: string, k: nat)
    requires 3 <= k < |line| && line[..3] == "## " && !IsWhitespace(line[k])
    ensures StartsWith(Trim(line), "## ") && !StartsWith(Trim(line), "### ")
  {
    TrimKeepsUpTo(line, k);
    var t := Trim(line);
    SharedPrefix(line, t, 3);
    assert t[2] == ' ' by {
      assert t[..3][2] == t[2];
    }
    if |t| >= 4 {
      assert t[..4][2] == t[2];
    }
  }

  /** List-item text is everything after the first `- `, which is where the trimmed line starts. */
  lemma ListTextAfterMarker(line: string)
    requires StartsWith(Trim(line), "- ")
    ensures ListText(line) == TrimStart(line)[2..]
  {
    var front := TrimStart(line);
    var p := |line| - |front|;
    TrimStartsWith(line, "- ");
    assert OccursAt(line, "- ", p) by {
      assert line[p..p + 2] == front[..2];
    }
    forall j: nat | j < p
      ensures !OccursAt(line, "- ", j)
    {
      assert IsWhitespace(line[..p][j]) by {
        TrimStartDropsWhitespace(line);
        assert line[..p][j] in line[..p];
      }
      assert line[..p][j] == line[j];
    }
    FirstOccurrence(line, "- ", 0, p);
  }

  /**
   * The element for one line outside a code block, as the loop body computes it:
   * `processInlineMarkdown` applied to the text the `if` chain picked.
   */
  method BuildBlock(shape: Shape) returns (block: Block)
    ensures block == Build(shape)
  {
    match shape {
      case HeadingLine(level, text) =>
        var content := ProcessInlineMarkdown(text);
        block := Heading(level, content);
      case ListLine(text) =>
        var content := ProcessInlineMarkdown(text);
        block := ListItem(content);
      case EmojiLine(emoji, bold, rest) =>
        var content := ProcessInlineMarkdown(rest);
        block := EmojiItem(emoji, bold, content);
      case ParagraphLine(text) =>
        var content := ProcessInlineMarkdown(text);
        block := Paragraph(content);
      case BlankLine =>
        block := LineBreak;
    }
  }

  /**
   * One turn of the `renderMarkdown` loop: a fence closes or opens a code block, a line
   * inside a code block is collected, any other line is rendered.
   */
  method RenderStep(line: string, emojiItem: string -> bool, blocks: seq<Block>, inCode: bool,
                    pending: seq<string>)
    returns (blocks': seq<Block>, inCode': bool, pending': seq<string>)
    ensures RenderState(blocks', inCode', pending')
         == Step(RenderState(blocks, inCode, pending), line, Renderer(emojiItem))
  {
    blocks', inCode', pending' := blocks, inCode, pending;
    if IsFence(line) {
      if inCode {
        blocks' := blocks + [CodeBlock(Join(pending, [LineSeparator]))];
        pending' := [];
        inCode' := false;
      } else {
        inCode' := true;
      }
    } else if inCode {
      pending' := pending + [line];
    } else {
      var block := BuildBlock(LineShape(line, emojiItem));
      blocks' := blocks + [block];
    }
  }

  /**
   * `renderMarkdown`: a `for` loop over the lines that keeps `inCodeBlock` and
   * `codeBlockContent` and appends to the result.
   */
  method RenderMarkdown(text: string, emojiItem: string -> bool) returns (result: seq<Block>)
    ensures result == Rendered(text, emojiItem)
  {
    var lines := Split(text, LineSeparator);
    result := RenderLines(lines, emojiItem);
  }

  /** The loop of `renderMarkdown` over the lines of the text. */
  method RenderLines(lines: seq<string>, emojiItem: string -> bool) returns (result: seq<Block>)
    ensures result == Run(lines, Renderer(emojiItem)).blocks
  {
    result := [];
    var inCodeBlock := false;
    var codeBlockContent: seq<string> := [];
    ghost var rules := Renderer(emojiItem);
    for i := 0 to |lines|
      invariant RenderState(result, inCodeBlock, codeBlockContent) == Run(lines[..i], rules)
    {
      RunPrefix(lines, i, rules);
      result, inCodeBlock, codeBlockContent := RenderStep(lines[i], emojiItem, result, inCodeBlock, codeBlockContent);
    }
    assert lines[..|lines|] == lines;
  }
}
