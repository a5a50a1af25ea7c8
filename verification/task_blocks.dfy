/** The LLM Task Constructor's blocks and the serialiser that turns a list of
    blocks into tagged prompt text, in "HASHTAG" or "TAG" style. */
module TaskBlocks {
  import opened Results
  import opened Text

  datatype FormatType = Hashtag | Tag

  /** A block of the prompt. The optional fields are `undefined` until set:
      an unset `isCollapsed` reads as false, an unset `formatType` defers to
      the global format, and an unset or empty `tooltip` prints nothing. */
  datatype Block = Block(
    id: string,
    blockType: string,
    content: string,
    isCollapsed: Option<bool>,
    formatType: Option<FormatType>,
    tooltip: Option<string>)

  /** `createBlock`; the random id is supplied by the caller. */
  function CreateBlock(id: string, blockType: string, tooltip: Option<string>): (b: Block)
    ensures b.id == id && b.blockType == blockType && b.tooltip == tooltip
    ensures b.content == "" && b.isCollapsed == Some(false) && b.formatType == None
  {
    Block(id, blockType, "", Some(false), None, tooltip)
  }

  /** The built-in block types, in their initial sidebar order. */
  const BlockTypes: seq<string> := [
    "CONTENT", "DOCS", "CODE", "QUESTION", "TASK", "EXAMPLE",
    "NOTE", "WARNING", "TIP", "LOG", "REFERENCE"
  ]

  lemma BlockTypesDistinct()
    ensures |BlockTypes| == 11
    ensures forall i, j :: 0 <= i < j < |BlockTypes| ==> BlockTypes[i] != BlockTypes[j]
  {
  }

  /** Membership in the built-in list, spelled out. */
  lemma InBlockTypes(t: string)
    ensures t in BlockTypes <==>
              || t == "CONTENT" || t == "DOCS" || t == "CODE" || t == "QUESTION"
              || t == "TASK" || t == "EXAMPLE" || t == "NOTE" || t == "WARNING"
              || t == "TIP" || t == "LOG" || t == "REFERENCE"
  {
    if t in BlockTypes {
      var i :| 0 <= i < |BlockTypes| && BlockTypes[i] == t;
    }
  }

  const CustomDescription: string := "Custom block type"

  /** `getBlockDescription`: a fixed sentence per built-in type, and the
      generic one for anything else. */
  function BlockDescription(blockType: string): (r: string)
    ensures r == CustomDescription <==> blockType !in BlockTypes
  {
    InBlockTypes(blockType);
    match blockType
    case "CONTENT" => "General content or information"
    case "DOCS" => "Documentation or instructional material"
    case "CODE" => "Code snippets or programming examples"
    case "QUESTION" => "Questions or inquiries that need answers"
    case "TASK" => "Action items or tasks to be completed"
    case "EXAMPLE" => "Examples or demonstrations of concepts"
    case "NOTE" => "Important notes or things to remember"
    case "WARNING" => "Warnings or cautionary information"
    case "TIP" => "Helpful tips or suggestions"
    case "LOG" => "Logs or records of events/changes"
    case "REFERENCE" => "References or links to external resources"
    case _ => CustomDescription
  }

  /** The format a block is printed in: its own when set, else the global one. */
  function EffectiveFormat(b: Block, global: FormatType): (f: FormatType)
    ensures b.formatType.Some? ==> f == b.formatType.value
    ensures b.formatType.None? ==> f == global
  {
    match b.formatType
    case Some(own) => own
    case None => global
  }

  /** The tooltip marker: the tooltip between "--" and "--" when it is a
      non-empty string, nothing when it is unset or empty. */
  function TipText(b: Block): (r: string)
    ensures r == "" <==> b.tooltip.None? || b.tooltip.value == ""
    ensures r != "" ==> r == "--" + b.tooltip.value + "--"
  {
    match b.tooltip
    case Some(t) => if t == "" then "" else "--" + t + "--"
    case None => ""
  }

  /** The line that opens a block (with its trailing newline). */
  function Opening(f: FormatType, blockType: string, tip: string): string {
    match f
    case Hashtag => "###### [!" + blockType + "] ######" + tip + "\n"
    case Tag => "[!" + blockType + "]" + tip + "\n"
  }

  /** The newline after the content and the line that closes a block. */
  function Closing(f: FormatType, blockType: string): string {
    match f
    case Hashtag => "\n###### [/!" + blockType + "] ######\n"
    case Tag => "\n[/!" + blockType + "]\n"
  }

  /** `formatBlockContent`: nothing for a blank block; otherwise the opening
      line, the content copied verbatim (not trimmed), and the closing line,
      in the block's effective format. */
  function FormatBlock(b: Block, global: FormatType): (r: string)
    ensures r == "" <==> IsBlank(b.content)
    ensures !IsBlank(b.content) ==>
              var open := Opening(EffectiveFormat(b, global), b.blockType, TipText(b));
              var close := Closing(EffectiveFormat(b, global), b.blockType);
              && |r| == |open| + |b.content| + |close|
              && r[..|open|] == open
              && r[|open|..|open| + |b.content|] == b.content
              && r[|open| + |b.content|..] == close
  {
    TrimEmptyIffBlank(b.content);
    if Trim(b.content) == "" then ""
    else
      var open := Opening(EffectiveFormat(b, global), b.blockType, TipText(b));
      var close := Closing(EffectiveFormat(b, global), b.blockType);
      ThreeParts(open, b.content, close);
      open + b.content + close
  }

  /** The three parts of a concatenation can be cut back out of it. */
  lemma ThreeParts(a: string, b: string, c: string)
    ensures var r := a + b + c;
            && |r| == |a| + |b| + |c|
            && r[..|a|] == a && r[|a|..|a| + |b|] == b && r[|a| + |b|..] == c
  {
  }

  /** The exact HASHTAG text. */
  lemma HashtagText(b: Block, global: FormatType)
    requires !IsBlank(b.content) && EffectiveFormat(b, global) == Hashtag
    ensures FormatBlock(b, global)
            == ("###### [!" + b.blockType + "] ######" + TipText(b) + "\n") + b.content
               + ("\n###### [/!" + b.blockType + "] ######\n")
  {
    TrimEmptyIffBlank(b.content);
    assert Trim(b.content) != "";
  }

  /** The exact TAG text. */
  lemma TagText(b: Block, global: FormatType)
    requires !IsBlank(b.content) && EffectiveFormat(b, global) == Tag
    ensures FormatBlock(b, global)
            == ("[!" + b.blockType + "]" + TipText(b) + "\n") + b.content + ("\n[/!" + b.blockType + "]\n")
  {
    TrimEmptyIffBlank(b.content);
    assert Trim(b.content) != "";
  }

  /** A block with its own format prints the same whatever the global
      format; a block without one prints as if the global format were its own. */
  lemma FormatPrecedence(b: Block, g1: FormatType, g2: FormatType)
    ensures b.formatType.Some? ==> FormatBlock(b, g1) == FormatBlock(b, g2)
    ensures b.formatType.None? ==> FormatBlock(b, g1) == FormatBlock(b.(formatType := Some(g1)), g2)
  {
    var own := b.(formatType := Some(g1));
    assert TipText(own) == TipText(b);
    if b.formatType.Some? {
      assert EffectiveFormat(b, g1) == EffectiveFormat(b, g2);
    } else {
      assert EffectiveFormat(b, g1) == EffectiveFormat(own, g2);
    }
  }

  /** The content can be read back from a printed block by cutting off its
      opening and closing lines. */
  function Unwrap(text: string, f: FormatType, blockType: string, tip: string): (r: Option<string>)
    ensures r.Some? ==> Opening(f, blockType, tip) + r.value + Closing(f, blockType) == text
  {
    var open := Opening(f, blockType, tip);
    var close := Closing(f, blockType);
    if |open| + |close| <= |text| && text[..|open|] == open && text[|text| - |close|..] == close then
      var r := text[|open|..|text| - |close|];
      assert text == text[..|open|] + r + text[|text| - |close|..];
      Some(r)
    else None
  }

  lemma UnwrapFormatBlock(b: Block, global: FormatType)
    requires !IsBlank(b.content)
    ensures Unwrap(FormatBlock(b, global), EffectiveFormat(b, global), b.blockType, TipText(b)) == Some(b.content)
  {
  }

  /** A freshly created block prints as nothing. */
  lemma NewBlockPrintsNothing(id: string, blockType: string, tooltip: Option<string>, global: FormatType)
    ensures FormatBlock(CreateBlock(id, blockType, tooltip), global) == ""
  {
  }

  // ---------------------------------------------------------------------
  // The whole prompt

  /** `parts.join(sep)`. */
  function Join(parts: seq<string>, sep: string): string
  {
    if |parts| == 0 then ""
    else if |parts| == 1 then parts[0]
    else parts[0] + sep + Join(parts[1..], sep)
  }

  function TotalLength(parts: seq<string>): nat
  {
    if parts == [] then 0 else |parts[0]| + TotalLength(parts[1..])
  }

  function Formatted(blocks: seq<Block>, global: FormatType): (r: seq<string>)
    ensures |r| == |blocks|
    ensures forall i :: 0 <= i < |r| ==> r[i] == FormatBlock(blocks[i], global)
  {
    seq(|blocks|, i requires 0 <= i < |blocks| => FormatBlock(blocks[i], global))
  }

  /** `generateOutput`: the printed blocks joined by newlines, in block
      order. A blank block still takes its slot, so n blocks always give
      n - 1 separators. */
  function GenerateOutput(blocks: seq<Block>, global: FormatType): (r: string)
    ensures blocks == [] ==> r == ""
    ensures |blocks| == 1 ==> r == FormatBlock(blocks[0], global)
    ensures blocks != [] ==> |r| == TotalLength(Formatted(blocks, global)) + |blocks| - 1
  {
    var parts := Formatted(blocks, global);
    JoinLength(parts, "\n");
    Join(parts, "\n")
  }

  lemma {:induction false} JoinLength(parts: seq<string>, sep: string)
    ensures parts != [] ==> |Join(parts, sep)| == TotalLength(parts) + (|parts| - 1) * |sep|
  {
    if |parts| > 1 {
      JoinLength(parts[1..], sep);
    }
  }

  /** Joining splits at any boundary between parts. */
  lemma {:induction false} JoinAppend(a: seq<string>, b: seq<string>, sep: string)
    requires a != [] && b != []
    ensures Join(a + b, sep) == Join(a, sep) + sep + Join(b, sep)
  {
    if |a| == 1 {
      assert (a + b)[1..] == b;
    } else {
      assert (a + b)[1..] == a[1..] + b;
      JoinAppend(a[1..], b, sep);
    }
  }

  lemma FormattedAppend(a: seq<Block>, b: seq<Block>, global: FormatType)
    ensures Formatted(a + b, global) == Formatted(a, global) + Formatted(b, global)
  {
    var fa, fb, fab := Formatted(a, global), Formatted(b, global), Formatted(a + b, global);
    assert |fab| == |fa + fb|;
    forall i | 0 <= i < |fab| ensures fab[i] == (fa + fb)[i] {
      if i < |a| {
        assert (a + b)[i] == a[i];
        assert (fa + fb)[i] == fa[i];
      } else {
        assert (a + b)[i] == b[i - |a|];
        assert (fa + fb)[i] == fb[i - |a|];
      }
    }
  }

  /** The output of two lists of blocks is the two outputs with one newline
      between them. */
  lemma OutputAppend(a: seq<Block>, b: seq<Block>, global: FormatType)
    requires a != [] && b != []
    ensures GenerateOutput(a + b, global) == GenerateOutput(a, global) + "\n" + GenerateOutput(b, global)
  {
    FormattedAppend(a, b, global);
    JoinAppend(Formatted(a, global), Formatted(b, global), "\n");
  }

  function Newlines(n: nat): (r: string)
    ensures |r| == n && forall i :: 0 <= i < n ==> r[i] == '\n'
  {
    if n == 0 then "" else "\n" + Newlines(n - 1)
  }

  /** Joining empty parts leaves only the separators. */
  lemma {:induction false} JoinEmpties(parts: seq<string>)
    requires parts != []
    requires forall i :: 0 <= i < |parts| ==> parts[i] == ""
    ensures Join(parts, "\n") == Newlines(|parts| - 1)
  {
    if |parts| > 1 {
      JoinEmpties(parts[1..]);
      assert parts[0] == "";
    }
  }

  /** Blocks that are all blank print as their separators alone. */
  lemma BlankOutput(blocks: seq<Block>, global: FormatType)
    requires blocks != []
    requires forall i :: 0 <= i < |blocks| ==> IsBlank(blocks[i].content)
    ensures GenerateOutput(blocks, global) == Newlines(|blocks| - 1)
  {
    var parts := Formatted(blocks, global);
    forall i | 0 <= i < |parts| ensures parts[i] == "" {
      assert parts[i] == FormatBlock(blocks[i], global);
    }
    JoinEmpties(parts);
  }

  /** `parts.join(sep)` built the way `Array.prototype.join` builds it: one
      pass, a separator before every part but the first. */
  method JoinLoop(parts: seq<string>, sep: string) returns (out: string)
    ensures out == Join(parts, sep)
  {
    out := "";
    var i := 0;
    while i < |parts|
      invariant 0 <= i <= |parts|
      invariant out == Join(parts[..i], sep)
    {
      if i == 0 {
        out := parts[0];
        assert parts[..1] == [parts[0]];
      } else {
        out := out + sep + parts[i];
        assert parts[..i + 1] == parts[..i] + [parts[i]];
        JoinAppend(parts[..i], [parts[i]], sep);
      }
      i := i + 1;
    }
    assert parts[..i] == parts;
  }

  /** `generateOutput` as the source computes it: print every block, then
      join the printed texts. */
  method BuildOutput(blocks: seq<Block>, global: FormatType) returns (out: string)
    ensures out == GenerateOutput(blocks, global)
  {
    out := JoinLoop(Formatted(blocks, global), "\n");
  }
}
