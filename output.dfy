/**
 * `convertChatToMarkdown` (src/output.ts): a header, then one block per
 * bubble, each block a speaker heading, the selected code if any, the text if
 * any, and a horizontal rule.
 */
module Output {
  import opened Wrappers
  import opened Types
  import opened JsString

  const SELECTED_CODE := "**Selected Code:**\n\n"
  const FENCE := "```"
  const RULE := "---\n\n"
  const USER_HEADING := "### User\n\n"

  /** `tab.title || \`Chat ${tab.id}\``. */
  function HeadingTitle(tab: ChatTab): string {
    if tab.title != "" then tab.title else "Chat " + tab.id
  }

  function TitleLine(tab: ChatTab): string {
    "# " + HeadingTitle(tab) + "\n\n"
  }

  /** `localeString` stands for `new Date(timestamp).toLocaleString()`. */
  function CreatedLine(tab: ChatTab, localeString: string -> string): string {
    "_Created: " + localeString(tab.timestamp) + "_\n\n" + RULE
  }

  /** The two header lines. */
  function Header(tab: ChatTab, localeString: string -> string): string {
    TitleLine(tab) + CreatedLine(tab, localeString)
  }

  /** A template literal shows an absent model type as `undefined`. */
  function ModelLabel(modelType: Option<string>): string {
    modelType.GetOr("undefined")
  }

  function Speaker(b: ChatBubble): string {
    if b.kind.Ai? then "### AI (" + ModelLabel(b.modelType) + ")\n\n" else USER_HEADING
  }

  /** One selection, raw, in its own fence. */
  function Fenced(sel: Selection): string {
    FENCE + "\n" + sel.text + "\n" + FENCE + "\n\n"
  }

  /** The fences of `sels`, in order, as the inner `forEach` appends them. */
  function Fences(sels: seq<Selection>): string {
    ConcatMap(sels, Fenced)
  }

  function SelectedCode(b: ChatBubble): string {
    if |b.selections| > 0 then SELECTED_CODE + Fences(b.selections) else ""
  }

  function Body(b: ChatBubble): string {
    if b.text != "" then b.text + "\n\n" else ""
  }

  /** What one turn of the outer `forEach` appends: it opens with the speaker heading and closes with the rule. */
  function Block(b: ChatBubble): (r: string)
    ensures StartsWith(r, Speaker(b)) && EndsWith(r, RULE)
  {
    FourParts(Speaker(b), SelectedCode(b), Body(b), RULE);
    Speaker(b) + SelectedCode(b) + Body(b) + RULE
  }

  /** Four strings joined start with the first and end with the last. */
  lemma FourParts(a: string, b: string, c: string, d: string)
    ensures StartsWith(a + b + c + d, a) && EndsWith(a + b + c + d, d)
  {
    assert a + b + c + d == a + (b + c + d);
    assert a + b + c + d == (a + b + c) + d;
  }

  /** The blocks of `bubbles`, in order, as the outer `forEach` appends them. */
  function Blocks(bubbles: seq<ChatBubble>): string {
    ConcatMap(bubbles, Block)
  }

  function Markdown(tab: ChatTab, localeString: string -> string): string {
    Header(tab, localeString) + Blocks(tab.bubbles)
  }

  /** `convertChatToMarkdown`: the string built up by `+=` is the header followed by the blocks. */
  method ConvertChatToMarkdown(tab: ChatTab, localeString: string -> string) returns (markdown: string)
    ensures markdown == Markdown(tab, localeString)
  {
    markdown := TitleLine(tab);
    markdown := markdown + CreatedLine(tab, localeString);
    for i := 0 to |tab.bubbles|
      invariant markdown == Header(tab, localeString) + Blocks(tab.bubbles[..i])
    {
      var bubble := tab.bubbles[i];
      ghost var before := markdown;
      markdown := markdown + Speaker(bubble);
      ghost var headed := markdown;
      if |bubble.selections| > 0 {
        markdown := markdown + SELECTED_CODE;
        ghost var section := markdown;
        for j := 0 to |bubble.selections|
          invariant markdown == section + Fences(bubble.selections[..j])
        {
          ConcatMapSnoc(bubble.selections, j, Fenced);
          AppendAssoc(section, Fences(bubble.selections[..j]), Fenced(bubble.selections[j]));
          markdown := markdown + Fenced(bubble.selections[j]);
        }
        assert bubble.selections[..|bubble.selections|] == bubble.selections;
        AppendAssoc(headed, SELECTED_CODE, Fences(bubble.selections));
      }
      assert markdown == headed + SelectedCode(bubble);
      ghost var coded := markdown;
      if bubble.text != "" {
        markdown := markdown + bubble.text + "\n\n";
        AppendAssoc(coded, bubble.text, "\n\n");
      }
      assert markdown == coded + Body(bubble);
      markdown := markdown + RULE;
      AppendBlock(before, Speaker(bubble), SelectedCode(bubble), Body(bubble), RULE);
      ConcatMapSnoc(tab.bubbles, i, Block);
      AppendAssoc(Header(tab, localeString), Blocks(tab.bubbles[..i]), Block(bubble));
    }
    assert tab.bubbles[..|tab.bubbles|] == tab.bubbles;
  }

  /** Appending a block's four parts one by one appends the block. */
  lemma AppendBlock(before: string, speaker: string, code: string, body: string, rule: string)
    ensures before + speaker + code + body + rule == before + (speaker + code + body + rule)
  {
    AppendAssoc(before, speaker, code);
    AppendAssoc(before, speaker + code, body);
    AppendAssoc(before, speaker + code + body, rule);
  }

  // ---------------------------------------------------------------------------
  // Properties of the rendering

  /** Rendering a concatenation renders each part, in order. */
  lemma BlocksConcat(a: seq<ChatBubble>, b: seq<ChatBubble>)
    ensures Blocks(a + b) == Blocks(a) + Blocks(b)
  {
    ConcatMapConcat(a, b, Block);
  }

  /** Exactly one block per bubble: a single bubble renders as its block. */
  lemma BlocksSingle(b: ChatBubble)
    ensures Blocks([b]) == Block(b)
  {
    ConcatMapSingle(b, Block);
  }

  /** The transcript of `a + b` is the header, then the blocks of `a`, then those of `b`. */
  lemma MarkdownConcat(tab: ChatTab, localeString: string -> string, a: seq<ChatBubble>, b: seq<ChatBubble>)
    requires tab.bubbles == a + b
    ensures Markdown(tab, localeString) == Header(tab, localeString) + Blocks(a) + Blocks(b)
  {
    BlocksConcat(a, b);
    AppendAssoc(Header(tab, localeString), Blocks(a), Blocks(b));
  }

  /** Appending one bubble appends exactly its block. */
  lemma MarkdownAppend(tab: ChatTab, localeString: string -> string, b: ChatBubble)
    ensures Markdown(tab.(bubbles := tab.bubbles + [b]), localeString) == Markdown(tab, localeString) + Block(b)
  {
    BlocksConcat(tab.bubbles, [b]);
    BlocksSingle(b);
    AppendAssoc(Header(tab, localeString), Blocks(tab.bubbles), Block(b));
  }

  /** The output opens with the header, and the header with its title line. */
  lemma HeaderShape(tab: ChatTab, localeString: string -> string)
    ensures StartsWith(Markdown(tab, localeString), Header(tab, localeString))
    ensures StartsWith(Markdown(tab, localeString), TitleLine(tab))
  {
    var h := Header(tab, localeString);
    var t := TitleLine(tab);
    assert StartsWith(h, h);
    StartsWithExtend(h, Blocks(tab.bubbles), h);
    assert StartsWith(t, t);
    StartsWithExtend(t, CreatedLine(tab, localeString), t);
    StartsWithExtend(h, Blocks(tab.bubbles), t);
  }

  /** The title line shows the title, or `Chat <id>` without one. */
  lemma TitleLineShape(tab: ChatTab)
    ensures tab.title != "" ==> TitleLine(tab) == "# " + tab.title + "\n\n"
    ensures tab.title == "" ==> TitleLine(tab) == "# Chat " + tab.id + "\n\n"
  {
    if tab.title == "" {
      AppendAssoc("# ", "Chat ", tab.id);
    }
  }

  /** With no bubbles the output is the header alone. */
  lemma EmptyTranscript(tab: ChatTab, localeString: string -> string)
    requires tab.bubbles == []
    ensures Markdown(tab, localeString) == Header(tab, localeString)
  {
  }

  /** A block opens with `### User` for a user bubble and `### AI (<model>)` for an assistant bubble. */
  lemma SpeakerHeading(b: ChatBubble)
    ensures b.kind.User? ==> StartsWith(Block(b), USER_HEADING)
    ensures b.kind.Ai? ==> StartsWith(Block(b), "### AI (" + ModelLabel(b.modelType) + ")\n\n")
    ensures StartsWith(Block(b), "### User") <==> b.kind.User?
  {
    var s := Speaker(b);
    var rest := SelectedCode(b) + Body(b) + RULE;
    assert Block(b) == s + rest;
    assert Block(b)[..|s|] == s;
    if b.kind.Ai? {
      assert Block(b)[4] == 'A';
    } else {
      assert Block(b)[..8] == s[..8] == "### User";
    }
  }

  /**
   * After the heading comes the selected-code section, present exactly when
   * there are selections, then the text and a blank line when the text is
   * not empty, then the rule that ends every block.
   */
  lemma BlockShape(b: ChatBubble)
    ensures Block(b) == Speaker(b) + SelectedCode(b) + Body(b) + RULE
    ensures SelectedCode(b) != "" <==> b.selections != []
    ensures b.selections != [] ==> SelectedCode(b) == SELECTED_CODE + Fences(b.selections)
    ensures Body(b) != "" <==> b.text != ""
    ensures b.text != "" ==> EndsWith(Block(b), b.text + "\n\n" + RULE)
  {
    var head := Speaker(b) + SelectedCode(b);
    if b.text != "" {
      assert Block(b) == head + (b.text + "\n\n" + RULE);
    }
    assert Block(b) == (Speaker(b) + SelectedCode(b) + Body(b)) + RULE;
  }

  /** The fences of the selections, in order, one per selection. */
  lemma FencesConcat(a: seq<Selection>, b: seq<Selection>)
    ensures Fences(a + b) == Fences(a) + Fences(b)
  {
    ConcatMapConcat(a, b, Fenced);
  }

  /** A selection's text goes into its fence unescaped. */
  lemma FencedRaw(sel: Selection)
    ensures Fences([sel]) == "```\n" + sel.text + "\n```\n\n"
    ensures OccursAt(Fences([sel]), sel.text, 4)
  {
    ConcatMapSingle(sel, Fenced);
    var f := Fences([sel]);
    assert f == "```\n" + sel.text + "\n```\n\n";
    assert f[4..4 + |sel.text|] == sel.text;
  }
}
