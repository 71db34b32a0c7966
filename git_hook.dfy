/**
 * The pre-commit hook edits of src/git.ts: `setupGitHook` appends a block of
 * shell commands between two marker comments unless one is already there, and
 * `removeGitHook` cuts the lines from the first start marker to the first end
 * marker. The hook file is `Some(content)` when it exists and `None` when it
 * does not.
 */
module GitHook {
  import opened Wrappers
  import opened JsString


  const EXPORT_NAME := "Cursor Composer Export"
  /** What `setupGitHook` looks for before installing: the start marker without its `# `. */
  const INSTALLED_MARK := EXPORT_NAME + " Start"
  /** `# Cursor Composer Export Start`. */
  const START_MARKER := "# " + INSTALLED_MARK
  /** `# Cursor Composer Export End`. */
  const END_MARKER := "# " + EXPORT_NAME + " End"

  // The template's comment lines.
  const ENSURE_COMMENT := "# Ensure output directory exists"
  const EXPORT_COMMENT := "# Export with default settings to specified path"
  const ADD_COMMENT := "# Add all exported files (including hidden files)"

  // ---------------------------------------------------------------------------
  // The hook block

  /** The lines of the template between its leading and trailing newline. */
  function BlockLines(outputPath: string): (lines: seq<string>)
    ensures |lines| == 10 && lines[0] == START_MARKER && lines[9] == END_MARKER
  {
    [ START_MARKER,
      ENSURE_COMMENT,
      "mkdir -p " + outputPath,
      "",
      EXPORT_COMMENT,
      "cursor-composer-export " + outputPath + " --default",
      "",
      ADD_COMMENT,
      "git add -f " + outputPath + "/.",
      END_MARKER ]
  }

  /** The template literal, which opens and closes with a newline. */
  function HookTemplate(outputPath: string): string {
    "\n" + Join(BlockLines(outputPath)) + "\n"
  }

  /** `hookContent`: the template, trimmed. */
  function HookBlock(outputPath: string): string {
    Trim(HookTemplate(outputPath))
  }

  /** Trimming drops just the template's outer newlines, so the block runs from the start marker line to the end marker line. */
  lemma HookBlockShape(outputPath: string)
    ensures HookBlock(outputPath) == Join(BlockLines(outputPath))
    ensures StartsWith(HookBlock(outputPath), START_MARKER)
    ensures EndsWith(HookBlock(outputPath), END_MARKER)
    ensures '\n' !in outputPath ==> Split(HookBlock(outputPath)) == BlockLines(outputPath)
  {
    var lines := BlockLines(outputPath);
    var b := Join(lines);
    JoinStartsWithFirst(lines);
    JoinEndsWithLast(lines);
    MarkerFacts();
    assert b[0] == START_MARKER[0];
    assert b[|b| - 1] == END_MARKER[|END_MARKER| - 1];
    TrimNewlinePadded(b);
    if '\n' !in outputPath {
      BlockLinesNoNewline(outputPath);
      SplitJoin(lines);
    }
  }

  /** The output path shows up in the `mkdir`, export and `git add` lines. */
  lemma OutputPathLines(outputPath: string)
    ensures var lines := BlockLines(outputPath);
            && EndsWith(lines[2], outputPath)
            && OccursAt(lines[5], outputPath, |"cursor-composer-export "|)
            && OccursAt(lines[8], outputPath, |"git add -f "|)
  {
    var lines := BlockLines(outputPath);
    assert lines[2][|lines[2]| - |outputPath|..] == outputPath;
    var l5 := "cursor-composer-export " + outputPath + " --default";
    assert l5[23..23 + |outputPath|] == outputPath;
    var l8 := "git add -f " + outputPath + "/.";
    assert l8[11..11 + |outputPath|] == outputPath;
  }

  lemma {:induction false} JoinStartsWithFirst(lines: seq<string>)
    requires |lines| >= 1
    ensures StartsWith(Join(lines), lines[0])
    decreases |lines|
  {
    if |lines| > 1 {
      var rest := "\n" + Join(lines[1..]);
      assert Join(lines) == lines[0] + rest;
      assert Join(lines)[..|lines[0]|] == lines[0];
    }
  }

  lemma {:induction false} JoinEndsWithLast(lines: seq<string>)
    requires |lines| >= 1
    ensures EndsWith(Join(lines), lines[|lines| - 1])
    decreases |lines|
  {
    if |lines| > 1 {
      JoinEndsWithLast(lines[1..]);
      var j := Join(lines[1..]);
      var s := Join(lines);
      var last := lines[|lines| - 1];
      assert s == (lines[0] + "\n") + j;
      assert s[|s| - |last|..] == j[|j| - |last|..];
    }
  }

  /** `("\n" + b + "\n").trim()` is `b` when `b` neither starts nor ends with whitespace. */
  lemma TrimNewlinePadded(b: string)
    requires b != [] && !IsWhitespace(b[0]) && !IsWhitespace(b[|b| - 1])
    ensures Trim("\n" + b + "\n") == b
  {
    var s := "\n" + b + "\n";
    assert s[1..] == b + "\n";
    TrimStartOfNonWhitespaceStart(b + "\n");
    assert TrimStart(s) == b + "\n";
    assert (b + "\n")[..|b + "\n"| - 1] == b;
    assert TrimEnd(b) == b;
  }

  lemma BlockLinesNoNewline(outputPath: string)
    requires '\n' !in outputPath
    ensures forall k :: 0 <= k < |BlockLines(outputPath)| ==> '\n' !in BlockLines(outputPath)[k]
  {
    MarkerFacts();
    CommentsArePlain();
    PathLinesLack(outputPath, '\n');
  }

  /** The facts about the two markers that the proofs use. */
  lemma MarkerFacts()
    ensures |START_MARKER| == 30 && |END_MARKER| == 28
    ensures START_MARKER[0] == '#' && END_MARKER[0] == '#'
    ensures '#' !in START_MARKER[1..] && START_MARKER[25] == 'S' && END_MARKER[25] == 'E'
    ensures '\n' !in START_MARKER && '\n' !in END_MARKER
    ensures !IsWhitespace(END_MARKER[27])
    ensures OccursAt(START_MARKER, INSTALLED_MARK, 2)
  {
    assert START_MARKER[2..30] == INSTALLED_MARK;
  }

  /** A comment line of the template: a `#` only at the start, a letter other than `C` after `# `, and no newline. */
  predicate PlainComment(line: string) {
    |line| > 2 && line[0] == '#' && '#' !in line[1..] && line[2] != 'C' && '\n' !in line
  }

  /** A comment followed by a piece with no `#` and no newline is still a comment line. */
  lemma PlainPieces(a: string, b: string)
    requires PlainComment(a) && '#' !in b && '\n' !in b
    ensures PlainComment(a + b)
  {
    assert (a + b)[1..] == a[1..] + b;
  }

  lemma CommentsArePlain()
    ensures PlainComment(ENSURE_COMMENT) && PlainComment(EXPORT_COMMENT) && PlainComment(ADD_COMMENT)
  {
    EnsureCommentPlain();
    ExportCommentPlain();
    AddCommentPlain();
  }

  /**
   * Each comment line is shown plain by growing it from its first words, one
   * piece without `#` or newline at a time; checking a whole literal at once
   * is much harder for the solver.
   */
  lemma EnsureCommentPlain()
    ensures PlainComment(ENSURE_COMMENT)
  {
    PlainPieces("# Ensure output", " directory exists");
  }

  lemma ExportCommentPlain()
    ensures PlainComment(EXPORT_COMMENT)
  {
    var a, b, c := "# Export with", " default settings", " to specified path";
    PlainPieces(a, b);
    PlainPieces(a + b, c);
  }

  lemma AddCommentPlain()
    ensures PlainComment(ADD_COMMENT)
  {
    var a, b, c, d := "# Add all", " exported files", " (including", " hidden files)";
    PlainPieces(a, b);
    PlainPieces(a + b, c);
    PlainPieces(a + b + c, d);
  }

  /** The lines that show the output path hold a character only if the path does (for `#` and newline). */
  lemma PathLinesLack(outputPath: string, c: char)
    requires c == '#' || c == '\n'
    requires c !in outputPath
    ensures var lines := BlockLines(outputPath);
            c !in lines[2] && c !in lines[5] && c !in lines[8]
  {
  }

  // ---------------------------------------------------------------------------
  // Installing

  /**
   * `setupGitHook`: `None` when nothing is written, because the hook already
   * mentions the start marker; otherwise the new content, the old content
   * (`""` for a missing file) followed by a blank line, the block and a newline.
   */
  function InstallContent(existing: Option<string>, outputPath: string): (r: Option<string>)
    ensures existing.Some? && Contains(existing.value, INSTALLED_MARK) ==> r.None?
    ensures r.None? ==> existing.Some? && Contains(existing.value, INSTALLED_MARK)
    ensures r.Some? ==> r.value == existing.GetOr("") + "\n\n" + HookBlock(outputPath) + "\n"
    ensures r.Some? ==> StartsWith(r.value, existing.GetOr(""))
  {
    if existing.Some? && Contains(existing.value, INSTALLED_MARK) then None
    else
      var e := existing.GetOr("");
      var content := e + "\n\n" + HookBlock(outputPath) + "\n";
      assert content == e + ("\n\n" + HookBlock(outputPath) + "\n");
      assert content[..|e|] == e;
      Some(content)
  }

  /** What install writes holds the start marker, so installing again, with any output path, writes nothing. */
  lemma InstallIdempotent(existing: Option<string>, outputPath: string, otherPath: string)
    requires InstallContent(existing, outputPath).Some?
    ensures InstallContent(InstallContent(existing, outputPath), otherPath).None?
  {
    var e := existing.GetOr("");
    var b := HookBlock(outputPath);
    var content := InstallContent(existing, outputPath).value;
    HookBlockShape(outputPath);
    assert content == (e + "\n\n") + (b + "\n");
    assert OccursAt(content, b, |e| + 2) by {
      PieceOfConcat(e + "\n\n", b, "\n");
    }
    assert OccursAt(b, START_MARKER, 0);
    MarkerFacts();
    OccursInPiece(content, b, START_MARKER, |e| + 2, 0);
    OccursInPiece(content, START_MARKER, INSTALLED_MARK, |e| + 2, 2);
  }

  lemma PieceOfConcat(a: string, b: string, c: string)
    ensures OccursAt(a + b + c, b, |a|)
  {
    assert (a + b + c)[|a|..|a| + |b|] == b;
  }

  // ---------------------------------------------------------------------------
  // Removing

  /** `lines.findIndex(line => line.includes(marker))`. */
  function FindLine(lines: seq<string>, marker: string): (r: int)
    ensures -1 <= r < |lines|
    ensures r >= 0 ==> Contains(lines[r], marker) && forall j :: 0 <= j < r ==> !Contains(lines[j], marker)
    ensures r == -1 ==> forall j :: 0 <= j < |lines| ==> !Contains(lines[j], marker)
  {
    if lines == [] then -1
    else if Contains(lines[0], marker) then 0
    else
      var r := FindLine(lines[1..], marker);
      assert forall j :: 1 <= j < |lines| ==> lines[1..][j - 1] == lines[j];
      if r == -1 then -1 else r + 1
  }

  /** The first line with the marker is found, whatever follows it. */
  lemma FindLineAt(lines: seq<string>, marker: string, i: nat)
    requires i < |lines| && Contains(lines[i], marker)
    requires forall j :: 0 <= j < i ==> !Contains(lines[j], marker)
    ensures FindLine(lines, marker) == i
  {
  }

  /**
   * The lines kept by `removeGitHook`: those before the first line holding
   * `startMarker` and those after the first line holding `endMarker`; `None`
   * when either marker is on no line.
   */
  function CutSection(lines: seq<string>, startMarker: string, endMarker: string): (r: Option<seq<string>>)
    ensures r.None? <==> FindLine(lines, startMarker) == -1 || FindLine(lines, endMarker) == -1
    ensures r.Some? ==>
              var s := FindLine(lines, startMarker);
              var e := FindLine(lines, endMarker);
              r.value == lines[..s] + lines[e + 1..]
  {
    var startIndex := FindLine(lines, startMarker);
    var endIndex := FindLine(lines, endMarker);
    if startIndex == -1 || endIndex == -1 then None
    else Some(lines[..startIndex] + lines[endIndex + 1..])
  }

  /**
   * A section that opens on line `s` and closes on line `e`, with neither
   * marker on an earlier line, is cut whole: what is kept is the lines before
   * `s` and after `e`, and the marker lines and everything between are gone.
   */
  lemma CutSectionAt(lines: seq<string>, startMarker: string, endMarker: string, s: nat, e: nat)
    requires s <= e < |lines|
    requires Contains(lines[s], startMarker) && Contains(lines[e], endMarker)
    requires forall j :: 0 <= j < s ==> !Contains(lines[j], startMarker)
    requires forall j :: 0 <= j < e ==> !Contains(lines[j], endMarker)
    ensures CutSection(lines, startMarker, endMarker) == Some(lines[..s] + lines[e + 1..])
    ensures |CutSection(lines, startMarker, endMarker).value| == |lines| - (e - s + 1)
  {
    FindLineAt(lines, startMarker, s);
    FindLineAt(lines, endMarker, e);
  }

  /** `removeGitHook`: `None` when nothing is written, because the file is missing or a marker line is. */
  function RemoveContent(existing: Option<string>): (r: Option<string>)
    ensures existing.None? ==> r.None?
    ensures existing.Some? ==>
              && (r.None? <==> CutSection(Split(existing.value), START_MARKER, END_MARKER).None?)
              && (r.Some? ==> r.value == Trim(Join(CutSection(Split(existing.value), START_MARKER, END_MARKER).value)))
  {
    match existing
    case None => None
    case Some(content) =>
      match CutSection(Split(content), START_MARKER, END_MARKER)
      case None => None
      case Some(kept) => Some(Trim(Join(kept)))
  }

  /** A hook with no start marker, or no end marker, is left alone. */
  lemma RemoveWithoutMarkers(content: string)
    requires !Contains(content, START_MARKER) || !Contains(content, END_MARKER)
    ensures RemoveContent(Some(content)).None?
  {
    if !Contains(content, START_MARKER) {
      LinesInherit(content, START_MARKER);
    } else {
      LinesInherit(content, END_MARKER);
    }
  }

  // ---------------------------------------------------------------------------
  // Install, then remove

  /** A line that lacks `#` holds neither marker. */
  lemma NoMarkerWithoutHash(line: string)
    requires '#' !in line
    ensures !Contains(line, START_MARKER) && !Contains(line, END_MARKER)
  {
    MarkerFacts();
    NotContainsWithoutFirstChar(line, START_MARKER);
    NotContainsWithoutFirstChar(line, END_MARKER);
  }

  /** A comment line of the template holds neither marker. */
  lemma CommentLacksMarkers(line: string)
    requires PlainComment(line)
    ensures !Contains(line, START_MARKER) && !Contains(line, END_MARKER)
  {
    MarkerFacts();
    NotContainsAnchored(line, START_MARKER, 2);
    NotContainsAnchored(line, END_MARKER, 2);
  }

  /** Which block lines hold which marker: only the first holds the start marker, and only the last the end marker. */
  lemma BlockMarkers(outputPath: string)
    requires '#' !in outputPath
    ensures var lines := BlockLines(outputPath);
            && (forall k :: 1 <= k < 10 ==> !Contains(lines[k], START_MARKER))
            && (forall k :: 0 <= k < 9 ==> !Contains(lines[k], END_MARKER))
            && Contains(lines[0], START_MARKER) && Contains(lines[9], END_MARKER)
  {
    var lines := BlockLines(outputPath);
    assert OccursAt(lines[0], START_MARKER, 0) && OccursAt(lines[9], END_MARKER, 0);
    CommentsArePlain();
    CommentLacksMarkers(lines[1]);
    CommentLacksMarkers(lines[4]);
    CommentLacksMarkers(lines[7]);
    PathLinesLack(outputPath, '#');
    NoMarkerWithoutHash(lines[2]);
    NoMarkerWithoutHash(lines[3]);
    NoMarkerWithoutHash(lines[5]);
    NoMarkerWithoutHash(lines[6]);
    NoMarkerWithoutHash(lines[8]);
    MarkerFacts();
    NotContainsAnchored(START_MARKER, END_MARKER, 25);
  }

  /** The lines of what install writes: the old lines, a blank line, the block's lines and a final empty line. */
  lemma SplitInstalled(e: string, b: string)
    ensures Split(e + "\n\n" + b + "\n") == Split(e) + [""] + Split(b) + [""]
  {
    var x := b + "\n" + "";
    SplitConcat(b, "");
    var y := "" + "\n" + x;
    SplitConcat("", x);
    assert e + "\n\n" + b + "\n" == e + "\n" + y;
    SplitConcat(e, y);
  }

  /**
   * Cutting a section that is all of `block`, placed after `before` and a
   * blank line and followed by an empty line, keeps `before` and two empty lines.
   */
  lemma CutInstalled(before: seq<string>, block: seq<string>, startMarker: string, endMarker: string)
    requires |block| >= 1 && Contains(block[0], startMarker) && Contains(block[|block| - 1], endMarker)
    requires forall k :: 1 <= k < |block| ==> !Contains(block[k], startMarker)
    requires forall k :: 0 <= k < |block| - 1 ==> !Contains(block[k], endMarker)
    requires forall j :: 0 <= j < |before| ==> !Contains(before[j], startMarker) && !Contains(before[j], endMarker)
    requires !Contains("", startMarker) && !Contains("", endMarker)
    ensures CutSection(before + [""] + block + [""], startMarker, endMarker) == Some(before + ["", ""])
  {
    var lines := before + [""] + block + [""];
    var n := |before|;
    forall j | 0 <= j < n + 1 ensures !Contains(lines[j], startMarker) && !Contains(lines[j], endMarker) {
      if j < n {
        assert lines[j] == before[j];
      }
    }
    forall k | 0 <= k < |block| ensures lines[n + 1 + k] == block[k] {
    }
    CutSectionAt(lines, startMarker, endMarker, n + 1, n + |block|);
    assert lines[..n + 1] == before + [""];
    assert lines[n + |block| + 1..] == [""];
    assert before + [""] + [""] == before + ["", ""];
  }

  /** Cutting the block's lines leaves the old lines and two empty ones, which join and trim to the old content trimmed. */
  lemma RejoinAfterCut(e: string)
    ensures Trim(Join(Split(e) + ["", ""])) == Trim(e)
  {
    JoinConcat(Split(e), ["", ""]);
    JoinSplit(e);
    assert Join(["", ""]) == "\n";
    assert e + "\n" + "\n" == e + "\n\n";
    TrimIgnoresTrailingWhitespace(e, "\n\n");
  }

  /** A hook holding the start marker holds the install check's text. */
  lemma StartMarkerHoldsMark(s: string)
    requires Contains(s, START_MARKER)
    ensures Contains(s, INSTALLED_MARK)
  {
    var i :| 0 <= i <= |s| - |START_MARKER| && OccursAt(s, START_MARKER, i);
    MarkerFacts();
    OccursInPiece(s, START_MARKER, INSTALLED_MARK, i, 2);
  }

  /**
   * Removing right after installing gives back the old content trimmed, for
   * old content without either marker and an output path on one line with no `#`.
   */
  lemma RemoveAfterInstall(existing: Option<string>, outputPath: string)
    requires existing.Some? ==> !Contains(existing.value, INSTALLED_MARK) && !Contains(existing.value, END_MARKER)
    requires '\n' !in outputPath && '#' !in outputPath
    ensures RemoveContent(InstallContent(existing, outputPath)) == Some(Trim(existing.GetOr("")))
  {
    var e := existing.GetOr("");
    var block := BlockLines(outputPath);
    HookBlockShape(outputPath);
    var installed := InstallContent(existing, outputPath);
    assert installed == Some(e + "\n\n" + HookBlock(outputPath) + "\n");
    SplitInstalled(e, HookBlock(outputPath));
    assert Split(installed.value) == Split(e) + [""] + block + [""];
    if Contains(e, START_MARKER) {
      StartMarkerHoldsMark(e);
    }
    LinesInherit(e, START_MARKER);
    LinesInherit(e, END_MARKER);
    BlockMarkers(outputPath);
    MarkerFacts();
    CutInstalled(Split(e), block, START_MARKER, END_MARKER);
    assert CutSection(Split(installed.value), START_MARKER, END_MARKER) == Some(Split(e) + ["", ""]);
    RejoinAfterCut(e);
  }

  // ---------------------------------------------------------------------------
  // The hook file

  /** The file `.husky/pre-commit`, `None` while it does not exist. */
  class HookFile {
    var content: Option<string>

    constructor(initial: Option<string>)
      ensures content == initial
    {
      content := initial;
    }

    /** `setupGitHook(outputPath)`: read, check the marker, append the block and write back. */
    method Setup(outputPath: string)
      modifies this
      ensures InstallContent(old(content), outputPath).Some? ==> content == InstallContent(old(content), outputPath)
      ensures InstallContent(old(content), outputPath).None? ==> content == old(content)
    {
      var existingContent := "";
      if content.Some? {
        existingContent := content.value;
        if Contains(existingContent, INSTALLED_MARK) {
          return;
        }
      }
      var newContent := existingContent + "\n\n" + HookBlock(outputPath) + "\n";
      content := Some(newContent);
    }

    /** `removeGitHook()`: read, find the marker lines, cut them and what lies between, and write back. */
    method Remove()
      modifies this
      ensures RemoveContent(old(content)).Some? ==> content == RemoveContent(old(content))
      ensures RemoveContent(old(content)).None? ==> content == old(content)
    {
      if content.None? {
        return;
      }
      var lines := Split(content.value);
      var startIndex := FindLine(lines, START_MARKER);
      var endIndex := FindLine(lines, END_MARKER);
      if startIndex == -1 || endIndex == -1 {
        return;
      }
      var newContent := Trim(Join(lines[..startIndex] + lines[endIndex + 1..]));
      content := Some(newContent);
    }
  }
}
