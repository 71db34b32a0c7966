/**
 * The interactive choices of the exporter. A prompt is the sequence of answers
 * typed at it: each loop consumes answers until one is decisive, and running out
 * of answers is a result of its own (the terminal would wait forever).
 * Quitting, which exits the process, is a result too.
 */
module Prompts {
  import opened Wrappers
  import opened Types
  import opened JsString
  import opened StableSort
  import opened Projects
  import opened Display

  /** At most this many logs are listed and selectable. */
  const MAX_LISTED := 10

  // ---------------------------------------------------------------------------
  // Numeric selection

  /** What one answer to a numeric prompt decides. */
  datatype Verdict = Quit | Accept(index: nat) | Reject

  /** `answer.toLowerCase() === 'q'`. */
  predicate IsQuit(answer: string) {
    ToLowerAscii(answer) == "q"
  }

  /** Only `q` and `Q`, untrimmed, quit. */
  lemma QuitAnswers(answer: string)
    ensures IsQuit(answer) <==> answer == "q" || answer == "Q"
  {
    if IsQuit(answer) {
      assert LowerChar(answer[0]) == ToLowerAscii(answer)[0];
    }
  }

  /** `answer.trim() || defaultAnswer`. */
  function Input(answer: string, defaultAnswer: string): (r: string)
    ensures Trim(answer) != "" ==> r == Trim(answer)
    ensures Trim(answer) == "" ==> r == defaultAnswer
  {
    if Trim(answer) == "" then defaultAnswer else Trim(answer)
  }

  /** `num >= 1 && num <= limit`; a `NaN` is never in range. */
  predicate InRange(num: Option<int>, limit: nat) {
    num.Some? && 1 <= num.value <= limit
  }

  /**
   * One pass of a selection loop: quit on `q`, accept a parsed number between
   * 1 and `limit` as the index one below it, re-prompt otherwise.
   */
  function ReadAnswer(answer: string, defaultAnswer: string, limit: nat): (v: Verdict)
    ensures v.Quit? <==> answer == "q" || answer == "Q"
    ensures v.Accept? ==> v.index < limit
  {
    QuitAnswers(answer);
    if IsQuit(answer) then Quit
    else
      var num := ParseInt(Input(answer, defaultAnswer));
      if InRange(num, limit) then Accept(num.value - 1) else Reject
  }

  /** An answer other than `q` is accepted exactly when its input parses to a number in range, and then names that number. */
  lemma ReadAnswerMeaning(answer: string, defaultAnswer: string, limit: nat)
    ensures var v := ReadAnswer(answer, defaultAnswer, limit);
            var num := ParseInt(Input(answer, defaultAnswer));
            && (v.Accept? <==> !IsQuit(answer) && InRange(num, limit))
            && (v.Accept? ==> num == Some(v.index + 1))
            && (v.Reject? <==> !IsQuit(answer) && !InRange(num, limit))
  {
  }

  /** A blank answer takes the default, and a default `String(d + 1)` with `d` in range selects `d`. */
  lemma BlankAnswerSelectsDefault(answer: string, d: nat, limit: nat)
    requires Trim(answer) == "" && d < limit
    ensures ReadAnswer(answer, NatToString(d + 1), limit) == Accept(d)
  {
    ParseIntOfNatToString(d + 1);
    TrimOfUnpadded("q");
    TrimOfUnpadded("Q");
    QuitAnswers(answer);
  }

  /** Typing `String(n)` for `n` in range selects `n - 1`. */
  lemma NumberAnswerSelects(n: nat, defaultAnswer: string, limit: nat)
    requires 1 <= n <= limit
    ensures ReadAnswer(NatToString(n), defaultAnswer, limit) == Accept(n - 1)
  {
    var s := NatToString(n);
    ParseIntOfNatToString(n);
    assert !IsWhitespace(s[0]) && !IsWhitespace(s[|s| - 1]);
    TrimOfUnpadded(s);
    if IsQuit(s) {
      QuitAnswers(s);
      assert false;
    }
  }

  /** A string starting and ending without whitespace is its own trim. */
  lemma TrimOfUnpadded(s: string)
    requires s != [] && !IsWhitespace(s[0]) && !IsWhitespace(s[|s| - 1])
    ensures Trim(s) == s
  {
    TrimStartOfNonWhitespaceStart(s);
    assert TrimEnd(s) == s;
  }

  /** The result of a selection loop over a finite sequence of answers. */
  datatype Outcome = Chosen(index: nat, at: nat) | Quitted(at: nat) | Exhausted

  /**
   * The `while (true)` loop of a numeric prompt: the first answer that is not
   * rejected decides, and `at` is its index among the answers.
   */
  method ReadSelection(answers: seq<string>, defaultAnswer: string, limit: nat) returns (o: Outcome)
    ensures o.Chosen? ==> o.index < limit
    ensures o.Chosen? ==> o.at < |answers| && ReadAnswer(answers[o.at], defaultAnswer, limit) == Accept(o.index)
    ensures o.Quitted? ==> o.at < |answers| && (answers[o.at] == "q" || answers[o.at] == "Q")
    ensures !o.Exhausted? ==> forall j :: 0 <= j < o.at ==> ReadAnswer(answers[j], defaultAnswer, limit) == Reject
    ensures o.Exhausted? ==> forall j :: 0 <= j < |answers| ==> ReadAnswer(answers[j], defaultAnswer, limit) == Reject
  {
    var i := 0;
    while i < |answers|
      invariant 0 <= i <= |answers|
      invariant forall j :: 0 <= j < i ==> ReadAnswer(answers[j], defaultAnswer, limit) == Reject
    {
      var v := ReadAnswer(answers[i], defaultAnswer, limit);
      match v
      case Quit => return Quitted(i);
      case Accept(index) => return Chosen(index, i);
      case Reject =>
      i := i + 1;
    }
    return Exhausted;
  }

  /** `Math.min(10, composers.length)`: the logs offered for selection. */
  function LogLimit(count: nat): (r: nat)
    ensures r <= MAX_LISTED && r <= count
    ensures r == MAX_LISTED || r == count
  {
    if count < MAX_LISTED then count else MAX_LISTED
  }

  /** The log prompt accepts `num` exactly when `num >= 1 && num <= 10 && num <= composers.length`. */
  lemma LogLimitRange(num: Option<int>, count: nat)
    ensures InRange(num, LogLimit(count)) <==> num.Some? && 1 <= num.value && num.value <= MAX_LISTED && num.value <= count
  {
  }

  // ---------------------------------------------------------------------------
  // File names

  const MD := ".md"

  /** `s.endsWith('.md')`, letter by letter. */
  predicate EndsWithMd(s: string) {
    |s| >= 3 && s[|s| - 3] == '.' && s[|s| - 2] == 'm' && s[|s| - 1] == 'd'
  }

  /** `s.toLowerCase().endsWith('.md')`, letter by letter. */
  predicate LowerEndsWithMd(s: string) {
    |s| >= 3 && LowerChar(s[|s| - 3]) == '.' && LowerChar(s[|s| - 2]) == 'm' && LowerChar(s[|s| - 1]) == 'd'
  }

  lemma EndsWithMdMeaning(s: string)
    ensures EndsWithMd(s) <==> EndsWith(s, MD)
    ensures LowerEndsWithMd(s) <==> EndsWith(ToLowerAscii(s), MD)
  {
    if |s| >= 3 {
      var l := ToLowerAscii(s);
      assert s[|s| - 3..] == [s[|s| - 3], s[|s| - 2], s[|s| - 1]];
      assert l[|l| - 3..] == [LowerChar(s[|s| - 3]), LowerChar(s[|s| - 2]), LowerChar(s[|s| - 1])];
    }
  }

  /**
   * `answer.trim() || defaultName + '.md'`, then with `.md` appended unless it
   * already ends in `.md` in any letter case.
   */
  function NormalizeFilename(answer: string, defaultName: string): (f: string)
    ensures LowerEndsWithMd(f)
  {
    var base := Input(answer, defaultName + MD);
    if LowerEndsWithMd(base) then base else base + MD
  }

  /**
   * The name is the trimmed answer, or the default plus `.md` when blank, with
   * `.md` added exactly when its lower-case form does not already end in `.md`;
   * either way the lower-case form of the result ends in `.md`.
   */
  lemma NormalizeFilenameMeaning(answer: string, defaultName: string)
    ensures var f := NormalizeFilename(answer, defaultName);
            var base := if Trim(answer) == "" then defaultName + MD else Trim(answer);
            && (f == base || f == base + MD)
            && (f == base <==> EndsWith(ToLowerAscii(base), MD))
            && EndsWith(ToLowerAscii(f), MD)
  {
    var f := NormalizeFilename(answer, defaultName);
    EndsWithMdMeaning(Input(answer, defaultName + MD));
    EndsWithMdMeaning(f);
  }

  /** The characters of `[a-zA-Z0-9-_\.]`. */
  predicate IsNameChar(c: char) {
    'a' <= c <= 'z' || 'A' <= c <= 'Z' || '0' <= c <= '9' || c == '-' || c == '_' || c == '.'
  }

  /** `/^[a-zA-Z0-9-_\.]+\.md$/.test(f)`: one or more name characters, then a lower-case `.md`. */
  predicate MatchesFilenamePattern(f: string)
    ensures MatchesFilenamePattern(f) ==> |f| > |MD| && EndsWith(f, MD) && forall i :: 0 <= i < |f| ==> IsNameChar(f[i])
  {
    EndsWithMdMeaning(f);
    |f| >= 4 && EndsWithMd(f) && forall i :: 0 <= i < |f| - 3 ==> IsNameChar(f[i])
  }

  /** An accepted name ends in `.md` and holds only name characters, and every such name is accepted. */
  lemma FilenamePatternMeaning(f: string)
    ensures MatchesFilenamePattern(f) <==>
      |f| > |MD| && EndsWith(f, MD) && forall i :: 0 <= i < |f| ==> IsNameChar(f[i])
  {
    EndsWithMdMeaning(f);
  }

  /** A name whose extension is `.md` in another letter case is kept as typed and then refused. */
  lemma MixedCaseExtensionRejected(answer: string, defaultName: string)
    requires Trim(answer) != ""
    requires EndsWith(ToLowerAscii(Trim(answer)), MD) && !EndsWith(Trim(answer), MD)
    ensures NormalizeFilename(answer, defaultName) == Trim(answer)
    ensures !MatchesFilenamePattern(NormalizeFilename(answer, defaultName))
  {
    EndsWithMdMeaning(Trim(answer));
  }

  /** `Report.MD` is neither re-suffixed nor accepted. */
  lemma UpperCaseExtensionExample()
    ensures NormalizeFilename("Report.MD", "x") == "Report.MD"
    ensures !MatchesFilenamePattern(NormalizeFilename("Report.MD", "x"))
  {
    TrimOfUnpadded("Report.MD");
  }

  /** A blank answer names the file after the default, which is accepted iff the default is a non-empty run of name characters. */
  lemma BlankFilename(answer: string, defaultName: string)
    requires Trim(answer) == ""
    ensures NormalizeFilename(answer, defaultName) == defaultName + MD
    ensures MatchesFilenamePattern(NormalizeFilename(answer, defaultName)) <==>
      defaultName != "" && forall i :: 0 <= i < |defaultName| ==> IsNameChar(defaultName[i])
  {
    var f := defaultName + MD;
    assert forall i :: 0 <= i < |defaultName| ==> f[i] == defaultName[i];
  }

  /** A plain name of name characters gets `.md` appended and is accepted; `q` is such a name here, not a quit. */
  lemma PlainNameAccepted(answer: string, defaultName: string)
    requires Trim(answer) != "" && forall i :: 0 <= i < |Trim(answer)| ==> IsNameChar(Trim(answer)[i])
    requires !EndsWith(ToLowerAscii(Trim(answer)), MD)
    ensures NormalizeFilename(answer, defaultName) == Trim(answer) + MD
    ensures MatchesFilenamePattern(NormalizeFilename(answer, defaultName))
  {
    var t := Trim(answer);
    EndsWithMdMeaning(t);
    var f := t + MD;
    assert forall i :: 0 <= i < |t| ==> f[i] == t[i];
  }

  /** The result of the file-name loop over a finite sequence of answers: the name and the index of the answer that gave it. */
  datatype Naming = Named(filename: string, at: nat) | Unnamed

  /**
   * The file-name `while (true)` loop, reading the answers from index `from`
   * on: the first answer whose normalised name matches the pattern wins.
   */
  method PromptFilename(answers: seq<string>, from: nat, defaultName: string) returns (n: Naming)
    requires from <= |answers|
    ensures n.Named? ==> from <= n.at < |answers|
                         && n.filename == NormalizeFilename(answers[n.at], defaultName)
                         && MatchesFilenamePattern(n.filename)
                         && forall j :: from <= j < n.at ==> !MatchesFilenamePattern(NormalizeFilename(answers[j], defaultName))
    ensures n.Unnamed? ==> forall j :: from <= j < |answers| ==> !MatchesFilenamePattern(NormalizeFilename(answers[j], defaultName))
  {
    var i := from;
    while i < |answers|
      invariant from <= i <= |answers|
      invariant forall j :: from <= j < i ==> !MatchesFilenamePattern(NormalizeFilename(answers[j], defaultName))
    {
      var filename := NormalizeFilename(answers[i], defaultName);
      if MatchesFilenamePattern(filename) {
        return Named(filename, i);
      }
      i := i + 1;
    }
    return Unnamed;
  }

  // ---------------------------------------------------------------------------
  // The two prompts

  /** `${getProjectName(selected)}_${formatTimestamp(new Date(selected.lastUpdatedAt || selected.createdAt))}`. */
  function DefaultName(selected: WorkspaceComposer, localDate: int -> DateFields): (r: string)
    ensures StartsWith(r, ProjectName(selected) + "_")
    ensures var d := localDate(Recency(selected));
            ValidDate(d) && 1000 <= d.year <= 9999 ==>
              |r| == |ProjectName(selected)| + 14 && ParseTimestamp(r[|r| - 13..]) == Some(d)
  {
    var prefix := ProjectName(selected) + "_";
    var d := localDate(Recency(selected));
    var stamp := FormatTimestamp(d);
    assert (prefix + stamp)[..|prefix|] == prefix;
    assert (prefix + stamp)[|prefix|..] == stamp;
    if ValidDate(d) && 1000 <= d.year <= 9999 then
      FormatTimestampRoundTrip(d);
      prefix + stamp
    else
      prefix + stamp
  }

  /**
   * What `promptUser` returns, or why it returned nothing: the log chosen by
   * the answer at `chosenAt` and the file name given by the answer at
   * `namedAt`; a quit at `at`; no log chosen; or a log chosen and no file name.
   */
  datatype UserChoice =
    | Picked(index: nat, filename: string, chosenAt: nat, namedAt: nat)
    | UserQuit(at: nat)
    | NoLogChosen
    | NoFilename(index: nat, chosenAt: nat)

  /** The answer a blank line stands for in the log prompt. */
  const FIRST_LOG := "1"

  /**
   * `promptUser`: a log among the first ten, then a file name whose default
   * is built from that log, both read from one stream of answers. The first
   * answer the log prompt does not reject decides; the file-name prompt reads
   * the answers after it, and the first one whose name matches the pattern wins.
   */
  method PromptUser(composers: seq<WorkspaceComposer>, answers: seq<string>, localDate: int -> DateFields)
    returns (r: UserChoice)
    ensures r.Picked? || r.NoFilename? ==>
              && r.index < |composers| && r.index < MAX_LISTED
              && r.chosenAt < |answers|
              && ReadAnswer(answers[r.chosenAt], FIRST_LOG, LogLimit(|composers|)) == Accept(r.index)
    ensures r.UserQuit? ==> r.at < |answers| && (answers[r.at] == "q" || answers[r.at] == "Q")
    ensures r.Picked? || r.NoFilename? ==>
              forall j :: 0 <= j < r.chosenAt ==> ReadAnswer(answers[j], FIRST_LOG, LogLimit(|composers|)) == Reject
    ensures r.UserQuit? ==>
              forall j :: 0 <= j < r.at ==> ReadAnswer(answers[j], FIRST_LOG, LogLimit(|composers|)) == Reject
    ensures r.NoLogChosen? ==>
              forall j :: 0 <= j < |answers| ==> ReadAnswer(answers[j], FIRST_LOG, LogLimit(|composers|)) == Reject
    ensures r.Picked? ==>
              && r.chosenAt < r.namedAt < |answers|
              && r.filename == NormalizeFilename(answers[r.namedAt], DefaultName(composers[r.index], localDate))
              && MatchesFilenamePattern(r.filename)
              && forall j :: r.chosenAt < j < r.namedAt ==>
                   !MatchesFilenamePattern(NormalizeFilename(answers[j], DefaultName(composers[r.index], localDate)))
    ensures r.NoFilename? ==>
              forall j :: r.chosenAt < j < |answers| ==>
                !MatchesFilenamePattern(NormalizeFilename(answers[j], DefaultName(composers[r.index], localDate)))
  {
    var s := ReadSelection(answers, FIRST_LOG, LogLimit(|composers|));
    match s
    case Quitted(at) =>
      return UserQuit(at);
    case Exhausted =>
      return NoLogChosen;
    case Chosen(index, at) =>
      var defaultName := DefaultName(composers[index], localDate);
      var n := PromptFilename(answers, at + 1, defaultName);
      match n
      case Unnamed =>
        return NoFilename(index, at);
      case Named(filename, k) =>
        return Picked(index, filename, at, k);
  }

  /** The composers of the chosen project, most recent first: `projects.get(p)!.sort(...)`. */
  function ProjectComposers(pm: ProjectMap, project: string): (r: seq<WorkspaceComposer>)
    requires project in pm.buckets
    ensures SortedDesc(r, Recency)
    ensures multiset(r) == multiset(pm.buckets[project])
    ensures forall v :: WithKey(r, Recency, v) == WithKey(pm.buckets[project], Recency, v)
  {
    ByRecency(pm.buckets[project])
  }

  /**
   * `promptProjectSelection` with `useDefaults`: the project named like the
   * current directory, else the most recently updated one. With no project at
   * all the source fails reading the first ranked entry; that is `None`.
   */
  function DefaultProjectComposers(pm: ProjectMap, currentDir: string): (r: Option<seq<WorkspaceComposer>>)
    requires WellFormed(pm)
    ensures r.None? <==> pm.order == []
    ensures currentDir in pm.buckets ==> r == Some(ProjectComposers(pm, currentDir))
    ensures currentDir !in pm.buckets && pm.order != [] ==>
      r == Some(ProjectComposers(pm, RankProjects(pm)[0].project))
      && forall p :: p in pm.buckets ==> Latest(pm.buckets[p]) <= Latest(pm.buckets[RankProjects(pm)[0].project])
  {
    if pm.order == [] then None
    else
      var ranked := RankProjects(pm);
      DefaultSelectionMeaning(pm, currentDir);
      var d := DefaultSelection(ranked, currentDir);
      TopRankedIsLatest(pm);
      Some(ProjectComposers(pm, ranked[d].project))
  }

  /** The answer a blank line stands for: `String(defaultSelection + 1)`. */
  function DefaultAnswer(pm: ProjectMap, currentDir: string): string
    requires WellFormed(pm)
  {
    NatToString(DefaultSelection(RankProjects(pm), currentDir) + 1)
  }

  /**
   * `promptProjectSelection` without `useDefaults`: a number among the ranked
   * projects, a blank answer meaning the default project, and the chosen
   * project's composers most recent first.
   */
  method PromptProjectSelection(pm: ProjectMap, currentDir: string, answers: seq<string>)
    returns (o: Outcome, composers: seq<WorkspaceComposer>)
    requires WellFormed(pm)
    ensures o.Chosen? ==> o.index < |pm.order|
                          && composers == ProjectComposers(pm, RankProjects(pm)[o.index].project)
    ensures o.Chosen? ==> o.at < |answers|
                          && ReadAnswer(answers[o.at], DefaultAnswer(pm, currentDir), |pm.order|) == Accept(o.index)
    ensures o.Quitted? ==> o.at < |answers| && (answers[o.at] == "q" || answers[o.at] == "Q")
    ensures !o.Exhausted? ==> forall j :: 0 <= j < o.at ==> ReadAnswer(answers[j], DefaultAnswer(pm, currentDir), |pm.order|) == Reject
    ensures o.Exhausted? ==> forall j :: 0 <= j < |answers| ==> ReadAnswer(answers[j], DefaultAnswer(pm, currentDir), |pm.order|) == Reject
    ensures !o.Chosen? ==> composers == []
    ensures o.Exhausted? ==> pm.order == [] || forall j :: 0 <= j < |answers| ==> !IsQuit(answers[j]) && Trim(answers[j]) != ""
  {
    o := ReadSelection(answers, DefaultAnswer(pm, currentDir), |pm.order|);
    if o.Chosen? {
      composers := ProjectComposers(pm, RankProjects(pm)[o.index].project);
    } else {
      composers := [];
      if o.Exhausted? && pm.order != [] {
        ProjectAnswersRejected(pm, currentDir, answers);
      }
    }
  }

  /** Every answer the project prompt rejected, with at least one project to offer, was neither `q` nor blank. */
  lemma ProjectAnswersRejected(pm: ProjectMap, currentDir: string, answers: seq<string>)
    requires WellFormed(pm) && pm.order != []
    requires forall j :: 0 <= j < |answers| ==> ReadAnswer(answers[j], DefaultAnswer(pm, currentDir), |pm.order|) == Reject
    ensures forall j :: 0 <= j < |answers| ==> !IsQuit(answers[j]) && Trim(answers[j]) != ""
  {
    var d := DefaultSelection(RankProjects(pm), currentDir);
    DefaultSelectionMeaning(pm, currentDir);
    assert d < |pm.order|;
    AllRejectedMeaning(answers, DefaultAnswer(pm, currentDir), d, |pm.order|);
  }

  /** When every answer was rejected and there is a default in range, none was `q` and none was blank. */
  lemma AllRejectedMeaning(answers: seq<string>, defaultAnswer: string, d: nat, limit: nat)
    requires d < limit && defaultAnswer == NatToString(d + 1)
    requires forall j :: 0 <= j < |answers| ==> ReadAnswer(answers[j], defaultAnswer, limit) == Reject
    ensures forall j :: 0 <= j < |answers| ==> !IsQuit(answers[j]) && Trim(answers[j]) != ""
  {
    forall j | 0 <= j < |answers| ensures !IsQuit(answers[j]) && Trim(answers[j]) != "" {
      QuitAnswers(answers[j]);
      if Trim(answers[j]) == "" {
        BlankAnswerSelectsDefault(answers[j], d, limit);
      }
    }
  }
}
