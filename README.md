# cursor-composer-export, modelled in Dafny

cursor-composer-export is a command-line tool. It reads the Composer
conversations that the Cursor editor keeps in its per-workspace stores and in
its global store, and has the user pick a project and then a conversation. It
writes the chosen conversation as a Markdown file. It can also add a block of
shell commands to the Husky `pre-commit` hook, and cut that block out again,
so that the export runs on every commit.

This project models the decision-making core of the tool and proves properties
of it:

- **Projects** (`projects.dfy`). A project name comes from a workspace folder:
  it is the last path segment, or `unknown-project` when there is no folder.
  - Composers are grouped by project into an insertion-ordered map.
  - Projects are ranked by their most recent composer, using a stable
    descending sort.
  - The default project is the one named like the current directory, and
    otherwise the top-ranked one.
- **Prompts** (`prompts.dfy`). Each interactive loop is modelled over the
  finite sequence of answers typed at it:
  - the log-number loop and the project-number loop, with the quit answer,
    the blank-means-default rule and `parseInt`;
  - the file-name loop, with `.md` normalisation and the file-name pattern;
  - `promptUser` and `promptProjectSelection`, including the non-interactive
    `--default` choice of project.
- **Display** (`display.dfy`). The one-line log summary, and the
  `YYYYMMDD_HHMM` stamp of the default file name. The stamp is proved to read
  back as the date it was made from.
- **Details** (`details.dfy`). The path of the global store, derived from a
  workspace store's path.
  - The lookup of `getComposerDetails`, with both stores as maps from key to
    already-parsed value.
  - The mapping of stored messages to chat bubbles, and the assembly of the
    chat that `main` renders.
- **Output** (`output.dfy`). `convertChatToMarkdown`, written as the loop that
  appends to a string, proved equal to a header followed by one block per
  bubble. Lemmas state what each block contains.
- **GitHook** (`git_hook.dfy`). Installing and removing the hook block.
  - Each edit is a function on the hook file's content; the class `HookFile`
    holds that content and updates it in place.
  - Installing twice writes nothing the second time.
  - Removing right after installing gives back the old content, trimmed.
- Support modules:
  - `js_string.dfy` covers the JavaScript string operations the core uses:
    `trim`, `split('\n')`, `join('\n')`, `includes`, `startsWith`,
    `endsWith`, ASCII `toLowerCase`, `parseInt` and `String(n)`;
  - `stable_sort.dfy` is a stable descending sort, which is what
    `Array.prototype.sort` with a numeric comparator gives;
  - `types.dfy` holds the records of `src/types.ts`;
  - `wrappers.dfy` holds `Option`.

Three properties of the program are easy to miss:

- The file-name pattern is case-sensitive: it ends in a lower-case `.md`. So
  `Report_v2.MD` is kept as typed, refused, and the prompt repeats.
  `Prompts.MixedCaseExtensionRejected` and `Prompts.UpperCaseExtensionExample`
  state this.
- At the file-name prompt, `q` is an ordinary name. It becomes `q.md` and is
  accepted (`Prompts.PlainNameAccepted`).
- Only `q` and `Q` themselves quit. The answer is lower-cased but not
  trimmed, so ` q` is an ordinary, invalid answer (`Prompts.QuitAnswers`).

## Model

| member | source | states |
|---|---|---|
| Projects.LastSegment | src/index.ts:110-111 | the result ends the folder, holds no `/` or `\`, and is preceded by a separator unless it is the whole folder |
| Projects.ProjectName | src/index.ts:107-114 | `unknown-project` without a folder or with an empty one; otherwise the folder's last path segment |
| Projects.CollectedOrder | src/index.ts:103 | the collected composers are sorted descending by last update, form a permutation of the scan, and keep scan order among equal keys |
| Projects.GroupComposersByProject | src/index.ts:276-290 | the keys are the distinct project names in order of first appearance; each key's entry is exactly that project's composers in input order; no entry is empty |
| Projects.BucketOutsideOrder | src/index.ts:281-287 | a name that is not a key has no composers |
| Projects.BucketOfOrder | src/index.ts:283-286 | every key has at least one composer |
| Projects.ProjectOrderDistinct | src/index.ts:283-285 | a project name is a key only once |
| Projects.GroupingCovers | src/index.ts:281-287 | every composer's project is a key, and the composer is in that key's entry |
| Projects.BucketMembers | src/index.ts:282-286 | an entry holds only input composers whose project is the entry's key |
| Projects.BucketConcat | src/index.ts:281-287 | grouping distributes over concatenation of the input, so input order is kept within an entry |
| Projects.GroupingSizes | src/index.ts:276-290 | the entry sizes add up to the number of composers: nothing is lost or duplicated |
| Projects.Latest | src/index.ts:307 | the latest recency of a non-empty group is at least every member's `lastUpdatedAt \|\| createdAt`, and equals one of them |
| Projects.Entries | src/index.ts:304-308 | one entry per key, in key order, each carrying its group's latest recency |
| Projects.RankProjects | src/index.ts:304-309 | the ranking is descending by latest recency, is a permutation of the entries, keeps key order among ties, and carries each project's true latest recency |
| Projects.FindProject | src/index.ts:325 | `findIndex`: -1 when no ranked project has the name, otherwise the first index holding it |
| Projects.DefaultSelection | src/index.ts:324-326 | the first ranked project named like the current directory, or 0 when none is; in range for a non-empty ranking |
| Projects.RankedCovers | src/index.ts:304-309 | every project of the map appears in the ranking |
| Projects.DefaultSelectionMeaning | src/index.ts:324-326 | with projects present, the default selects the current directory's project when one exists, and the top-ranked one otherwise |
| Projects.TopRankedIsLatest | src/index.ts:304-309 | the top-ranked project holds the most recent composer of all |
| Display.FirstLineNoNewline | src/index.ts:119 | the trimmed first line holds no newline |
| Display.LogSummary | src/index.ts:117-121 | at most 50 characters on one line; the trimmed first line when it fits, otherwise its first 47 characters followed by `...` |
| Display.LogSummaryFromFirstLine | src/index.ts:118-120 | what the summary keeps of the text is one contiguous piece of `name \|\| text` that ends before any newline |
| Display.TwoDigitsRoundTrip | src/index.ts:126-129 | `String(n).padStart(2, '0')` below 100 is two digits that read back as `n` |
| Display.NatToStringLength | src/index.ts:130 | `String(n)` has 1, 2, 3 or 4 digits across the matching decades |
| Display.FormatTimestampRoundTrip | src/index.ts:124-131 | for a valid date with a four-digit year the stamp is 13 characters with `_` at index 8, and reads back as the same date |
| Display.FormatTimestamp | src/index.ts:124-131 | the stamp starts with `String(year)`; for a valid date of any year it has 9 more characters and ends in `_` followed by four digits; `Display.FormatTimestampRoundTrip` shows the fields read back |
| Prompts.QuitAnswers | src/index.ts:152 | `answer.toLowerCase() === 'q'` holds for exactly `q` and `Q` |
| Prompts.Input | src/index.ts:158 | the trimmed answer when it is not blank, otherwise the default answer |
| Prompts.ReadAnswer | src/index.ts:152-163 | one pass of a numeric prompt quits on exactly `q`/`Q`, and any index it accepts is below the limit |
| Prompts.ReadAnswerMeaning | src/index.ts:158-163 | an answer other than `q`/`Q` is accepted exactly when its input parses to a number from 1 to the limit, and then it selects that number minus one |
| Prompts.BlankAnswerSelectsDefault | src/index.ts:348-352 | a blank answer with default `String(d + 1)` and `d` in range selects `d` |
| Prompts.NumberAnswerSelects | src/index.ts:158-161 | typing `String(n)` with `n` from 1 to the limit selects `n - 1` |
| Prompts.TrimOfUnpadded | src/index.ts:158 | a non-empty answer with no whitespace at either end is its own trim |
| Prompts.ReadSelection | src/index.ts:150-165 | the first answer not rejected decides: a quit answer or an in-range selection, with every earlier answer rejected; no decision means every answer was rejected |
| Prompts.LogLimit | src/index.ts:151 | `Math.min(10, composers.length)` |
| Prompts.LogLimitRange | src/index.ts:160 | the log prompt accepts `num` exactly when `num >= 1 && num <= 10 && num <= composers.length` |
| Prompts.EndsWithMdMeaning | src/index.ts:177 | the two letter-by-letter suffix tests are `endsWith('.md')` of the name and of its lower-case form |
| Prompts.NormalizeFilename | src/index.ts:174-179 | the normalised name always ends in `.md` once lower-cased |
| Prompts.NormalizeFilenameMeaning | src/index.ts:174-179 | the name is the trimmed answer, or the default plus `.md` when the answer is blank; `.md` is appended exactly when the lower-cased name does not end in it |
| Prompts.MatchesFilenamePattern | src/index.ts:182 | an accepted name is longer than `.md`, ends in a lower-case `.md` and holds only letters, digits, `-`, `_` and `.`; `Prompts.FilenamePatternMeaning` gives both directions |
| Prompts.FilenamePatternMeaning | src/index.ts:182 | a name matches `/^[a-zA-Z0-9-_\.]+\.md$/` exactly when it ends in `.md` after at least one character and holds only letters, digits, `-`, `_` and `.` |
| Prompts.MixedCaseExtensionRejected | src/index.ts:174-184 | a name ending in `.md` in another letter case is kept as typed and then refused |
| Prompts.UpperCaseExtensionExample | src/index.ts:174-184 | `Report.MD` is neither re-suffixed nor accepted |
| Prompts.BlankFilename | src/index.ts:174 | a blank answer gives the default plus `.md`, accepted exactly when the default is a non-empty run of name characters |
| Prompts.PlainNameAccepted | src/index.ts:174-184 | a non-blank run of name characters without the extension gets `.md` appended and is accepted, `q` included |
| Prompts.DefaultName | src/index.ts:167-169 | the default name is the project name and `_`, followed, for a valid date of a four-digit year, by a 13-character stamp that reads back as the composer's local date of `lastUpdatedAt \|\| createdAt` |
| Prompts.PromptFilename | src/index.ts:172-186 | reading the answer stream from a given position, the first answer whose normalised name matches the pattern gives the file name, and every earlier answer from that position failed; no result means no answer from there matched |
| Prompts.PromptUser | src/index.ts:133-189 | the first answer the log prompt does not reject decides: a quit at that answer, or the log it selects, among the first ten and the composers, with every earlier answer rejected; no log means every answer was rejected; the file name is read from the answers after that one, and is the first normalised answer against the log's default name that matches the pattern, with every answer in between refused, or none matches |
| Prompts.ProjectComposers | src/index.ts:358-360 | the chosen project's composers, sorted descending by `lastUpdatedAt \|\| createdAt`, as a permutation of its entry, with composers of equal recency in entry order |
| Prompts.DefaultProjectComposers | src/index.ts:324-332 | without prompting: no result exactly when there are no projects; otherwise the composers of the current directory's project when it has one, else those of the top-ranked project |
| Prompts.AllRejectedMeaning | src/index.ts:341-356 | when a default is in range and every answer was rejected, no answer was a quit and none was blank |
| Prompts.PromptProjectSelection | src/index.ts:298-361 | the first answer not rejected decides, and every earlier answer was rejected: a chosen index is within the ranking and is what its deciding answer selects, and the returned composers are those of the chosen ranked project, most recent first; a quit is a `q`/`Q` answer; when no answer decides, every answer was rejected, and with projects present each was non-blank and not a quit |
| Details.Dirname | src/index.ts:208 | `path.dirname` of an absolute path drops its last segment, and the root is its own parent |
| Details.JoinPlain | src/index.ts:209 | `path.join` with segments that are not `..` appends those segments |
| Details.WorkspaceDbPath | src/index.ts:399-403 | for a workspace id that is not `..`, the database path is the workspace root, then the id, then `state.vscdb` |
| Details.GlobalDbPath | src/index.ts:208-209 | the global store's path is the workspace store's path without its last three segments, then `globalStorage/state.vscdb`; a path of fewer segments climbs to the root |
| Details.GlobalDbBesideWorkspaces | src/index.ts:208-209 | the global store of any workspace is `globalStorage/state.vscdb` in the parent of the directory that holds the workspaces |
| Details.DetailKey | src/index.ts:227 | the key is `composerData:` followed by the composer id |
| Details.FindComposer | src/index.ts:239 | `find` returns a member with the id, and returns nothing exactly when no member has the id |
| Details.FindComposerIsFirst | src/index.ts:239 | the composer found is the first with the id |
| Details.GetComposerDetails | src/index.ts:192-246 | nothing without a summary record; the global record exactly when the global store exists and holds the key; otherwise a summary composer with the id, and nothing exactly when no summary composer has it |
| Details.SummaryFallback | src/index.ts:237-239 | without a global record, the lookup returns the first summary composer with the id |
| Details.ToBubbles | src/index.ts:411-419 | one bubble per message, in order |
| Details.ToBubble | src/index.ts:412-414 | a bubble is `user` exactly for type 1; it carries the text, or the rich text when the text is empty; its model is `composer` and it has no selections |
| Details.ToBubblesConcat | src/index.ts:411-419 | mapping a concatenation of messages maps each part |
| Details.Transcript | src/index.ts:411-419 | the detail conversation whenever it exists, even empty; otherwise the summary's conversation; otherwise none |
| Details.Title | src/index.ts:409 | the composer's name, or its id when the name is empty |
| Details.ChatOf | src/index.ts:407-420 | the rendered chat has the composer's id, title and ISO timestamp of `lastUpdatedAt \|\| createdAt`, and one bubble per transcript message |
| Details.GlobalConversationWins | src/index.ts:404-419 | a global record with a conversation decides the transcript, even when the summary also has one |
| Output.ConvertChatToMarkdown | src/output.ts:3-28 | the string built by `+=` is the header followed by one block per bubble, in order |
| Output.BlocksConcat | src/output.ts:7-25 | the blocks of concatenated bubbles are the blocks of each part, in order |
| Output.Block | src/output.ts:9-24 | a block opens with its speaker heading and closes with the `---` rule; `Output.BlockShape` gives what lies between |
| Output.BlocksSingle | src/output.ts:7-25 | a single bubble renders as exactly one block |
| Output.MarkdownConcat | src/output.ts:4-27 | the output for `a + b` is the header, then the blocks of `a`, then the blocks of `b` |
| Output.MarkdownAppend | src/output.ts:7-25 | appending a bubble appends exactly its block to the output |
| Output.HeaderShape | src/output.ts:4-5 | the output opens with the header, and so with the title line |
| Output.TitleLineShape | src/output.ts:4 | the title line shows the title, or `Chat <id>` when the title is empty |
| Output.EmptyTranscript | src/output.ts:3-28 | with no bubbles the output is the header alone |
| Output.SpeakerHeading | src/output.ts:9 | a block opens with `### User` exactly for a user bubble, and with `### AI (<model>)` for an assistant bubble |
| Output.BlockShape | src/output.ts:12-24 | the code section is present exactly when there are selections; the text and a blank line are present exactly when the text is not empty, and then come right before the rule |
| Output.FencesConcat | src/output.ts:14-16 | one fence per selection, in order |
| Output.FencedRaw | src/output.ts:15 | a selection's text goes into its fence unescaped, right after the opening fence line |
| GitHook.BlockLines | src/git.ts:5-16 | the block has ten lines, from the start marker to the end marker |
| GitHook.HookBlockShape | src/git.ts:5-16 | trimming keeps the block from the start marker line to the end marker line; split into lines, it gives back its ten lines when the path has no newline |
| GitHook.OutputPathLines | src/git.ts:8-14 | the output path appears in the `mkdir`, export and `git add` lines |
| GitHook.BlockMarkers | src/git.ts:5-16 | for a path without `#`, only the first block line holds the start marker and only the last holds the end marker |
| GitHook.InstallContent | src/git.ts:18-40 | nothing is written exactly when the hook already mentions `Cursor Composer Export Start`; otherwise the old content, `""` for a missing file, followed by a blank line, the block and a newline |
| GitHook.InstallIdempotent | src/git.ts:27-39 | what install writes mentions the start marker, so a second install, with any path, writes nothing |
| GitHook.FindLine | src/git.ts:67-68 | `findIndex` of `includes`: -1 when no line holds the marker, otherwise the first line that does |
| GitHook.FindLineAt | src/git.ts:67-68 | the first line holding the marker is found, whatever follows it |
| GitHook.CutSection | src/git.ts:75-78 | as written: the lines before the first start-marker line and after the first end-marker line, nothing when either marker is on no line; `GitHook.CutSectionAt` states what this cuts when the section is well formed |
| GitHook.CutSectionAt | src/git.ts:66-77 | with the first start marker on line `s` and the first end marker on line `e >= s`, the lines kept are those before `s` and after `e`, so `e - s + 1` lines go |
| GitHook.RemoveContent | src/git.ts:50-80 | nothing is written for a missing file or when either marker is on no line; otherwise the kept lines, joined and trimmed |
| GitHook.RemoveWithoutMarkers | src/git.ts:70-73 | a hook lacking either marker is left alone |
| GitHook.RemoveAfterInstall | src/git.ts:39-78 | removing right after installing gives back the old content trimmed |
| GitHook.HookFile.constructor | src/git.ts:19-24 | the hook file starts with the given content, or as missing |
| GitHook.HookFile.Setup | src/git.ts:18-47 | the file's new content is what install computes, and it is unchanged when install writes nothing |
| GitHook.HookFile.Remove | src/git.ts:50-86 | the file's new content is what remove computes, and it is unchanged when remove writes nothing |
| JsString.TrimEnds | src/index.ts:158 | `trim` leaves no whitespace at either end |
| JsString.TrimPiece | src/index.ts:119 | `trim` keeps one contiguous piece, with only whitespace before and after it |
| JsString.JoinSplit | src/git.ts:66-78 | joining the lines of a string gives the string back |
| JsString.SplitJoin | src/git.ts:66 | splitting the join of newline-free lines gives those lines back |
| JsString.FirstLineIsPrefix | src/index.ts:119 | `split('\n')[0]` is a prefix that stops at the first newline |
| JsString.ParseIntOfNatToString | src/index.ts:349-350 | `parseInt(String(n))` is `n` |
| JsString.NatToString | src/index.ts:126 | `String(n)` is a run of digits, without a leading zero, whose value is `n` |
| JsString.PadStart2 | src/index.ts:126 | `padStart(2, '0')` leaves a string of two or more characters alone, and otherwise pads it on the left with `0` to length two |
| StableSort.SortDescSorted | src/index.ts:309 | the sort's result is in descending order of its key |
| StableSort.SortDescPermutes | src/index.ts:309 | the sort's result is a permutation of its input |
| StableSort.SortDescStable | src/index.ts:309 | elements with equal keys keep their input order |

## Left out

- Stores: reading the SQLite stores, `existsSync` and `JSON.parse` are left out. Both stores are maps from key to already-parsed value, and the global stores that exist are a map from path to store. A value that does not parse, which makes the source throw, is not modelled.
- Files: reading and writing the hook file, `mkdir`, `chmod +x` and writing the Markdown file are left out. The hook file is an optional string, and the other effects are outside the model.
- Console output and the exit code: the console messages, `process.exit` and error reporting are not modelled. A quit is the result `Quitted` or `UserQuit`.
- `readline`: the prompt text and the listing of logs and projects are left out. Each loop consumes a finite sequence of answers, and `Exhausted`, `Unnamed`, `NoLogChosen` and `NoFilename` stand for the terminal waiting forever.
- `getComposers`: the workspace scan, `getDefaultWorkspacePath`, `promptOutputPath`, command-line parsing and `process.cwd()` are left out. Their results, such as the composer list, the workspace root and the current directory name, are parameters. Only the sort that ends `getComposers` is modelled (`Projects.CollectedOrder`).
- `main`'s call order is not modelled as one operation. Its pieces are: the grouping, the project choice, `promptUser`, the database path, the lookup and the chat assembly.
- The `--default` file name, project name plus the current time (src/index.ts:393), is left out because the current time is not modelled.
- `Date`: `toLocaleString`, `toISOString` and the local calendar fields are function parameters (`localeString`, `isoString`, `localDate`). Time zones and their formatting are outside the model.
- Paths are absolute and are sequences of segments. `.` and empty segments are not modelled. The workspace root, and a workspace id of `..`, are handled as `path.join` handles them.
- Strings: `trim` uses the ECMAScript whitespace set, and `toLowerCase` is ASCII only. The file-name regular expression is written as a predicate.
- Prompts.DefaultProjectComposers: with no project at all, `sortedProjects[0].project` throws in the source; the model returns `None` instead.
- `types.ts`: types that only `types.ts` declares and the core never reads, such as contexts, commits and files, are left out. So is the field `context` of messages and composers. The TypeScript field `type` of a message is `role`, because `type` is a Dafny keyword.
- GitHook.RemoveAfterInstall: proved only for an output path with no `#` and no newline, and for old content holding neither `Cursor Composer Export Start` nor the end marker. A path holding `#` can put marker text on a block line other than the marker lines, so that line could be found as a marker line. A path holding a newline splits the block into more than its ten lines, so the block no longer reads back line by line (`GitHook.HookBlockShape`).
- GitHook.CutSection: when the first end marker line comes before the first start marker line, the source keeps the lines before the start and those after the end. The lines in between are then written twice and both markers stay. The model keeps this behaviour as written.
- Numbers: JavaScript numbers are doubles, and here timestamps and parsed numbers are unbounded integers. Epoch milliseconds stay far below 2^53, so timestamps are exact. A typed number can be longer, such as twenty digits, and `parseInt` then rounds it or gives `Infinity`. Rounding to a double is monotone and keeps every integer that a double holds exactly. So `num >= 1 && num <= limit`, with a small integer limit, comes out the same as on the exact value.
- A composer record lacking both `lastUpdatedAt` and `createdAt` is not modelled; `types.ts` declares both as numbers. For such a record the source's recency is `undefined`. `Math.max` then gives `NaN` and the ranking order is left to the engine, the default file name holds `NaN`, and `toISOString()` throws. The model gives every record both timestamps.
- Display.LogSummary: lengths are counted in Unicode code points, while JavaScript's `length` and `substring(0, 47)` count UTF-16 code units. So a first line with characters outside the Basic Multilingual Plane, such as emoji, can be cut at a different place, or not cut at all, and the source can leave half a surrogate pair before `...`.
