/**
 * Looking up one conversation in full and turning it into a transcript:
 * `getComposerDetails` (src/index.ts) with the two stores as maps from key to
 * already-parsed value, and the message-to-bubble mapping of `main`.
 */
module Details {
  import opened Wrappers
  import opened Types
  import opened Projects

  // ---------------------------------------------------------------------------
  // Paths

  /** An absolute path as its segments, `[]` being the root. */
  type Path = seq<string>

  const STATE_DB := "state.vscdb"
  const GLOBAL_STORAGE := "globalStorage"
  const PARENT := ".."

  /** `path.dirname`: the root is its own parent. */
  function Dirname(p: Path): (r: Path)
    ensures p != [] ==> r == p[..|p| - 1]
    ensures p == [] ==> r == []
  {
    if p == [] then [] else p[..|p| - 1]
  }

  /** `path.join(p, ...segments)`, which resolves each `..` against what precedes it. */
  function JoinPath(p: Path, segments: seq<string>): (r: Path)
    decreases |segments|
  {
    if segments == [] then p
    else if segments[0] == PARENT then JoinPath(Dirname(p), segments[1..])
    else JoinPath(p + [segments[0]], segments[1..])
  }

  /** Joining segments that contain no `..` appends them. */
  lemma {:induction false} JoinPlain(p: Path, segments: seq<string>)
    requires PARENT !in segments
    ensures JoinPath(p, segments) == p + segments
    decreases |segments|
  {
    if segments != [] {
      assert segments[1..] + [] == segments[1..];
      assert PARENT !in segments[1..] by {
        forall k | 0 <= k < |segments[1..]| ensures segments[1..][k] != PARENT {
          assert segments[1..][k] == segments[k + 1];
        }
      }
      JoinPlain(p + [segments[0]], segments[1..]);
      assert p + [segments[0]] + segments[1..] == p + segments;
    }
  }

  /** `path.join(workspacePath, workspaceId, 'state.vscdb')` in `main`; a plain workspace id is appended as one segment. */
  function WorkspaceDbPath(workspaceRoot: Path, workspaceId: string): (r: Path)
    ensures workspaceId != PARENT ==> r == workspaceRoot + [workspaceId, STATE_DB]
  {
    if workspaceId != PARENT then JoinPlain(workspaceRoot, [workspaceId, STATE_DB]); JoinPath(workspaceRoot, [workspaceId, STATE_DB])
    else JoinPath(workspaceRoot, [workspaceId, STATE_DB])
  }

  /** `path.join(path.dirname(path.dirname(dbPath)), '..', 'globalStorage', 'state.vscdb')`. */
  function GlobalDbPath(dbPath: Path): (r: Path)
    ensures |dbPath| >= 3 ==> r == dbPath[..|dbPath| - 3] + [GLOBAL_STORAGE, STATE_DB]
    ensures |dbPath| < 3 ==> r == [GLOBAL_STORAGE, STATE_DB]
  {
    var up := Dirname(Dirname(dbPath));
    assert [PARENT, GLOBAL_STORAGE, STATE_DB][1..] == [GLOBAL_STORAGE, STATE_DB];
    JoinPlain(Dirname(up), [GLOBAL_STORAGE, STATE_DB]);
    JoinPath(up, [PARENT, GLOBAL_STORAGE, STATE_DB])
  }

  /** The global store is `globalStorage/state.vscdb` beside the directory holding every workspace directory. */
  lemma GlobalDbBesideWorkspaces(workspaceRoot: Path, workspaceId: string)
    requires workspaceId != PARENT
    ensures GlobalDbPath(WorkspaceDbPath(workspaceRoot, workspaceId)) == Dirname(workspaceRoot) + [GLOBAL_STORAGE, STATE_DB]
  {
    var db := WorkspaceDbPath(workspaceRoot, workspaceId);
    assert Dirname(db) == workspaceRoot + [workspaceId];
    assert Dirname(Dirname(db)) == workspaceRoot;
    var segments := [PARENT, GLOBAL_STORAGE, STATE_DB];
    assert segments[1..] == [GLOBAL_STORAGE, STATE_DB];
    JoinPlain(Dirname(workspaceRoot), [GLOBAL_STORAGE, STATE_DB]);
  }

  // ---------------------------------------------------------------------------
  // The two stores

  /** The `ItemTable` key of the workspace summary record. */
  const SUMMARY_KEY := "composer.composerData"

  /** The `cursorDiskKV` key of a conversation's full record. */
  function DetailKey(composerId: string): (k: string)
    ensures |k| == |"composerData:"| + |composerId|
    ensures k[..|"composerData:"|] == "composerData:" && k[|"composerData:"|..] == composerId
  {
    "composerData:" + composerId
  }

  /** The full record of a conversation in the global store; only its conversation is read. */
  datatype DetailRecord = DetailRecord(conversation: Option<seq<ComposerMessage>>)

  /** What `getComposerDetails` returns when it finds something: the global record, or a summary composer. */
  datatype Lookup = FromGlobal(record: DetailRecord) | FromSummary(chat: ComposerChat)

  /** `allComposers.find(c => c.composerId === composerId)`. */
  function FindComposer(all: seq<ComposerChat>, composerId: string): (r: Option<ComposerChat>)
    ensures r.Some? ==> r.value in all && r.value.composerId == composerId
    ensures r.None? <==> forall c :: c in all ==> c.composerId != composerId
    decreases |all|
  {
    if all == [] then None
    else if all[0].composerId == composerId then Some(all[0])
    else
      var r := FindComposer(all[1..], composerId);
      assert forall c :: c in all[1..] ==> c in all;
      assert forall c :: c in all ==> c == all[0] || c in all[1..];
      r
  }

  /** The composer found is the first one with the id. */
  lemma {:induction false} FindComposerIsFirst(all: seq<ComposerChat>, composerId: string, i: nat)
    requires i < |all| && all[i].composerId == composerId
    requires forall j :: 0 <= j < i ==> all[j].composerId != composerId
    ensures FindComposer(all, composerId) == Some(all[i])
    decreases i
  {
    if i > 0 {
      assert all[0].composerId != composerId;
      FindComposerIsFirst(all[1..], composerId, i - 1);
    }
  }

  /**
   * `getComposerDetails(dbPath, composerId)`: nothing without a summary
   * record; otherwise the global record under `composerData:<id>` when the
   * global store exists and holds one, and otherwise the first summary
   * composer with the id, if any. `workspace` is the store opened at `dbPath`;
   * `globalStores` holds the stores that exist, by path.
   */
  function GetComposerDetails(
    workspace: map<string, ComposerData>,
    globalStores: map<Path, map<string, DetailRecord>>,
    dbPath: Path,
    composerId: string): (r: Option<Lookup>)
    ensures SUMMARY_KEY !in workspace ==> r.None?
    ensures SUMMARY_KEY in workspace && GlobalDbPath(dbPath) in globalStores
            && DetailKey(composerId) in globalStores[GlobalDbPath(dbPath)] ==>
              r == Some(FromGlobal(globalStores[GlobalDbPath(dbPath)][DetailKey(composerId)]))
    ensures r.Some? && r.value.FromSummary? ==>
              && SUMMARY_KEY in workspace
              && r.value.chat in workspace[SUMMARY_KEY].allComposers
              && r.value.chat.composerId == composerId
              && (GlobalDbPath(dbPath) in globalStores ==> DetailKey(composerId) !in globalStores[GlobalDbPath(dbPath)])
    ensures r.Some? && r.value.FromGlobal? ==>
              && SUMMARY_KEY in workspace
              && GlobalDbPath(dbPath) in globalStores
              && DetailKey(composerId) in globalStores[GlobalDbPath(dbPath)]
    ensures SUMMARY_KEY in workspace
            && !(GlobalDbPath(dbPath) in globalStores && DetailKey(composerId) in globalStores[GlobalDbPath(dbPath)]) ==>
              (r.None? <==> forall c :: c in workspace[SUMMARY_KEY].allComposers ==> c.composerId != composerId)
    ensures r.None? && SUMMARY_KEY in workspace ==>
              forall c :: c in workspace[SUMMARY_KEY].allComposers ==> c.composerId != composerId
  {
    if SUMMARY_KEY !in workspace then None
    else
      var globalPath := GlobalDbPath(dbPath);
      if globalPath in globalStores && DetailKey(composerId) in globalStores[globalPath] then
        Some(FromGlobal(globalStores[globalPath][DetailKey(composerId)]))
      else
        match FindComposer(workspace[SUMMARY_KEY].allComposers, composerId)
        case None => None
        case Some(c) => Some(FromSummary(c))
  }

  /** Without the global record, the lookup falls back to the first summary composer with the id. */
  lemma SummaryFallback(
    workspace: map<string, ComposerData>,
    globalStores: map<Path, map<string, DetailRecord>>,
    dbPath: Path,
    composerId: string,
    i: nat)
    requires SUMMARY_KEY in workspace
    requires GlobalDbPath(dbPath) in globalStores ==> DetailKey(composerId) !in globalStores[GlobalDbPath(dbPath)]
    requires var all := workspace[SUMMARY_KEY].allComposers;
             i < |all| && all[i].composerId == composerId
             && forall j :: 0 <= j < i ==> all[j].composerId != composerId
    ensures GetComposerDetails(workspace, globalStores, dbPath, composerId)
            == Some(FromSummary(workspace[SUMMARY_KEY].allComposers[i]))
  {
    FindComposerIsFirst(workspace[SUMMARY_KEY].allComposers, composerId, i);
  }

  // ---------------------------------------------------------------------------
  // Messages to bubbles

  const COMPOSER_MODEL := "composer"

  /**
   * `{ type: msg.type === 1 ? 'user' : 'ai', text: msg.text || msg.richText, modelType: 'composer' }`:
   * a bubble says `user` exactly for a message of type 1, and carries its
   * text, or its rich text when the text is empty.
   */
  function ToBubble(m: ComposerMessage): (r: ChatBubble)
    ensures r.kind.User? <==> m.role == 1
    ensures m.text != "" ==> r.text == m.text
    ensures m.text == "" ==> r.text == m.richText
    ensures r.modelType == Some(COMPOSER_MODEL) && r.selections == []
  {
    ChatBubble(if m.role == 1 then User else Ai, if m.text != "" then m.text else m.richText, Some(COMPOSER_MODEL), [])
  }

  /** `conversation.map(...)`: one bubble per message, in order. */
  function ToBubbles(msgs: seq<ComposerMessage>): (r: seq<ChatBubble>)
    ensures |r| == |msgs|
    ensures forall i :: 0 <= i < |msgs| ==> r[i] == ToBubble(msgs[i])
    decreases |msgs|
  {
    if msgs == [] then []
    else
      var rest := ToBubbles(msgs[1..]);
      assert forall i :: 1 <= i < |msgs| ==> msgs[1..][i - 1] == msgs[i];
      [ToBubble(msgs[0])] + rest
  }

  /** Mapping a concatenation maps each part. */
  lemma ToBubblesConcat(a: seq<ComposerMessage>, b: seq<ComposerMessage>)
    ensures ToBubbles(a + b) == ToBubbles(a) + ToBubbles(b)
  {
    var l := ToBubbles(a + b);
    var r := ToBubbles(a) + ToBubbles(b);
    assert |l| == |r|;
    forall i | 0 <= i < |l| ensures l[i] == r[i] {
      if i < |a| {
        assert (a + b)[i] == a[i];
      } else {
        assert (a + b)[i] == b[i - |a|];
      }
    }
  }

  /** The conversation a lookup result carries, if it has one. */
  function DetailConversation(d: Option<Lookup>): Option<seq<ComposerMessage>> {
    match d
    case None => None
    case Some(FromGlobal(record)) => record.conversation
    case Some(FromSummary(chat)) => chat.conversation
  }

  /**
   * `details?.conversation?.map(...) || selected.conversation?.map(...) || []`:
   * an array, even an empty one, is truthy, so the detail conversation wins
   * whenever it exists.
   */
  function Transcript(details: Option<Lookup>, selected: ComposerChat): (r: seq<ComposerMessage>)
    ensures DetailConversation(details).Some? ==> r == DetailConversation(details).value
    ensures DetailConversation(details).None? && selected.conversation.Some? ==> r == selected.conversation.value
    ensures DetailConversation(details).None? && selected.conversation.None? ==> r == []
  {
    match DetailConversation(details)
    case Some(msgs) => msgs
    case None => selected.conversation.GetOr([])
  }

  /** `selected.name || selected.composerId`. */
  function Title(selected: ComposerChat): (r: string)
    ensures selected.name != "" ==> r == selected.name
    ensures selected.name == "" ==> r == selected.composerId
  {
    if selected.name != "" then selected.name else selected.composerId
  }

  /**
   * The chat `main` hands to the renderer. `isoString` stands for
   * `new Date(ms).toISOString()`.
   */
  function ChatOf(selected: WorkspaceComposer, details: Option<Lookup>, isoString: int -> string): (tab: ChatTab)
    ensures tab.id == selected.chat.composerId
    ensures tab.title == Title(selected.chat)
    ensures tab.timestamp == isoString(Recency(selected))
    ensures |tab.bubbles| == |Transcript(details, selected.chat)|
    ensures forall i :: 0 <= i < |tab.bubbles| ==> tab.bubbles[i] == ToBubble(Transcript(details, selected.chat)[i])
  {
    ChatTab(selected.chat.composerId, Title(selected.chat), isoString(Recency(selected)), ToBubbles(Transcript(details, selected.chat)))
  }

  /** A global record with a conversation decides the transcript even when the summary has one too, and even when it is empty. */
  lemma GlobalConversationWins(
    workspace: map<string, ComposerData>,
    globalStores: map<Path, map<string, DetailRecord>>,
    selected: WorkspaceComposer,
    dbPath: Path,
    msgs: seq<ComposerMessage>)
    requires SUMMARY_KEY in workspace && GlobalDbPath(dbPath) in globalStores
    requires DetailKey(selected.chat.composerId) in globalStores[GlobalDbPath(dbPath)]
    requires globalStores[GlobalDbPath(dbPath)][DetailKey(selected.chat.composerId)].conversation == Some(msgs)
    ensures Transcript(GetComposerDetails(workspace, globalStores, dbPath, selected.chat.composerId), selected.chat) == msgs
  {
  }
}
