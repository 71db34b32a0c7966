/**
 * The records the exporter reads from the editor's stores and the transcript
 * it renders. Optional strings whose only use is a truthiness test (`a || b`,
 * `if (a)`) are plain strings with "" standing for absent; optional values whose
 * absence behaves differently from an empty value are `Option`s. Timestamps are
 * epoch milliseconds, and every record has both. A `lastUpdatedAt` of 0 is falsy,
 * so `lastUpdatedAt || createdAt` then falls back to `createdAt`.
 */
module Types {
  import opened Wrappers

  /** One stored turn of a conversation; `role` 1 is the user, anything else the assistant. */
  datatype ComposerMessage = ComposerMessage(
    role: int,
    bubbleId: string,
    text: string,
    richText: string,
    timestamp: int)

  /** A conversation summary as the workspace store holds it. */
  datatype ComposerChat = ComposerChat(
    composerId: string,
    conversation: Option<seq<ComposerMessage>>,
    richText: string,
    text: string,
    status: string,
    lastUpdatedAt: int,
    createdAt: int,
    name: string)

  /** The record stored under `composer.composerData` in a workspace store. */
  datatype ComposerData = ComposerData(
    allComposers: seq<ComposerChat>,
    selectedComposerId: string,
    composerDataVersion: int)

  /** A summary tagged, as it is collected, with its workspace and that workspace's folder. */
  datatype WorkspaceComposer = WorkspaceComposer(
    chat: ComposerChat,
    workspaceId: string,
    workspaceFolder: Option<string>)

  datatype Selection = Selection(text: string)

  datatype BubbleKind = Ai | User

  /** One rendered turn; no selections is the same as an absent selection list. */
  datatype ChatBubble = ChatBubble(
    kind: BubbleKind,
    text: string,
    modelType: Option<string>,
    selections: seq<Selection>)

  datatype ChatTab = ChatTab(
    id: string,
    title: string,
    timestamp: string,
    bubbles: seq<ChatBubble>)
}
