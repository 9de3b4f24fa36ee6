# UserInputPanel: the chat prompt input widget, modelled in Dafny

This project models the state machine of the ProxyAI (CodeGPT) IDE plugin's
chat input panel, `UserInputPanel`. The panel has a draft prompt, an ordered
row of context tags (files, selections, editor selections, commits), a submit
button and a stop button, and two callbacks (`onSubmit`, `onStop`). The host
toolkit is abstracted away. Each operation is one atomic step on a single
thread.

Modules:

- `Tags` (tags.dfy): the `Tag` variants, commits, and the editor's selection model.
  The selection model is an object, because the panel clears a selection in place.
  `FileTags` and `CommitTags` give the tags a batch operation appends.
- `Draft` (draft.dfy): the trailing-`@` stripping that adding a tag applies to the draft.
  `StripTagSentinels` gives the effect of `n` tag additions in a row.
- `CommitMessage` (commit_message.dfy): `joinToString` and the
  "Explain the commit(s) …" sentence. Lemmas say where each quoted short id
  sits in the sentence.
- `ImageAction` (image_action.dfy): the decision whether the "attach image" link is shown.
- `InputWidget` (input_panel.dfy): the class `UserInputPanel`. Its fields are the draft,
  the tags, the two button flags, the image flag, the caret and a log of callback calls.
  Its methods are the panel's operations. It also holds the `Conversation` the model
  switch acts on.

Assumptions about collaborators whose code is not part of this model:

- The header panel and the `TagManager` are one ordered sequence of tags.
  `addTag` on either appends at the end, and `getLastTag()` returns the last tag in
  insertion order. `TagManager.remove` of that tag drops the last element; this holds
  when the tag manager keeps no duplicates.
- `PromptTextField.clear()` sets the text to the empty string.
- `GitCommit.id.toShortString()` is an opaque string carried in `Commit.shortId`.
- `EditorUtil.hasSelection(editor)` holds exactly when the editor's selection model has a range.
- A disabled button does not run its action. `ClickStop` therefore fires `onStop` only
  while stop is enabled. `ClickSubmit` is still guarded inside `handleSubmit` itself.
- The settings reads (selected service, CodeGPT chat model) and the editor lookup become
  parameters. So does `getModelForSelectedService`'s answer (`resolvedModel`).

Behaviour of the code that the model keeps:

- `addCommitReferences` on a non-empty draft still removes up to one trailing `@` per commit,
  because it calls `addTag` once per commit (`StripTagSentinels(old draft, n)`).
- `addCommitReferences` with an empty commit list writes "Explain the commits " into an empty
  draft, because `joinToString` of no parts is empty, and attaches no tag. The model has no
  precondition excluding this case.
- `addSelection` does not check that the selection is non-empty, and neither does the model.
- `addCommitReferences` moves the caret only when the text field already has an editor
  (`editor?.caretModel?.moveToOffset`); the model takes that as the parameter `editorPresent`.
- Every mutating method keeps the invariant `Valid()`: exactly one of submit and stop is enabled.

## Model

| member | source | states |
|---|---|---|
| Tags.FileTags | src/main/kotlin/ee/carlrobert/codegpt/ui/textarea/UserInputPanel.kt:171-173 | exactly one `FileTag` per file, at the file's own position |
| Tags.CommitTags | src/main/kotlin/ee/carlrobert/codegpt/ui/textarea/UserInputPanel.kt:155-157 | exactly one `CommitTag` per commit, at the commit's own position |
| Draft.StripTagSentinel | src/main/kotlin/ee/carlrobert/codegpt/ui/textarea/UserInputPanel.kt:165-168 | a draft ending in `@` loses exactly that one character; any other draft, including the empty one, is kept |
| Draft.StripTagSentinels | src/main/kotlin/ee/carlrobert/codegpt/ui/textarea/UserInputPanel.kt:155-168 | after `n` tag additions the draft is a prefix of the old one; at most `n` characters are removed, all of them `@`; if fewer than `n` were removed, the rest does not end in `@` |
| Draft.StripTagSentinelsKeeps | src/main/kotlin/ee/carlrobert/codegpt/ui/textarea/UserInputPanel.kt:147-157 | a draft that does not end in `@` is unchanged by any number of tag additions |
| CommitMessage.JoinToString | src/main/kotlin/ee/carlrobert/codegpt/ui/textarea/UserInputPanel.kt:151 | Kotlin's `joinToString(", ")`: the parts in order, the separator only between neighbours; characterised by JoinPartAt, JoinSeparatorAt and JoinLayout |
| CommitMessage.Quoted | src/main/kotlin/ee/carlrobert/codegpt/ui/textarea/UserInputPanel.kt:149-151 | the backtick template around a short id; QuotedShape states that it is two characters longer and ends in a backtick |
| CommitMessage.CommitSentence | src/main/kotlin/ee/carlrobert/codegpt/ui/textarea/UserInputPanel.kt:148-152 | one commit gives "Explain the commit " then the backticked short id; any other count gives "Explain the commits " then the backticked ids joined by ", "; characterised by CommitSentenceSplit, CommitSentenceMentions, CommitSentenceSeparates, CommitSentenceEndsWithLast and CommitSentenceOfNone |
| CommitMessage.JoinPartAt | src/main/kotlin/ee/carlrobert/codegpt/ui/textarea/UserInputPanel.kt:151 | part `k` of a `joinToString` result sits at its offset, and the last part ends the string |
| CommitMessage.JoinSeparatorAt | src/main/kotlin/ee/carlrobert/codegpt/ui/textarea/UserInputPanel.kt:151 | the separator stands exactly between parts `k` and `k + 1`, and part `k + 1` starts right after it |
| CommitMessage.JoinLayout | src/main/kotlin/ee/carlrobert/codegpt/ui/textarea/UserInputPanel.kt:151 | the joined string is tiled in order by the parts, with the separator between neighbours and the last part at the end |
| CommitMessage.QuotedShortIds | src/main/kotlin/ee/carlrobert/codegpt/ui/textarea/UserInputPanel.kt:151 | one backticked short id per commit, in input order |
| CommitMessage.CommitSentenceSplit | src/main/kotlin/ee/carlrobert/codegpt/ui/textarea/UserInputPanel.kt:148-152 | the sentence is "Explain the commit " for exactly one commit and "Explain the commits " otherwise, followed by the quoted ids joined by ", " |
| CommitMessage.CommitSentenceMentions | src/main/kotlin/ee/carlrobert/codegpt/ui/textarea/UserInputPanel.kt:148-152 | each commit's backticked short id appears in the sentence at its offset, so the ids occur in input order |
| CommitMessage.CommitSentenceSeparates | src/main/kotlin/ee/carlrobert/codegpt/ui/textarea/UserInputPanel.kt:151 | exactly ", " stands between the mentions of two neighbouring commits |
| CommitMessage.CommitSentenceEndsWithLast | src/main/kotlin/ee/carlrobert/codegpt/ui/textarea/UserInputPanel.kt:148-152 | the last commit's backticked short id ends the sentence |
| CommitMessage.CommitSentenceOfNone | src/main/kotlin/ee/carlrobert/codegpt/ui/textarea/UserInputPanel.kt:148-152 | with no commits the sentence is "Explain the commits ", since the join of no parts is empty |
| CommitMessage.CommitSentenceEndsWithBacktick | src/main/kotlin/ee/carlrobert/codegpt/ui/textarea/UserInputPanel.kt:148-157 | for one or more commits the sentence ends with a backtick, so the later `@`-stripping leaves it intact |
| ImageAction.IsImageActionSupported | src/main/kotlin/ee/carlrobert/codegpt/ui/textarea/UserInputPanel.kt:276-302 | true for CUSTOM_OPENAI, ANTHROPIC, GOOGLE, OPENAI and OLLAMA; for CODEGPT true iff the model is one of the six vision literals; false for every other service |
| InputWidget.UserInputPanel.constructor | src/main/kotlin/ee/carlrobert/codegpt/ui/textarea/UserInputPanel.kt:80-125 | empty draft, submit enabled, stop disabled, no callbacks yet, image flag from the decision; an editor-selection tag is appended only when the selected editor has a selection |
| InputWidget.UserInputPanel.GetSelectedTags | src/main/kotlin/ee/carlrobert/codegpt/ui/textarea/UserInputPanel.kt:130-132 | returns the attached tags in insertion order |
| InputWidget.UserInputPanel.SetSubmitEnabled | src/main/kotlin/ee/carlrobert/codegpt/ui/textarea/UserInputPanel.kt:134-137 | submit-enabled becomes `enabled` and stop-enabled its negation, so exactly one is enabled |
| InputWidget.UserInputPanel.HandleSubmit | src/main/kotlin/ee/carlrobert/codegpt/ui/textarea/UserInputPanel.kt:218-223 | with non-empty text and submit enabled, `onSubmit` is called exactly once with that text and the draft becomes empty; otherwise no callback and the draft is unchanged |
| InputWidget.UserInputPanel.ClickSubmit | src/main/kotlin/ee/carlrobert/codegpt/ui/textarea/UserInputPanel.kt:86-88 | the submit button submits the current draft under the same guard |
| InputWidget.UserInputPanel.ClickStop | src/main/kotlin/ee/carlrobert/codegpt/ui/textarea/UserInputPanel.kt:98-103 | the stop button logs one `onStop` call while it is enabled; it starts disabled |
| InputWidget.UserInputPanel.HandleBackSpace | src/main/kotlin/ee/carlrobert/codegpt/ui/textarea/UserInputPanel.kt:229-233 | with an empty draft and at least one tag, exactly the last tag is removed and the others keep their order; otherwise the tags are unchanged |
| InputWidget.UserInputPanel.AddTag | src/main/kotlin/ee/carlrobert/codegpt/ui/textarea/UserInputPanel.kt:163-169 | the tag is appended; the draft loses one trailing `@` if it has one, and is otherwise unchanged |
| InputWidget.UserInputPanel.IncludeFiles | src/main/kotlin/ee/carlrobert/codegpt/ui/textarea/UserInputPanel.kt:171-173 | one file tag per file is appended in order; the draft is not in the frame, so it never changes |
| InputWidget.UserInputPanel.AddSelection | src/main/kotlin/ee/carlrobert/codegpt/ui/textarea/UserInputPanel.kt:139-143 | a selection tag is appended through `AddTag` (with its `@`-stripping) and the source editor's selection is cleared |
| InputWidget.UserInputPanel.AddCommitTags | src/main/kotlin/ee/carlrobert/codegpt/ui/textarea/UserInputPanel.kt:155-157 | one commit tag per commit is appended in order; each addition goes through `AddTag`, so the draft is the old draft after that many `@`-strippings |
| InputWidget.UserInputPanel.AddCommitReferences | src/main/kotlin/ee/carlrobert/codegpt/ui/textarea/UserInputPanel.kt:145-161 | one commit tag per commit, in order; an empty draft becomes exactly the commit sentence (also for no commits); a non-empty draft changes only by the `@`-stripping of the tag additions; the caret ends at the draft's length when the text field has an editor, and does not move otherwise |
| InputWidget.UserInputPanel.OnModelChanged | src/main/kotlin/ee/carlrobert/codegpt/ui/textarea/UserInputPanel.kt:247-257 | the image flag is recomputed; a conversation with messages is replaced by a new one and keeps its model; an empty one is rebound to the resolved model |

## Left out

- Painting (`paintComponent`, `paintBorder`, `getInsets`, the corner radius): purely cosmetic float geometry and theme colours.
- Thread marshalling (`runInEdt`, `invokeLater`) and focus (`requestFocus`, `requestFocusInWindow`): each operation is modelled as one atomic step on one thread, and focus has no state in the model.
- Footer construction (`getFooter`'s layout, `AnActionLink`, `ModelComboBoxAction` wiring): UI construction only; only the decision in the model-switch callback is kept (`OnModelChanged`).
- `ConversationService.startConversation` and `ChatToolWindowContentManager.createNewTabPanel`: external collaborators; `OnModelChanged` reports the decision as `StartedNewConversation` instead of performing them.
- `handleLookupAdded` and `updateUserTokens`: they forward to the lookup item and the token panel, whose code is not part of this model.
- Disposal (`Disposer.register`, `DisposableCoroutineScope`): lifecycle bookkeeping with no state the operations read.
- The `text` getter: it is the `draft` field itself.
- The caret: only the move made by `addCommitReferences` is modelled; caret movement from typing is not. The offset is counted in characters (Unicode scalar values), whereas Kotlin's `text.length` counts UTF-16 code units, so the two differ for text outside the Basic Multilingual Plane; both mean the end of the text.
- Typing in the text field: `PromptTextField` owns it; the model has no operation for it.
- InputWidget.UserInputPanel.HandleBackSpace: removes the last tag by position; the tag manager's equality-based `remove` is not part of this model.
- The service enum has more members than the six the decision names; they are all represented by `Other`.
- src/main/java/ee/carlrobert/codegpt/settings/service/anthropic/AnthropicSettingsForm.java: a Swing settings form whose only logic is field copying and turning an empty API key into null.
