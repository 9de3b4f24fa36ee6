/**
 * The chat prompt input panel: a draft, the ordered context tags shown in its
 * header, the submit and stop buttons, and the callbacks it fires. Every
 * operation runs to completion on the UI thread, so each is one atomic step.
 */
module InputWidget {
  import opened Tags
  import opened Draft
  import opened CommitMessage
  import opened ImageAction

  /** A call the panel made to one of its two callbacks. */
  datatype Callback = Submitted(text: string) | Stopped

  /** The most recently focused source editor: its file and its selection model. */
  datatype Editor = Editor(file: FilePath, selectionModel: SelectionModel)

  /** The conversation the panel submits into. */
  class Conversation {
    var messages: seq<string>
    var model: string

    constructor (messages: seq<string>, model: string)
      ensures this.messages == messages && this.model == model
    {
      this.messages := messages;
      this.model := model;
    }
  }

  /** What selecting another model in the footer does to the conversation. */
  datatype ModelSwitch = StartedNewConversation | ReboundModel(model: string)

  class UserInputPanel {
    const conversation: Conversation
    /** The draft in the prompt text field. */
    var draft: string
    /** The tags attached so far, in insertion order (header panel and tag manager together). */
    var tags: seq<Tag>
    var submitEnabled: bool
    var stopEnabled: bool
    /** Whether the footer shows the "attach image" link. */
    var imageActionSupported: bool
    /** The caret offset the panel last moved the text field's caret to. */
    var caret: nat
    /** Every call to the submit and stop callbacks, oldest first. */
    var calls: seq<Callback>

    /** Exactly one of the submit and stop buttons is enabled. */
    ghost predicate Valid()
      reads this
    {
      submitEnabled != stopEnabled
    }

    /**
     * A new panel: empty draft, submit enabled and stop disabled. The tag
     * manager may already hold tags; if the selected editor has a selection,
     * a live editor-selection tag for it is attached after them.
     */
    constructor (conversation: Conversation, existingTags: seq<Tag>, selectedEditor: Option<Editor>,
                 service: ServiceType, codegptModel: string)
      ensures Valid()
      ensures this.conversation == conversation
      ensures draft == [] && calls == [] && caret == 0
      ensures submitEnabled && !stopEnabled
      ensures imageActionSupported == IsImageActionSupported(service, codegptModel)
      ensures tags == existingTags +
        (if selectedEditor.Some? && selectedEditor.value.selectionModel.selection.Range?
         then [EditorSelectionTag(selectedEditor.value.file, selectedEditor.value.selectionModel)]
         else [])
    {
      this.conversation := conversation;
      draft := [];
      calls := [];
      caret := 0;
      submitEnabled, stopEnabled := true, false;
      imageActionSupported := IsImageActionSupported(service, codegptModel);
      tags := existingTags;
      if selectedEditor.Some? && selectedEditor.value.selectionModel.selection.Range? {
        tags := tags + [EditorSelectionTag(selectedEditor.value.file, selectedEditor.value.selectionModel)];
      }
    }

    method GetSelectedTags() returns (r: seq<Tag>)
      ensures r == tags
    {
      r := tags;
    }

    /** Submit is enabled exactly when `enabled`; stop is enabled exactly when it is not. */
    method SetSubmitEnabled(enabled: bool)
      modifies this`submitEnabled, this`stopEnabled
      ensures Valid()
      ensures submitEnabled == enabled && stopEnabled == !enabled
    {
      submitEnabled := enabled;
      stopEnabled := !enabled;
    }

    /**
     * Forwards a non-empty text to the submit callback and clears the draft,
     * but only while submit is enabled; otherwise nothing happens.
     */
    method HandleSubmit(text: string)
      requires Valid()
      modifies this`draft, this`calls
      ensures Valid()
      ensures text != [] && submitEnabled ==> calls == old(calls) + [Submitted(text)] && draft == []
      ensures !(text != [] && submitEnabled) ==> calls == old(calls) && draft == old(draft)
    {
      if text != [] && submitEnabled {
        calls := calls + [Submitted(text)];
        draft := [];
      }
    }

    /** The submit button submits the current draft. */
    method ClickSubmit()
      requires Valid()
      modifies this`draft, this`calls
      ensures Valid()
      ensures old(draft) != [] && submitEnabled ==> calls == old(calls) + [Submitted(old(draft))] && draft == []
      ensures !(old(draft) != [] && submitEnabled) ==> calls == old(calls) && draft == old(draft)
    {
      HandleSubmit(draft);
    }

    /** The stop button calls the stop callback; a disabled button does not fire. */
    method ClickStop()
      requires Valid()
      modifies this`calls
      ensures Valid()
      ensures calls == old(calls) + (if stopEnabled then [Stopped] else [])
    {
      if stopEnabled {
        calls := calls + [Stopped];
      }
    }

    /**
     * Backspace in an empty draft detaches the last tag, keeping the others in
     * order; with a non-empty draft or no tags it changes nothing.
     */
    method HandleBackSpace()
      requires Valid()
      modifies this`tags
      ensures Valid()
      ensures draft == [] && old(tags) != [] ==> tags == old(tags)[..|old(tags)| - 1]
      ensures !(draft == [] && old(tags) != []) ==> tags == old(tags)
    {
      if draft == [] && tags != [] {
        tags := tags[..|tags| - 1];
      }
    }

    /** Attaches `tag` after the others and drops one trailing '@' from the draft. */
    method AddTag(tag: Tag)
      requires Valid()
      modifies this`tags, this`draft
      ensures Valid()
      ensures tags == old(tags) + [tag]
      ensures draft == StripTagSentinel(old(draft))
    {
      tags := tags + [tag];
      if |draft| > 0 && draft[|draft| - 1] == '@' {
        draft := draft[..|draft| - 1];
      }
    }

    /** Attaches one file tag per file, in order, leaving the draft alone. */
    method IncludeFiles(files: seq<FilePath>)
      requires Valid()
      modifies this`tags
      ensures Valid()
      ensures tags == old(tags) + FileTags(files)
    {
      var i := 0;
      while i < |files|
        invariant 0 <= i <= |files|
        invariant tags == old(tags) + FileTags(files[..i])
      {
        assert files[..i + 1][..i] == files[..i];
        tags := tags + [FileTag(files[i])];
        i := i + 1;
      }
      assert files[..i] == files;
    }

    /**
     * Attaches a selection tag for the given selection (through AddTag) and
     * clears the selection in its editor.
     */
    method AddSelection(file: FilePath, selectionModel: SelectionModel)
      requires Valid()
      modifies this`tags, this`draft, selectionModel`selection
      ensures Valid()
      ensures tags == old(tags) + [SelectionTag(file, selectionModel)]
      ensures draft == StripTagSentinel(old(draft))
      ensures selectionModel.selection == NoSelection
    {
      AddTag(SelectionTag(file, selectionModel));
      selectionModel.RemoveSelection();
    }

    /** Attaches one commit tag per commit, in order, each through AddTag. */
    method AddCommitTags(commits: seq<Commit>)
      requires Valid()
      modifies this`tags, this`draft
      ensures Valid()
      ensures tags == old(tags) + CommitTags(commits)
      ensures draft == StripTagSentinels(old(draft), |commits|)
    {
      var i := 0;
      while i < |commits|
        invariant 0 <= i <= |commits|
        invariant tags == old(tags) + CommitTags(commits[..i])
        invariant draft == StripTagSentinels(old(draft), i)
      {
        assert commits[..i + 1][..i] == commits[..i];
        AddTag(CommitTag(commits[i]));
        i := i + 1;
      }
      assert commits[..i] == commits;
    }

    /**
     * In an empty draft, writes the sentence asking to explain the commits;
     * then attaches one commit tag per commit through AddTag, and puts the
     * caret at the end of the draft when the text field has an editor.
     */
    method AddCommitReferences(commits: seq<Commit>, editorPresent: bool)
      requires Valid()
      modifies this`tags, this`draft, this`caret
      ensures Valid()
      ensures tags == old(tags) + CommitTags(commits)
      ensures old(draft) == [] ==> draft == CommitSentence(commits)
      ensures old(draft) != [] ==> draft == StripTagSentinels(old(draft), |commits|)
      ensures caret == if editorPresent then |draft| else old(caret)
    {
      if draft == [] {
        draft := CommitSentence(commits);
        if |commits| > 0 {
          CommitSentenceEndsWithBacktick(commits);
          StripTagSentinelsKeeps(draft, |commits|);
        }
      }
      AddCommitTags(commits);
      if editorPresent {
        caret := |draft|;
      }
    }

    /**
     * Selecting another model recomputes the image affordance; a conversation
     * that already has messages is replaced by a new one, an empty one is
     * rebound in place to the model `resolvedModel` the settings give for the
     * selected service.
     */
    method OnModelChanged(service: ServiceType, codegptModel: string, resolvedModel: string)
      returns (action: ModelSwitch)
      requires Valid()
      modifies this`imageActionSupported, conversation`model
      ensures Valid()
      ensures imageActionSupported == IsImageActionSupported(service, codegptModel)
      ensures conversation.messages != [] ==> action == StartedNewConversation && conversation.model == old(conversation.model)
      ensures conversation.messages == [] ==> action == ReboundModel(resolvedModel) && conversation.model == resolvedModel
    {
      imageActionSupported := IsImageActionSupported(service, codegptModel);
      if conversation.messages != [] {
        action := StartedNewConversation;
      } else {
        conversation.model := resolvedModel;
        action := ReboundModel(resolvedModel);
      }
    }
  }
}
