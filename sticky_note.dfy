/** One note card (src/components/EditableStickyNote.tsx): a display mode
    showing the preview text, and an edit mode with one attached editor.
    The editor library is foreign code: an attached editor is an `Editor`
    value, the result of its asynchronous `save()` is a parameter of
    `HandleSave`, and `JSON.parse` / `JSON.stringify` are the card's
    `parse` / `serialize` functions. */
module StickyNote {
  import opened Wrappers
  import opened DisplayText

  /** An attached editor: the `serial`-th one this card created, loaded
      with the blocks of the note (`None`: the empty document `{}` or a
      value without blocks). */
  datatype Editor = Editor(serial: nat, loaded: Option<seq<Block>>)

  /** What the editor's `save()` resolves with. */
  datatype OutputData = OutputData(time: int, blocks: seq<Block>, version: string)

  /** Why the editor's `save()` rejected. */
  datatype SaveError = SaveError(reason: string)

  /** The initial data of `initializeEditor`: `{}` (no blocks) for empty
      content, otherwise what `JSON.parse(content)` gives; `None` when that
      parse throws, so that no editor can be built. `Some(bs)` is the
      blocks the editor is loaded with. */
  function InitialData(content: string, parsed: Parsed): (r: Option<Option<seq<Block>>>)
    ensures r.None? <==> content != "" && parsed.NotJson?
    ensures content == "" ==> r == Some(None)
    ensures content != "" && parsed.Json? ==> r == Some(parsed.blocks)
  {
    if content == "" then Some(None)
    else match parsed
      case NotJson => None
      case Json(blocks) => Some(blocks)
  }

  class Card {
    const parse: string -> Parsed
    const serialize: OutputData -> string
    /** Whether the parent passed an `onSave` callback. */
    const hasOnSave: bool

    var isEditing: bool
    var noteContent: string
    var displayContent: string
    /** `editorInstanceRef.current`. */
    var editorInstance: Option<Editor>

    /** How many editors this card has constructed, and how many
        `destroy()` calls it has made: a record of its calls into the
        editor library. */
    var created: nat
    var destroyed: nat

    /** An editor is attached only in edit mode, it is the latest one
        created, every earlier one was destroyed, and the preview is what
        the content effect leaves in place when it runs again. */
    ghost predicate Valid()
      reads this
    {
      (editorInstance.Some? ==> isEditing)
      && created == destroyed + (if editorInstance.Some? then 1 else 0)
      && (editorInstance.Some? ==> editorInstance.value.serial + 1 == created)
      && displayContent != ""
      && displayContent == Refresh(displayContent, noteContent, parse(noteContent))
    }

    /** Mounting: display mode, the given content, the placeholder as the
        first preview, then the content effect. */
    constructor (initialContent: string, parse: string -> Parsed, serialize: OutputData -> string, hasOnSave: bool)
      ensures Valid()
      ensures this.parse == parse && this.serialize == serialize && this.hasOnSave == hasOnSave
      ensures !isEditing && noteContent == initialContent && editorInstance == None
      ensures displayContent == Refresh(Placeholder, initialContent, parse(initialContent))
      ensures created == 0 && destroyed == 0
    {
      this.parse := parse;
      this.serialize := serialize;
      this.hasOnSave := hasOnSave;
      isEditing := false;
      noteContent := initialContent;
      editorInstance := None;
      created, destroyed := 0, 0;
      displayContent := Refresh(Placeholder, initialContent, parse(initialContent));
      new;
      RefreshIdempotent(Placeholder, noteContent, parse(noteContent));
      RefreshNonEmpty(Placeholder, noteContent, parse(noteContent));
    }

    /** `handleNoteClick`: enter edit mode. The editor itself is attached
        by a later `InitializeEditor` step (the deferred tick). */
    method HandleNoteClick()
      requires Valid()
      modifies this
      ensures Valid()
      ensures isEditing
      ensures noteContent == old(noteContent) && displayContent == old(displayContent)
      ensures editorInstance == old(editorInstance)
      ensures created == old(created) && destroyed == old(destroyed)
    {
      isEditing := true;
    }

    /** `initializeEditor`, as one atomic step. It does nothing when an
        editor is already attached or when the editor's mount point is not
        in the page (it is rendered only in edit mode), and fails without
        attaching when the content cannot be loaded. */
    method InitializeEditor()
      requires Valid()
      modifies this
      ensures Valid()
      ensures isEditing == old(isEditing)
      ensures noteContent == old(noteContent) && displayContent == old(displayContent)
      ensures destroyed == old(destroyed)
      ensures
        if old(editorInstance).None? && old(isEditing) && InitialData(old(noteContent), parse(old(noteContent))).Some? then
          editorInstance == Some(Editor(old(created), InitialData(noteContent, parse(noteContent)).value))
          && created == old(created) + 1
        else
          editorInstance == old(editorInstance) && created == old(created)
    {
      if editorInstance.Some? || !isEditing {
        return;
      }
      var data := InitialData(noteContent, parse(noteContent));
      if data.None? {
        return;
      }
      editorInstance := Some(Editor(created, data.value));
      created := created + 1;
    }

    /** `handleSave`, given what the attached editor's `save()` resolved
        with. On success: store the serialized data, hand exactly that
        string to `onSave` (the returned value), destroy the editor and
        leave edit mode; the content effect then refreshes the preview.
        A rejected save, or no editor, changes nothing. */
    method HandleSave(outcome: Result<OutputData, SaveError>) returns (emitted: Option<string>)
      requires Valid()
      modifies this
      ensures Valid()
      ensures created == old(created)
      ensures
        if old(editorInstance).Some? && outcome.Success? then
          noteContent == serialize(outcome.value)
          && emitted == (if hasOnSave then Some(noteContent) else None)
          && editorInstance == None && !isEditing
          && destroyed == old(destroyed) + 1
          && displayContent == Refresh(old(displayContent), noteContent, parse(noteContent))
        else
          emitted == None
          && noteContent == old(noteContent) && displayContent == old(displayContent)
          && editorInstance == old(editorInstance) && isEditing == old(isEditing)
          && destroyed == old(destroyed)
    {
      emitted := None;
      if editorInstance.None? {
        return;
      }
      match outcome
      case Failure(_) =>
        return;
      case Success(savedData) =>
        var jsonContent := serialize(savedData);
        noteContent := jsonContent;
        if hasOnSave {
          emitted := Some(jsonContent);
        }
        destroyed := destroyed + 1;
        editorInstance := None;
        isEditing := false;
        RefreshIdempotent(displayContent, noteContent, parse(noteContent));
        RefreshNonEmpty(displayContent, noteContent, parse(noteContent));
        displayContent := Refresh(displayContent, noteContent, parse(noteContent));
    }

    /** `handleCancel`: destroy the editor if there is one and leave edit
        mode; the content and its preview stay as they were. */
    method HandleCancel()
      requires Valid()
      modifies this
      ensures Valid()
      ensures editorInstance == None && !isEditing
      ensures noteContent == old(noteContent) && displayContent == old(displayContent)
      ensures created == old(created)
      ensures destroyed == old(destroyed) + (if old(editorInstance).Some? then 1 else 0)
    {
      if editorInstance.Some? {
        destroyed := destroyed + 1;
      }
      editorInstance := None;
      isEditing := false;
    }
  }

  /** Open a fresh empty card, attach its editor and save: the card is back
      in display mode, shows the preview of the stored string and handed
      that string to `onSave` once. */
  method EditAndSave(parse: string -> Parsed, serialize: OutputData -> string, data: OutputData)
    returns (editing: bool, content: string, shown: string, emitted: Option<string>)
    ensures !editing
    ensures content == serialize(data) && emitted == Some(content)
    ensures shown == Refresh(Placeholder, content, parse(content))
  {
    var card := new Card("", parse, serialize, true);
    assert card.displayContent == Placeholder;
    card.HandleNoteClick();
    card.InitializeEditor();
    emitted := card.HandleSave(Success(data));
    editing, content, shown := card.isEditing, card.noteContent, card.displayContent;
  }

  /** A save that rejects keeps the card in edit mode with its editor and
      content, and nothing reaches `onSave`; a cancel then closes it. The
      same holds for content the editor cannot load, where Save finds no
      editor. */
  method FailedSaveThenCancel(parse: string -> Parsed, serialize: OutputData -> string, initial: string, error: SaveError)
    returns (editingAfterSave: bool, emitted: Option<string>, editingAfterCancel: bool, content: string)
    ensures editingAfterSave && emitted == None
    ensures !editingAfterCancel && content == initial
  {
    var card := new Card(initial, parse, serialize, true);
    card.HandleNoteClick();
    card.InitializeEditor();
    emitted := card.HandleSave(Failure(error));
    editingAfterSave := card.isEditing;
    card.HandleCancel();
    editingAfterCancel, content := card.isEditing, card.noteContent;
  }

  /** A second trigger while editing attaches no second editor. */
  method DoubleClick(parse: string -> Parsed, serialize: OutputData -> string, initial: string)
    returns (editorsCreated: nat, attached: Option<Editor>)
    requires InitialData(initial, parse(initial)).Some?
    ensures editorsCreated == 1
    ensures attached == Some(Editor(0, InitialData(initial, parse(initial)).value))
  {
    var card := new Card(initial, parse, serialize, true);
    card.HandleNoteClick();
    card.InitializeEditor();
    card.HandleNoteClick();
    card.InitializeEditor();
    editorsCreated, attached := card.created, card.editorInstance;
  }

  /** Cancelling before the deferred tick: the mount point is gone when
      the tick runs, so no editor is attached. */
  method CancelBeforeTick(parse: string -> Parsed, serialize: OutputData -> string, initial: string)
    returns (editorsCreated: nat, editing: bool)
    ensures editorsCreated == 0 && !editing
  {
    var card := new Card(initial, parse, serialize, true);
    card.HandleNoteClick();
    card.HandleCancel();
    card.InitializeEditor();
    editorsCreated, editing := card.created, card.isEditing;
  }

  /** Content that is not JSON cannot be opened in the editor: the card
      enters edit mode without an editor, and saving does nothing. */
  method NonJsonContentNotEditable(parse: string -> Parsed, serialize: OutputData -> string, initial: string, data: OutputData)
    returns (attached: Option<Editor>, emitted: Option<string>, editing: bool)
    requires initial != "" && parse(initial).NotJson?
    ensures attached == None && emitted == None && editing
  {
    var card := new Card(initial, parse, serialize, true);
    card.HandleNoteClick();
    card.InitializeEditor();
    attached := card.editorInstance;
    emitted := card.HandleSave(Success(data));
    editing := card.isEditing;
  }
}
