# Editable sticky notes — a verified model

The application shows a grid of sticky notes. The root component keeps an
ordered collection of notes `{id, content}`: it starts with three empty
notes, `addNewNote` appends an empty note whose id is one more than the
largest id, and `handleNoteSave(id, content)` replaces the content of the
note with that id. Each note is shown by a card. The card is either in
display mode, where it shows a preview text derived from its content, or
in edit mode, where one block editor is attached to it. Save stores the
editor's serialized document, hands it to the card's `onSave` callback
(bound to the note's id) and closes the editor. Cancel closes the editor
and leaves the content alone.

The model has five modules:

- `Wrappers` (`wrappers.dfy`): `Option`, for absent (`undefined`) values, and `Result`, for a promise that may reject.
- `NoteCollection` (`notes.dfy`): the collection as functions on `seq<Note>`. It also has a sequence of
  user actions (`Run`) and the invariants those actions keep.
- `DisplayText` (`display.dfy`): the preview effect, as pure functions. The result of `JSON.parse` is
  given as a `Parsed` value, `NotJson | Json(blocks)`, so JSON text syntax is not modelled.
- `StickyNote` (`sticky_note.dfy`): the card, as a class with fields `isEditing`, `noteContent`,
  `displayContent` and `editorInstance`. Its methods are the four handlers. The `Valid()`
  invariant says four things:
  - an editor is attached only in edit mode;
  - every editor but the attached one has been destroyed;
  - the preview is never empty;
  - the preview is a fixed point of the content effect.
- `App` (`app.dfy`): the root component with its cards. A `Board` holds the notes and one card per
  note, and each card's save is routed to `handleNoteSave` with that note's id.

Foreign code is treated as follows:

- `JSON.parse` is the card's `parse` function-valued constant, and `JSON.stringify` is its
  `serialize` constant. Both are arbitrary, and nothing assumes that one inverts the other.
- An attached editor is an `Editor` value. It records its serial number and the blocks it was loaded with.
- What the editor's `save()` resolves or rejects with is the `outcome` parameter of `HandleSave`.
- The card's `created` and `destroyed` counters record its calls to the editor's constructor and to `destroy()`.

The model follows the code in three places where another behaviour might be expected:

- Only an empty joined text is replaced by the placeholder. A whitespace-only text is shown as it is.
- Content that is not empty and not JSON cannot be opened in the editor. `initializeEditor` evaluates
  `JSON.parse(noteContent)` for the initial data, which throws, so no editor is attached. The card then
  stays in edit mode with nothing to save, and Cancel is the only way out
  (`StickyNote.NonJsonContentNotEditable`).
- `addNewNote` on an empty collection is excluded by a precondition. There, `Math.max()` gives minus
  infinity. The collection can never become empty (`NoteCollection.RunPreserves`).

## Model

| member | source | states |
|---|---|---|
| `NoteCollection.InitialNotes` | src/App.tsx:101-105 | the collection starts as three notes with ids 1, 2, 3 and empty content |
| `NoteCollection.MaxId` | src/App.tsx:119 | `Math.max` of the ids: it is one of the ids and no id exceeds it; needs a non-empty collection |
| `NoteCollection.AddNewNote` | src/App.tsx:118-121 | appends exactly one note at the end; the earlier notes are the old collection unchanged; the new note is empty and its id is one more than an existing id and greater than all of them |
| `NoteCollection.HandleNoteSave` | src/App.tsx:108-115 | keeps length, order and every id; each note with the given id gets the new content, every other note is unchanged |
| `NoteCollection.Lookup` | src/App.tsx:110 | an observer the source does not have, used to state what a save leaves behind; it matches on `note.id === noteId`: it finds something exactly when a note has that id, and what it finds is the content of the first note with that id |
| `NoteCollection.Apply` | src/App.tsx:108-121 | one user action (add or save) leaves a non-empty collection |
| `NoteCollection.Run` | src/App.tsx:100-121 | any sequence of actions, applied in order from a non-empty collection, leaves a non-empty collection |
| `NoteCollection.InitialNotesWellFormed` | src/App.tsx:101-105 | the initial ids are positive and strictly increasing |
| `NoteCollection.IncreasingIsUnique` | src/types/index.ts:1-4 | strictly increasing ids are unique |
| `NoteCollection.AddNewNoteNextId` | src/App.tsx:118-121 | on increasing ids, the new note is `{last id + 1, ""}` |
| `NoteCollection.AddNewNotePreserves` | src/App.tsx:118-121 | adding keeps the collection non-empty with positive, strictly increasing ids |
| `NoteCollection.HandleNoteSavePreserves` | src/App.tsx:108-115 | saving keeps the collection non-empty with positive, strictly increasing ids |
| `NoteCollection.SaveUnknownIdIsNoOp` | src/App.tsx:109-113 | saving to an id no note has returns the collection unchanged |
| `NoteCollection.SaveThenLookup` | src/App.tsx:109-113 | after a save, that id reads as the saved content (or is still absent), and every other id reads as before |
| `NoteCollection.SaveLastWins` | src/App.tsx:109-113 | two saves to one id equal the second save alone: content is replaced wholesale |
| `NoteCollection.SavesCommute` | src/App.tsx:109-113 | saves to different ids do not interfere, in either order |
| `NoteCollection.CardSaveIsolated` | src/App.tsx:131-135 | with unique ids, the save bound to the note at position `i` sets that note to `{id, content}` and leaves every other position unchanged |
| `NoteCollection.ApplyPreserves` | src/App.tsx:108-121 | one action keeps the collection well formed, keeps every existing id in place, and grows it by one note exactly for an add |
| `NoteCollection.RunPreserves` | src/App.tsx:100-121 | any sequence of adds and saves keeps the collection non-empty with positive, strictly increasing ids; earlier ids stay in place (never reused or reordered); the length grows by the number of adds |
| `NoteCollection.RunFromInitial` | src/App.tsx:100-121 | from the initial collection, after any actions, ids are unique and strictly increasing and there are 3 + (number of adds) notes |
| `NoteCollection.AddToInitial` | src/App.tsx:101-121 | adding to the initial collection appends `{4, ""}` |
| `NoteCollection.SaveToInitial` | src/App.tsx:101-113 | saving content `c` to note 2 of the initial collection gives `[{1,""},{2,c},{3,""}]` |
| `NoteCollection.SaveThenAddToInitial` | src/App.tsx:101-121 | that save followed by an add gives `[{1,""},{2,c},{3,""},{4,""}]` |
| `DisplayText.Join` | src/components/EditableStickyNote.tsx:252 | `Array.prototype.join`: no parts join to the empty string and a single part joins to itself (with `JoinAppend`, this fixes every join) |
| `DisplayText.TemplateText` | src/components/EditableStickyNote.tsx:254 | how a template literal spells a value: an absent text is `undefined`, a present one is itself |
| `DisplayText.CheckLine` | src/components/EditableStickyNote.tsx:257 | a checklist line is `✓` for a ticked item or `○` for an open one, then a space, then exactly the item's text |
| `DisplayText.CheckLines` | src/components/EditableStickyNote.tsx:256-258 | `items.map(...)` over a checklist: one line per item, in order, each the item's own line |
| `DisplayText.RenderBlock` | src/components/EditableStickyNote.tsx:246-261 | a block throws exactly when it is a list or checklist without `items`; paragraph, header and any other type except list, quote and checklist give the text, or the empty string when it is absent; a quote is its text, as a template literal spells it, between two double quotes |
| `DisplayText.RenderBlocks` | src/components/EditableStickyNote.tsx:244-262 | gives the texts exactly when no block throws; then there is one text per block, in order, each the block's own rendering |
| `DisplayText.BlocksText` | src/components/EditableStickyNote.tsx:244-263 | the blocks' texts joined by blank lines: defined exactly when no block throws; no blocks give the empty text, and one block gives its own text |
| `DisplayText.Projection` | src/components/EditableStickyNote.tsx:238-273 | empty content gives the placeholder; non-empty content that is not JSON is shown verbatim; the preview is left unchanged exactly when the content is not empty and parses with missing or empty `blocks`; an assigned preview is never empty; for non-empty content with blocks it is the raw content when a block throws, the placeholder when the joined text is empty, and the joined text otherwise |
| `DisplayText.Refresh` | src/components/EditableStickyNote.tsx:238-273 | the conditional `setDisplayContent`: the placeholder for empty content, the content itself when it is not JSON, the previous preview when it parses without blocks, and for a document with blocks the raw content when a block throws, the placeholder when the joined text is empty, and the joined text otherwise |
| `DisplayText.RefreshIdempotent` | src/components/EditableStickyNote.tsx:238-273 | running the effect again on the same content changes nothing: re-rendering identical content gives an identical preview |
| `DisplayText.RefreshForgetsPrevious` | src/components/EditableStickyNote.tsx:238-273 | except when the content parses without blocks, the preview depends only on the content and not on the previous preview |
| `DisplayText.RefreshNonEmpty` | src/components/EditableStickyNote.tsx:234-273 | a non-empty preview never becomes empty |
| `DisplayText.JoinAppend` | src/components/EditableStickyNote.tsx:263 | joining `a + b` is joining `a`, the separator, then joining `b` |
| `DisplayText.RenderBlocksAppend` | src/components/EditableStickyNote.tsx:244-262 | the texts of `a + b` are the texts of `a` followed by those of `b` |
| `DisplayText.BlocksTextAppend` | src/components/EditableStickyNote.tsx:244-263 | the text of `a + b` is the text of `a`, a blank line, then the text of `b` |
| `DisplayText.DocumentAppend` | src/components/EditableStickyNote.tsx:243-264 | a document made of two non-empty parts that both render shows the parts' texts with a blank line between them |
| `DisplayText.DocumentThrows` | src/components/EditableStickyNote.tsx:243-268 | one block that throws, at any position, makes the preview the raw content |
| `DisplayText.ListShort` | src/components/EditableStickyNote.tsx:251-252 | a list of no items is the empty string and a list of one item is that item, whatever its other fields |
| `DisplayText.ListAppend` | src/components/EditableStickyNote.tsx:251-252 | list items are separated by a new line and a bullet |
| `DisplayText.ChecklistShort` | src/components/EditableStickyNote.tsx:255-258 | an empty checklist is the empty string and a one-item checklist is that item's line |
| `DisplayText.ChecklistAppend` | src/components/EditableStickyNote.tsx:255-258 | checklist lines are separated by a single new line |
| `DisplayText.SingleBlock` | src/components/EditableStickyNote.tsx:243-268 | a one-block document shows that block's text, or the placeholder if the text is empty, or the raw content if the block throws |
| `DisplayText.ParagraphThenList` | src/components/EditableStickyNote.tsx:244-264 | a paragraph "hi" then a list ["a","b"] shows `"hi\n\na\n• b"` |
| `DisplayText.ChecklistLines` | src/components/EditableStickyNote.tsx:255-258 | a checklist with a ticked item "x" and an open item "y" shows `"✓ x\n○ y"` |
| `DisplayText.QuoteWrapped` | src/components/EditableStickyNote.tsx:253-254 | a quote shows its text in double quotes, and an absent text shows as `"undefined"` |
| `DisplayText.MissingItemsShowsContent` | src/components/EditableStickyNote.tsx:251-258 | a list or checklist without `items` throws, and the catch at 266-268 shows the raw content |
| `StickyNote.InitialData` | src/components/EditableStickyNote.tsx:374 | `noteContent ? JSON.parse(noteContent) : {}`: it fails exactly for non-empty content that is not JSON; empty content gives a document without blocks; otherwise the parsed blocks |
| `StickyNote.Card.constructor` | src/components/EditableStickyNote.tsx:228-273 | a new card is in display mode with the initial content and no editor, and shows the effect's result starting from the placeholder |
| `StickyNote.Card.HandleNoteClick` | src/components/EditableStickyNote.tsx:382-388 | enters edit mode and changes nothing else; the editor is attached by a separate `InitializeEditor` step |
| `StickyNote.Card.InitializeEditor` | src/components/EditableStickyNote.tsx:275-380 | a no-op when an editor is attached or the card is not editing (no mount point); otherwise it attaches exactly one new editor loaded with the content's blocks, unless the content is non-empty and not JSON; mode, content and preview never change |
| `StickyNote.Card.HandleSave` | src/components/EditableStickyNote.tsx:390-412 | with an editor and a successful save: content becomes `serialize(data)`, exactly that string is handed to `onSave` once, the editor is destroyed and cleared, display mode, and the preview is refreshed; a rejected save or no editor changes nothing and calls nothing |
| `StickyNote.Card.HandleCancel` | src/components/EditableStickyNote.tsx:414-421 | destroys the editor if there is one, clears it and leaves edit mode; content and preview unchanged, and `onSave` is not called |
| `StickyNote.EditAndSave` | src/components/EditableStickyNote.tsx:382-412 | click, tick, successful save on an empty card: display mode, content `serialize(data)`, `onSave` received it, and the preview is the effect's result for it |
| `StickyNote.FailedSaveThenCancel` | src/components/EditableStickyNote.tsx:390-421 | a rejected save keeps edit mode and calls nothing; a cancel after it leaves edit mode with the original content; the same holds for content the editor cannot load |
| `StickyNote.DoubleClick` | src/components/EditableStickyNote.tsx:275-388 | two clicks with their ticks attach only one editor |
| `StickyNote.CancelBeforeTick` | src/components/EditableStickyNote.tsx:275-278 | a cancel before the deferred tick means no editor is ever created |
| `StickyNote.NonJsonContentNotEditable` | src/components/EditableStickyNote.tsx:374 | non-empty content that is not JSON gets no editor, and save then does nothing while the card stays in edit mode |
| `App.NewEmptyCard` | src/App.tsx:131-136 | the card mounted for an empty note: fresh, valid, in display mode, with an `onSave`, empty content, and the page's parse and serialize functions |
| `App.ConsistentInitial` | src/App.tsx:101-105 | three distinct empty cards are consistent with the initial collection |
| `App.ConsistentAppend` | src/App.tsx:118-137 | a new note plus a new empty card keeps cards and collection consistent |
| `App.Board.constructor` | src/App.tsx:100-137 | the page starts with the initial notes and one fresh card per note, all in display mode, each holding its note's content |
| `App.Board.AddNewNote` | src/App.tsx:118-121 | the collection becomes `addNewNote` of the old one, and one fresh card in display mode is appended |
| `App.Board.ClickCard` | src/components/EditableStickyNote.tsx:382-388 | the clicked card is in edit mode; the invariant is kept |
| `App.Board.InitializeCard` | src/components/EditableStickyNote.tsx:275-380 | after the tick, an editing card without an editor and with loadable content has an editor; an attached editor is kept; a card in display mode, or whose content cannot be loaded, gets no editor; the card's mode is unchanged |
| `App.Board.CancelCard` | src/components/EditableStickyNote.tsx:414-421 | the cancelled card has no editor and is in display mode; the collection is untouched |
| `App.Board.SaveCard` | src/App.tsx:131-137 | the string a card hands to `onSave` goes to `handleNoteSave` with that card's note id; it lands in that note alone and every other note is unchanged; a successful save with an editor hands over `serialize(data)`, closes the card's editor, leaves edit mode and refreshes the preview; otherwise nothing is handed over and the card's mode, editor and preview stay as they were |
| `App.SaveSecondThenAdd` | src/App.tsx:100-137 | opening and saving note 2, then adding a note, gives `[{1,""},{2,serialize(data)},{3,""},{4,""}]` |

## Left out

- Styling, keyframes and JSX layout in both files, and the rendering of cards, are presentation only.
- src/index.tsx (the shadow root, global styles and React root mounting) is DOM set-up and is not part of this model.
- The tools configuration of the block editor and its stubbed upload and link endpoints are foreign
  library configuration. An editor is modelled only by its initial blocks, its `save()` outcome and `destroy()`.
- The deferred tick and `await editor.isReady` in edit-mode entry are modelled as one atomic
  `InitializeEditor` step. The async `save()` is modelled as one atomic `HandleSave` step. Any event
  that arrives while one of them is pending is therefore not modelled. This includes a Cancel, and a
  second Save while the first `save()` is pending. The Save button stays rendered, so the second Save
  passes the guard. If it resolves, the source stores the content and calls `onSave` a second time,
  then throws on `destroy` of the cleared editor, and its catch swallows that error. The model's "hands
  the string to `onSave` once" relies on the step being atomic.
- `StickyNote.Card.InitializeEditor` assumes that `new EditorJS(...)` and `await editor.isReady` succeed
  whenever the initial data can be parsed. If `isReady` rejects, the source attaches no editor; the model
  attaches one.
- The `editorRef.current` check is modelled as `isEditing`, because the mount point is rendered only in edit mode.
- JSON text syntax, `JSON.parse` and `JSON.stringify` are left out. `Parsed` does not tell apart JSON
  values that make `data.blocks` throw: `null` shows the content verbatim in the source. A `blocks` member
  that is not an array is not modelled either. If it has a positive `length` (a non-empty string, say),
  the call to `.map` throws and the source shows the raw content. Any other non-array `blocks` fails the
  guard `data.blocks && data.blocks.length > 0`, so the previous preview stays, as it does for
  `Json(None)`. A `null` entry in `blocks` is not modelled: reading its `type` throws a TypeError, so the
  source shows the raw content.
- A `text` that is JSON `null` or not a string is not modelled: `text` is absent or a string. A quote in the
  source shows `null` as `"null"` and other values in their string form, while the model can only spell
  an absent text as `"undefined"`.
- A block whose `data` is absent, list items that are not strings, and a checklist item without `text`
  are not modelled. List items are strings, and checklist items have a boolean mark and a text.
- `JSON.stringify` throwing inside `handleSave` is not modelled.
- Note ids are unbounded integers. In the source they are JavaScript numbers: above 2^53,
  `Math.max(...ids) + 1` no longer yields a new id, so ids could repeat. The spread into `Math.max` also
  throws a `RangeError` beyond the engine's argument-count limit. Neither can happen at any realistic
  number of notes, so `NoteCollection.RunFromInitial` and `NoteCollection.RunPreserves` are stated for
  unbounded ids.
- Console logging, the unused `TinyMCEConfig` type and the `shadowRoot` prop (src/types/index.ts:9-19) are left out.
- React re-render and keying mechanics are left out. The effect is run after each content change. React
  skips it when the content is unchanged, and `DisplayText.RefreshIdempotent` shows that skipping it changes nothing.
- In `addNewNote`, `notes` from the render closure is read instead of `prevNotes`. This only differs
  under batched updates. Updates here are sequential, where the two coincide.
- App.Board.ClickCard: states only the clicked card's mode and the invariant. The full effect on the card is in `StickyNote.Card.HandleNoteClick`.
- App.Board.InitializeCard: states the card's mode and when an editor ends up attached, but not the new editor's serial number or initial blocks. Those are stated in `StickyNote.Card.InitializeEditor`.
- App.Board.CancelCard: states only the cancelled card's mode and editor. That content and preview stay unchanged is stated in `StickyNote.Card.HandleCancel`.
