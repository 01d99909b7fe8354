/** The root component (src/App.tsx) together with the cards it renders:
    one card per note, in order, each mounted with the note's content and
    an `onSave` bound to that note's id. */
module App {
  import opened Wrappers
  import opened NoteCollection
  import opened DisplayText
  import opened StickyNote

  /** The collection is well formed, there is one distinct card per note,
      and every card holds the content the collection has for its note. */
  ghost predicate Consistent(notes: seq<Note>, cards: seq<Card>, parse: string -> Parsed, serialize: OutputData -> string)
    reads cards
  {
    WellFormed(notes)
    && |cards| == |notes|
    && (forall i, j :: 0 <= i < j < |cards| ==> cards[i] != cards[j])
    && forall i :: 0 <= i < |cards| ==>
         cards[i].Valid() && cards[i].hasOnSave
         && cards[i].parse == parse && cards[i].serialize == serialize
         && cards[i].noteContent == notes[i].content
  }

  /** A new note with a new card in display mode keeps the two consistent. */
  lemma ConsistentAppend(notes: seq<Note>, cards: seq<Card>, card: Card, parse: string -> Parsed, serialize: OutputData -> string)
    requires Consistent(notes, cards, parse, serialize)
    requires card !in cards && card.Valid() && card.hasOnSave && card.noteContent == ""
    requires card.parse == parse && card.serialize == serialize
    ensures Consistent(NoteCollection.AddNewNote(notes), cards + [card], parse, serialize)
  {
    AddNewNotePreserves(notes);
    var n := NoteCollection.AddNewNote(notes);
    var c := cards + [card];
    forall i | 0 <= i < |cards| ensures c[i] == cards[i] && n[i] == notes[i] {
      assert n[..|notes|][i] == n[i];
    }
  }

  /** Three distinct fresh empty cards match the initial collection. */
  lemma ConsistentInitial(c1: Card, c2: Card, c3: Card, parse: string -> Parsed, serialize: OutputData -> string)
    requires c1 != c2 && c1 != c3 && c2 != c3
    requires forall c :: c in {c1, c2, c3} ==>
      c.Valid() && c.hasOnSave && c.noteContent == "" && c.parse == parse && c.serialize == serialize
    ensures Consistent(InitialNotes(), [c1, c2, c3], parse, serialize)
  {
    InitialNotesWellFormed();
    var cards := [c1, c2, c3];
    forall i | 0 <= i < 3 ensures cards[i] in {c1, c2, c3} {
    }
  }

  /** The card React mounts for a note with empty content. */
  method NewEmptyCard(parse: string -> Parsed, serialize: OutputData -> string) returns (card: Card)
    ensures fresh(card) && card.Valid() && !card.isEditing
    ensures card.hasOnSave && card.noteContent == "" && card.parse == parse && card.serialize == serialize
  {
    card := new Card("", parse, serialize, true);
  }

  class Board {
    const parse: string -> Parsed
    const serialize: OutputData -> string
    var notes: seq<Note>
    var cards: seq<Card>

    /** The notes and the cards are consistent. */
    ghost predicate Valid()
      reads this, cards
    {
      Consistent(notes, cards, parse, serialize)
    }

    ghost predicate AllDisplaying()
      reads this, cards
    {
      forall i :: 0 <= i < |cards| ==> !cards[i].isEditing
    }

    /** The page as first rendered: the three initial notes, each with a
        fresh card in display mode. */
    constructor (parse: string -> Parsed, serialize: OutputData -> string)
      ensures Valid() && AllDisplaying()
      ensures this.parse == parse && this.serialize == serialize
      ensures notes == InitialNotes()
      ensures forall i :: 0 <= i < |cards| ==> fresh(cards[i])
    {
      this.parse := parse;
      this.serialize := serialize;
      notes := InitialNotes();
      var c1 := NewEmptyCard(parse, serialize);
      var c2 := NewEmptyCard(parse, serialize);
      var c3 := NewEmptyCard(parse, serialize);
      cards := [c1, c2, c3];
      new;
      ConsistentInitial(c1, c2, c3, parse, serialize);
      forall i | 0 <= i < |cards| ensures !cards[i].isEditing && fresh(cards[i]) {
        if i == 0 { assert cards[i] == c1; } else if i == 1 { assert cards[i] == c2; } else { assert cards[i] == c3; }
      }
    }

    /** `addNewNote`, and the card React mounts for the new note. */
    method AddNewNote()
      requires Valid()
      modifies this
      ensures Valid()
      ensures notes == NoteCollection.AddNewNote(old(notes))
      ensures |cards| == |old(cards)| + 1 && cards[..|old(cards)|] == old(cards)
      ensures fresh(cards[|old(cards)|]) && !cards[|old(cards)|].isEditing
    {
      var card := NewEmptyCard(parse, serialize);
      ConsistentAppend(notes, cards, card, parse, serialize);
      notes := NoteCollection.AddNewNote(notes);
      cards := cards + [card];
    }

    /** A click on card `i`. */
    method ClickCard(i: int)
      requires Valid() && 0 <= i < |cards|
      modifies cards[i]
      ensures Valid()
      ensures cards[i].isEditing
    {
      cards[i].HandleNoteClick();
    }

    /** The deferred tick after a click on card `i`. */
    method InitializeCard(i: int)
      requires Valid() && 0 <= i < |cards|
      modifies cards[i]
      ensures Valid()
      ensures old(cards[i].editorInstance).None? && old(cards[i].isEditing) && InitialData(notes[i].content, parse(notes[i].content)).Some? ==>
                cards[i].editorInstance.Some?
      ensures old(cards[i].editorInstance).Some? ==> cards[i].editorInstance == old(cards[i].editorInstance)
      ensures cards[i].isEditing == old(cards[i].isEditing)
      ensures !old(cards[i].isEditing) || InitialData(notes[i].content, parse(notes[i].content)).None? ==>
                cards[i].editorInstance == old(cards[i].editorInstance)
    {
      cards[i].InitializeEditor();
    }

    /** Cancel on card `i`: the collection is untouched. */
    method CancelCard(i: int)
      requires Valid() && 0 <= i < |cards|
      modifies cards[i]
      ensures Valid()
      ensures !cards[i].isEditing && cards[i].editorInstance == None
    {
      cards[i].HandleCancel();
    }

    /** Save on card `i`: the string the card hands to its `onSave` goes to
        `handleNoteSave` with the id of the note the card was rendered for,
        and lands in that note alone. */
    method SaveCard(i: int, outcome: Result<OutputData, SaveError>) returns (emitted: Option<string>)
      requires Valid() && 0 <= i < |cards|
      modifies this, cards[i]
      ensures Valid()
      ensures cards == old(cards)
      ensures old(cards[i].editorInstance).Some? && outcome.Success? ==> emitted == Some(serialize(outcome.value))
      ensures old(cards[i].editorInstance).None? || outcome.Failure? ==> emitted == None
      ensures
        if old(cards[i].editorInstance).Some? && outcome.Success? then
          !cards[i].isEditing && cards[i].editorInstance == None
          && cards[i].displayContent == Refresh(old(cards[i].displayContent), notes[i].content, parse(notes[i].content))
        else
          cards[i].isEditing == old(cards[i].isEditing) && cards[i].editorInstance == old(cards[i].editorInstance)
          && cards[i].displayContent == old(cards[i].displayContent)
      ensures notes == if emitted.Some? then HandleNoteSave(old(notes), old(notes)[i].id, emitted.value) else old(notes)
      ensures emitted.Some? ==> notes[i] == Note(old(notes)[i].id, emitted.value)
      ensures forall j :: 0 <= j < |notes| && j != i ==> notes[j] == old(notes)[j]
    {
      IncreasingIsUnique(notes);
      var card := cards[i];
      emitted := card.HandleSave(outcome);
      if emitted.Some? {
        HandleNoteSavePreserves(notes, notes[i].id, emitted.value);
        CardSaveIsolated(notes, i, emitted.value);
        notes := HandleNoteSave(notes, notes[i].id, emitted.value);
      }
      assert card.Valid() && card.noteContent == notes[i].content;
      forall j | 0 <= j < |cards| && j != i
        ensures cards[j].Valid() && cards[j].hasOnSave && cards[j].parse == parse && cards[j].serialize == serialize
        ensures cards[j].noteContent == notes[j].content
      {
        assert cards[j] != card;
      }
    }
  }

  /** Open note 2, save, and add a note: note 2 holds the saved string,
      notes 1 and 3 are empty, note 4 is appended. */
  method SaveSecondThenAdd(parse: string -> Parsed, serialize: OutputData -> string, data: OutputData)
    returns (result: seq<Note>)
    ensures result == [Note(1, ""), Note(2, serialize(data)), Note(3, ""), Note(4, "")]
  {
    var board := new Board(parse, serialize);
    board.ClickCard(1);
    board.InitializeCard(1);
    assert board.cards[1].editorInstance.Some?;
    var emitted := board.SaveCard(1, Success(data));
    board.AddNewNote();
    result := board.notes;
    SaveThenAddToInitial(serialize(data));
  }
}
