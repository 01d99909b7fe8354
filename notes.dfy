/** The note collection held by the root component (src/App.tsx): an
    ordered sequence of notes, replaced wholesale by each update. */
module NoteCollection {
  import opened Wrappers

  /** A note: a stable numeric id and an opaque content string
      (src/types/index.ts). */
  datatype Note = Note(id: int, content: string)

  /** Ids strictly increase in sequence order (so they are unique). */
  ghost predicate IdsIncreasing(notes: seq<Note>) {
    forall i, j :: 0 <= i < j < |notes| ==> notes[i].id < notes[j].id
  }

  /** No two notes share an id. */
  ghost predicate IdsUnique(notes: seq<Note>) {
    forall i, j :: 0 <= i < |notes| && 0 <= j < |notes| && i != j ==> notes[i].id != notes[j].id
  }

  ghost predicate IdsPositive(notes: seq<Note>) {
    forall i :: 0 <= i < |notes| ==> notes[i].id > 0
  }

  /** What the collection keeps true between updates. */
  ghost predicate WellFormed(notes: seq<Note>) {
    |notes| > 0 && IdsIncreasing(notes) && IdsPositive(notes)
  }

  ghost predicate HasId(notes: seq<Note>, id: int) {
    exists i :: 0 <= i < |notes| && notes[i].id == id
  }

  /** The collection the page starts with: three empty notes. */
  function InitialNotes(): (r: seq<Note>)
    ensures |r| == 3
    ensures forall i :: 0 <= i < |r| ==> r[i].id == i + 1 && r[i].content == ""
  {
    [Note(1, ""), Note(2, ""), Note(3, "")]
  }

  /** `Math.max(...notes.map(n => n.id))`; undefined (minus infinity) on
      an empty collection, hence the precondition. */
  function MaxId(notes: seq<Note>): (r: int)
    requires |notes| > 0
    ensures exists i :: 0 <= i < |notes| && notes[i].id == r
    ensures forall i :: 0 <= i < |notes| ==> notes[i].id <= r
  {
    if |notes| == 1 then notes[0].id
    else
      var rest := MaxId(notes[1..]);
      assert forall i :: 1 <= i < |notes| ==> notes[i] == notes[1..][i - 1];
      if notes[0].id >= rest then notes[0].id else rest
  }

  /** `addNewNote`: append an empty note whose id is one more than the
      largest id present. */
  function AddNewNote(notes: seq<Note>): (r: seq<Note>)
    requires |notes| > 0
    ensures |r| == |notes| + 1
    ensures r[..|notes|] == notes
    ensures r[|notes|].content == ""
    ensures forall i :: 0 <= i < |notes| ==> notes[i].id < r[|notes|].id
    ensures exists i :: 0 <= i < |notes| && r[|notes|].id == notes[i].id + 1
  {
    notes + [Note(MaxId(notes) + 1, "")]
  }

  /** `handleNoteSave(noteId, content)`: every note whose id matches gets
      the new content, every other note is kept as it is. */
  function HandleNoteSave(notes: seq<Note>, id: int, content: string): (r: seq<Note>)
    ensures |r| == |notes|
    ensures forall i :: 0 <= i < |notes| ==> r[i].id == notes[i].id
    ensures forall i :: 0 <= i < |notes| && notes[i].id == id ==> r[i].content == content
    ensures forall i :: 0 <= i < |notes| && notes[i].id != id ==> r[i] == notes[i]
  {
    if notes == [] then []
    else
      var head := if notes[0].id == id then notes[0].(content := content) else notes[0];
      var rest := HandleNoteSave(notes[1..], id, content);
      assert forall i :: 1 <= i < |notes| ==> notes[i] == notes[1..][i - 1];
      [head] + rest
  }

  /** The content of the first note with the given id, if any: an
      independent reading of the collection. */
  function Lookup(notes: seq<Note>, id: int): (r: Option<string>)
    ensures r.Some? <==> HasId(notes, id)
    ensures r.Some? ==> exists i :: 0 <= i < |notes| && notes[i].id == id && notes[i].content == r.value
                                    && forall j :: 0 <= j < i ==> notes[j].id != id
  {
    if notes == [] then None
    else if notes[0].id == id then Some(notes[0].content)
    else
      var r := Lookup(notes[1..], id);
      assert forall i :: 1 <= i < |notes| ==> notes[i] == notes[1..][i - 1];
      assert r.Some? ==> exists i :: 0 <= i < |notes| && notes[i].id == id && notes[i].content == r.value
                                    && forall j :: 0 <= j < i ==> notes[j].id != id by {
        if r.Some? {
          var k :| 0 <= k < |notes[1..]| && notes[1..][k].id == id && notes[1..][k].content == r.value
                   && forall j :: 0 <= j < k ==> notes[1..][j].id != id;
          assert forall j :: 0 <= j < k + 1 ==> notes[j].id != id by {
            forall j | 0 <= j < k + 1 ensures notes[j].id != id {
              if j > 0 { assert notes[j] == notes[1..][j - 1]; }
            }
          }
          assert notes[k + 1].id == id && notes[k + 1].content == r.value;
        }
      }
      assert HasId(notes[1..], id) ==> HasId(notes, id) by {
        if HasId(notes[1..], id) {
          var k :| 0 <= k < |notes[1..]| && notes[1..][k].id == id;
          assert notes[k + 1].id == id;
        }
      }
      r
  }

  /** The two user actions that update the collection. */
  datatype Action = AddNote | SaveNote(id: int, content: string)

  function Apply(notes: seq<Note>, a: Action): (r: seq<Note>)
    requires |notes| > 0
    ensures |r| > 0
  {
    match a
    case AddNote => AddNewNote(notes)
    case SaveNote(id, content) => HandleNoteSave(notes, id, content)
  }

  /** The collection after a sequence of actions, applied in order. */
  function Run(notes: seq<Note>, actions: seq<Action>): (r: seq<Note>)
    requires |notes| > 0
    ensures |r| > 0
    decreases |actions|
  {
    if actions == [] then notes else Run(Apply(notes, actions[0]), actions[1..])
  }

  /** Number of AddNote actions in a sequence. */
  function CountAdds(actions: seq<Action>): nat {
    if actions == [] then 0 else (if actions[0].AddNote? then 1 else 0) + CountAdds(actions[1..])
  }

  lemma InitialNotesWellFormed()
    ensures WellFormed(InitialNotes())
  {
  }

  lemma IncreasingIsUnique(notes: seq<Note>)
    requires IdsIncreasing(notes)
    ensures IdsUnique(notes)
  {
    forall i, j | 0 <= i < |notes| && 0 <= j < |notes| && i != j
      ensures notes[i].id != notes[j].id
    {
      if i < j { assert notes[i].id < notes[j].id; } else { assert notes[j].id < notes[i].id; }
    }
  }

  /** On a collection with increasing ids the new id is the last id plus one. */
  lemma AddNewNoteNextId(notes: seq<Note>)
    requires |notes| > 0 && IdsIncreasing(notes)
    ensures AddNewNote(notes)[|notes|] == Note(notes[|notes| - 1].id + 1, "")
  {
    var m := MaxId(notes);
    var last := notes[|notes| - 1].id;
    assert last <= m;
    forall i | 0 <= i < |notes| ensures notes[i].id <= last {
      if i < |notes| - 1 { assert notes[i].id < last; }
    }
    var k :| 0 <= k < |notes| && notes[k].id == m;
    assert m <= last;
  }

  lemma AddNewNotePreserves(notes: seq<Note>)
    requires WellFormed(notes)
    ensures WellFormed(AddNewNote(notes))
  {
    var r := AddNewNote(notes);
    assert forall i :: 0 <= i < |notes| ==> r[i] == notes[i] by {
      forall i | 0 <= i < |notes| ensures r[i] == notes[i] {
        assert r[..|notes|][i] == r[i];
      }
    }
  }

  lemma HandleNoteSavePreserves(notes: seq<Note>, id: int, content: string)
    requires WellFormed(notes)
    ensures WellFormed(HandleNoteSave(notes, id, content))
  {
  }

  /** Saving to an id that no note has hands back the same collection. */
  lemma SaveUnknownIdIsNoOp(notes: seq<Note>, id: int, content: string)
    requires !HasId(notes, id)
    ensures HandleNoteSave(notes, id, content) == notes
  {
    var r := HandleNoteSave(notes, id, content);
    assert forall i :: 0 <= i < |notes| ==> r[i] == notes[i];
  }

  /** Reading a note back after a save gives the saved content; every
      other id reads as before. */
  lemma {:induction false} SaveThenLookup(notes: seq<Note>, id: int, content: string, other: int)
    ensures Lookup(HandleNoteSave(notes, id, content), id) == if HasId(notes, id) then Some(content) else None
    ensures other != id ==> Lookup(HandleNoteSave(notes, id, content), other) == Lookup(notes, other)
  {
    var r := HandleNoteSave(notes, id, content);
    if notes != [] {
      SaveThenLookup(notes[1..], id, content, other);
      assert r[1..] == HandleNoteSave(notes[1..], id, content) by {
        var t := HandleNoteSave(notes[1..], id, content);
        assert |r[1..]| == |t|;
        forall i | 0 <= i < |t| ensures r[1..][i] == t[i] {
          assert notes[1..][i] == notes[i + 1];
        }
      }
      if notes[0].id != id {
        assert HasId(notes, id) == HasId(notes[1..], id) by {
          if HasId(notes, id) {
            var k :| 0 <= k < |notes| && notes[k].id == id;
            assert notes[1..][k - 1].id == id;
          }
        }
      }
    }
  }

  /** A second save to the same id overwrites the first. */
  lemma SaveLastWins(notes: seq<Note>, id: int, a: string, b: string)
    ensures HandleNoteSave(HandleNoteSave(notes, id, a), id, b) == HandleNoteSave(notes, id, b)
  {
    var l := HandleNoteSave(HandleNoteSave(notes, id, a), id, b);
    var r := HandleNoteSave(notes, id, b);
    assert forall i :: 0 <= i < |notes| ==> l[i] == r[i];
  }

  /** Saves to different ids do not interfere, in either order. */
  lemma SavesCommute(notes: seq<Note>, id1: int, c1: string, id2: int, c2: string)
    requires id1 != id2
    ensures HandleNoteSave(HandleNoteSave(notes, id1, c1), id2, c2)
         == HandleNoteSave(HandleNoteSave(notes, id2, c2), id1, c1)
  {
    var l := HandleNoteSave(HandleNoteSave(notes, id1, c1), id2, c2);
    var r := HandleNoteSave(HandleNoteSave(notes, id2, c2), id1, c1);
    assert forall i :: 0 <= i < |notes| ==> l[i] == r[i];
  }

  /** The card rendered for position `i` has its `onSave` bound to that
      note's id; with unique ids its save touches that note alone. */
  lemma CardSaveIsolated(notes: seq<Note>, i: int, content: string)
    requires IdsUnique(notes) && 0 <= i < |notes|
    ensures HandleNoteSave(notes, notes[i].id, content)[i] == Note(notes[i].id, content)
    ensures forall j :: 0 <= j < |notes| && j != i ==> HandleNoteSave(notes, notes[i].id, content)[j] == notes[j]
  {
  }

  /** One action keeps the collection well formed, keeps every existing
      id in place and adds a note exactly when it is an AddNote. */
  lemma ApplyPreserves(notes: seq<Note>, a: Action)
    requires WellFormed(notes)
    ensures WellFormed(Apply(notes, a))
    ensures |Apply(notes, a)| == |notes| + (if a.AddNote? then 1 else 0)
    ensures forall i :: 0 <= i < |notes| ==> Apply(notes, a)[i].id == notes[i].id
  {
    var next := Apply(notes, a);
    match a
    case AddNote =>
      AddNewNotePreserves(notes);
      forall i | 0 <= i < |notes| ensures next[i].id == notes[i].id {
        assert next[..|notes|][i] == next[i];
      }
    case SaveNote(id, content) =>
      HandleNoteSavePreserves(notes, id, content);
  }

  /** Every sequence of actions keeps the collection well formed (non-empty,
      positive ids, strictly increasing in order), keeps the earlier ids
      as a prefix, and grows it by one note per AddNote. */
  lemma {:induction false} RunPreserves(notes: seq<Note>, actions: seq<Action>)
    requires WellFormed(notes)
    ensures WellFormed(Run(notes, actions))
    ensures |Run(notes, actions)| == |notes| + CountAdds(actions)
    ensures forall i :: 0 <= i < |notes| ==> Run(notes, actions)[i].id == notes[i].id
    decreases |actions|
  {
    if actions != [] {
      var next := Apply(notes, actions[0]);
      ApplyPreserves(notes, actions[0]);
      RunPreserves(next, actions[1..]);
      assert Run(notes, actions) == Run(next, actions[1..]);
    }
  }

  /** Starting from the initial collection, ids stay unique and increasing. */
  lemma RunFromInitial(actions: seq<Action>)
    ensures WellFormed(Run(InitialNotes(), actions))
    ensures IdsUnique(Run(InitialNotes(), actions))
    ensures |Run(InitialNotes(), actions)| == 3 + CountAdds(actions)
  {
    InitialNotesWellFormed();
    RunPreserves(InitialNotes(), actions);
    IncreasingIsUnique(Run(InitialNotes(), actions));
  }

  /** `addNote()` on the initial collection appends note 4. */
  lemma AddToInitial()
    ensures AddNewNote(InitialNotes()) == InitialNotes() + [Note(4, "")]
  {
    AddNewNoteNextId(InitialNotes());
  }

  /** Saving `content` to note 2 of the initial collection, as in
      `saveNote(2, "<p>hello</p>")`: notes 1 and 3 stay empty. */
  lemma SaveToInitial(content: string)
    ensures HandleNoteSave(InitialNotes(), 2, content) == [Note(1, ""), Note(2, content), Note(3, "")]
  {
    var r := HandleNoteSave(InitialNotes(), 2, content);
    assert r[0] == Note(1, "") && r[1] == Note(2, content) && r[2] == Note(3, "");
  }

  /** ... and adding a note afterwards appends note 4. */
  lemma SaveThenAddToInitial(content: string)
    ensures AddNewNote(HandleNoteSave(InitialNotes(), 2, content))
         == [Note(1, ""), Note(2, content), Note(3, ""), Note(4, "")]
  {
    SaveToInitial(content);
    var saved := [Note(1, ""), Note(2, content), Note(3, "")];
    AddNewNoteNextId(saved);
  }
}
