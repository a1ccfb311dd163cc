/**
 * The `useNotes` hook of `src/hooks/use-notes.ts`: the notes of one paper,
 * kept in a list that add, update, remove and reorder replace, and kept in
 * step with other instances through `marxiv-notes-update` events.
 *
 * The note repository behind `getNotesForPaper`, `addNoteToPaper` and the
 * rest is not part of this model: each call's reply is a parameter (a
 * value or a failure), and each method returns the requests it issued, so
 * the contracts state what the hook asks of the repository and what it
 * does with every possible answer. `Date.now()` is the parameter `now`.
 */
module Notes {
  import opened Common

  datatype Note = Note(id: string, content: string, createdAt: int, updatedAt: int)

  /** The stored record of one paper's notes. */
  datatype PaperNote = PaperNote(paperId: string, paperTitle: string, notes: seq<Note>)

  /** The detail of a `marxiv-notes-update` event: the paper, and the new list when the sender knows it. */
  datatype NotesEvent = NotesEvent(paperId: string, notes: Option<seq<Note>>)

  /** A call into the note repository. */
  datatype NotesRequest =
    | GetNotes(paperId: string)
    | AddNote(paperId: string, paperTitle: string, content: string)
    | UpdateNote(paperId: string, noteId: string, content: string)
    | DeleteNote(paperId: string, noteId: string)
    | ReorderNotes(paperId: string, notes: seq<Note>)

  /** The reply to a call that returns a value or throws. */
  type Reply<T> = Result<T, string>

  function Ids(notes: seq<Note>): (r: seq<string>)
    ensures |r| == |notes| && forall i :: 0 <= i < |notes| ==> r[i] == notes[i].id
  {
    seq(|notes|, i requires 0 <= i < |notes| => notes[i].id)
  }

  /** `paperNote?.notes || []`: a paper with no stored record has no notes. */
  function NotesOf(record: Option<PaperNote>): (r: seq<Note>)
    ensures record.None? ==> r == []
    ensures record.Some? ==> r == record.value.notes
  {
    if record.Some? then record.value.notes else []
  }

  /** `prev.map(n => n.id === noteId ? { ...n, content, updatedAt: now } : n)`. */
  function WithContent(notes: seq<Note>, noteId: string, content: string, now: int): (r: seq<Note>)
    decreases |notes|
  {
    if notes == [] then []
    else
      var n := notes[0];
      [if n.id == noteId then n.(content := content, updatedAt := now) else n]
      + WithContent(notes[1..], noteId, content, now)
  }

  /**
   * An update keeps the length, the order and every id and creation time;
   * the notes with that id get the new content and modification time, and
   * all others stay exactly as they were.
   */
  lemma {:induction false} WithContentSpec(notes: seq<Note>, noteId: string, content: string, now: int)
    ensures var r := WithContent(notes, noteId, content, now);
      && |r| == |notes|
      && Ids(r) == Ids(notes)
      && (forall i :: 0 <= i < |r| ==> r[i].createdAt == notes[i].createdAt)
      && (forall i :: 0 <= i < |r| && notes[i].id == noteId ==> r[i].content == content && r[i].updatedAt == now)
      && (forall i :: 0 <= i < |r| && notes[i].id != noteId ==> r[i] == notes[i])
    decreases |notes|
  {
    if notes != [] {
      WithContentSpec(notes[1..], noteId, content, now);
      var r := WithContent(notes, noteId, content, now);
      var rest := WithContent(notes[1..], noteId, content, now);
      assert forall i :: 1 <= i < |r| ==> r[i] == rest[i - 1] && notes[i] == notes[1..][i - 1];
    }
  }

  /** Updating the same note twice with the same content and time is the same as doing it once. */
  lemma {:induction false} WithContentIdempotent(notes: seq<Note>, noteId: string, content: string, now: int)
    ensures var once := WithContent(notes, noteId, content, now);
      WithContent(once, noteId, content, now) == once
    decreases |notes|
  {
    if notes != [] {
      var once := WithContent(notes, noteId, content, now);
      WithContentIdempotent(notes[1..], noteId, content, now);
      assert once[1..] == WithContent(notes[1..], noteId, content, now);
    }
  }

  /** The predicate of `prev.filter(n => n.id !== noteId)`. */
  function OtherThan(noteId: string): Note -> bool {
    (n: Note) => n.id != noteId
  }

  function WithoutNote(notes: seq<Note>, noteId: string): (r: seq<Note>) {
    Filter(notes, OtherThan(noteId))
  }

  /**
   * A removal drops exactly the notes with that id: none is left, every
   * other note keeps its multiplicity, and the survivors keep their
   * relative order (removal commutes with splitting the list).
   */
  lemma WithoutNoteSpec(notes: seq<Note>, noteId: string, split: nat)
    requires split <= |notes|
    ensures var r := WithoutNote(notes, noteId);
      && (forall n | n in r :: n.id != noteId)
      && (forall n | n in notes && n.id != noteId :: multiset(r)[n] == multiset(notes)[n])
      && r == WithoutNote(notes[..split], noteId) + WithoutNote(notes[split..], noteId)
  {
    FilterSpec(notes, OtherThan(noteId));
    assert notes == notes[..split] + notes[split..];
    FilterConcat(notes[..split], notes[split..], OtherThan(noteId));
  }

  /** Removing a note that was just appended, under an id no other note has, gives back the list before the append. */
  lemma RemoveUndoesAdd(notes: seq<Note>, n: Note)
    requires n.id !in Ids(notes)
    ensures WithoutNote(notes + [n], n.id) == notes
  {
    FilterConcat(notes, [n], OtherThan(n.id));
    forall x | x in notes
      ensures OtherThan(n.id)(x)
    {
      var i :| 0 <= i < |notes| && notes[i] == x;
      assert Ids(notes)[i] == x.id;
    }
    FilterAll(notes, OtherThan(n.id));
  }

  class NotesHook {
    const paperId: string
    const paperTitle: string
    var notes: seq<Note>
    var isLoading: bool
    /** The `marxiv-notes-update` events this hook has dispatched, oldest first. */
    var dispatched: seq<NotesEvent>

    /** Every event the hook dispatches is about its own paper. */
    predicate Valid()
      reads this
    {
      forall e | e in dispatched :: e.paperId == paperId
    }

    /** The `useState` initialisers: no notes yet, and loading. */
    constructor (paperId: string, paperTitle: string)
      ensures Valid()
      ensures this.paperId == paperId && this.paperTitle == paperTitle
      ensures notes == [] && isLoading && dispatched == []
    {
      this.paperId, this.paperTitle := paperId, paperTitle;
      notes, isLoading, dispatched := [], true, [];
    }

    /** `loadNotes`: the stored notes replace the list (none stored: the empty list); a failed read keeps it. Loading ends either way. */
    method LoadNotes(reply: Reply<Option<PaperNote>>) returns (req: NotesRequest)
      modifies this`notes, this`isLoading
      ensures req == GetNotes(paperId)
      ensures notes == if reply.Ok? then NotesOf(reply.value) else old(notes)
      ensures !isLoading
    {
      req := GetNotes(paperId);
      if reply.Ok? {
        notes := NotesOf(reply.value);
      }
      isLoading := false;
    }

    /**
     * `handleNotesUpdate`: an event about another paper is ignored; one that
     * carries a list replaces the notes with it as it is; one without a list
     * makes the hook reload (and `reload` answers that read).
     */
    method HandleNotesUpdate(e: NotesEvent, reload: Reply<Option<PaperNote>>) returns (reqs: seq<NotesRequest>)
      modifies this`notes, this`isLoading
      ensures e.paperId != paperId ==> reqs == [] && notes == old(notes) && isLoading == old(isLoading)
      ensures e.paperId == paperId && e.notes.Some? ==> reqs == [] && notes == e.notes.value && isLoading == old(isLoading)
      ensures e.paperId == paperId && e.notes.None? ==>
        && reqs == [GetNotes(paperId)]
        && notes == (if reload.Ok? then NotesOf(reload.value) else old(notes))
        && !isLoading
    {
      reqs := [];
      if e.paperId == paperId {
        if e.notes.Some? {
          notes := e.notes.value;
        } else {
          var req := LoadNotes(reload);
          reqs := [req];
        }
      }
    }

    /** `add`: the created note is appended after the existing ones and other instances are told to reload; a failure changes nothing. */
    method Add(content: string, reply: Reply<Note>) returns (req: NotesRequest)
      requires Valid()
      modifies this`notes, this`dispatched
      ensures Valid()
      ensures req == AddNote(paperId, paperTitle, content)
      ensures reply.Ok? ==> notes == old(notes) + [reply.value]
                            && dispatched == old(dispatched) + [NotesEvent(paperId, None)]
      ensures reply.Err? ==> notes == old(notes) && dispatched == old(dispatched)
    {
      req := AddNote(paperId, paperTitle, content);
      if reply.Ok? {
        notes := notes + [reply.value];
        dispatched := dispatched + [NotesEvent(paperId, None)];
      }
    }

    /** `update`: after the repository accepts it, the notes with that id get the new content and time `now`. */
    method Update(noteId: string, content: string, now: int, reply: Outcome<string>) returns (req: NotesRequest)
      requires Valid()
      modifies this`notes, this`dispatched
      ensures Valid()
      ensures req == UpdateNote(paperId, noteId, content)
      ensures reply.Pass? ==> notes == WithContent(old(notes), noteId, content, now)
                              && dispatched == old(dispatched) + [NotesEvent(paperId, None)]
      ensures reply.Fail? ==> notes == old(notes) && dispatched == old(dispatched)
    {
      req := UpdateNote(paperId, noteId, content);
      if reply.Pass? {
        notes := WithContent(notes, noteId, content, now);
        dispatched := dispatched + [NotesEvent(paperId, None)];
      }
    }

    /** `remove`: after the repository accepts it, the notes with that id leave the list. */
    method Remove(noteId: string, reply: Outcome<string>) returns (req: NotesRequest)
      requires Valid()
      modifies this`notes, this`dispatched
      ensures Valid()
      ensures req == DeleteNote(paperId, noteId)
      ensures reply.Pass? ==> notes == WithoutNote(old(notes), noteId)
                              && dispatched == old(dispatched) + [NotesEvent(paperId, None)]
      ensures reply.Fail? ==> notes == old(notes) && dispatched == old(dispatched)
    {
      req := DeleteNote(paperId, noteId);
      if reply.Pass? {
        notes := WithoutNote(notes, noteId);
        dispatched := dispatched + [NotesEvent(paperId, None)];
      }
    }

    /**
     * `reorder`: the new list is shown at once. If the repository stores it,
     * the list itself is broadcast; if not, the hook reloads what is stored
     * (`reload` answers that read).
     */
    method Reorder(newNotes: seq<Note>, persisted: Outcome<string>, reload: Reply<Option<PaperNote>>)
      returns (reqs: seq<NotesRequest>)
      requires Valid()
      modifies this`notes, this`isLoading, this`dispatched
      ensures Valid()
      ensures persisted.Pass? ==>
        && reqs == [ReorderNotes(paperId, newNotes)]
        && notes == newNotes && isLoading == old(isLoading)
        && dispatched == old(dispatched) + [NotesEvent(paperId, Some(newNotes))]
      ensures persisted.Fail? ==>
        && reqs == [ReorderNotes(paperId, newNotes), GetNotes(paperId)]
        && notes == (if reload.Ok? then NotesOf(reload.value) else newNotes)
        && !isLoading && dispatched == old(dispatched)
    {
      notes := newNotes;
      reqs := [ReorderNotes(paperId, newNotes)];
      if persisted.Pass? {
        dispatched := dispatched + [NotesEvent(paperId, Some(newNotes))];
      } else {
        var req := LoadNotes(reload);
        reqs := reqs + [req];
      }
    }
  }

  /**
   * A reorder broadcast brings another instance of the same paper to the
   * reordered list without a reload, whatever that instance showed before.
   */
  method ReorderSyncsPeer(a: NotesHook, b: NotesHook, newNotes: seq<Note>, reload: Reply<Option<PaperNote>>)
    requires a != b && a.Valid() && a.paperId == b.paperId
    modifies a, b
    ensures a.notes == newNotes && b.notes == newNotes
  {
    var _ := a.Reorder(newNotes, Pass, reload);
    var e := a.dispatched[|a.dispatched| - 1];
    var reqs := b.HandleNotesUpdate(e, reload);
    assert reqs == [];
  }
}
