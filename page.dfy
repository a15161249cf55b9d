/**
 * The note page: an in-memory list of notes and a form (title, content and
 * the id of the note being edited), changed by four handlers. Each handler
 * is one atomic step over the component's state.
 */
module Page {
  import opened Wrappers
  import opened JsString

  /** One note as the page stores and renders it. */
  datatype Note = Note(id: int, title: string, content: string, date: string)

  /** The form check of `handleSubmit`: neither field is empty after `trim`. */
  predicate IsFilled(title: string, content: string)
    ensures IsFilled(title, content) ==> title != [] && content != []
  {
    Trim(title) != [] && Trim(content) != []
  }

  /** The form is rejected exactly when the title or the content is only white space. */
  lemma IsFilledIffNotBlank(title: string, content: string)
    ensures IsFilled(title, content) <==> !IsBlank(title) && !IsBlank(content)
  {
    TrimEmptyIffBlank(title);
    TrimEmptyIffBlank(content);
  }

  /**
   * JavaScript truthiness of the nullable number `editingId`: `null` and
   * `0` are both falsy, so either one means "add mode".
   */
  predicate IsEditing(editingId: Option<int>)
    ensures IsEditing(editingId) <==> editingId != None && editingId != Some(0)
  {
    editingId.Some? && editingId.value != 0
  }

  /** Every stored note has a title and a content that are not blank. */
  ghost predicate AllFilled(notes: seq<Note>) {
    forall i :: 0 <= i < |notes| ==> IsFilled(notes[i].title, notes[i].content)
  }

  /** No two notes share an id. The page does not guarantee this; it is kept only when fresh ids are supplied. */
  ghost predicate IdsDistinct(notes: seq<Note>) {
    forall i, j :: 0 <= i < j < |notes| ==> notes[i].id != notes[j].id
  }

  /** The ids of `notes`, in order. */
  function Ids(notes: seq<Note>): (r: seq<int>)
    ensures |r| == |notes|
    ensures forall i :: 0 <= i < |notes| ==> r[i] == notes[i].id
  {
    if notes == [] then [] else [notes[0].id] + Ids(notes[1..])
  }

  /**
   * The `map` of the edit branch: every note whose id is `id` gets the new
   * title, content and date; every other note is kept as it is.
   */
  function UpdateMatching(notes: seq<Note>, id: int, title: string, content: string, date: string): (r: seq<Note>)
    ensures |r| == |notes|
    ensures forall i :: 0 <= i < |notes| && notes[i].id == id ==>
              r[i] == Note(id, title, content, date)
    ensures forall i :: 0 <= i < |notes| && notes[i].id != id ==> r[i] == notes[i]
  {
    if notes == [] then []
    else
      var head := if notes[0].id == id then notes[0].(title := title, content := content, date := date) else notes[0];
      [head] + UpdateMatching(notes[1..], id, title, content, date)
  }

  /** The `filter` of `handleDelete`: the notes whose id is not `id`, in their original order. */
  function RemoveById(notes: seq<Note>, id: int): (r: seq<Note>)
    ensures |r| <= |notes|
    ensures forall n :: n in r <==> n in notes && n.id != id
  {
    if notes == [] then []
    else if notes[0].id != id then [notes[0]] + RemoveById(notes[1..], id)
    else RemoveById(notes[1..], id)
  }

  /** Updating keeps the list length and the sequence of ids. */
  lemma UpdateKeepsIds(notes: seq<Note>, id: int, title: string, content: string, date: string)
    ensures Ids(UpdateMatching(notes, id, title, content, date)) == Ids(notes)
  {
  }

  /** An edit whose id matches no note leaves the list as it was. */
  lemma UpdateAbsentIsIdentity(notes: seq<Note>, id: int, title: string, content: string, date: string)
    requires id !in Ids(notes)
    ensures UpdateMatching(notes, id, title, content, date) == notes
  {
    var r := UpdateMatching(notes, id, title, content, date);
    forall i | 0 <= i < |notes| ensures r[i] == notes[i] {
      assert Ids(notes)[i] == notes[i].id;
    }
  }

  /** Applying the same edit twice is the same as applying it once. */
  lemma UpdateIdempotent(notes: seq<Note>, id: int, title: string, content: string, date: string)
    ensures var once := UpdateMatching(notes, id, title, content, date);
            UpdateMatching(once, id, title, content, date) == once
  {
  }

  /** Deleting removes every copy of `id`: each note occurs as often as before, or not at all when it has that id. */
  lemma {:induction false} RemoveCounts(notes: seq<Note>, id: int, n: Note)
    ensures multiset(RemoveById(notes, id))[n] == if n.id == id then 0 else multiset(notes)[n]
  {
    if notes != [] {
      RemoveCounts(notes[1..], id, n);
      assert notes == [notes[0]] + notes[1..];
    }
  }

  /** Deleting distributes over concatenation, so the kept notes stay in their relative order. */
  lemma {:induction false} RemoveConcat(a: seq<Note>, b: seq<Note>, id: int)
    ensures RemoveById(a + b, id) == RemoveById(a, id) + RemoveById(b, id)
  {
    if a != [] {
      assert (a + b)[0] == a[0];
      assert (a + b)[1..] == a[1..] + b;
      RemoveConcat(a[1..], b, id);
      if a[0].id == id {
        assert RemoveById(a + b, id) == RemoveById(a[1..] + b, id);
      } else {
        calc {
          RemoveById(a + b, id);
          [a[0]] + RemoveById(a[1..] + b, id);
          [a[0]] + (RemoveById(a[1..], id) + RemoveById(b, id));
          ([a[0]] + RemoveById(a[1..], id)) + RemoveById(b, id);
        }
      }
    } else {
      assert a + b == b;
    }
  }

  /** Deleting an id that no note has changes nothing. */
  lemma {:induction false} RemoveAbsentIsIdentity(notes: seq<Note>, id: int)
    requires id !in Ids(notes)
    ensures RemoveById(notes, id) == notes
  {
    if notes != [] {
      assert Ids(notes) == [notes[0].id] + Ids(notes[1..]);
      RemoveAbsentIsIdentity(notes[1..], id);
    }
  }

  /** Deleting twice is the same as deleting once. */
  lemma RemoveIdempotent(notes: seq<Note>, id: int)
    ensures RemoveById(RemoveById(notes, id), id) == RemoveById(notes, id)
  {
    var once := RemoveById(notes, id);
    RemoveAbsentIsIdentity(once, id);
  }

  /** An edit keeps distinct ids distinct, since it keeps the sequence of ids. */
  lemma UpdateKeepsDistinct(notes: seq<Note>, id: int, title: string, content: string, date: string)
    requires IdsDistinct(notes)
    ensures IdsDistinct(UpdateMatching(notes, id, title, content, date))
  {
    UpdateKeepsIds(notes, id, title, content, date);
  }

  /** The stored notes stay filled after an edit with filled fields. */
  lemma UpdateKeepsFilled(notes: seq<Note>, id: int, title: string, content: string, date: string)
    requires AllFilled(notes) && IsFilled(title, content)
    ensures AllFilled(UpdateMatching(notes, id, title, content, date))
  {
  }

  /** A list whose notes are all filled stays so after a delete. */
  lemma RemoveKeepsFilled(notes: seq<Note>, id: int)
    requires AllFilled(notes)
    ensures AllFilled(RemoveById(notes, id))
  {
    var r := RemoveById(notes, id);
    forall i | 0 <= i < |r| ensures IsFilled(r[i].title, r[i].content) {
      assert r[i] in notes;
    }
  }

  /** Appending a note whose id is new keeps the ids distinct. */
  lemma AppendFreshKeepsDistinct(notes: seq<Note>, n: Note)
    requires IdsDistinct(notes) && n.id !in Ids(notes)
    ensures IdsDistinct(notes + [n])
  {
    forall i | 0 <= i < |notes| ensures notes[i].id != n.id {
      assert Ids(notes)[i] == notes[i].id;
    }
  }

  /** Deleting keeps distinct ids distinct. */
  lemma {:induction false} RemoveKeepsDistinct(notes: seq<Note>, id: int)
    requires IdsDistinct(notes)
    ensures IdsDistinct(RemoveById(notes, id))
  {
    if notes != [] {
      RemoveKeepsDistinct(notes[1..], id);
      if notes[0].id != id {
        var rest := RemoveById(notes[1..], id);
        forall k | 0 <= k < |rest| ensures rest[k].id != notes[0].id {
          assert rest[k] in notes[1..];
        }
      }
    }
  }

  const FirstTitle: string := "The Art of Programming"
  const FirstContent: string :=
    "Programming is both a science and an art form. " +
    "Like any craft, it requires technical knowledge and precision, " +
    "but also creativity and intuition. " +
    "The best programmers are those who can balance these aspects, " +
    "creating code that is not only functional but also elegant and maintainable.\n\n" +
    "Just as a writer crafts stories with words, " +
    "a programmer writes solutions with code. " +
    "Each line serves a purpose, each function tells a story, " +
    "and the whole program comes together like chapters in a book. " +
    "The joy of programming comes from solving complex problems with simple, " +
    "beautiful solutions."
  const SecondTitle: string := "Web Development Journey"
  const SecondContent: string :=
    "Starting my journey in web development has been an exciting adventure. " +
    "From learning HTML and CSS basics to diving into JavaScript and React, " +
    "each step has opened new possibilities. " +
    "The web is an incredibly dynamic platform, " +
    "constantly evolving with new technologies and approaches.\n\n" +
    "One of the most fascinating aspects is how different technologies work together. " +
    "Frontend frameworks like React make building interactive interfaces intuitive, " +
    "while backend technologies handle data and business logic. " +
    "Understanding how these pieces fit together is like solving a complex puzzle, " +
    "where each piece has its own unique role."
  const ThirdTitle: string := "Future of AI in Technology"
  const ThirdContent: string :=
    "Artificial Intelligence is revolutionizing the way we approach software development and problem-solving. " +
    "From automated testing to code generation, " +
    "AI tools are becoming an integral part of a developer's toolkit. " +
    "These advancements are not replacing programmers but rather augmenting their capabilities and productivity.\n\n" +
    "The future looks even more promising as AI continues to evolve. " +
    "We're seeing the emergence of systems that can understand context, " +
    "generate complex code structures, and even debug applications. " +
    "However, " +
    "it's crucial to remember that human creativity and critical thinking remain essential in guiding these tools and ensuring they produce meaningful results."

  /** The three sample notes the page starts with, all dated `today`. */
  function InitialNotes(today: string): (r: seq<Note>)
    ensures Ids(r) == [1, 2, 3] && IdsDistinct(r)
    ensures forall i :: 0 <= i < |r| ==> r[i].date == today
  {
    [Note(1, FirstTitle, FirstContent, today),
     Note(2, SecondTitle, SecondContent, today),
     Note(3, ThirdTitle, ThirdContent, today)]
  }

  /** A title and a content that each end in a visible code point pass the form check. */
  lemma VisibleEndsFilled(title: string, content: string)
    requires title != [] && !IsWhiteSpace(title[|title| - 1])
    requires content != [] && !IsWhiteSpace(content[|content| - 1])
    ensures IsFilled(title, content)
  {
    VisibleEndNotBlank(title);
    VisibleEndNotBlank(content);
  }

  /** Each sample note passes the form check. */
  lemma FirstSampleFilled()
    ensures IsFilled(FirstTitle, FirstContent)
  {
    VisibleEndsFilled(FirstTitle, FirstContent);
  }

  lemma SecondSampleFilled()
    ensures IsFilled(SecondTitle, SecondContent)
  {
    VisibleEndsFilled(SecondTitle, SecondContent);
  }

  lemma ThirdSampleFilled()
    ensures IsFilled(ThirdTitle, ThirdContent)
  {
    VisibleEndsFilled(ThirdTitle, ThirdContent);
  }

  /** A three-note list is filled when each of its notes is. */
  lemma ThreeFilled(a: Note, b: Note, c: Note)
    requires IsFilled(a.title, a.content) && IsFilled(b.title, b.content) && IsFilled(c.title, c.content)
    ensures AllFilled([a, b, c])
  {
  }

  /** The sample notes all pass the form check. */
  lemma InitialNotesFilled(today: string)
    ensures AllFilled(InitialNotes(today))
  {
    FirstSampleFilled();
    SecondSampleFilled();
    ThirdSampleFilled();
    ThreeFilled(Note(1, FirstTitle, FirstContent, today),
                Note(2, SecondTitle, SecondContent, today),
                Note(3, ThirdTitle, ThirdContent, today));
  }

  /** The page component's state: the note list and the form. */
  class Home {
    var notes: seq<Note>
    var title: string
    var content: string
    var editingId: Option<int>

    /** Every stored note passed the form check. */
    ghost predicate Valid()
      reads this
    {
      AllFilled(notes)
    }

    /** The first render; `today` is the date string of the sample notes. */
    constructor (today: string)
      ensures Valid()
      ensures notes == InitialNotes(today) && IdsDistinct(notes)
      ensures title == "" && content == "" && editingId == None
    {
      InitialNotesFilled(today);
      notes := InitialNotes(today);
      title := "";
      content := "";
      editingId := None;
    }

    /** The title input's change handler. */
    method SetTitle(value: string)
      requires Valid()
      modifies this
      ensures Valid()
      ensures title == value
      ensures notes == old(notes) && content == old(content) && editingId == old(editingId)
    {
      title := value;
    }

    /** The content textarea's change handler. */
    method SetContent(value: string)
      requires Valid()
      modifies this
      ensures Valid()
      ensures content == value
      ensures notes == old(notes) && title == old(title) && editingId == old(editingId)
    {
      content := value;
    }

    /**
     * `handleSubmit`. `now` is the value of `Date.now()` and `today` that of
     * `toLocaleDateString()` at the time of the call.
     */
    method Submit(now: int, today: string)
      requires Valid()
      modifies this
      ensures Valid()
      // A blank title or content: nothing changes.
      ensures !IsFilled(old(title), old(content)) ==>
                notes == old(notes) && title == old(title) && content == old(content) &&
                editingId == old(editingId)
      // Any accepted submit clears the form.
      ensures IsFilled(old(title), old(content)) ==> title == "" && content == ""
      // Edit mode: the matching notes are rewritten and edit mode ends.
      ensures IsFilled(old(title), old(content)) && IsEditing(old(editingId)) ==>
                notes == UpdateMatching(old(notes), old(editingId).value, old(title), old(content), today) &&
                editingId == None
      // Edit mode for an id no note has: the list is kept, yet the form is still reset.
      ensures IsFilled(old(title), old(content)) && IsEditing(old(editingId)) &&
              old(editingId).value !in old(Ids(notes)) ==>
                notes == old(notes) && editingId == None
      // Edit mode keeps distinct ids distinct, whatever `now` is.
      ensures IsFilled(old(title), old(content)) && IsEditing(old(editingId)) &&
              old(IdsDistinct(notes)) ==>
                IdsDistinct(notes)
      // Add mode: one note, with the untrimmed fields, is appended at the end.
      ensures IsFilled(old(title), old(content)) && !IsEditing(old(editingId)) ==>
                notes == old(notes) + [Note(now, old(title), old(content), today)] &&
                editingId == old(editingId)
      // Distinct ids stay distinct when the new id is fresh.
      ensures old(IdsDistinct(notes)) && now !in old(Ids(notes)) ==> IdsDistinct(notes)
    {
      if !IsFilled(title, content) {
        return;
      }
      if IsEditing(editingId) {
        UpdateKeepsFilled(notes, editingId.value, title, content, today);
        UpdateKeepsIds(notes, editingId.value, title, content, today);
        if IdsDistinct(notes) {
          UpdateKeepsDistinct(notes, editingId.value, title, content, today);
        }
        if editingId.value !in Ids(notes) {
          UpdateAbsentIsIdentity(notes, editingId.value, title, content, today);
        }
        notes := UpdateMatching(notes, editingId.value, title, content, today);
        editingId := None;
      } else {
        var newNote := Note(now, title, content, today);
        if IdsDistinct(notes) && now !in Ids(notes) {
          AppendFreshKeepsDistinct(notes, newNote);
        }
        notes := notes + [newNote];
      }
      title := "";
      content := "";
    }

    /** `handleEdit`: load `note` into the form and enter edit mode for its id. */
    method Edit(note: Note)
      requires Valid()
      modifies this
      ensures Valid()
      ensures title == note.title && content == note.content && editingId == Some(note.id)
      ensures notes == old(notes)
    {
      title := note.title;
      content := note.content;
      editingId := Some(note.id);
    }

    /** `handleDelete`: remove every note with this id; the form is left alone. */
    method Delete(id: int)
      requires Valid()
      modifies this
      ensures Valid()
      ensures notes == RemoveById(old(notes), id)
      ensures title == old(title) && content == old(content) && editingId == old(editingId)
      ensures old(IdsDistinct(notes)) ==> IdsDistinct(notes)
    {
      RemoveKeepsFilled(notes, id);
      if IdsDistinct(notes) {
        RemoveKeepsDistinct(notes, id);
      }
      notes := RemoveById(notes, id);
    }

    /** The "Cancel Edit" button: leave edit mode and clear the form. */
    method CancelEdit()
      requires Valid()
      modifies this
      ensures Valid()
      ensures editingId == None && title == "" && content == ""
      ensures notes == old(notes)
    {
      editingId := None;
      title := "";
      content := "";
    }
  }
}
