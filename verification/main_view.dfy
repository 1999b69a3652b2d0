/** The note-handling rules of the main view: normalising the content of a
    selected note, choosing the unfinished items to carry into a new weekly
    note, building the new note, and pruning the carried items from the note
    they came from. The component's state is `MainViewState`. */
module MainView {
  import opened Wrappers
  import opened Notes

  /** What an object becomes when it is stored without being serialised. */
  const CorruptContent: string := "[object Object]"

  /** The reset value of a note's content: the empty two-section object for a
      weekly note, the empty string for any other note. */
  function DefaultContent(noteType: string): (r: Content)
    ensures IsWeekly(noteType) ==> r.Obj? && KeyFocus(r) == [] && RegularWork(r) == []
    ensures !IsWeekly(noteType) ==> r == Str("")
  {
    if IsWeekly(noteType) then EmptyWeekly else Str("")
  }

  /** The content put into the active note when a note is selected. `parse`
      stands for `JSON.parse`: `None` is a parse failure (a thrown error). */
  function NormalizeContent(noteType: string, content: Content, parse: string -> Option<Content>): (r: Content)
    // an object is passed through untouched
    ensures content.Obj? ==> r == content
    // the corrupt marker and non-string, non-object values are reset
    ensures content == Str(CorruptContent) || content.Other? ==> r == DefaultContent(noteType)
    // a weekly note's string is parsed, and a failed parse gives the empty sections
    ensures content.Str? && content.s != CorruptContent && IsWeekly(noteType) ==>
      r == (if parse(content.s).Some? then parse(content.s).value else EmptyWeekly)
    // any other note keeps its string verbatim
    ensures content.Str? && content.s != CorruptContent && !IsWeekly(noteType) ==> r == content
  {
    match content
    case Obj(_, _) => content
    case Str(s) =>
      if s == CorruptContent then DefaultContent(noteType)
      else if IsWeekly(noteType) then
        match parse(s)
        case Some(v) => v
        case None => EmptyWeekly
      else content
    case Other => DefaultContent(noteType)
  }

  /** Selecting a note twice changes nothing more than selecting it once,
      whenever the first selection yields an object or the note is not weekly:
      a normal note's content always ends up a string or an object. */
  lemma {:induction false} NormalizeIdempotent(noteType: string, content: Content, parse: string -> Option<Content>)
    requires NormalizeContent(noteType, content, parse).Obj? || !IsWeekly(noteType)
    ensures var r := NormalizeContent(noteType, content, parse);
      NormalizeContent(noteType, r, parse) == r && (!IsWeekly(noteType) ==> r.Obj? || r.Str?)
  {
    var r := NormalizeContent(noteType, content, parse);
    if !IsWeekly(noteType) && content.Str? && content.s == CorruptContent {
      assert r == Str("");
    }
  }

  /** A weekly note whose stored content is corrupt, unparsable, or neither a
      string nor an object opens with two empty sections. */
  lemma {:induction false} NormalizeWeeklyFallsBackToEmpty(content: Content, parse: string -> Option<Content>)
    requires content == Str(CorruptContent) || content.Other? || (content.Str? && parse(content.s).None?)
    ensures var r := NormalizeContent("weekly", content, parse);
      r.Obj? && KeyFocus(r) == [] && RegularWork(r) == []
  {
  }

  predicate Unfinished(item: Item) {
    !item.completed
  }

  /** The items carried over: the unfinished key-focus items followed by the
      unfinished regular-work items, each with `completed` set to false. */
  function CarriedItems(c: Content): (r: seq<Item>)
    ensures r == Filter(Unfinished, AllItems(c))
    ensures forall k :: 0 <= k < |r| ==> !r[k].completed
  {
    var unfinished := Filter(Unfinished, AllItems(c));
    FilterSatisfies(Unfinished, AllItems(c));
    var r := seq(|unfinished|, k requires 0 <= k < |unfinished| => unfinished[k].(completed := false));
    assert r == unfinished;
    r
  }

  /** The carried items are exactly the unfinished ones, as many times as they
      occur, key-focus items first and each section in its original order. */
  lemma {:induction false} CarriedItemsSpec(c: Content)
    ensures CarriedItems(c) == Filter(Unfinished, KeyFocus(c)) + Filter(Unfinished, RegularWork(c))
    ensures forall x :: multiset(CarriedItems(c))[x] == if x.completed then 0 else multiset(AllItems(c))[x]
    ensures IsSubsequence(CarriedItems(c), AllItems(c))
  {
    FilterConcat(Unfinished, KeyFocus(c), RegularWork(c));
    FilterMultiset(Unfinished, AllItems(c));
    FilterIsSubsequence(Unfinished, AllItems(c));
  }

  /** The texts of the carried items: `new Set(items.map(item => item.text))`. */
  function Texts(items: seq<Item>): (r: set<string>)
    ensures forall t :: t in r <==> exists x :: x in items && x.text == t
  {
    set x | x in items :: x.text
  }

  /** The filter callback: an item survives when no carried item has its text. */
  function Survives(texts: set<string>): Item -> bool {
    (item: Item) => item.text !in texts
  }

  /** The content written back to the source note: both sections with every
      item removed whose text is the text of a carried item. */
  function RemoveCarried(c: Content, carried: seq<Item>): (r: Content)
    ensures r.Obj? && r.keyFocus.Some? && r.regularWork.Some?
    ensures forall x :: x in KeyFocus(r) <==> x in KeyFocus(c) && x.text !in Texts(carried)
    ensures forall x :: x in RegularWork(r) <==> x in RegularWork(c) && x.text !in Texts(carried)
  {
    var keep := Survives(Texts(carried));
    FilterMultiset(keep, KeyFocus(c));
    FilterMultiset(keep, RegularWork(c));
    Obj(Some(Filter(keep, KeyFocus(c))), Some(Filter(keep, RegularWork(c))))
  }

  /** One pruned section keeps exactly its items whose text is not in
      `texts`, with their multiplicity and in their order. */
  lemma {:induction false} PruneSection(texts: set<string>, s: seq<Item>)
    ensures var r := Filter(Survives(texts), s);
      (forall x :: multiset(r)[x] == if x.text in texts then 0 else multiset(s)[x]) &&
      (forall x :: x in r <==> x in s && x.text !in texts) &&
      IsSubsequence(r, s)
  {
    FilterMultiset(Survives(texts), s);
    FilterIsSubsequence(Survives(texts), s);
  }

  /** Each section of the pruned source keeps exactly its items whose text is
      not carried, with their multiplicity and in their order. */
  lemma {:induction false} RemoveCarriedSpec(c: Content, carried: seq<Item>)
    ensures var r := RemoveCarried(c, carried);
      r.Obj? && r.keyFocus.Some? && r.regularWork.Some? &&
      (forall x :: multiset(KeyFocus(r))[x] == if x.text in Texts(carried) then 0 else multiset(KeyFocus(c))[x]) &&
      (forall x :: multiset(RegularWork(r))[x] == if x.text in Texts(carried) then 0 else multiset(RegularWork(c))[x]) &&
      IsSubsequence(KeyFocus(r), KeyFocus(c)) && IsSubsequence(RegularWork(r), RegularWork(c))
  {
    PruneSection(Texts(carried), KeyFocus(c));
    PruneSection(Texts(carried), RegularWork(c));
  }

  /** An item is left in the pruned source exactly when it was in the source
      and its text was not carried. */
  lemma {:induction false} RemoveCarriedMembers(c: Content, carried: seq<Item>)
    ensures forall x :: x in AllItems(RemoveCarried(c, carried)) <==> x in AllItems(c) && x.text !in Texts(carried)
  {
    var r := RemoveCarried(c, carried);
    PruneSection(Texts(carried), KeyFocus(c));
    PruneSection(Texts(carried), RegularWork(c));
    forall x ensures x in AllItems(r) <==> x in KeyFocus(r) || x in RegularWork(r) {
    }
    forall x ensures x in AllItems(c) <==> x in KeyFocus(c) || x in RegularWork(c) {
    }
  }

  /** Where the new note is filed. */
  datatype FolderSelection = Inbox | Folder(id: int)

  /** The payload sent to create a note. */
  datatype NewNote = NewNote(title: string, content: Content, noteType: string, folderId: Option<int>)

  /** The payload sent to update the source note after a carry-over. */
  datatype SourceUpdate = SourceUpdate(id: int, title: string, content: Content)

  /** A date argument is truthy: neither `null` nor the empty string. */
  predicate Present(date: Option<string>) {
    date.Some? && date.value != ""
  }

  /** The note built by `handleNewNote` once its early return is passed. */
  function NewNotePayload(noteType: string, startDate: Option<string>, endDate: Option<string>,
                          carried: seq<Item>, selected: FolderSelection): (r: NewNote)
    requires IsWeekly(noteType) ==> Present(startDate) && Present(endDate)
    ensures r.noteType == noteType
    ensures r.folderId == if selected.Inbox? then None else Some(selected.id)
    ensures IsWeekly(noteType) ==>
      r.title == "週記 (" + startDate.value + " ~ " + endDate.value + ")" &&
      r.content.Obj? && KeyFocus(r.content) == carried && RegularWork(r.content) == []
    ensures !IsWeekly(noteType) ==> r.title == "新筆記" && r.content == Str("...")
  {
    var folderId := if selected == Inbox then None else Some(selected.id);
    if IsWeekly(noteType) then
      NewNote("週記 (" + startDate.value + " ~ " + endDate.value + ")",
              Obj(Some(carried), Some([])), noteType, folderId)
    else
      NewNote("新筆記", Str("..."), noteType, folderId)
  }

  /** A whole carry-over: the unfinished items of a weekly note `c` become the
      key-focus section of the new note and are pruned from `c`. Afterwards no
      text is in both notes, every unfinished item is in the new note, every
      item whose text was not carried stays in the source, and a completed
      item that shares its text with an unfinished one is dropped from both. */
  lemma {:induction false} CarryOverPartition(c: Content, startDate: string, endDate: string, selected: FolderSelection)
    requires startDate != "" && endDate != ""
    ensures var carried := CarriedItems(c);
      var created := NewNotePayload("weekly", Some(startDate), Some(endDate), carried, selected).content;
      var pruned := RemoveCarried(c, carried);
      (forall x, y :: x in AllItems(pruned) && y in AllItems(created) ==> x.text != y.text) &&
      (forall x :: x in AllItems(c) && !x.completed ==> x in AllItems(created)) &&
      (forall x :: x in AllItems(c) && x.text !in Texts(carried) ==> x in AllItems(pruned)) &&
      (forall x, y :: x in AllItems(c) && y in AllItems(c) && !y.completed && x.text == y.text ==>
         x !in AllItems(pruned) && (x.completed ==> x !in AllItems(created)))
  {
    var carried := CarriedItems(c);
    var created := NewNotePayload("weekly", Some(startDate), Some(endDate), carried, selected).content;
    assert AllItems(created) == carried;
    RemoveCarriedMembers(c, carried);
    FilterMultiset(Unfinished, AllItems(c));
  }

  /** The state of the main view that the note handlers update. */
  class MainViewState {
    var activeNote: Option<Note>
    var showWeeklyNoteModal: bool
    var selectedFolderId: FolderSelection
    var itemsToCarryOver: seq<Item>
    var sourceNoteForCarryOver: Option<Note>

    constructor ()
      ensures activeNote == None && !showWeeklyNoteModal && selectedFolderId == Inbox
      ensures itemsToCarryOver == [] && sourceNoteForCarryOver == None
    {
      activeNote := None;
      showWeeklyNoteModal := false;
      selectedFolderId := Inbox;
      itemsToCarryOver := [];
      sourceNoteForCarryOver := None;
    }

    /** `handleNoteSelect`: the note becomes active with its content normalised. */
    method NoteSelect(note: Note, parse: string -> Option<Content>)
      modifies this
      ensures activeNote == Some(note.(content := NormalizeContent(note.noteType, note.content, parse)))
      ensures showWeeklyNoteModal == old(showWeeklyNoteModal) && selectedFolderId == old(selectedFolderId)
      ensures itemsToCarryOver == old(itemsToCarryOver) && sourceNoteForCarryOver == old(sourceNoteForCarryOver)
    {
      var contentToSet := NormalizeContent(note.noteType, note.content, parse);
      activeNote := Some(note.(content := contentToSet));
    }

    /** `handleCarryOver`: with an active weekly note that has unfinished
        items, remember those items and the note, and open the date modal;
        otherwise change nothing. */
    method CarryOver()
      modifies this
      ensures old(activeNote).None? || !IsWeekly(old(activeNote).value.noteType)
              || CarriedItems(old(activeNote).value.content) == [] ==>
        activeNote == old(activeNote) && showWeeklyNoteModal == old(showWeeklyNoteModal) &&
        itemsToCarryOver == old(itemsToCarryOver) && sourceNoteForCarryOver == old(sourceNoteForCarryOver)
      ensures old(activeNote).Some? && IsWeekly(old(activeNote).value.noteType)
              && CarriedItems(old(activeNote).value.content) != [] ==>
        activeNote == old(activeNote) && showWeeklyNoteModal &&
        itemsToCarryOver == CarriedItems(old(activeNote).value.content) &&
        sourceNoteForCarryOver == old(activeNote)
      ensures selectedFolderId == old(selectedFolderId)
    {
      if activeNote.None? || !IsWeekly(activeNote.value.noteType) {
        return;
      }
      var unfinished := CarriedItems(activeNote.value.content);
      if |unfinished| == 0 {
        return;
      }
      itemsToCarryOver := unfinished;
      sourceNoteForCarryOver := activeNote;
      showWeeklyNoteModal := true;
    }

    /** `handleNewNote` up to the request: a weekly note without both dates
        clears the carry-over and opens the modal; otherwise the payload to
        create is returned and nothing changes yet. */
    method NewNoteRequest(noteType: string, startDate: Option<string>, endDate: Option<string>)
      returns (request: Option<NewNote>)
      modifies this
      ensures activeNote == old(activeNote) && selectedFolderId == old(selectedFolderId)
      ensures IsWeekly(noteType) && !(Present(startDate) && Present(endDate)) ==>
        request == None && itemsToCarryOver == [] && sourceNoteForCarryOver == None && showWeeklyNoteModal
      ensures !(IsWeekly(noteType) && !(Present(startDate) && Present(endDate))) ==>
        request == Some(NewNotePayload(noteType, startDate, endDate, old(itemsToCarryOver), old(selectedFolderId))) &&
        itemsToCarryOver == old(itemsToCarryOver) && sourceNoteForCarryOver == old(sourceNoteForCarryOver) &&
        showWeeklyNoteModal == old(showWeeklyNoteModal)
    {
      if IsWeekly(noteType) && !(Present(startDate) && Present(endDate)) {
        itemsToCarryOver := [];
        sourceNoteForCarryOver := None;
        showWeeklyNoteModal := true;
        return None;
      }
      request := Some(NewNotePayload(noteType, startDate, endDate, itemsToCarryOver, selectedFolderId));
    }

    /** The success callback of the create request: close the modal; when
        items were carried from a source note, return the update that prunes
        them from it and forget the source; clear the carried items and select
        the created note. */
    method NoteCreated(created: Note, parse: string -> Option<Content>) returns (sourceUpdate: Option<SourceUpdate>)
      modifies this
      ensures !showWeeklyNoteModal && itemsToCarryOver == [] && selectedFolderId == old(selectedFolderId)
      ensures activeNote == Some(created.(content := NormalizeContent(created.noteType, created.content, parse)))
      ensures old(sourceNoteForCarryOver).Some? && old(itemsToCarryOver) != [] ==>
        var source := old(sourceNoteForCarryOver).value;
        sourceUpdate == Some(SourceUpdate(source.id, source.title, RemoveCarried(source.content, old(itemsToCarryOver)))) &&
        sourceNoteForCarryOver == None
      ensures !(old(sourceNoteForCarryOver).Some? && old(itemsToCarryOver) != []) ==>
        sourceUpdate == None && sourceNoteForCarryOver == old(sourceNoteForCarryOver)
    {
      showWeeklyNoteModal := false;
      if sourceNoteForCarryOver.Some? && |itemsToCarryOver| > 0 {
        var source := sourceNoteForCarryOver.value;
        sourceUpdate := Some(SourceUpdate(source.id, source.title, RemoveCarried(source.content, itemsToCarryOver)));
        sourceNoteForCarryOver := None;
        itemsToCarryOver := [];
        NoteSelect(created, parse);
      } else {
        sourceUpdate := None;
        itemsToCarryOver := [];
        NoteSelect(created, parse);
      }
    }
  }
}
