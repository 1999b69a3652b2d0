/** The weekly-note editor: the work-item list of one section with its add,
    remove, toggle and in-place edit handlers (`WeeklyWorkList`), and the two
    section setters through which an edited list reaches the note. */
module NoteEditor {
  import opened Wrappers
  import opened Notes

  /** The characters `String.prototype.trim` removes: the white space and
      line terminator characters of ECMAScript (section 12.2 and 12.3 of
      ECMA-262), which include the Unicode space separators. */
  predicate IsJsWhitespace(c: char) {
    c == '\t' || c == '\n' || c == '\U{000B}' || c == '\U{000C}' || c == '\r' || c == ' ' ||
    c == '\U{00A0}' || c == '\U{1680}' || ('\U{2000}' <= c <= '\U{200A}') ||
    c == '\U{2028}' || c == '\U{2029}' || c == '\U{202F}' || c == '\U{205F}' ||
    c == '\U{3000}' || c == '\U{FEFF}'
  }

  /** Where the scan from position `i` over white space stops: the first
      position at or after `i` that does not hold white space, or `|s|`. */
  function SkipLeading(s: string, i: nat): (n: nat)
    requires i <= |s|
    ensures i <= n <= |s|
    ensures forall k :: i <= k < n ==> IsJsWhitespace(s[k])
    ensures n < |s| ==> !IsJsWhitespace(s[n])
    decreases |s| - i
  {
    if i < |s| && IsJsWhitespace(s[i]) then SkipLeading(s, i + 1) else i
  }

  /** Where the backward scan from position `j` over white space stops,
      never going below `lo`: the end of the last non-white-space character
      in `s[lo..j]`, or `lo`. */
  function SkipTrailing(s: string, lo: nat, j: nat): (n: nat)
    requires lo <= j <= |s|
    ensures lo <= n <= j
    ensures forall k :: n <= k < j ==> IsJsWhitespace(s[k])
    ensures n > lo ==> !IsJsWhitespace(s[n - 1])
    decreases j
  {
    if lo < j && IsJsWhitespace(s[j - 1]) then SkipTrailing(s, lo, j - 1) else j
  }

  /** `String.prototype.trim`: the slice of `s` left after cutting its
      leading and trailing white space. */
  function Trim(s: string): (r: string)
    // all that is cut off at either end is white space, and what is left is
    // the slice of `s` in between
    ensures var i := SkipLeading(s, 0);
      i + |r| <= |s| && r == s[i..i + |r|] &&
      (forall k :: 0 <= k < i ==> IsJsWhitespace(s[k])) &&
      (forall k :: i + |r| <= k < |s| ==> IsJsWhitespace(s[k]))
    // it is empty exactly when `s` is all white space, and otherwise starts
    // and ends with a non-white-space character
    ensures r == "" <==> forall k :: 0 <= k < |s| ==> IsJsWhitespace(s[k])
    ensures r != "" ==> !IsJsWhitespace(r[0]) && !IsJsWhitespace(r[|r| - 1])
  {
    var i := SkipLeading(s, 0);
    s[i..SkipTrailing(s, i, |s|)]
  }

  /** Trimming a trimmed string changes nothing. */
  lemma {:induction false} TrimIdempotent(s: string)
    ensures Trim(Trim(s)) == Trim(s)
  {
    var r := Trim(s);
    if r != "" {
      assert SkipLeading(r, 0) == 0;
      assert SkipTrailing(r, 0, |r|) == |r|;
    }
  }

  /** The item `handleAddItem` appends: the trimmed text, unfinished, with
      empty notes and no tags. */
  function NewItem(text: string): (r: Item)
    ensures r.text == Trim(text) && !r.completed && r.notes == "" && r.tags.None?
    ensures Trim(text) != "" ==> !IsJsWhitespace(r.text[0]) && !IsJsWhitespace(r.text[|r.text| - 1])
  {
    Item(Trim(text), false, "", None)
  }

  /** `items.filter((_, i) => i !== index)`: exactly position `index` is
      removed, and an index outside the list removes nothing. */
  function RemoveAt(items: seq<Item>, index: int): (r: seq<Item>)
    ensures 0 <= index < |items| ==> r == items[..index] + items[index + 1..]
    ensures !(0 <= index < |items|) ==> r == items
    decreases |items|
  {
    if items == [] then []
    else (if index == 0 then [] else [items[0]]) + RemoveAt(items[1..], index - 1)
  }

  /** `items.map((item, i) => i === index ? { ...item, completed: !item.completed } : item)` */
  function ToggleAt(items: seq<Item>, index: int): (r: seq<Item>)
    ensures |r| == |items|
    ensures forall k :: 0 <= k < |items| && k != index ==> r[k] == items[k]
    ensures 0 <= index < |items| ==>
      r[index].completed == !items[index].completed &&
      r[index].text == items[index].text && r[index].notes == items[index].notes &&
      r[index].tags == items[index].tags
  {
    seq(|items|, k requires 0 <= k < |items| =>
      if k == index then items[k].(completed := !items[k].completed) else items[k])
  }

  /** Toggling the same item twice restores the list. */
  lemma {:induction false} ToggleTwice(items: seq<Item>, index: int)
    ensures ToggleAt(ToggleAt(items, index), index) == items
  {
    var once := ToggleAt(items, index);
    var twice := ToggleAt(once, index);
    forall k | 0 <= k < |items| ensures twice[k] == items[k] {
      if k == index {
        assert twice[k].completed == items[k].completed;
      }
    }
  }

  /** The two fields an item can be edited in. */
  datatype Field = TextField | NotesField

  function FieldOf(item: Item, field: Field): string {
    match field
    case TextField => item.text
    case NotesField => item.notes
  }

  /** `items.map((item, i) => i === index ? { ...item, [field]: value } : item)`:
      only the edited field of the edited item changes. */
  function EditAt(items: seq<Item>, index: int, field: Field, value: string): (r: seq<Item>)
    ensures |r| == |items|
    ensures forall k :: 0 <= k < |items| && k != index ==> r[k] == items[k]
    ensures 0 <= index < |items| ==>
      FieldOf(r[index], field) == value &&
      (forall g :: g != field ==> FieldOf(r[index], g) == FieldOf(items[index], g)) &&
      r[index].completed == items[index].completed && r[index].tags == items[index].tags
  {
    seq(|items|, k requires 0 <= k < |items| =>
      if k != index then items[k]
      else match field
        case TextField => items[k].(text := value)
        case NotesField => items[k].(notes := value))
  }

  /** Saving an edit that did not change the field leaves the list as it was. */
  lemma {:induction false} EditUnchangedValue(items: seq<Item>, index: int, field: Field)
    requires 0 <= index < |items|
    ensures EditAt(items, index, field, FieldOf(items[index], field)) == items
  {
    var r := EditAt(items, index, field, FieldOf(items[index], field));
    assert r[index] == items[index] by {
      assert FieldOf(r[index], TextField) == items[index].text;
      assert FieldOf(r[index], NotesField) == items[index].notes;
    }
    assert forall k :: 0 <= k < |items| ==> r[k] == items[k];
  }

  /** `setKeyFocus`: `{ ...content, keyFocus: items }`. Spreading a string or a
      non-object keeps no section, so `regularWork` is then missing. */
  function SetKeyFocus(c: Content, items: seq<Item>): (r: Content)
    ensures r.Obj? && KeyFocus(r) == items && RegularWork(r) == RegularWork(c)
    ensures c.Obj? ==> r.regularWork == c.regularWork
  {
    Obj(Some(items), if c.Obj? then c.regularWork else None)
  }

  /** `setRegularWork`: `{ ...content, regularWork: items }`. */
  function SetRegularWork(c: Content, items: seq<Item>): (r: Content)
    ensures r.Obj? && RegularWork(r) == items && KeyFocus(r) == KeyFocus(c)
    ensures c.Obj? ==> r.keyFocus == c.keyFocus
  {
    Obj(if c.Obj? then c.keyFocus else None, Some(items))
  }

  /** Editing one section and then the other gives the same content in either
      order: the two setters never interfere. */
  lemma {:induction false} SettersCommute(c: Content, kf: seq<Item>, rw: seq<Item>)
    ensures SetKeyFocus(SetRegularWork(c, rw), kf) == SetRegularWork(SetKeyFocus(c, kf), rw)
    ensures KeyFocus(SetKeyFocus(SetRegularWork(c, rw), kf)) == kf
    ensures RegularWork(SetKeyFocus(SetRegularWork(c, rw), kf)) == rw
  {
  }

  /** The list of one section together with the editing state of its row
      being edited. `items` is the list received from the note; the handlers
      replace it through `setItems`. */
  class WeeklyWorkList {
    var items: seq<Item>
    var newItemText: string
    var editingIndex: Option<int>
    var editingField: Option<Field>
    var editText: string

    /** A list opens with the `items` prop and nothing being edited. The
        editor passes `KeyFocus` or `RegularWork` of the note, so a missing
        section opens as the empty list. */
    constructor (items: seq<Item>)
      ensures this.items == items
      ensures newItemText == "" && editingIndex == None && editingField == None && editText == ""
    {
      this.items := items;
      newItemText := "";
      editingIndex := None;
      editingField := None;
      editText := "";
    }

    /** Typing into the new-item input. */
    method NewItemTextChange(value: string)
      modifies this`newItemText
      ensures newItemText == value
    {
      newItemText := value;
    }

    /** `handleAddItem`: blank input changes nothing; otherwise the trimmed
        text is appended as a new unfinished item and the input is cleared. */
    method AddItem()
      modifies this`items, this`newItemText
      ensures Trim(old(newItemText)) == "" ==> items == old(items) && newItemText == old(newItemText)
      ensures Trim(old(newItemText)) != "" ==>
        items == old(items) + [Item(Trim(old(newItemText)), false, "", None)] && newItemText == ""
    {
      if Trim(newItemText) == "" {
        return;
      }
      items := items + [NewItem(newItemText)];
      newItemText := "";
    }

    /** `handleRemoveItem` */
    method RemoveItem(index: int)
      modifies this`items
      ensures items == RemoveAt(old(items), index)
    {
      items := RemoveAt(items, index);
    }

    /** `handleToggleCompleted` */
    method ToggleCompleted(index: int)
      modifies this`items
      ensures items == ToggleAt(old(items), index)
    {
      items := ToggleAt(items, index);
    }

    /** `handleEditStart`: remember which field of which row is edited, and
        its current value. */
    method EditStart(index: int, field: Field, initialValue: string)
      modifies this`editingIndex, this`editingField, this`editText
      ensures editingIndex == Some(index) && editingField == Some(field) && editText == initialValue
    {
      editingIndex := Some(index);
      editingField := Some(field);
      editText := initialValue;
    }

    /** `handleEditChange` */
    method EditChange(value: string)
      modifies this`editText
      ensures editText == value
    {
      editText := value;
    }

    /** `handleEditSave`: with no row being edited nothing happens; otherwise
        the edited field of the edited row takes the edited text and the
        editing state is reset. */
    method EditSave()
      modifies this`items, this`editingIndex, this`editingField, this`editText
      ensures old(editingIndex).None? ==>
        items == old(items) && editingIndex == old(editingIndex) &&
        editingField == old(editingField) && editText == old(editText)
      ensures old(editingIndex).Some? ==>
        items == (if old(editingField).Some?
                  then EditAt(old(items), old(editingIndex).value, old(editingField).value, old(editText))
                  else old(items)) &&
        editingIndex == None && editingField == None && editText == ""
    {
      if editingIndex.None? {
        return;
      }
      if editingField.Some? {
        items := EditAt(items, editingIndex.value, editingField.value, editText);
      }
      editingIndex := None;
      editingField := None;
      editText := "";
    }
  }
}
