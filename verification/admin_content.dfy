/** The admin editors for the "about us" and "payment policy" texts.  The
    two components are the same code over different tables: a list of
    three-paragraph items, an add form, one item under edit, and a "bold"
    button that wraps the selection of a text box in `<strong>` tags. */
module AdminContent {
  import opened Common
  import opened Text
  import opened Js

  /** One stored item; `id` is `undefined` on the add form. */
  datatype Item = Item(id: Value, paragraph1: string, paragraph2: string, paragraph3: string)

  /** The component state the operations touch. */
  datatype Editor = Editor(editing: Option<Item>, showAddForm: bool, newItem: Item)

  /** The add form as the page starts and as it is reset. */
  function BlankItem(): (r: Item)
    ensures r.id == Undefined && r.paragraph1 == "" && r.paragraph2 == "" && r.paragraph3 == ""
  {
    Item(Undefined, "", "", "")
  }

  // ------------------------------------------------------------- editing

  /** `startEdit`: a copy of the item goes under edit and the add form
      closes. */
  function StartEdit(ed: Editor, item: Item): (r: Editor)
    ensures r.editing == Some(item) && !r.showAddForm && r.newItem == ed.newItem
  {
    ed.(editing := Some(item), showAddForm := false)
  }

  function CancelEdit(ed: Editor): (r: Editor)
    ensures r.editing.None? && r.showAddForm == ed.showAddForm && r.newItem == ed.newItem
  {
    ed.(editing := None)
  }

  /** `showAddFormToggle`: flips the add form, drops any edit and empties
      the add form. */
  function ShowAddFormToggle(ed: Editor): (r: Editor)
    ensures r.showAddForm == !ed.showAddForm
    ensures r.editing.None? && r.newItem == BlankItem()
  {
    Editor(None, !ed.showAddForm, BlankItem())
  }

  /** Toggling twice brings the flag back, with the edit dropped and the
      form empty. */
  lemma ToggleTwice(ed: Editor)
    ensures ShowAddFormToggle(ShowAddFormToggle(ed)) == ed.(editing := None, newItem := BlankItem())
  {
  }

  /** The three paragraphs of the add form are all filled in. */
  predicate Complete(item: Item) {
    !IsBlank(item.paragraph1) && !IsBlank(item.paragraph2) && !IsBlank(item.paragraph3)
  }

  datatype AddOutcome = Incomplete | Create(item: Item)

  /** `addNewItem`: refused when a paragraph is blank; otherwise the form
      is sent, and only a successful create closes and empties it. */
  function AddNewItem(ed: Editor, reply: Reply<()>): (r: (Editor, AddOutcome))
    ensures r.1.Incomplete? <==> !Complete(ed.newItem)
    ensures r.1.Incomplete? ==> r.0 == ed
    ensures r.1.Create? ==> r.1.item == ed.newItem
    ensures r.1.Create? && reply.Ok? ==> r.0 == ed.(showAddForm := false, newItem := BlankItem())
    ensures r.1.Create? && reply.Failed? ==> r.0 == ed
  {
    if !Complete(ed.newItem) then (ed, Incomplete)
    else if reply.Ok? then (ed.(showAddForm := false, newItem := BlankItem()), Create(ed.newItem))
    else (ed, Create(ed.newItem))
  }

  /** The form `showAddFormToggle` leaves behind cannot be sent. */
  lemma FreshFormIsIncomplete(ed: Editor, reply: Reply<()>)
    ensures AddNewItem(ShowAddFormToggle(ed), reply).1 == Incomplete
  {
    assert IsBlank("");
  }

  datatype SaveOutcome = NotSaved | Update(id: Value, paragraph1: string, paragraph2: string, paragraph3: string)

  /** `saveEdit`: nothing happens without an item under edit or when its id
      is falsy; otherwise its paragraphs are sent under its id, and only a
      successful update ends the edit. */
  function SaveEdit(ed: Editor, reply: Reply<()>): (r: (Editor, SaveOutcome))
    ensures ed.editing.None? || !Truthy(ed.editing.value.id) ==> r == (ed, NotSaved)
    ensures ed.editing.Some? && Truthy(ed.editing.value.id) ==> r.1.Update?
    ensures r.1.Update? ==>
      var item := ed.editing.value;
      && Truthy(item.id) && r.1 == Update(item.id, item.paragraph1, item.paragraph2, item.paragraph3)
      && (reply.Ok? ==> r.0 == ed.(editing := None))
      && (reply.Failed? ==> r.0 == ed)
  {
    match ed.editing
    case None => (ed, NotSaved)
    case Some(item) =>
      if !Truthy(item.id) then (ed, NotSaved)
      else
        var sent := Update(item.id, item.paragraph1, item.paragraph2, item.paragraph3);
        if reply.Ok? then (ed.(editing := None), sent) else (ed, sent)
  }

  /** A successful save ends the edit, so saving again sends nothing. */
  lemma SaveEndsEdit(ed: Editor)
    requires SaveEdit(ed, Ok(())).1.Update?
    ensures forall reply: Reply<()> :: SaveEdit(SaveEdit(ed, Ok(())).0, reply) == (SaveEdit(ed, Ok(())).0, NotSaved)
  {
  }

  /** `deleteItem`: only a confirmed delete is sent; the editor itself is
      not touched. */
  function DeleteItem(ed: Editor, id: Value, confirmed: bool): (r: (Editor, Option<Value>))
    ensures r.0 == ed
    ensures r.1.Some? <==> confirmed
    ensures r.1.Some? ==> r.1.value == id
  {
    if confirmed then (ed, Some(id)) else (ed, None)
  }

  // ---------------------------------------------------------- bold button

  /** A text box's text and its selection `[start, end)`; the browser keeps
      the selection inside the text. */
  datatype TextArea = TextArea(value: string, start: nat, end: nat)

  predicate ValidSelection(t: TextArea) {
    t.start <= t.end <= |t.value|
  }

  const OpenTag: string := "<strong>"
  const CloseTag: string := "</strong>"
  const Placeholder: string := "Bold Text"

  /** The new text and selection of the bold button: a selection is wrapped
      in the tags and stays selected inside them; with nothing selected a
      tagged placeholder is inserted at the caret and the placeholder's
      words are selected. */
  function Bold(t: TextArea): (r: TextArea)
    requires ValidSelection(t)
    ensures ValidSelection(r)
    ensures t.start < t.end ==>
      && |r.value| == |t.value| + 17
      && r.start == t.start + 8 && r.end == t.end + 8
      && r.value[r.start..r.end] == t.value[t.start..t.end]
      && r.value[..t.start] == t.value[..t.start]
      && r.value[t.start..r.start] == OpenTag
      && r.value[r.end..t.end + 17] == CloseTag
      && r.value[t.end + 17..] == t.value[t.end..]
    ensures t.start == t.end ==>
      && |r.value| == |t.value| + 26
      && r.start == t.start + 8 && r.end == t.start + 17
      && r.value[r.start..r.end] == Placeholder
      && r.value[..t.start] == t.value[..t.start]
      && r.value[t.start..t.start + 26] == OpenTag + Placeholder + CloseTag
      && r.value[t.start + 26..] == t.value[t.end..]
  {
    var before := t.value[..t.start];
    var after := t.value[t.end..];
    if t.start < t.end then
      var selected := t.value[t.start..t.end];
      var text := before + OpenTag + selected + CloseTag + after;
      assert text[..t.start] == before;
      assert text[t.start..t.start + 8] == OpenTag;
      assert text[t.start + 8..t.end + 8] == selected;
      assert text[t.end + 8..t.end + 17] == CloseTag;
      assert text[t.end + 17..] == after;
      TextArea(text, t.start + 8, t.end + 8)
    else
      var text := before + OpenTag + Placeholder + CloseTag + after;
      assert text[..t.start] == before;
      assert text[t.start..t.start + 26] == OpenTag + Placeholder + CloseTag;
      assert text[t.start + 8..t.start + 17] == Placeholder;
      assert text[t.start + 26..] == after;
      TextArea(text, t.start + 8, t.start + 17)
  }

  /** Taking the tags out again gives back the text before the click: the
      part before the selection, the selection, and the part after it. */
  lemma BoldIsUndoable(t: TextArea)
    requires ValidSelection(t)
    ensures t.start < t.end ==>
      var r := Bold(t);
      r.value[..t.start] + r.value[r.start..r.end] + r.value[t.end + 17..] == t.value
    ensures t.start == t.end ==>
      var r := Bold(t);
      r.value[..t.start] + r.value[t.start + 26..] == t.value
  {
    var r := Bold(t);
    assert t.value == t.value[..t.start] + t.value[t.start..t.end] + t.value[t.end..];
  }

  /** The ids of the six text boxes, in the order the model field is
      picked. */
  const FieldIds: seq<string> :=
    ["newParagraph1", "newParagraph2", "newParagraph3", "editParagraph1", "editParagraph2", "editParagraph3"]

  /** The test `textareaId.includes(name)`. */
  function Mentions(textareaId: string): string -> bool {
    (name: string) => Contains(textareaId, name)
  }

  /** Which model field a text box feeds: the first name in `FieldIds` the
      id contains (0-2 the add form's paragraphs, 3-5 the edited item's). */
  function Route(textareaId: string): (r: Option<nat>)
    ensures r.Some? ==> r.value < 6 && Contains(textareaId, FieldIds[r.value])
    ensures r.Some? ==> forall j :: 0 <= j < r.value ==> !Contains(textareaId, FieldIds[j])
    ensures r.None? <==> forall j :: 0 <= j < 6 ==> !Contains(textareaId, FieldIds[j])
  {
    FirstIndex(FieldIds, Mentions(textareaId))
  }

  /** The paragraph of an item picked by a position 0-2. */
  function Paragraph(item: Item, k: nat): string
    requires k < 3
  {
    if k == 0 then item.paragraph1 else if k == 1 then item.paragraph2 else item.paragraph3
  }

  function WithParagraph(item: Item, k: nat, text: string): (r: Item)
    requires k < 3
    ensures Paragraph(r, k) == text && r.id == item.id
    ensures forall j :: 0 <= j < 3 && j != k ==> Paragraph(r, j) == Paragraph(item, j)
  {
    if k == 0 then item.(paragraph1 := text)
    else if k == 1 then item.(paragraph2 := text)
    else item.(paragraph3 := text)
  }

  /** The model field behind field number `i`; an edit field exists only
      while an item is under edit. */
  function FieldOf(ed: Editor, i: nat): Option<string>
    requires i < 6
  {
    if i < 3 then Some(Paragraph(ed.newItem, i))
    else if ed.editing.Some? then Some(Paragraph(ed.editing.value, i - 3))
    else None
  }

  datatype BoldOutcome =
    | NoTextArea
    | Threw(text: string)
    | Done(area: TextArea)

  /** `insertBold(textareaId)`: without the text box nothing happens.
      Otherwise the box gets the bold text, the field the id routes to gets
      the same text, and the box's selection moves.  An id routed to an
      edit field while nothing is under edit makes the assignment throw:
      the box keeps the new text but the model does not change.  An id
      routed nowhere changes only the box. */
  function InsertBold(ed: Editor, textareaId: string, box: Option<TextArea>): (r: (Editor, BoldOutcome))
    requires box.Some? ==> ValidSelection(box.value)
    ensures box.None? <==> r.1.NoTextArea?
    ensures !r.1.Done? ==> r.0 == ed
    ensures r.1.Threw? ==> r.1.text == Bold(box.value).value
    ensures r.1.Threw? <==> box.Some? && Route(textareaId).Some? && FieldOf(ed, Route(textareaId).value).None?
    ensures r.1.Done? ==> r.1.area == Bold(box.value)
    ensures r.1.Done? && Route(textareaId).None? ==> r.0 == ed
    ensures r.1.Done? && Route(textareaId).Some? ==>
      && FieldOf(r.0, Route(textareaId).value) == Some(Bold(box.value).value)
      && (forall j :: 0 <= j < 6 && j != Route(textareaId).value ==> FieldOf(r.0, j) == FieldOf(ed, j))
      && r.0.showAddForm == ed.showAddForm
    ensures r.1.Done? ==>
      && r.0.newItem.id == ed.newItem.id
      && (r.0.editing.Some? <==> ed.editing.Some?)
      && (ed.editing.Some? ==> r.0.editing.value.id == ed.editing.value.id)
  {
    match box
    case None => (ed, NoTextArea)
    case Some(t) =>
      var b := Bold(t);
      match Route(textareaId)
      case None => (ed, Done(b))
      case Some(i) =>
        if i < 3 then (ed.(newItem := WithParagraph(ed.newItem, i, b.value)), Done(b))
        else if ed.editing.None? then (ed, Threw(b.value))
        else (ed.(editing := Some(WithParagraph(ed.editing.value, i - 3, b.value))), Done(b))
  }

  /** Ids are tried add-form first: an id naming an add-form paragraph never
      feeds the item under edit. */
  lemma AddFormIdsWin(textareaId: string, k: nat)
    requires k < 3 && Contains(textareaId, FieldIds[k])
    ensures Route(textareaId).Some? && Route(textareaId).value <= k
  {
  }

  /** When the box shows the field it feeds (as the two-way binding keeps
      it), taking the tags back out of the updated field restores the
      field. */
  lemma BoldFieldIsUndoable(ed: Editor, textareaId: string, t: TextArea)
    requires ValidSelection(t) && t.start < t.end
    requires Route(textareaId).Some? && FieldOf(ed, Route(textareaId).value) == Some(t.value)
    ensures InsertBold(ed, textareaId, Some(t)).1.Done?
    ensures var text := FieldOf(InsertBold(ed, textareaId, Some(t)).0, Route(textareaId).value).value;
      text[..t.start] + text[t.start + 8..t.end + 8] + text[t.end + 17..] == FieldOf(ed, Route(textareaId).value).value
  {
    BoldIsUndoable(t);
  }
}
