/** The admin's inventory editor: one form that adds a component, or edits
    the one being edited; edit resets the available count to the new total.
    Delete asks for confirmation and filters the entry out. The store's
    answers are inputs. */
module ComponentManagement {
  import opened Strings
  import opened Values
  import opened Seqs
  import opened Records

  /** The form fields, as typed. */
  datatype FormData = FormData(name: string, description: string, totalQuantity: string)

  const EmptyForm: FormData := FormData("", "", "")

  /** What the insert with `.select()` returns: the new row's id, no data,
      or an error. */
  datatype InsertOutcome = Inserted(id: string) | NoData | InsertFailed(error: Thrown)

  /** `c.id !== id`, the test `handleDelete` filters with. */
  function IdOtherThan(id: string): Component -> bool {
    (c: Component) => c.id != id
  }

  /** The component the form describes, with `available_quantity` set to the
      parsed total. */
  function FromForm(id: string, form: FormData): (c: Component)
    ensures c.id == id && c.name == form.name && c.description == form.description
    ensures c.totalQuantity == ParseInt(form.totalQuantity) && c.availableQuantity == c.totalQuantity
  {
    var q := ParseInt(form.totalQuantity);
    Component(id, form.name, form.description, q, q)
  }

  /** The edit branch's `components.map(...)`: every entry with the id gets
      the form's name, description and total, and available equal to it;
      nothing else changes. */
  function ApplyEdit(cs: seq<Component>, id: string, form: FormData): (r: seq<Component>)
    ensures |r| == |cs|
    ensures forall i :: 0 <= i < |cs| ==> r[i] == if cs[i].id == id then FromForm(id, form) else cs[i]
  {
    if cs == [] then []
    else [if cs[0].id == id then FromForm(id, form) else cs[0]] + ApplyEdit(cs[1..], id, form)
  }

  /** The first write of a submit: an update of the edited row, or an insert. */
  function SubmitWrite(editing: Option<string>, form: FormData): (w: StoreWrite)
    ensures IsEditing(editing) <==> w.UpdateComponent?
    ensures w.UpdateComponent? ==> w.id == editing.value
    ensures !IsEditing(editing) ==> w.InsertComponent?
    ensures w.name == form.name && w.description == form.description
    ensures w.total == ParseInt(form.totalQuantity) && w.available == w.total
  {
    var q := ParseInt(form.totalQuantity);
    if IsEditing(editing) then UpdateComponent(editing.value, form.name, form.description, q, q)
    else InsertComponent(form.name, form.description, q, q)
  }

  /** `if (editingId)`: a non-empty id is being edited. */
  predicate IsEditing(editing: Option<string>) {
    editing.Some? && editing.value != ""
  }

  /** Saving the same form twice for the same id changes nothing the second
      time. */
  lemma EditIdempotent(cs: seq<Component>, id: string, form: FormData)
    ensures ApplyEdit(ApplyEdit(cs, id, form), id, form) == ApplyEdit(cs, id, form)
  {
    var once := ApplyEdit(cs, id, form);
    var twice := ApplyEdit(once, id, form);
    assert forall i :: 0 <= i < |twice| ==> twice[i] == once[i];
  }

  /** Deleting a component right after adding it, under an id no other entry
      has, gives back the list from before the add. */
  lemma AddThenDelete(cs: seq<Component>, id: string, form: FormData)
    requires forall i :: 0 <= i < |cs| ==> cs[i].id != id
    ensures Filter(cs + [FromForm(id, form)], IdOtherThan(id)) == cs
  {
    FilterConcat(cs, [FromForm(id, form)], IdOtherThan(id));
    FilterAll(cs, IdOtherThan(id));
    FilterSingleton(FromForm(id, form), IdOtherThan(id));
  }

  /** Loading a component into the form and saving it unchanged keeps its
      total: the total's text parses back to the same number. The available
      count is reset to it. */
  lemma EditRoundTrip(c: Component)
    ensures FromForm(c.id, FormData(c.name, c.description, NumberToString(c.totalQuantity))) ==
      c.(availableQuantity := c.totalQuantity)
  {
    ParseIntOfNumberToString(c.totalQuantity);
  }

  /** Delete keeps exactly the entries with other ids, in their order. */
  lemma DeleteMeaning(cs: seq<Component>, more: seq<Component>, id: string, c: Component)
    ensures c in Filter(cs, IdOtherThan(id)) <==> c in cs && c.id != id
    ensures Filter(cs + more, IdOtherThan(id)) == Filter(cs, IdOtherThan(id)) + Filter(more, IdOtherThan(id))
    ensures (forall i :: 0 <= i < |cs| ==> cs[i].id != id) ==> Filter(cs, IdOtherThan(id)) == cs
  {
    FilterMembership(cs, IdOtherThan(id), c);
    FilterConcat(cs, more, IdOtherThan(id));
    if forall i :: 0 <= i < |cs| ==> cs[i].id != id {
      FilterAll(cs, IdOtherThan(id));
    }
  }

  class View {
    var components: seq<Component>
    var form: FormData
    var editingId: Option<string>
    var message: string

    /** The state after the initial fetch. */
    constructor (rows: Option<seq<Component>>)
      ensures components == RowsOf(rows)
      ensures form == EmptyForm && editingId == None && message == ""
    {
      components := RowsOf(rows);
      form, editingId, message := EmptyForm, None, "";
    }

    /** `handleAddComponent`. When editing, `updateError` is what the update
        returns; otherwise `inserted` is what the insert returns. It yields
        the store write issued. */
    method HandleAddComponent(updateError: Option<Thrown>, inserted: InsertOutcome) returns (write: StoreWrite)
      modifies this
      ensures write == SubmitWrite(old(editingId), old(form))
      // edit branch
      ensures IsEditing(old(editingId)) && updateError.None? ==>
        components == ApplyEdit(old(components), old(editingId).value, old(form)) &&
        message == "Component updated successfully!" && editingId == None && form == EmptyForm
      ensures IsEditing(old(editingId)) && updateError.Some? ==>
        components == old(components) && form == old(form) && editingId == old(editingId) &&
        message == CaughtMessage(updateError.value, "Error processing component")
      // add branch
      ensures !IsEditing(old(editingId)) && inserted.Inserted? ==>
        components == old(components) + [FromForm(inserted.id, old(form))] &&
        message == "Component added successfully!" && form == EmptyForm && editingId == old(editingId)
      ensures !IsEditing(old(editingId)) && inserted.NoData? ==>
        components == old(components) && message == "" && form == EmptyForm && editingId == old(editingId)
      ensures !IsEditing(old(editingId)) && inserted.InsertFailed? ==>
        components == old(components) && form == old(form) && editingId == old(editingId) &&
        message == CaughtMessage(inserted.error, "Error processing component")
    {
      message := "";
      write := SubmitWrite(editingId, form);
      var thrown: Option<Thrown> := None;
      if IsEditing(editingId) {
        if updateError.Some? {
          thrown := updateError;
        } else {
          components := ApplyEdit(components, editingId.value, form);
          message := "Component updated successfully!";
          editingId := None;
        }
      } else {
        match inserted
        case InsertFailed(e) =>
          thrown := Some(e);
        case NoData =>
        case Inserted(id) =>
          components := components + [FromForm(id, form)];
          message := "Component added successfully!";
      }
      if thrown.None? {
        form := EmptyForm;
      } else {
        message := CaughtMessage(thrown.value, "Error processing component");
      }
    }

    /** `handleDelete`: `confirmed` is the answer to the confirm dialog and
        `deleteError` what the delete returns. It yields the store writes. */
    method HandleDelete(id: string, confirmed: bool, deleteError: Option<Thrown>) returns (writes: seq<StoreWrite>)
      modifies this
      ensures form == old(form) && editingId == old(editingId)
      ensures !confirmed ==> writes == [] && components == old(components) && message == old(message)
      ensures confirmed ==> writes == [DeleteComponent(id)]
      ensures confirmed && deleteError.None? ==>
        components == Filter(old(components), IdOtherThan(id)) && message == "Component deleted successfully!"
      ensures confirmed && deleteError.Some? ==>
        components == old(components) && message == CaughtMessage(deleteError.value, "Error deleting component")
    {
      writes := [];
      if !confirmed {
        return;
      }
      writes := [DeleteComponent(id)];
      if deleteError.Some? {
        message := CaughtMessage(deleteError.value, "Error deleting component");
      } else {
        components := Filter(components, IdOtherThan(id));
        message := "Component deleted successfully!";
      }
    }

    /** `handleEdit`: load the component into the form and mark it edited. */
    method HandleEdit(c: Component)
      modifies this
      ensures editingId == Some(c.id)
      ensures form == FormData(c.name, c.description, NumberToString(c.totalQuantity))
      ensures components == old(components) && message == old(message)
    {
      editingId := Some(c.id);
      form := FormData(c.name, c.description, NumberToString(c.totalQuantity));
    }

    /** `handleCancel`: stop editing and clear the form. */
    method HandleCancel()
      modifies this
      ensures editingId == None && form == EmptyForm
      ensures components == old(components) && message == old(message)
    {
      editingId := None;
      form := EmptyForm;
    }
  }
}
