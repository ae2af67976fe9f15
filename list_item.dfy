/** The per-item widget of src/components/ShoppingListItem.tsx: a Viewing
    state (`isEditing` false) with toggle, start-edit and delete buttons,
    and an Editing state with three input buffers and save and cancel
    buttons. The widget's callbacks become out-parameters: each button
    returns the request it sends to the list page. */
module ListItem {
  import opened Items

  /** The arguments of one `onEdit` call. */
  datatype EditRequest = EditRequest(id: string, name: string, category: Option<string>, date: Option<string>)

  class ShoppingListItem {
    /** The item the widget was rendered with (its props). */
    var item: Item
    var isEditing: bool
    var editedName: string
    var editedCategory: Option<string>
    var editedDate: Option<string>

    /** Mounting: Viewing, with the buffers holding the item's own name,
        category and date. */
    constructor (item: Item)
      ensures this.item == item && !isEditing
      ensures editedName == item.name && editedCategory == item.category && editedDate == item.date
    {
      this.item := item;
      isEditing := false;
      editedName := item.name;
      editedCategory := item.category;
      editedDate := item.date;
    }

    /** A later render with new props for the same item: the buffers keep
        what they hold, since their initial values were taken once, at
        mount. The list renders each widget under its item's id as key, so
        props with another id mount a fresh widget instead. */
    method Rerender(item: Item)
      requires item.id == this.item.id
      modifies this`item
      ensures this.item == item
    {
      this.item := item;
    }

    /** The pencil button: Editing, with the buffers as they were. */
    method StartEdit()
      requires !isEditing
      modifies this`isEditing
      ensures isEditing
    {
      isEditing := true;
    }

    /** The name input's change handler. */
    method ChangeName(value: string)
      requires isEditing
      modifies this`editedName
      ensures editedName == value
    {
      editedName := value;
    }

    /** The category input's change handler: a cleared input stores the
        empty string, not an absent category. */
    method ChangeCategory(value: string)
      requires isEditing
      modifies this`editedCategory
      ensures editedCategory == Some(value)
    {
      editedCategory := Some(value);
    }

    /** The date input's change handler: a cleared input stores the empty
        string, not an absent date. */
    method ChangeDate(value: string)
      requires isEditing
      modifies this`editedDate
      ensures editedDate == Some(value)
    {
      editedDate := Some(value);
    }

    /** `handleSave`: one edit request carrying the item's id and the three
        buffers as they are, with no check of the name; then Viewing. */
    method Save() returns (request: EditRequest)
      requires isEditing
      modifies this`isEditing
      ensures request == EditRequest(item.id, editedName, editedCategory, editedDate)
      ensures !isEditing
    {
      request := EditRequest(item.id, editedName, editedCategory, editedDate);
      isEditing := false;
    }

    /** The cross button: Viewing, no request, and the buffers keep the
        abandoned edits. */
    method Cancel()
      requires isEditing
      modifies this`isEditing
      ensures !isEditing
    {
      isEditing := false;
    }

    /** The check-box button: a toggle request for the item's own id; no
        local state changes. */
    method Toggle() returns (id: string)
      requires !isEditing
      ensures id == item.id
    {
      id := item.id;
    }

    /** The bin button: a delete request for the item's own id; no local
        state changes. */
    method Delete() returns (id: string)
      requires !isEditing
      ensures id == item.id
    {
      id := item.id;
    }
  }
}
