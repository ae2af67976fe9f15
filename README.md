# Shopping list — a Dafny model

This project models the logic of a browser shopping-list app written in
React. The app keeps an ordered list of items, each with an id, a name, an
optional category, an optional date and a completed flag. New items go to
the front. Items can be toggled, edited and deleted, and the list can drop
its completed items or be emptied. A search box narrows the rendered list
by a case-insensitive substring match on name or category.

Two widgets feed the list:

- the add form, which trims its input and refuses a blank name;
- the per-item widget, a small Viewing/Editing state machine with three
  edit buffers.

Modules, leaf first:

- `Text` (`text.dfy`): `trim`, ASCII `toLowerCase` and `includes`.
- `Lists` (`lists.dfy`): `Array.prototype.filter` and `map` on sequences,
  and the order-preserving sublist relation.
- `Items` (`items.dfy`): the `Item` record and the six pure list updaters
  of `src/pages/Index.tsx`, the search filter, and their properties.
- `AddForm` (`add_form.dfy`): the add form as a class with three fields,
  and `SubmitRequest`, the function that specifies its submit handler.
- `ListItem` (`list_item.dfy`): the per-item widget as a class.
- `Index` (`index.dfy`): the list page as a class. Each handler replaces
  `items` by an updater's result and keeps a ghost copy of the storage slot
  equal to it. This module also holds lemmas about the widgets and the
  store working together.

The widgets' callbacks (`onAdd`, `onEdit`, `onToggle`, `onDelete`) are
modelled as out-parameters. A method returns the request it would send.

## Notes on behaviour

The model follows the code on three points where a reader might expect
otherwise.

- Names are checked only in the add form. `addItem` itself accepts any
  name, and an edit can store an empty name. See
  `Items.EditAcceptsEmptyName` and `Index.SubmittedAddKeepsNamesFilled`.
- Loading has no fallback for a malformed stored value: `JSON.parse` has no
  guard, so such a value throws. The model starts only from a missing value
  or a parsed list.
- Delete removes every item with the given id. It removes exactly one item
  only when ids are distinct (`Items.DeleteRemovesOne`).

## Model

| member | source | states |
|---|---|---|
| `Text.Trim` | src/components/AddItemForm.tsx:15-16 | `trim` returns the slice of its input that starts at the first non-whitespace character. Everything before and after the slice is whitespace. The slice is empty exactly when the input is blank. Otherwise it starts and ends with a non-whitespace character. |
| `Text.TrimmedIncluded` | src/components/AddItemForm.tsx:15-16 | Trimming a non-blank string gives a non-empty, non-blank string with no whitespace at either end, included in the original. |
| `Text.TrimIdempotent` | src/components/AddItemForm.tsx:16 | A trimmed name is unchanged by another trim. |
| `Text.Lower` | src/pages/Index.tsx:96-97 | `toLowerCase` keeps the length and lowers each character by itself. |
| `Text.LowerIdempotent` | src/pages/Index.tsx:96-97 | Lowering an already lowered query changes nothing. |
| `Text.IncludesIff` | src/pages/Index.tsx:96-97 | `includes` holds exactly when the query occurs at some position of the text. |
| `Text.IncludesFromIff` | src/pages/Index.tsx:96-97 | The scan for the query from a position succeeds exactly when the query occurs at that position or later. |
| `Lists.Filter` | src/pages/Index.tsx:55 | `filter` keeps every occurrence of each element that satisfies the condition and drops every other element. It never makes the list longer. |
| `Lists.Map` | src/pages/Index.tsx:47-51 | `map` keeps the length and puts the image of element `i` at position `i`. |
| `Items.AddItem` | src/pages/Index.tsx:31-39 | The new item, not completed and carrying exactly the given name, category and date, comes first. The old list follows unchanged and in order. |
| `Items.AddKeepsIdsDistinct` | src/pages/Index.tsx:32-39 | When the new id is fresh, ids stay pairwise distinct after an add. |
| `Items.AddDoesNotCheckId` | src/pages/Index.tsx:32-39 | `addItem` does not check the id itself: re-using an existing id creates a duplicate. |
| `Items.ToggleItem` | src/pages/Index.tsx:46-51 | Toggle keeps the length and order, and each item's id, name, category and date. It flips `completed` exactly on the items whose id matches. |
| `Items.ToggleAbsentIsNoOp` | src/pages/Index.tsx:46-51 | Toggling an id that no item has leaves the list as it was. |
| `Items.ToggleTwice` | src/pages/Index.tsx:46-51 | Toggling the same id twice gives back the original list. |
| `Items.DeleteItem` | src/pages/Index.tsx:54-55 | After a delete, the list holds every item with a different id, as often as before, and no item with the deleted id. |
| `Items.DeleteIsSubsequence` | src/pages/Index.tsx:55 | Delete keeps the order of the remaining items. |
| `Items.DeleteIdempotent` | src/pages/Index.tsx:55 | Deleting twice has the same effect as deleting once. |
| `Items.DeleteAbsentIsNoOp` | src/pages/Index.tsx:55 | Deleting an id that no item has leaves the list as it was. |
| `Items.DeleteRemovesOne` | src/pages/Index.tsx:55 | When ids are distinct and the id is present, delete removes exactly one item. |
| `Items.EditItem` | src/pages/Index.tsx:63-69 | Edit keeps the length, order, every id and every `completed` flag. Matching items take the new name, category and date. Every other item is unchanged. |
| `Items.EditAcceptsEmptyName` | src/pages/Index.tsx:63-69 | Edit does not validate the new name: an empty name is stored. |
| `Items.EditAbsentIsNoOp` | src/pages/Index.tsx:63-69 | Editing an id that no item has leaves the list as it was. |
| `Items.ClearCompleted` | src/pages/Index.tsx:77-78 | Clear-completed keeps every occurrence of each item that is not completed, and drops the completed ones. |
| `Items.ClearCompletedIsSubsequence` | src/pages/Index.tsx:78 | Clear-completed keeps the original order of the remaining items. |
| `Items.ClearCompletedIdempotent` | src/pages/Index.tsx:78 | Clearing the completed items twice has the same effect as clearing them once. |
| `Items.ClearAll` | src/pages/Index.tsx:85-86 | Clear-all gives the empty list, whatever the input. |
| `Items.FilterItems` | src/pages/Index.tsx:94-98 | The view keeps an item, with every occurrence, exactly when the lowered name includes the lowered query, or a category is present and the lowered category includes it. |
| `Items.FilterItemsIsSubsequence` | src/pages/Index.tsx:94-98 | The view keeps the list order. |
| `Items.FilterEmptyQuery` | src/pages/Index.tsx:94-98 | With the empty query the view is the whole list, unchanged. |
| `Items.FilterIgnoresQueryCase` | src/pages/Index.tsx:96-97 | A query and its lower-cased form select the same items. |
| `Items.FilterFindsByCategory` | src/pages/Index.tsx:94-98 | The query "dai" finds Milk by its category "Dairy". |
| `Items.FilterFindsNothing` | src/pages/Index.tsx:94-98 | The query "bread" finds nothing in a list holding only Milk in category "Dairy". |
| `Items.SubsequenceKeepsIdsDistinct` | src/pages/Index.tsx:55 | Dropping items cannot create duplicate ids. |
| `Items.SubsequenceKeepsNamesFilled` | src/pages/Index.tsx:78 | Dropping items cannot create a blank name. |
| `Items.ToggleKeepsIds` | src/pages/Index.tsx:46-51 | Toggle keeps the id sequence exactly. |
| `Items.EditKeepsIds` | src/pages/Index.tsx:63-69 | Edit keeps the id sequence exactly. |
| `Items.SameIdsSameDistinctness` | src/pages/Index.tsx:46-69 | Two lists with the same id sequence either both have distinct ids or both do not. |
| `AddForm.SubmitRequest` | src/components/AddItemForm.tsx:15-16 | A submit is accepted exactly when the name is not blank. The emitted name is the trimmed name. The category is absent exactly when it is blank; otherwise it is the non-empty trimmed category. The date is absent exactly when it is empty; otherwise it is passed on untrimmed. |
| `AddForm.SubmittedNameClean` | src/components/AddItemForm.tsx:15-16 | An accepted name is non-empty and not blank, has no whitespace at either end, and occurs in what was typed. |
| `AddForm.Form.constructor` | src/components/AddItemForm.tsx:9-11 | The form starts with all three fields empty. |
| `AddForm.Form.SetName` | src/components/AddItemForm.tsx:29 | The name handler changes only the name. |
| `AddForm.Form.SetCategory` | src/components/AddItemForm.tsx:36 | The category handler changes only the category. |
| `AddForm.Form.SetDate` | src/components/AddItemForm.tsx:43 | The date handler changes only the date. |
| `AddForm.Form.HandleSubmit` | src/components/AddItemForm.tsx:13-21 | Submit emits the request that `SubmitRequest` gives for the fields. A rejected submit leaves all three fields unchanged. An accepted submit empties all three. |
| `ListItem.ShoppingListItem.constructor` | src/components/ShoppingListItem.tsx:26-29 | The widget starts in Viewing, with the buffers holding the item's name, category and date. |
| `ListItem.ShoppingListItem.Rerender` | src/components/ShoppingListItem.tsx:16-29 | New props for the same item id replace the item. The state and the buffers are kept, because their initial values are taken only once. Props with another id are not a re-render: the list keys each widget by its item's id. |
| `ListItem.ShoppingListItem.StartEdit` | src/components/ShoppingListItem.tsx:104 | Start-edit enters Editing and leaves the buffers unchanged. |
| `ListItem.ShoppingListItem.ChangeName` | src/components/ShoppingListItem.tsx:42 | The name handler changes only the name buffer. |
| `ListItem.ShoppingListItem.ChangeCategory` | src/components/ShoppingListItem.tsx:49 | The category handler changes only the category buffer. A cleared input stores `""`, not an absent category. |
| `ListItem.ShoppingListItem.ChangeDate` | src/components/ShoppingListItem.tsx:55 | The date handler changes only the date buffer. A cleared input stores `""`, not an absent date. |
| `ListItem.ShoppingListItem.Save` | src/components/ShoppingListItem.tsx:31-34 | Save emits exactly one edit request: the item's id and the three buffers, with no validation. It then returns to Viewing and changes nothing else. |
| `ListItem.ShoppingListItem.Cancel` | src/components/ShoppingListItem.tsx:67 | Cancel returns to Viewing with no request. The buffers keep the abandoned edits. |
| `ListItem.ShoppingListItem.Toggle` | src/components/ShoppingListItem.tsx:82 | In Viewing, the check box sends the item's own id and changes no local state. |
| `ListItem.ShoppingListItem.Delete` | src/components/ShoppingListItem.tsx:110 | In Viewing, the bin button sends the item's own id and changes no local state. |
| `Index.Store.constructor` | src/pages/Index.tsx:19-29 | The list starts as the stored list, or empty when nothing is stored. The query starts empty. The storage slot then holds the list. |
| `Index.Store.AddItem` | src/pages/Index.tsx:31-39 | With a fresh id, the list becomes `addItem`'s result and stays mirrored to storage. Distinct ids stay distinct. |
| `Index.Store.ToggleItem` | src/pages/Index.tsx:46-51 | The list becomes `toggleItem`'s result with the same id sequence, so distinct ids stay distinct. It stays mirrored to storage. |
| `Index.Store.DeleteItem` | src/pages/Index.tsx:54-55 | The list becomes `deleteItem`'s result, a sublist of the old list, and stays mirrored to storage. Distinct ids stay distinct. |
| `Index.Store.EditItem` | src/pages/Index.tsx:63-69 | The list becomes `editItem`'s result with the same id sequence, so distinct ids stay distinct. It stays mirrored to storage. |
| `Index.Store.ClearCompleted` | src/pages/Index.tsx:77-78 | The list becomes `clearCompleted`'s result, a sublist of the old list, and stays mirrored to storage. Distinct ids stay distinct. |
| `Index.Store.ClearAll` | src/pages/Index.tsx:85-86 | The list becomes empty and stays mirrored to storage. |
| `Index.Store.SetSearchQuery` | src/pages/Index.tsx:116 | The search handler changes only the query. |
| `Index.Store.FilteredItems` | src/pages/Index.tsx:94-98 | The rendered view is a sublist of the items holding every occurrence of each item that matches the query, and nothing else. With the empty query it is the whole list. |
| `Index.SubmittedAddKeepsNamesFilled` | src/components/AddItemForm.tsx:15-16 | Adding what the form accepted keeps every name in the list non-blank. |
| `Index.UpdatesKeepNamesFilled` | src/pages/Index.tsx:46-78 | Toggle, delete and clear-completed keep every name non-blank. Edit keeps names non-blank only when the new name is not blank. |
| `Index.SaveEditsOwnItem` | src/components/ShoppingListItem.tsx:31-34 | When ids are distinct, a widget's save changes its own item's name, category and date, and no other item. |
| `Index.EggsBreadScenario` | src/pages/Index.tsx:31-83 | Adding Eggs then Bread gives `[Bread, Eggs]`. Toggling Bread completes it. Clearing the completed items leaves `[Eggs]`. |

## Left out

- Storage serialisation: `localStorage` and the JSON round trip are browser APIs. The storage slot is a ghost copy of the list, written after every change. A malformed stored value makes `JSON.parse` throw; this throw is not modelled.
- `crypto.randomUUID()`: the id is a parameter of `Index.Store.AddItem`, with a precondition that it is fresh.
- `toast(...)` notifications: these are advisory UI side effects, and no state depends on them.
- The theme toggle (`src/components/ThemeToggle.tsx`): it flips a preference held by an external library.
- Rendering: JSX, CSS classes, icons and `cn` are not modelled. `e.preventDefault()` in the submit handler is not modelled either.
- React scheduling: each updater is applied at once, and the storage effect runs right after it. Batching and effect timing are not modelled.
- Text.Lower: lowers only the ASCII letters A–Z. Full Unicode `toLowerCase` (multi-character and locale-independent mappings) is not modelled, so the search is case-insensitive only for ASCII.
- Dates are the strings a date input produces. The model does not parse them as calendar dates.
