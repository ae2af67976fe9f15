/** The list page of src/pages/Index.tsx: the item list and the search
    query it holds as state, the handlers that replace the list by an
    updated one, and the filtered view it renders. The browser storage
    the list is mirrored to is a ghost copy, written after every change. */
module Index {
  import opened Text
  import opened Lists
  import opened Items
  import opened AddForm
  import opened ListItem

  class Store {
    var items: seq<Item>
    var searchQuery: string
    /** The value last written to the storage slot. */
    ghost var stored: seq<Item>

    /** At rest, the storage slot holds the current list. */
    ghost predicate Valid()
      reads this
    {
      stored == items
    }

    /** Mounting: the list read back from storage, or the empty list when
        the slot is empty; an empty query. */
    constructor (saved: Option<seq<Item>>)
      ensures Valid()
      ensures items == (if saved.Some? then saved.value else [])
      ensures searchQuery == ""
    {
      items := if saved.Some? then saved.value else [];
      searchQuery := "";
      stored := items;
    }

    /** `addItem`, with `id` the fresh id the browser generated. */
    method AddItem(id: string, name: string, category: Option<string>, date: Option<string>)
      requires Valid()
      requires id !in Ids(items)
      modifies this`items, this`stored
      ensures Valid()
      ensures items == Items.AddItem(old(items), id, name, category, date)
      ensures IdsDistinct(old(items)) ==> IdsDistinct(items)
    {
      if IdsDistinct(items) {
        AddKeepsIdsDistinct(items, id, name, category, date);
      }
      items := Items.AddItem(items, id, name, category, date);
      stored := items;
    }

    /** `toggleItem`. */
    method ToggleItem(id: string)
      requires Valid()
      modifies this`items, this`stored
      ensures Valid()
      ensures items == Items.ToggleItem(old(items), id)
      ensures Ids(items) == Ids(old(items))
      ensures IdsDistinct(items) == IdsDistinct(old(items))
    {
      ToggleKeepsIds(items, id);
      SameIdsSameDistinctness(items, Items.ToggleItem(items, id));
      items := Items.ToggleItem(items, id);
      stored := items;
    }

    /** `deleteItem`. */
    method DeleteItem(id: string)
      requires Valid()
      modifies this`items, this`stored
      ensures Valid()
      ensures items == Items.DeleteItem(old(items), id)
      ensures IsSubsequence(items, old(items))
      ensures IdsDistinct(old(items)) ==> IdsDistinct(items)
    {
      DeleteIsSubsequence(items, id);
      if IdsDistinct(items) {
        SubsequenceKeepsIdsDistinct(Items.DeleteItem(items, id), items);
      }
      items := Items.DeleteItem(items, id);
      stored := items;
    }

    /** `editItem`. */
    method EditItem(id: string, name: string, category: Option<string>, date: Option<string>)
      requires Valid()
      modifies this`items, this`stored
      ensures Valid()
      ensures items == Items.EditItem(old(items), id, name, category, date)
      ensures Ids(items) == Ids(old(items))
      ensures IdsDistinct(items) == IdsDistinct(old(items))
    {
      EditKeepsIds(items, id, name, category, date);
      SameIdsSameDistinctness(items, Items.EditItem(items, id, name, category, date));
      items := Items.EditItem(items, id, name, category, date);
      stored := items;
    }

    /** `clearCompleted`. */
    method ClearCompleted()
      requires Valid()
      modifies this`items, this`stored
      ensures Valid()
      ensures items == Items.ClearCompleted(old(items))
      ensures IsSubsequence(items, old(items))
      ensures IdsDistinct(old(items)) ==> IdsDistinct(items)
    {
      ClearCompletedIsSubsequence(items);
      if IdsDistinct(items) {
        SubsequenceKeepsIdsDistinct(Items.ClearCompleted(items), items);
      }
      items := Items.ClearCompleted(items);
      stored := items;
    }

    /** `clearAll`. */
    method ClearAll()
      requires Valid()
      modifies this`items, this`stored
      ensures Valid()
      ensures items == []
    {
      items := Items.ClearAll(items);
      stored := items;
    }

    /** The search input's change handler. */
    method SetSearchQuery(query: string)
      modifies this`searchQuery
      ensures searchQuery == query
    {
      searchQuery := query;
    }

    /** `filteredItems`: the items matching the current query, in list
        order; the whole list when the query is empty. */
    function FilteredItems(): (r: seq<Item>)
      reads this
      ensures IsSubsequence(r, items)
      ensures forall x :: x in r <==> x in items && Matches(x, searchQuery)
      ensures forall x :: multiset(r)[x] == if Matches(x, searchQuery) then multiset(items)[x] else 0
      ensures searchQuery == "" ==> r == items
    {
      FilterItemsIsSubsequence(items, searchQuery);
      if searchQuery == "" then FilterEmptyQuery(items); FilterItems(items, searchQuery)
      else FilterItems(items, searchQuery)
    }
  }

  /** An item added through the add form has a filled name, and so the list
      keeps `NamesFilled`: the form is the one place where names are
      checked. */
  lemma SubmittedAddKeepsNamesFilled(items: seq<Item>, id: string, name: string, category: string, date: string)
    requires NamesFilled(items)
    requires SubmitRequest(name, category, date).Some?
    ensures var req := SubmitRequest(name, category, date).value;
      NamesFilled(Items.AddItem(items, id, req.name, req.category, req.date))
  {
    SubmittedNameClean(name, category, date);
    var req := SubmitRequest(name, category, date).value;
    var r := Items.AddItem(items, id, req.name, req.category, req.date);
    forall i | 0 <= i < |r| ensures !IsBlank(r[i].name) {
      if i > 0 {
        assert r[i] == items[i - 1];
      }
    }
  }

  /** Toggling, deleting and clearing keep every name filled; only editing
      can bring in a blank name, and not when the new name is filled. */
  lemma UpdatesKeepNamesFilled(items: seq<Item>, id: string, name: string, category: Option<string>, date: Option<string>)
    requires NamesFilled(items)
    ensures NamesFilled(Items.ToggleItem(items, id))
    ensures NamesFilled(Items.DeleteItem(items, id))
    ensures NamesFilled(Items.ClearCompleted(items))
    ensures !IsBlank(name) ==> NamesFilled(Items.EditItem(items, id, name, category, date))
  {
    var t := Items.ToggleItem(items, id);
    assert forall i :: 0 <= i < |t| ==> t[i].name == items[i].name;
    DeleteIsSubsequence(items, id);
    SubsequenceKeepsNamesFilled(Items.DeleteItem(items, id), items);
    ClearCompletedIsSubsequence(items);
    SubsequenceKeepsNamesFilled(Items.ClearCompleted(items), items);
  }

  /** A save from an item's widget applies its buffers to that item only,
      even an empty name. */
  lemma SaveEditsOwnItem(items: seq<Item>, k: nat, name: string, category: Option<string>, date: Option<string>)
    requires IdsDistinct(items)
    requires k < |items|
    ensures var req := EditRequest(items[k].id, name, category, date);
      var r := Items.EditItem(items, req.id, req.name, req.category, req.date);
      r[k] == items[k].(name := name, category := category, date := date) &&
      forall i :: 0 <= i < |items| && i != k ==> r[i] == items[i]
  {
    var r := Items.EditItem(items, items[k].id, name, category, date);
    forall i | 0 <= i < |items| && i != k ensures r[i] == items[i] {
      assert items[i].id != items[k].id;
    }
  }

  /** A short session: add "Eggs", add "Bread", toggle "Bread", clear the
      completed items; "Eggs" alone remains. */
  lemma EggsBreadScenario(eggs: string, bread: string)
    requires eggs != bread
    ensures var l1 := Items.AddItem([], eggs, "Eggs", None, None);
      var l2 := Items.AddItem(l1, bread, "Bread", None, None);
      var l3 := Items.ToggleItem(l2, bread);
      l2 == [Item(bread, "Bread", None, None, false), Item(eggs, "Eggs", None, None, false)] &&
      l3[0].completed &&
      Items.ClearCompleted(l3) == [Item(eggs, "Eggs", None, None, false)]
  {
    var l2 := [Item(bread, "Bread", None, None, false), Item(eggs, "Eggs", None, None, false)];
    var l3 := Items.ToggleItem(l2, bread);
    assert l3 == [Item(bread, "Bread", None, None, true), Item(eggs, "Eggs", None, None, false)];
    assert Filter(l3, PendingKeep()) == Filter(l3[1..], PendingKeep());
  }
}
