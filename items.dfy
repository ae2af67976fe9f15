/** The shopping-list item and the pure updaters the list page hands to
    its state setter, in src/pages/Index.tsx: every operation is a total
    function from the previous list to the next one. */
module Items {
  import opened Lists
  import opened Text

  datatype Option<T> = None | Some(value: T)

  /** One entry of the list. An absent optional field is `None`; a present
      one may still be the empty string. */
  datatype Item = Item(id: string, name: string, category: Option<string>, date: Option<string>, completed: bool)

  /** The ids of the items, in list order. */
  function Ids(items: seq<Item>): (r: seq<string>)
    ensures |r| == |items|
    ensures forall i :: 0 <= i < |items| ==> r[i] == items[i].id
  {
    if items == [] then [] else [items[0].id] + Ids(items[1..])
  }

  /** No two items share an id. */
  predicate IdsDistinct(items: seq<Item>) {
    forall i, j :: 0 <= i < j < |items| ==> items[i].id != items[j].id
  }

  /** Every item's name has a non-whitespace character. */
  predicate NamesFilled(items: seq<Item>) {
    forall i :: 0 <= i < |items| ==> !IsBlank(items[i].name)
  }

  // ---------------------------------------------------------------- add

  /** `addItem`: the new item, not completed, goes in front. The id is the
      one `crypto.randomUUID()` would have produced; nothing is checked. */
  function AddItem(items: seq<Item>, id: string, name: string, category: Option<string>, date: Option<string>): (r: seq<Item>)
    ensures |r| == |items| + 1
    ensures r[0] == Item(id, name, category, date, false)
    ensures r[1..] == items
  {
    [Item(id, name, category, date, false)] + items
  }

  /** Prepending an item whose id is fresh keeps the ids pairwise distinct. */
  lemma AddKeepsIdsDistinct(items: seq<Item>, id: string, name: string, category: Option<string>, date: Option<string>)
    requires IdsDistinct(items)
    requires id !in Ids(items)
    ensures IdsDistinct(AddItem(items, id, name, category, date))
  {
    var r := AddItem(items, id, name, category, date);
    forall i, j | 0 <= i < j < |r| ensures r[i].id != r[j].id {
      if i == 0 {
        assert Ids(items)[j - 1] == r[j].id;
      }
    }
  }

  /** Without the freshness of the id, adding can duplicate an id: the
      updater itself does no checking. */
  lemma AddDoesNotCheckId(items: seq<Item>, name: string, category: Option<string>, date: Option<string>)
    requires items != []
    ensures !IdsDistinct(AddItem(items, items[0].id, name, category, date))
  {
    var r := AddItem(items, items[0].id, name, category, date);
    assert r[0].id == r[1].id;
  }

  // ------------------------------------------------------------- toggle

  /** The per-item step of `toggleItem`. */
  function ToggleStep(id: string): Item -> Item {
    (item: Item) => if item.id == id then item.(completed := !item.completed) else item
  }

  /** `toggleItem`: same length and order, every field but `completed` kept,
      and `completed` flipped exactly on the items whose id matches. */
  function ToggleItem(items: seq<Item>, id: string): (r: seq<Item>)
    ensures |r| == |items|
    ensures forall i :: 0 <= i < |items| ==>
      r[i].id == items[i].id && r[i].name == items[i].name &&
      r[i].category == items[i].category && r[i].date == items[i].date &&
      r[i].completed == (items[i].completed != (items[i].id == id))
  {
    Map(items, ToggleStep(id))
  }

  /** Toggling an id that no item carries changes nothing. */
  lemma ToggleAbsentIsNoOp(items: seq<Item>, id: string)
    requires id !in Ids(items)
    ensures ToggleItem(items, id) == items
  {
    var r := ToggleItem(items, id);
    forall i | 0 <= i < |items| ensures r[i] == items[i] {
      assert Ids(items)[i] == items[i].id;
    }
  }

  /** Toggling the same id twice gives back the original list. */
  lemma ToggleTwice(items: seq<Item>, id: string)
    ensures ToggleItem(ToggleItem(items, id), id) == items
  {
    MapInvolution(items, ToggleStep(id));
  }

  // ------------------------------------------------------------- delete

  /** The condition `deleteItem` keeps an item on. */
  function DeleteKeep(id: string): Item -> bool {
    (item: Item) => item.id != id
  }

  /** `deleteItem`: every item whose id differs, in order, and only those. */
  function DeleteItem(items: seq<Item>, id: string): (r: seq<Item>)
    ensures forall x :: x in r <==> x in items && x.id != id
    ensures forall x :: multiset(r)[x] == if x.id != id then multiset(items)[x] else 0
    ensures id !in Ids(r)
  {
    var r := Filter(items, DeleteKeep(id));
    assert forall i :: 0 <= i < |r| ==> Ids(r)[i] != id by {
      forall i | 0 <= i < |r| ensures Ids(r)[i] != id {
        assert r[i] in r;
      }
    }
    r
  }

  /** The result of deleting is a sublist of the original. */
  lemma DeleteIsSubsequence(items: seq<Item>, id: string)
    ensures IsSubsequence(DeleteItem(items, id), items)
  {
    FilterIsSubsequence(items, DeleteKeep(id));
  }

  /** Deleting twice is deleting once. */
  lemma DeleteIdempotent(items: seq<Item>, id: string)
    ensures DeleteItem(DeleteItem(items, id), id) == DeleteItem(items, id)
  {
    FilterIdempotent(items, DeleteKeep(id));
  }

  /** Deleting an id that no item carries changes nothing. */
  lemma DeleteAbsentIsNoOp(items: seq<Item>, id: string)
    requires id !in Ids(items)
    ensures DeleteItem(items, id) == items
  {
    forall x | x in items ensures DeleteKeep(id)(x) {
      var i :| 0 <= i < |items| && items[i] == x;
      assert Ids(items)[i] == x.id;
    }
    FilterKeepsAll(items, DeleteKeep(id));
  }

  /** In a list whose ids are distinct, deleting a present id removes
      exactly one item. */
  lemma {:induction false} DeleteRemovesOne(items: seq<Item>, id: string)
    requires IdsDistinct(items)
    requires id in Ids(items)
    ensures |DeleteItem(items, id)| == |items| - 1
  {
    var rest := items[1..];
    assert IdsDistinct(rest) by {
      forall i, j | 0 <= i < j < |rest| ensures rest[i].id != rest[j].id {
        assert rest[i] == items[i + 1] && rest[j] == items[j + 1];
      }
    }
    if items[0].id == id {
      assert id !in Ids(rest) by {
        forall j | 0 <= j < |rest| ensures Ids(rest)[j] != id {
          assert rest[j] == items[j + 1];
        }
      }
      DeleteAbsentIsNoOp(rest, id);
    } else {
      var k :| 0 <= k < |items| && Ids(items)[k] == id;
      assert Ids(rest)[k - 1] == id;
      DeleteRemovesOne(rest, id);
    }
  }

  // --------------------------------------------------------------- edit

  /** The per-item step of `editItem`. */
  function EditStep(id: string, name: string, category: Option<string>, date: Option<string>): Item -> Item {
    (item: Item) => if item.id == id then item.(name := name, category := category, date := date) else item
  }

  /** `editItem`: same length, order, ids and `completed` flags; the items
      whose id matches take the new name, category and date, whatever they
      are, and every other item is left as it was. */
  function EditItem(items: seq<Item>, id: string, name: string, category: Option<string>, date: Option<string>): (r: seq<Item>)
    ensures |r| == |items|
    ensures forall i :: 0 <= i < |items| ==>
      r[i].id == items[i].id && r[i].completed == items[i].completed &&
      (items[i].id == id ==> r[i].name == name && r[i].category == category && r[i].date == date) &&
      (items[i].id != id ==> r[i] == items[i])
  {
    Map(items, EditStep(id, name, category, date))
  }

  /** Editing does not validate the new name: a present item can end up
      with an empty name, which breaks `NamesFilled`. */
  lemma EditAcceptsEmptyName(items: seq<Item>, id: string, category: Option<string>, date: Option<string>)
    requires id in Ids(items)
    ensures !NamesFilled(EditItem(items, id, "", category, date))
  {
    var k :| 0 <= k < |items| && Ids(items)[k] == id;
    assert EditItem(items, id, "", category, date)[k].name == "";
  }

  /** Editing an id that no item carries changes nothing. */
  lemma EditAbsentIsNoOp(items: seq<Item>, id: string, name: string, category: Option<string>, date: Option<string>)
    requires id !in Ids(items)
    ensures EditItem(items, id, name, category, date) == items
  {
    var r := EditItem(items, id, name, category, date);
    forall i | 0 <= i < |items| ensures r[i] == items[i] {
      assert Ids(items)[i] == items[i].id;
    }
  }

  // ------------------------------------------------------ clear & filter

  /** The condition `clearCompleted` keeps an item on. */
  function PendingKeep(): Item -> bool {
    (item: Item) => !item.completed
  }

  /** `clearCompleted`: the items that are not completed, and only those. */
  function ClearCompleted(items: seq<Item>): (r: seq<Item>)
    ensures forall x :: x in r <==> x in items && !x.completed
    ensures forall x :: multiset(r)[x] == if !x.completed then multiset(items)[x] else 0
  {
    Filter(items, PendingKeep())
  }

  /** Clearing the completed items keeps the rest in their order. */
  lemma ClearCompletedIsSubsequence(items: seq<Item>)
    ensures IsSubsequence(ClearCompleted(items), items)
  {
    FilterIsSubsequence(items, PendingKeep());
  }

  /** Clearing the completed items twice is clearing them once. */
  lemma ClearCompletedIdempotent(items: seq<Item>)
    ensures ClearCompleted(ClearCompleted(items)) == ClearCompleted(items)
  {
    FilterIdempotent(items, PendingKeep());
  }

  /** `clearAll`: the empty list, whatever came before. */
  function ClearAll(items: seq<Item>): (r: seq<Item>)
    ensures r == []
  {
    []
  }

  /** The search condition: the lower-cased name includes the lower-cased
      query, or a category is present and its lower-cased form does. */
  predicate Matches(item: Item, query: string) {
    Includes(Lower(item.name), Lower(query)) ||
    (item.category.Some? && Includes(Lower(item.category.value), Lower(query)))
  }

  /** The condition of the `filteredItems` view. */
  function SearchKeep(query: string): Item -> bool {
    (item: Item) => Matches(item, query)
  }

  /** `filteredItems`: the items that match the query, and only those. */
  function FilterItems(items: seq<Item>, query: string): (r: seq<Item>)
    ensures forall x :: x in r <==> x in items && Matches(x, query)
    ensures forall x :: multiset(r)[x] == if Matches(x, query) then multiset(items)[x] else 0
  {
    Filter(items, SearchKeep(query))
  }

  /** The view keeps the list order. */
  lemma FilterItemsIsSubsequence(items: seq<Item>, query: string)
    ensures IsSubsequence(FilterItems(items, query), items)
  {
    FilterIsSubsequence(items, SearchKeep(query));
  }

  /** With an empty query the view is the whole list. */
  lemma FilterEmptyQuery(items: seq<Item>)
    ensures FilterItems(items, "") == items
  {
    forall x | x in items ensures SearchKeep("")(x) {
      assert Lower(x.name)[..0] == "";
    }
    FilterKeepsAll(items, SearchKeep(""));
  }

  /** The search ignores the case of the query's ASCII letters: lowering the
      query first selects the same items. */
  lemma FilterIgnoresQueryCase(items: seq<Item>, query: string)
    ensures FilterItems(items, Lower(query)) == FilterItems(items, query)
  {
    LowerIdempotent(query);
    FilterAgreeing(items, SearchKeep(Lower(query)), SearchKeep(query));
  }

  /** A search that succeeds through the category alone: "dai" does not
      occur in "Milk" but does in "Dairy", so Milk is shown. */
  lemma FilterFindsByCategory(id: string)
    ensures var milk := Item(id, "Milk", Some("Dairy"), None, false);
      FilterItems([milk], "dai") == [milk]
  {
    var milk := Item(id, "Milk", Some("Dairy"), None, false);
    assert Lower("Dairy") == "dairy";
    assert Lower("dai") == "dai";
    assert OccursAt("dairy", "dai", 0);
    assert Matches(milk, "dai");
  }

  /** A search that fails: "bread" occurs in neither "Milk" nor "Dairy",
      so the view of a list holding only Milk is empty. */
  lemma FilterFindsNothing(id: string)
    ensures var milk := Item(id, "Milk", Some("Dairy"), None, false);
      FilterItems([milk], "bread") == []
  {
    var milk := Item(id, "Milk", Some("Dairy"), None, false);
    assert Lower("Milk") == "milk";
    assert Lower("Dairy") == "dairy";
    assert Lower("bread") == "bread";
    IncludesIff("milk", "bread");
    IncludesIff("dairy", "bread");
    assert !OccursAt("dairy", "bread", 0) by {
      assert "dairy"[0] != "bread"[0];
    }
    assert !Matches(milk, "bread");
  }

  // -------------------------------------------------- kept invariants

  /** A sublist of a list with distinct ids has distinct ids. */
  lemma {:induction false} SubsequenceKeepsIdsDistinct(r: seq<Item>, s: seq<Item>)
    requires IsSubsequence(r, s)
    requires IdsDistinct(s)
    ensures IdsDistinct(r)
    decreases |s|
  {
    if r != [] {
      var tail := s[1..];
      assert IdsDistinct(tail) by {
        forall i, j | 0 <= i < j < |tail| ensures tail[i].id != tail[j].id {
          assert tail[i] == s[i + 1] && tail[j] == s[j + 1];
        }
      }
      if r[0] == s[0] && IsSubsequence(r[1..], tail) {
        SubsequenceKeepsIdsDistinct(r[1..], tail);
        SubsequenceMembers(r[1..], tail);
        forall i, j | 0 <= i < j < |r| ensures r[i].id != r[j].id {
          if i == 0 {
            assert r[j] in r[1..];
            var k :| 0 <= k < |tail| && tail[k] == r[j];
            assert s[k + 1] == r[j];
          } else {
            assert r[i] == r[1..][i - 1] && r[j] == r[1..][j - 1];
          }
        }
      } else {
        SubsequenceKeepsIdsDistinct(r, tail);
      }
    }
  }

  /** A sublist of a list whose names are filled has filled names. */
  lemma SubsequenceKeepsNamesFilled(r: seq<Item>, s: seq<Item>)
    requires IsSubsequence(r, s)
    requires NamesFilled(s)
    ensures NamesFilled(r)
  {
    SubsequenceMembers(r, s);
    forall i | 0 <= i < |r| ensures !IsBlank(r[i].name) {
      assert r[i] in s;
    }
  }

  /** Lists with the same id sequence agree on whether ids are distinct. */
  lemma SameIdsSameDistinctness(items: seq<Item>, items': seq<Item>)
    requires Ids(items') == Ids(items)
    ensures IdsDistinct(items') == IdsDistinct(items)
  {
    assert forall i :: 0 <= i < |items| ==> items'[i].id == Ids(items)[i] == items[i].id;
  }

  /** Toggling keeps every id in its place. */
  lemma ToggleKeepsIds(items: seq<Item>, id: string)
    ensures Ids(ToggleItem(items, id)) == Ids(items)
  {
    var t := ToggleItem(items, id);
    assert forall i :: 0 <= i < |items| ==> Ids(t)[i] == Ids(items)[i];
  }

  /** Editing keeps every id in its place. */
  lemma EditKeepsIds(items: seq<Item>, id: string, name: string, category: Option<string>, date: Option<string>)
    ensures Ids(EditItem(items, id, name, category, date)) == Ids(items)
  {
    var e := EditItem(items, id, name, category, date);
    assert forall i :: 0 <= i < |items| ==> Ids(e)[i] == Ids(items)[i];
  }
}
