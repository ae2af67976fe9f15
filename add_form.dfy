/** The add form of src/components/AddItemForm.tsx: three text fields and a
    submit handler that trims, rejects a blank name, turns empty optional
    fields into absent ones, emits one add request and clears the form. */
module AddForm {
  import opened Text
  import opened Items

  /** The arguments of one `onAdd` call. */
  datatype AddRequest = AddRequest(name: string, category: Option<string>, date: Option<string>)

  /** What a submit emits for the given field values. It is accepted
      exactly when the name has a non-whitespace character; the category is
      absent exactly when it is blank and otherwise trimmed; the date is
      absent exactly when it is empty and otherwise passed on as typed. */
  function SubmitRequest(name: string, category: string, date: string): (r: Option<AddRequest>)
    ensures r.Some? <==> !IsBlank(name)
    ensures r.Some? ==> r.value.name == Trim(name)
    ensures r.Some? ==> (r.value.category.None? <==> IsBlank(category))
    ensures r.Some? && r.value.category.Some? ==> r.value.category.value == Trim(category) != []
    ensures r.Some? ==> (r.value.date.None? <==> date == [])
    ensures r.Some? && r.value.date.Some? ==> r.value.date.value == date
  {
    if Trim(name) == [] then None
    else Some(AddRequest(
      Trim(name),
      if Trim(category) == [] then None else Some(Trim(category)),
      if date == [] then None else Some(date)))
  }

  /** An accepted name is non-blank, has no whitespace at either end, and is
      a slice of what was typed. */
  lemma SubmittedNameClean(name: string, category: string, date: string)
    requires SubmitRequest(name, category, date).Some?
    ensures var n := SubmitRequest(name, category, date).value.name;
      n != [] && !IsBlank(n) && !IsWhitespace(n[0]) && !IsWhitespace(n[|n| - 1]) &&
      Includes(name, n)
  {
    TrimmedIncluded(name);
  }

  class Form {
    var name: string
    var category: string
    var date: string

    /** A fresh form has all three fields empty. */
    constructor ()
      ensures name == "" && category == "" && date == ""
    {
      name, category, date := "", "", "";
    }

    /** The name input's change handler. */
    method SetName(value: string)
      modifies this
      ensures name == value && category == old(category) && date == old(date)
    {
      name := value;
    }

    /** The category input's change handler. */
    method SetCategory(value: string)
      modifies this
      ensures category == value && name == old(name) && date == old(date)
    {
      category := value;
    }

    /** The date input's change handler. */
    method SetDate(value: string)
      modifies this
      ensures date == value && name == old(name) && category == old(category)
    {
      date := value;
    }

    /** `handleSubmit`: emits `SubmitRequest` of the fields; a rejected
        submit leaves the fields as they were, an accepted one clears all
        three. */
    method HandleSubmit() returns (request: Option<AddRequest>)
      modifies this
      ensures request == SubmitRequest(old(name), old(category), old(date))
      ensures request.None? ==> name == old(name) && category == old(category) && date == old(date)
      ensures request.Some? ==> name == "" && category == "" && date == ""
    {
      var trimmed := Trim(name);
      if trimmed != [] {
        var trimmedCategory := Trim(category);
        request := Some(AddRequest(
          trimmed,
          if trimmedCategory != [] then Some(trimmedCategory) else None,
          if date != [] then Some(date) else None));
        name := "";
        category := "";
        date := "";
      } else {
        request := None;
      }
    }
  }
}
