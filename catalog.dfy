/** The menu list held by the home screen of App.tsx, with its two
    transitions: appending a validated item and removing by position.
    Each handler is one atomic step on the list.
 */
module Catalog {
  import opened MenuTypes
  import AddItem
  import Manage
  import Views

  class Catalog {
    var items: seq<MenuItem>

    /** Every category in the list is a course name. */
    predicate Valid()
      reads this
    {
      WellTyped(items)
    }

    /** The list starts as the seed list. */
    constructor ()
      ensures items == Manage.PredefinedItems
      ensures Valid()
    {
      items := Manage.PredefinedItems;
      Manage.PredefinedItemsFacts();
    }

    /** The manage form's submit button (with the corrected record, see
        Manage.HandleSubmitCorrected): on success the new item is appended
        and nothing else changes; on either failure the list is untouched. */
    method Submit(form: Manage.ManageForm, parsed: Option<real>, id: string) returns (r: AddOutcome)
      requires Valid()
      modifies this
      ensures Valid()
      ensures r == Manage.HandleSubmitCorrected(form, parsed, id)
      ensures items == if r.Ok? then old(items) + [r.item] else old(items)
    {
      if form.itemName != "" && form.description != "" && form.category != Manage.Placeholder && form.price != "" {
        if parsed.Some? && parsed.value > 0.0 {
          var p := parsed.value;
          var course := Manage.PickerCourse(form.category).value;
          var item := MenuItem(id, form.itemName, form.description, Name(course), p,
                               Manage.Intensity(p), form.image, Manage.SplitIngredients(form.ingredients));
          NameIsCourseName(course);
          items := items + [item];
          r := Ok(item);
        } else {
          r := InvalidPrice;
        }
      } else {
        r := MissingFields;
      }
    }

    /** The add screen's save button followed by its `addItem` callback:
        each failed check returns early with the list untouched; on success
        the payload is appended exactly once. */
    method Save(form: AddItem.AddForm, parsed: Option<real>, id: string) returns (r: AddOutcome)
      requires Valid()
      modifies this
      ensures Valid()
      ensures r == AddItem.OnSave(form, parsed, id)
      ensures items == if r.Ok? then old(items) + [r.item] else old(items)
    {
      if form.itemName == "" || form.description == "" || form.price == "" || form.image == "" {
        return MissingFields;
      }
      if parsed.None? || parsed.value <= 0.0 {
        return InvalidPrice;
      }
      var p := parsed.value;
      var payload := MenuItem(id, form.itemName, form.description, Name(form.category), p,
                              AddItem.Intensity(p), form.image, AddItem.ParseIngredients(form.ingredients));
      NameIsCourseName(form.category);
      items := items + [payload];
      r := Ok(payload);
    }

    /** The confirmed remove button: drops the item at `index`; an index
        outside the list leaves it unchanged. */
    method RemoveAt(index: int)
      requires Valid()
      modifies this
      ensures Valid()
      ensures items == Manage.RemoveIndex(old(items), index)
      ensures items == if 0 <= index < |old(items)| then old(items)[..index] + old(items)[index + 1..] else old(items)
    {
      Manage.RemoveIndexSpec(items, index);
      items := Manage.RemoveIndex(items, index);
    }

    /** The statistics row of the current list: the home screen's cards for
        the held items, whose counts add up to the list's length. */
    function Stats(): (r: seq<Views.CategoryStat>)
      reads this
      requires Valid()
      ensures r == Views.Stats(items)
      ensures |r| == 3 && r[0].count + r[1].count + r[2].count == |items|
    {
      Views.CountsSumToTotal(items);
      Views.Stats(items)
    }
  }

  /** An item added by the manage form as written is counted on no card,
      so after it the cards no longer add up to the heading's total. */
  lemma AsWrittenSubmitBreaksCounts(items: seq<MenuItem>, form: Manage.ManageForm, parsed: Option<real>)
    requires Manage.HandleSubmit(form, parsed).Ok?
    ensures var after := items + [Manage.HandleSubmit(form, parsed).item];
      Views.Stats(after)[0].count + Views.Stats(after)[1].count + Views.Stats(after)[2].count < Views.Total(after)
  {
    var after := items + [Manage.HandleSubmit(form, parsed).item];
    Manage.HandleSubmitCategoryNotACourse(form, parsed);
    Views.CountsFallShort(after, |items|);
  }
}
