/** The menu logic of App.tsx: the seed list, the manage form's
    `handleSubmit` (cut-offs 100 and 200, capitalised labels, ingredients
    split and trimmed but empty entries kept) and the index filter behind
    `removeItem`.
 */
module Manage {
  import opened MenuTypes
  import opened Text
  import AddItem

  /** The values the manage form's category picker can hold: the
      placeholder "" and three display labels. */
  datatype PickerValue = Placeholder | Starter | MainMeal | Dessert

  /** The string each picker value stores. */
  function PickerString(v: PickerValue): string
  {
    match v
    case Placeholder => ""
    case Starter => "Starter"
    case MainMeal => "Main Meal"
    case Dessert => "Dessert"
  }

  /** The course a picker label stands for; the placeholder stands for none. */
  function PickerCourse(v: PickerValue): (r: Option<Course>)
    ensures r.None? <==> PickerString(v) == ""
    ensures r.Some? ==> PickerString(v)[0] == Name(r.value)[0]
  {
    match v
    case Placeholder => None
    case Starter => Some(STARTER)
    case MainMeal => Some(MAIN)
    case Dessert => Some(DESSERT)
  }

  /** Each course is the meaning of exactly one picker label: distinct
      labels stand for distinct courses, and every course has a label. */
  lemma PickerCourseBijective(v: PickerValue, w: PickerValue, c: Course)
    ensures v != Placeholder && w != Placeholder && v != w ==> PickerCourse(v) != PickerCourse(w)
    ensures exists u :: PickerCourse(u) == Some(c)
  {
    var u := match c
      case STARTER => Starter
      case MAIN => MainMeal
      case DESSERT => Dessert;
    assert PickerCourse(u) == Some(c);
  }

  /** The manage form state. */
  datatype ManageForm = ManageForm(
    itemName: string,
    description: string,
    category: PickerValue,
    price: string,
    image: string,
    ingredients: string)

  /** The form as the screen opens: every field empty, the placeholder chosen. */
  const InitialForm: ManageForm := ManageForm("", "", Placeholder, "", "", "")

  /** The intensity label derived from a parsed price. */
  function Intensity(p: real): (r: string)
    ensures r == "Mild" || r == "Balanced" || r == "Strong"
  {
    if p < 100.0 then "Mild" else if p < 200.0 then "Balanced" else "Strong"
  }

  /** The three bands, each in both directions. */
  lemma IntensityBands(p: real)
    ensures Intensity(p) == "Mild" <==> p < 100.0
    ensures Intensity(p) == "Balanced" <==> 100.0 <= p < 200.0
    ensures Intensity(p) == "Strong" <==> 200.0 <= p
  {
  }

  /** Each cut-off belongs to the band above it. */
  lemma IntensityBoundaries()
    ensures Intensity(99.99) == "Mild"
    ensures Intensity(100.0) == "Balanced"
    ensures Intensity(199.99) == "Balanced"
    ensures Intensity(200.0) == "Strong"
  {
  }

  /** Upper-cases a leading ASCII letter. */
  function Capitalised(s: string): (r: string)
    ensures |r| == |s| && (s != [] ==> r[1..] == s[1..])
  {
    if s != [] && 'a' <= s[0] <= 'z' then [(s[0] as int - 32) as char] + s[1..] else s
  }

  /** The two forms use the same three bands with doubled cut-offs: this
      form's label for a price is the add screen's label for half that
      price, capitalised. */
  lemma IntensityDoubledCutoffs(p: real)
    ensures Intensity(p) == Capitalised(AddItem.Intensity(p / 2.0))
  {
    var low := AddItem.Intensity(p / 2.0);
    if p < 100.0 {
      assert low == "mild";
      assert Capitalised(low) == "Mild";
    } else if p < 200.0 {
      assert low == "balanced";
      assert Capitalised(low) == "Balanced";
    } else {
      assert low == "strong";
      assert Capitalised(low) == "Strong";
    }
  }

  /** `ingredients.split(",").map((i) => i.trim())`: one entry per
      comma-separated piece, empty entries kept, none with whitespace at
      either end. */
  function SplitIngredients(raw: string): (r: seq<string>)
    ensures |r| == CommaCount(raw) + 1
    ensures forall k :: 0 <= k < |r| ==> Trimmed(r[k])
  {
    TrimAll(Split(raw))
  }

  /** One entry per comma-separated piece, each the trimmed piece, so the
      entry count is always the comma count plus one. */
  lemma SplitIngredientsShape(raw: string)
    ensures |SplitIngredients(raw)| == CommaCount(raw) + 1
    ensures forall k :: 0 <= k < |SplitIngredients(raw)| ==>
      SplitIngredients(raw)[k] == Trim(Split(raw)[k]) && Trimmed(SplitIngredients(raw)[k])
        && CommaFree(SplitIngredients(raw)[k])
  {
    SplitShape(raw);
    forall k | 0 <= k < |SplitIngredients(raw)|
      ensures Trimmed(SplitIngredients(raw)[k]) && CommaFree(SplitIngredients(raw)[k])
    {
      AddItem.TrimCommaFree(Split(raw)[k]);
    }
  }

  /** The add screen's parser is this one with the empty entries dropped. */
  lemma ParsersAgree(raw: string)
    ensures AddItem.ParseIngredients(raw) == DropEmpty(SplitIngredients(raw))
    ensures |AddItem.ParseIngredients(raw)| <= |SplitIngredients(raw)|
  {
  }

  /** Empty input gives one empty entry; an empty piece stays in place. */
  lemma SplitIngredientsExamples(empty: string, raw: string)
    requires empty == "" && raw == "a,,b"
    ensures SplitIngredients(empty) == [""]
    ensures SplitIngredients(raw) == ["a", "", "b"]
  {
    assert raw == "a" + "," + ("" + "," + "b");
    SplitAppend("a", "" + "," + "b");
    SplitAppend("", "b");
    SplitCommaFree("a", []);
    SplitCommaFree("b", []);
    assert Trim("a") == "a" && Trim("b") == "b";
  }

  /** A required field of this form is empty. The category counts as empty
      while the placeholder is chosen; the image is not required. */
  function MissingRequired(form: ManageForm): (b: bool)
    ensures b <==> "" in [form.itemName, form.description, PickerString(form.category), form.price]
    ensures form.category == Placeholder ==> b
    ensures !b ==> PickerCourse(form.category).Some?
  {
    form.itemName == "" || form.description == "" || PickerString(form.category) == "" || form.price == ""
  }

  /** `handleSubmit` as written: the required-field check, then the price
      check (`priceValue > 0`, false for NaN), then the record. The record
      stores the picker's label as its category and has no id; the absent
      id is modelled as "". `parsed` is what parseFloat gives for
      `form.price` (None for NaN). */
  function HandleSubmit(form: ManageForm, parsed: Option<real>): (r: AddOutcome)
    ensures r.MissingFields? <==> MissingRequired(form)
    ensures r.InvalidPrice? <==> !MissingRequired(form) && !(parsed.Some? && parsed.value > 0.0)
    ensures r.Ok? ==>
      && parsed.Some? && r.item.price == parsed.value && r.item.price > 0.0
      && r.item.id == ""
      && r.item.itemName == form.itemName
      && r.item.description == form.description
      && r.item.category == PickerString(form.category)
      && r.item.image == form.image
      && r.item.intensity == Intensity(parsed.value)
      && r.item.ingredients == SplitIngredients(form.ingredients)
  {
    if !MissingRequired(form) then
      if parsed.Some? && parsed.value > 0.0 then
        var p := parsed.value;
        Ok(MenuItem("", form.itemName, form.description, PickerString(form.category), p,
                    Intensity(p), form.image, SplitIngredients(form.ingredients)))
      else InvalidPrice
    else MissingFields
  }

  /** The untouched form, and the placeholder category, report missing
      fields whatever else is filled in. */
  lemma PlaceholderIsMissing(form: ManageForm, parsed: Option<real>)
    ensures HandleSubmit(InitialForm, parsed) == MissingFields
    ensures form.category == Placeholder ==> HandleSubmit(form, parsed) == MissingFields
  {
  }

  /** Every item `handleSubmit` builds has a category that is not a course
      name, so it breaks the declared type of the list. */
  lemma HandleSubmitCategoryNotACourse(form: ManageForm, parsed: Option<real>)
    ensures HandleSubmit(form, parsed).Ok? ==> !ItemWellTyped(HandleSubmit(form, parsed).item)
  {
    if HandleSubmit(form, parsed).Ok? {
      var c := HandleSubmit(form, parsed).item.category;
      match form.category
      case Placeholder =>
      case Starter => assert c[1] == 't';
      case MainMeal => assert c[1] == 'a';
      case Dessert => assert c[1] == 'e';
    }
  }

  /** The record `handleSubmit` builds carries no id, so any two items it
      adds share the same (absent) id. */
  lemma HandleSubmitOmitsId(form1: ManageForm, parsed1: Option<real>, form2: ManageForm, parsed2: Option<real>)
    requires HandleSubmit(form1, parsed1).Ok? && HandleSubmit(form2, parsed2).Ok?
    ensures HandleSubmit(form1, parsed1).item.id == HandleSubmit(form2, parsed2).item.id == ""
  {
  }

  /** `handleSubmit` with the two defects mended: the picker label is
      stored as the course it stands for, and the record carries the
      supplied id. */
  function HandleSubmitCorrected(form: ManageForm, parsed: Option<real>, id: string): (r: AddOutcome)
    ensures r.MissingFields? <==> MissingRequired(form)
    ensures r.InvalidPrice? <==> !MissingRequired(form) && !(parsed.Some? && parsed.value > 0.0)
    ensures r.Ok? ==>
      && HandleSubmit(form, parsed).Ok?
      && PickerCourse(form.category).Some?
      && r.item == HandleSubmit(form, parsed).item.(id := id, category := Name(PickerCourse(form.category).value))
  {
    match HandleSubmit(form, parsed)
    case Ok(item) => Ok(item.(id := id, category := Name(PickerCourse(form.category).value)))
    case MissingFields => MissingFields
    case InvalidPrice => InvalidPrice
  }

  /** The corrected record respects the declared type and carries its id. */
  lemma HandleSubmitCorrectedWellTyped(form: ManageForm, parsed: Option<real>, id: string)
    ensures HandleSubmitCorrected(form, parsed, id).Ok? ==>
      ItemWellTyped(HandleSubmitCorrected(form, parsed, id).item)
      && HandleSubmitCorrected(form, parsed, id).item.id == id
  {
    if HandleSubmitCorrected(form, parsed, id).Ok? {
      NameIsCourseName(PickerCourse(form.category).value);
    }
  }

  /** The two add forms agree on prices: with every field filled in, both
      reject exactly the same parsed prices; when both accept, the
      intensities follow the doubled cut-offs and the ingredient lists
      differ only by the empty entries. */
  lemma FormsAgreeOnPrice(add: AddItem.AddForm, manage: ManageForm, parsed: Option<real>, id: string)
    requires !AddItem.MissingRequired(add) && !MissingRequired(manage)
    requires add.ingredients == manage.ingredients
    ensures AddItem.OnSave(add, parsed, id).InvalidPrice? <==> HandleSubmit(manage, parsed).InvalidPrice?
    ensures AddItem.OnSave(add, parsed, id).Ok? <==> HandleSubmit(manage, parsed).Ok?
    ensures HandleSubmit(manage, parsed).Ok? ==>
      && HandleSubmit(manage, parsed).item.intensity
         == Capitalised(AddItem.Intensity(AddItem.OnSave(add, parsed, id).item.price / 2.0))
      && AddItem.OnSave(add, parsed, id).item.ingredients == DropEmpty(HandleSubmit(manage, parsed).item.ingredients)
  {
    if HandleSubmit(manage, parsed).Ok? {
      IntensityDoubledCutoffs(parsed.value);
    }
  }

  /** `items.filter((_, i) => i !== index)`: every element kept except the
      one at position `index`, written as the filter walks the list. */
  function RemoveIndex<T>(s: seq<T>, index: int): (r: seq<T>)
    ensures |r| == if 0 <= index < |s| then |s| - 1 else |s|
  {
    if s == [] then []
    else RemoveIndex(s[..|s| - 1], index) + (if |s| - 1 == index then [] else [s[|s| - 1]])
  }

  /** Removal drops exactly the element at `index` and keeps the rest in
      order; an index outside the list changes nothing. */
  lemma {:induction false} RemoveIndexSpec<T>(s: seq<T>, index: int)
    ensures RemoveIndex(s, index) == if 0 <= index < |s| then s[..index] + s[index + 1..] else s
  {
    if s != [] {
      var init := s[..|s| - 1];
      RemoveIndexSpec(init, index);
      if 0 <= index < |init| {
        assert init[..index] == s[..index];
        assert init[index + 1..] + [s[|s| - 1]] == s[index + 1..];
      } else if index == |init| {
        assert s[..index] + s[index + 1..] == init;
      } else {
        assert init + [s[|s| - 1]] == s;
      }
    }
  }

  /** The length falls by one exactly when the index is in range, and each
      survivor keeps its place relative to the others. */
  lemma RemoveIndexPositions<T>(s: seq<T>, index: int)
    ensures |RemoveIndex(s, index)| == if 0 <= index < |s| then |s| - 1 else |s|
    ensures forall k :: 0 <= k < |RemoveIndex(s, index)| ==>
      RemoveIndex(s, index)[k] == if 0 <= index <= k then s[k + 1] else s[k]
  {
    RemoveIndexSpec(s, index);
  }

  /** Removing at an index outside the list twice is the same as once. */
  lemma RemoveOutOfRangeTwice<T>(s: seq<T>, index: int)
    requires !(0 <= index < |s|)
    ensures RemoveIndex(RemoveIndex(s, index), index) == RemoveIndex(s, index) == s
  {
    RemoveIndexSpec(s, index);
  }

  /** The nine items the list starts with (App.tsx predefinedItems). */
  const PredefinedItems: seq<MenuItem> :=
    [
      MenuItem(
        "1", "Truffle-infused Butternut Velouté",
        "A silky butternut squash velouté infused with black truffle oil, topped with a parmesan crisp and micro herbs.",
        "STARTER", 135.0, "Balanced",
        "https://i.pinimg.com/736x/75/06/bf/7506bfc83b8d887bb61a01234faf043b.jpg",
        ["Butternut Squash", "Black Truffle Oil", "Parmesan Cheese", "Greek yogurt"]),
      MenuItem(
        "2", "Pan-Seared Lamb Fillet with Red wine",
        "Tender lamb fillet seared to perfection, served on truffle mash and roasted veggies.",
        "MAIN", 205.0, "Bold",
        "https://i.pinimg.com/736x/7d/d5/92/7dd5929d174fb21896489115a6079cef.jpg",
        ["lamb fillet", "red wine", "mash potatoes", "baby carrots"]),
      MenuItem(
        "3", "Crème Brûlée",
        "Silky smooth vanilla custard topped with caramelized sugar, served chilled with fresh berries.",
        "DESSERT", 85.0, "Mild",
        "https://i.pinimg.com/736x/26/50/94/2650949dbac59547bc807f9483273369.jpg",
        ["heavy cream", "egg yolks", "vanilla bean", "sugar"]),
      MenuItem(
        "4", "Caviar",
        "Silky smooth vanilla custard topped with caramelized sugar, served chilled with fresh berries.",
        "STARTER", 85.0, "Mild",
        "https://images.pexels.com/photos/4973825/pexels-photo-4973825.jpeg?_gl=1*1t7dbmt*_ga*NDQzODA1MDYyLjE3NjA0MjI5NTM.*_ga_8JE65Q40S6*czE3NjI4MDIzMjgkbzMkZzEkdDE3NjI4MDIzMzUkajUzJGwwJGgw",
        ["heavy cream", "egg yolks", "vanilla bean", "sugar"]),
      MenuItem(
        "5", "Chicken Roast",
        "Silky smooth vanilla custard topped with caramelized sugar, served chilled with fresh berries.",
        "MAIN", 85.0, "Balanced",
        "https://images.pexels.com/photos/2338407/pexels-photo-2338407.jpeg?_gl=1*1etidwd*_ga*NDQzODA1MDYyLjE3NjA0MjI5NTM.*_ga_8JE65Q40S6*czE3NjI4MDIzMjgkbzMkZzEkdDE3NjI4MDI3MzQkajQ0JGwwJGgw",
        ["heavy cream", "egg yolks", "vanilla bean", "sugar"]),
      MenuItem(
        "6", "Brownie",
        "Silky smooth vanilla custard topped with caramelized sugar, served chilled with fresh berries.",
        "DESSERT", 85.0, "Mild",
        "https://images.pexels.com/photos/2067396/pexels-photo-2067396.jpeg?_gl=1*1luz5xc*_ga*NDQzODA1MDYyLjE3NjA0MjI5NTM.*_ga_8JE65Q40S6*czE3NjI4MDIzMjgkbzMkZzEkdDE3NjI4MDI4MDMkajM1JGwwJGgw",
        ["heavy cream", "egg yolks", "vanilla bean", "sugar"]),
      MenuItem(
        "7", "sea weed wrap",
        "Silky smooth vanilla custard topped with caramelized sugar, served chilled with fresh berries.",
        "STARTER", 85.0, "Mild",
        "https://images.pexels.com/photos/10167647/pexels-photo-10167647.jpeg?_gl=1*36ccr*_ga*NDQzODA1MDYyLjE3NjA0MjI5NTM.*_ga_8JE65Q40S6*czE3NjI4MDIzMjgkbzMkZzEkdDE3NjI4MDI4NzQkajU0JGwwJGgw",
        ["heavy cream", "egg yolks", "vanilla bean", "sugar"]),
      MenuItem(
        "8", "Beef lasnage",
        "Silky smooth vanilla custard topped with caramelized sugar, served chilled with fresh berries.",
        "MAIN", 85.0, "Mild",
        "https://images.pexels.com/photos/31119071/pexels-photo-31119071.jpeg?_gl=1*iwgad1*_ga*NDQzODA1MDYyLjE3NjA0MjI5NTM.*_ga_8JE65Q40S6*czE3NjI4MDIzMjgkbzMkZzEkdDE3NjI4MDI5NjckajQyJGwwJGgw",
        ["heavy cream", "egg yolks", "vanilla bean", "sugar"]),
      MenuItem(
        "3", "strawberry and cream",
        "Silky smooth vanilla custard topped with caramelized sugar, served chilled with fresh berries.",
        "DESSERT", 85.0, "Mild",
        "https://images.pexels.com/photos/7966061/pexels-photo-7966061.jpeg?_gl=1*1c64k78*_ga*NDQzODA1MDYyLjE3NjA0MjI5NTM.*_ga_8JE65Q40S6*czE3NjI4MDIzMjgkbzMkZzEkdDE3NjI4MDMxNTYkajQkbDAkaDA.",
        ["heavy cream", "egg yolks", "vanilla bean", "sugar"])
    ]

  /** The seed list has nine items, every category a course name. Its ids
      are not unique, and two of its nine intensities do not follow this
      form's price formula while the other seven do, so neither uniqueness
      nor the formula is an invariant of the list. */
  lemma PredefinedItemsFacts()
    ensures |PredefinedItems| == 9
    ensures WellTyped(PredefinedItems)
    ensures PredefinedItems[2].id == PredefinedItems[8].id == "3"
    ensures PredefinedItems[1].intensity == "Bold" != Intensity(PredefinedItems[1].price)
    ensures PredefinedItems[4].intensity == "Balanced" != Intensity(PredefinedItems[4].price)
  {
  }

  /** Apart from those two, every seed intensity is the one this form's
      formula gives for its price. */
  lemma PredefinedIntensitiesOtherwiseFollow()
    ensures forall k :: 0 <= k < |PredefinedItems| && k != 1 && k != 4 ==>
      PredefinedItems[k].intensity == Intensity(PredefinedItems[k].price)
  {
  }
}
