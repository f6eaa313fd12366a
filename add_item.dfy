/** The add-item form of screens/AddItemScreen.tsx: its fields, the
    intensity it derives from the price (cut-offs 50 and 100, lower-case
    labels), the ingredient parser that drops empty entries, and the
    validation chain of `onSave`.
 */
module AddItem {
  import opened MenuTypes
  import opened Text

  /** The form state. The category picker can only hold a course. */
  datatype AddForm = AddForm(
    itemName: string,
    description: string,
    category: Course,
    price: string,
    image: string,
    ingredients: string)

  /** The form as the screen opens: every text field empty, category STARTER. */
  const InitialForm: AddForm := AddForm("", "", STARTER, "", "", "")

  /** The intensity label derived from a parsed price. */
  function Intensity(p: real): (r: string)
    ensures r == "mild" || r == "balanced" || r == "strong"
  {
    if p < 50.0 then "mild" else if p < 100.0 then "balanced" else "strong"
  }

  /** Rank of a label in the order mild < balanced < strong. */
  function Level(s: string): nat
  {
    if s == "mild" then 0 else if s == "balanced" then 1 else 2
  }

  /** The three bands, each in both directions. */
  lemma IntensityBands(p: real)
    ensures Intensity(p) == "mild" <==> p < 50.0
    ensures Intensity(p) == "balanced" <==> 50.0 <= p < 100.0
    ensures Intensity(p) == "strong" <==> 100.0 <= p
  {
  }

  /** A dearer item is never rated milder. */
  lemma IntensityMonotone(p: real, q: real)
    requires p <= q
    ensures Level(Intensity(p)) <= Level(Intensity(q))
  {
  }

  /** Each cut-off belongs to the band above it. */
  lemma IntensityBoundaries()
    ensures Intensity(49.99) == "mild"
    ensures Intensity(50.0) == "balanced"
    ensures Intensity(99.99) == "balanced"
    ensures Intensity(100.0) == "strong"
  {
  }

  /** `ingredients.split(",").map((s) => s.trim()).filter(Boolean)`: no
      entry is empty or has whitespace at either end, and there are never
      more entries than comma-separated pieces. */
  function ParseIngredients(raw: string): (r: seq<string>)
    ensures |r| <= CommaCount(raw) + 1
    ensures forall k :: 0 <= k < |r| ==> r[k] != "" && Trimmed(r[k])
  {
    DropEmpty(TrimAll(Split(raw)))
  }

  /** Every parsed ingredient is non-empty, trimmed and free of commas, and
      there are never more than the comma-separated pieces of the input. */
  lemma ParseIngredientsShape(raw: string)
    ensures |ParseIngredients(raw)| <= CommaCount(raw) + 1
    ensures forall k :: 0 <= k < |ParseIngredients(raw)| ==>
      ParseIngredients(raw)[k] != "" && Trimmed(ParseIngredients(raw)[k]) && CommaFree(ParseIngredients(raw)[k])
  {
    SplitShape(raw);
    var trimmed := TrimAll(Split(raw));
    forall k | 0 <= k < |trimmed| ensures Trimmed(trimmed[k]) && CommaFree(trimmed[k]) {
      TrimCommaFree(Split(raw)[k]);
    }
    DropEmptyKeeps(trimmed);
  }

  /** Trimming a comma-free piece leaves it comma-free. */
  lemma TrimCommaFree(w: string)
    requires CommaFree(w)
    ensures Trimmed(Trim(w)) && CommaFree(Trim(w))
  {
    TrimSpec(w);
    var i, j :| 0 <= i <= j <= |w| && Trim(w) == w[i..j];
    forall m | 0 <= m < |Trim(w)| ensures Trim(w)[m] != ',' {
      assert Trim(w)[m] == w[i + m];
    }
  }

  /** What survives dropping empties was already in the list. */
  lemma {:induction false} DropEmptyKeeps(parts: seq<string>)
    requires forall k :: 0 <= k < |parts| ==> Trimmed(parts[k]) && CommaFree(parts[k])
    ensures forall k :: 0 <= k < |DropEmpty(parts)| ==>
      Trimmed(DropEmpty(parts)[k]) && CommaFree(DropEmpty(parts)[k])
  {
    if parts != [] {
      DropEmptyKeeps(parts[1..]);
      var h := if parts[0] == "" then [] else [parts[0]];
      assert DropEmpty(parts) == h + DropEmpty(parts[1..]);
      forall k | 0 <= k < |DropEmpty(parts)|
        ensures Trimmed(DropEmpty(parts)[k]) && CommaFree(DropEmpty(parts)[k])
      {
        if k >= |h| {
          assert DropEmpty(parts)[k] == DropEmpty(parts[1..])[k - |h|];
        }
      }
    }
  }

  /** A comma splits the ingredient list into the lists of either side, in
      order: parsing is piecewise and keeps input order and duplicates. */
  lemma ParseIngredientsAppend(a: string, b: string)
    ensures ParseIngredients(a + "," + b) == ParseIngredients(a) + ParseIngredients(b)
  {
    SplitAppend(a, b);
    TrimAllAppend(Split(a), Split(b));
    DropEmptyAppend(TrimAll(Split(a)), TrimAll(Split(b)));
  }

  /** A single piece parses to its trimmed self, or to nothing when it is
      blank. */
  lemma ParseIngredientsPiece(w: string)
    requires CommaFree(w)
    ensures ParseIngredients(w) == if Trim(w) == "" then [] else [Trim(w)]
  {
    SplitCommaFree(w, []);
    assert TrimAll([w]) == [Trim(w)];
  }

  /** A word with whitespace on either side parses to the word alone. */
  lemma ParseIngredientsPadded(pre: string, w: string, post: string)
    requires AllWs(pre) && AllWs(post)
    requires w != [] && Trimmed(w) && CommaFree(w)
    ensures ParseIngredients(pre + w + post) == [w]
  {
    var s := pre + w + post;
    assert CommaFree(s) by {
      forall k | 0 <= k < |s| ensures s[k] != ',' {
        if k < |pre| {
          assert s[k] == pre[k];
        } else if k < |pre| + |w| {
          assert s[k] == w[k - |pre|];
        } else {
          assert s[k] == post[k - |pre| - |w|];
        }
      }
    }
    TrimPadded(pre, w, post);
    ParseIngredientsPiece(s);
  }

  /** A piece of whitespace alone parses to no ingredient. */
  lemma ParseIngredientsBlank(w: string)
    requires AllWs(w)
    ensures ParseIngredients(w) == []
  {
    TrimEmptyIff(w);
    ParseIngredientsPiece(w);
  }

  /** The worked example: whitespace trimmed, the blank piece dropped. */
  lemma ParseIngredientsExample(raw: string)
    requires raw == " Tomato, Basil ,  , Olive Oil"
    ensures ParseIngredients(raw) == ["Tomato", "Basil", "Olive Oil"]
  {
    var p1, p2, p3, p4 := ExamplePieces(raw);
    ParseIngredientsAppend(p3, p4);
    ParseIngredientsAppend(p2, p3 + "," + p4);
    ParseIngredientsAppend(p1, p2 + "," + (p3 + "," + p4));
  }

  /** The comma-separated pieces of the worked example and what each
      parses to. */
  lemma ExamplePieces(raw: string) returns (p1: string, p2: string, p3: string, p4: string)
    requires raw == " Tomato, Basil ,  , Olive Oil"
    ensures raw == p1 + "," + (p2 + "," + (p3 + "," + p4))
    ensures ParseIngredients(p1) == ["Tomato"] && ParseIngredients(p2) == ["Basil"]
    ensures ParseIngredients(p3) == [] && ParseIngredients(p4) == ["Olive Oil"]
  {
    p1 := ExamplePieceParses(0);
    p2 := ExamplePieceParses(1);
    p3 := ExamplePieceParses(2);
    p4 := ExamplePieceParses(3);
    ExampleSplitPoints(raw, p1, p2, p3, p4);
  }

  /** The `i`-th piece of the worked example parses on its own. */
  lemma ExamplePieceParses(i: nat) returns (p: string)
    requires i < 4
    ensures p == [" " + "Tomato" + "", " " + "Basil" + " ", "  ", " " + "Olive Oil" + ""][i]
    ensures ParseIngredients(p) == [["Tomato"], ["Basil"], [], ["Olive Oil"]][i]
  {
    if i == 0 {
      p := " " + "Tomato" + "";
      ParseIngredientsPadded(" ", "Tomato", "");
    } else if i == 1 {
      p := " " + "Basil" + " ";
      ParseIngredientsPadded(" ", "Basil", " ");
    } else if i == 2 {
      p := "  ";
      ParseIngredientsBlank(p);
    } else {
      p := " " + "Olive Oil" + "";
      ParseIngredientsPadded(" ", "Olive Oil", "");
    }
  }

  /** Where the worked example's commas fall. */
  lemma ExampleSplitPoints(raw: string, p1: string, p2: string, p3: string, p4: string)
    requires raw == " Tomato, Basil ,  , Olive Oil"
    requires p1 == " " + "Tomato" + "" && p2 == " " + "Basil" + " " && p3 == "  " && p4 == " " + "Olive Oil" + ""
    ensures raw == p1 + "," + (p2 + "," + (p3 + "," + p4))
  {
  }

  /** A required text field of this form is empty. The category and the
      ingredients are not checked, and a field holding only whitespace
      counts as filled in. */
  function MissingRequired(form: AddForm): (b: bool)
    ensures b <==> "" in [form.itemName, form.description, form.price, form.image]
    ensures form == InitialForm ==> b
    ensures form.itemName == " " && form.description == " " && form.price == " " && form.image == " " ==> !b
  {
    form.itemName == "" || form.description == "" || form.price == "" || form.image == ""
  }

  /** `onSave`: the required-field check first, then the price check, then
      the payload. `parsed` is what parseFloat gives for `form.price`
      (None for NaN); `id` is the fresh identifier of the new item. */
  function OnSave(form: AddForm, parsed: Option<real>, id: string): (r: AddOutcome)
    ensures r.MissingFields? <==> MissingRequired(form)
    ensures r.InvalidPrice? <==> !MissingRequired(form) && (parsed.None? || parsed.value <= 0.0)
    ensures r.Ok? ==>
      && parsed.Some? && r.item.price == parsed.value && r.item.price > 0.0
      && r.item.id == id
      && r.item.itemName == form.itemName
      && r.item.description == form.description
      && r.item.category == Name(form.category)
      && r.item.image == form.image
      && r.item.intensity == Intensity(parsed.value)
      && r.item.ingredients == ParseIngredients(form.ingredients)
  {
    if MissingRequired(form) then MissingFields
    else if parsed.None? || parsed.value <= 0.0 then InvalidPrice
    else
      var p := parsed.value;
      Ok(MenuItem(id, form.itemName, form.description, Name(form.category), p,
                  Intensity(p), form.image, ParseIngredients(form.ingredients)))
  }

  /** The category is never validated: changing it changes only the
      category of the built item, never the outcome's kind. */
  lemma OnSaveIgnoresCategory(form: AddForm, c: Course, parsed: Option<real>, id: string)
    ensures OnSave(form.(category := c), parsed, id).MissingFields? == OnSave(form, parsed, id).MissingFields?
    ensures OnSave(form.(category := c), parsed, id).InvalidPrice? == OnSave(form, parsed, id).InvalidPrice?
    ensures OnSave(form, parsed, id).Ok? ==>
      OnSave(form.(category := c), parsed, id) == Ok(OnSave(form, parsed, id).item.(category := Name(c)))
  {
  }

  /** Saving the untouched form reports missing fields. */
  lemma InitialFormIsMissing(parsed: Option<real>, id: string)
    ensures OnSave(InitialForm, parsed, id) == MissingFields
  {
  }
}
