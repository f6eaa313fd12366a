/** The menu item record and the course enumeration (type.tsx).

    At run time a menu item's category is a string. The declared type
    restricts it to the three course names; `WellTyped` states that
    restriction, so that code which stores some other string (see
    Manage.HandleSubmit) can be told apart from code that keeps it.
 */
module MenuTypes {

  datatype Option<+T> = None | Some(value: T)

  /** The closed set of courses. */
  datatype Course = STARTER | MAIN | DESSERT

  /** The fixed course list, in the order the statistics row shows it. */
  const AllCourses: seq<Course> := [STARTER, MAIN, DESSERT]

  /** The string a course value has at run time. */
  function Name(c: Course): string
  {
    match c
    case STARTER => "STARTER"
    case MAIN => "MAIN"
    case DESSERT => "DESSERT"
  }

  /** A string is a course name exactly when it is one of the three names. */
  predicate IsCourseName(s: string)
  {
    s == "STARTER" || s == "MAIN" || s == "DESSERT"
  }

  /** The three names are distinct and are the only course names: a string
      is a course name exactly when some course has it as its name, and no
      two courses share a name. */
  lemma CourseNamesDistinct(c: Course, d: Course, s: string)
    ensures Name(c) == Name(d) <==> c == d
    ensures IsCourseName(s) <==> exists e :: Name(e) == s
    ensures AllCourses[0] != AllCourses[1] && AllCourses[1] != AllCourses[2] && AllCourses[0] != AllCourses[2]
  {
    if s == "STARTER" {
      assert Name(STARTER) == s;
    } else if s == "MAIN" {
      assert Name(MAIN) == s;
    } else if s == "DESSERT" {
      assert Name(DESSERT) == s;
    }
  }

  /** One entry of the menu. `price` is a plain number: positivity is
      checked by the add forms, not by the record. `intensity` is an open
      string: the lower-case labels are the usual ones, but any string is
      admissible. `ingredients` keeps order and duplicates. */
  datatype MenuItem = MenuItem(
    id: string,
    itemName: string,
    description: string,
    category: string,
    price: real,
    intensity: string,
    image: string,
    ingredients: seq<string>)

  /** The item respects the declared type of its category. */
  predicate ItemWellTyped(item: MenuItem)
  {
    IsCourseName(item.category)
  }

  /** Every item of the list respects the declared type of its category. */
  predicate WellTyped(items: seq<MenuItem>)
  {
    forall k :: 0 <= k < |items| ==> ItemWellTyped(items[k])
  }

  /** Every course's name is a course name. */
  lemma NameIsCourseName(c: Course)
    ensures IsCourseName(Name(c))
  {
    match c
    case STARTER =>
    case MAIN =>
    case DESSERT =>
  }

  /** What an add form reports: one of the two validation failures, or the
      item it built. */
  datatype AddOutcome = MissingFields | InvalidPrice | Ok(item: MenuItem)
}
