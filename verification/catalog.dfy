/** The catalog shown by the combobox: one selectable entry per fetched food, and the lookups the
    trigger button and the check marks make in it. */
module Catalog {
  import opened Wrappers
  import opened Slugs

  /** One selectable entry: `value` is the slug the item reports when chosen, `labelText` (the page's `label` field; `label` is a Dafny keyword) the name shown. */
  datatype FoodReduced = FoodReduced(value: string, labelText: string)

  /** Text of the trigger button while nothing is chosen. */
  const Placeholder: string := "Select food..."

  /** The `data.map(...)` projection of the fetched foods' names, one entry per name, in fetch order. */
  function Project(names: seq<string>): (foods: seq<FoodReduced>)
    ensures |foods| == |names|
    ensures forall i :: 0 <= i < |names| ==> foods[i].labelText == names[i]
    ensures forall i :: 0 <= i < |names| ==> foods[i].value == Slug(names[i])
  {
    if names == [] then []
    else [FoodReduced(Slug(names[0]), names[0])] + Project(names[1..])
  }

  /** The labels of a catalog, in catalog order. */
  function Labels(foods: seq<FoodReduced>): (labels: seq<string>)
    ensures |labels| == |foods|
    ensures forall i :: 0 <= i < |foods| ==> labels[i] == foods[i].labelText
  {
    if foods == [] then [] else [foods[0].labelText] + Labels(foods[1..])
  }

  /** The projection neither sorts, filters nor alters names: reading the labels back gives the names. */
  lemma LabelsOfProject(names: seq<string>)
    ensures Labels(Project(names)) == names
  {
  }

  /** Projecting a concatenation is concatenating the projections: each entry depends on its own
      name only. */
  lemma ProjectAppend(a: seq<string>, b: seq<string>)
    ensures Project(a + b) == Project(a) + Project(b)
  {
  }

  /** Index of the first entry whose value is `v`, as `Array.prototype.find` scans. */
  function FindIndex(foods: seq<FoodReduced>, v: string): (r: Option<nat>)
    ensures r.Some? ==> r.value < |foods| && foods[r.value].value == v
    ensures r.Some? ==> forall j :: 0 <= j < r.value ==> foods[j].value != v
    ensures r.None? <==> forall j :: 0 <= j < |foods| ==> foods[j].value != v
  {
    if foods == [] then None
    else if foods[0].value == v then Some(0)
    else match FindIndex(foods[1..], v)
      case None => None
      case Some(k) => Some(k + 1)
  }

  /** `foods.find((food) => food.value === v)`: the first entry with value `v`, if any. */
  function Find(foods: seq<FoodReduced>, v: string): (r: Option<FoodReduced>)
    ensures r.None? <==> forall j :: 0 <= j < |foods| ==> foods[j].value != v
    ensures r.Some? ==> exists i :: (0 <= i < |foods| && foods[i] == r.value
      && forall j :: 0 <= j < i ==> foods[j].value != v)
    ensures r.Some? ==> r.value.value == v
  {
    match FindIndex(foods, v)
    case None => None
    case Some(i) => Some(foods[i])
  }

  /** What the trigger button shows: the placeholder when no value is chosen, else the label of the
      first entry carrying the chosen value; `None` stands for JavaScript's `undefined`, which is what
      the optional chaining yields when no entry carries it. */
  function DisplayLabel(foods: seq<FoodReduced>, value: string): (r: Option<string>)
    ensures value == "" ==> r == Some(Placeholder)
    ensures value != "" ==> (r.None? <==> forall j :: 0 <= j < |foods| ==> foods[j].value != value)
    ensures value != "" && r.Some? ==> exists i :: (0 <= i < |foods| && foods[i].value == value
      && r.value == foods[i].labelText && forall j :: 0 <= j < i ==> foods[j].value != value)
  {
    if value == "" then Some(Placeholder)
    else match Find(foods, value)
      case None => None
      case Some(food) => Some(food.labelText)
  }

  /** Whether an item's check mark is opaque. */
  predicate IsChecked(value: string, food: FoodReduced)
    ensures value == "" && food.value != "" ==> !IsChecked(value, food)
    ensures IsChecked(value, food) && value != "" ==> food.value != ""
  {
    value == food.value
  }

  /** The indices of the items shown with a check mark. */
  function CheckedIndices(foods: seq<FoodReduced>, value: string): (s: set<nat>)
    ensures forall i :: i in s ==> i < |foods| && IsChecked(value, foods[i])
    ensures forall i :: 0 <= i < |foods| && IsChecked(value, foods[i]) ==> i in s
  {
    set i: nat | i < |foods| && IsChecked(value, foods[i])
  }

  /** No two entries share a value (the catalog's names have pairwise distinct slugs). */
  predicate DistinctValues(foods: seq<FoodReduced>) {
    forall i, j :: 0 <= i < j < |foods| ==> foods[i].value != foods[j].value
  }

  /** With pairwise distinct values, at most one item carries a check mark. */
  lemma AtMostOneChecked(foods: seq<FoodReduced>, value: string)
    requires DistinctValues(foods)
    ensures |CheckedIndices(foods, value)| <= 1
  {
    var s := CheckedIndices(foods, value);
    if s != {} {
      var i :| i in s;
      assert s == {i} by {
        forall j | j in s ensures j == i {
        }
      }
    }
  }

  /** When no value is chosen and no food has an empty name, no item is checked. */
  lemma NoneCheckedWhenEmpty(names: seq<string>)
    requires forall i :: 0 <= i < |names| ==> names[i] != ""
    ensures CheckedIndices(Project(names), "") == {}
  {
  }

  /** The button and the check marks agree: with a value chosen, the button shows the label of the
      first checked item, and shows nothing when no item is checked. */
  lemma LabelOfFirstChecked(foods: seq<FoodReduced>, value: string)
    requires value != ""
    ensures CheckedIndices(foods, value) == {} ==> DisplayLabel(foods, value).None?
    ensures forall i :: (i in CheckedIndices(foods, value)
      && (forall j :: 0 <= j < i ==> j !in CheckedIndices(foods, value))
      ==> DisplayLabel(foods, value) == Some(foods[i].labelText))
  {
  }

  /** Two names with one slug (such as "Apple Pie" and "apple pie") give two items that are checked
      together, while the button shows the first one's label: the catalog does not guard against
      collisions. */
  lemma CollisionChecksBoth(a: string, b: string)
    requires Slug(a) == Slug(b)
    ensures CheckedIndices(Project([a, b]), Slug(a)) == {0, 1}
    ensures Slug(a) != "" ==> DisplayLabel(Project([a, b]), Slug(a)) == Some(a)
  {
  }

  /** The projection of a single "Green Apple" record. */
  lemma GreenApple()
    ensures Project(["Green Apple"]) == [FoodReduced("green-apple", "Green Apple")]
  {
    SlugOfLiteral("Green Apple", "green-apple");
  }
}
