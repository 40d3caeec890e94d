/** The `Home` page: the combobox state, the loaded catalog and the loading flag, driven by the user's
    events and by the one catalog fetch issued when the page mounts. */
module Home {
  import opened Wrappers
  import opened Catalog
  import opened Selection
  import opened Slugs

  /** All the page's state: the four `useState` hooks. */
  datatype Page = Page(sel: State, foods: seq<FoodReduced>, isLoading: bool)

  /** What the catalog request settles with: the fetched foods' names, or `None` when the request,
      the JSON parsing or the projection threw. */
  type FetchOutcome = Option<seq<string>>

  /** Something that happens to a mounted page. */
  datatype Event =
    | OpenChange(open: bool)       // the popover opens or closes
    | Choose(choice: string)       // an item reports its value through `onSelect`
    | Settled(outcome: FetchOutcome) // the fetch started on mount settles

  /** The page as first rendered: closed, nothing chosen, empty catalog, loading. */
  function Mount(): (p: Page)
    ensures p.isLoading
    ensures p.foods == []
    ensures p.sel.value == "" && !p.sel.open
  {
    Page(Initial(), [], true)
  }

  /** `fetchFoods`: the projection replaces the catalog only when everything succeeded; a failure is
      swallowed and leaves the catalog as it was. */
  function FetchFoods(foods: seq<FoodReduced>, outcome: FetchOutcome): (r: seq<FoodReduced>)
    ensures outcome.None? ==> r == foods
    ensures outcome.Some? ==> |r| == |outcome.value| && Labels(r) == outcome.value
    ensures outcome.Some? ==> forall i :: 0 <= i < |r| ==> r[i].value == Slug(outcome.value[i])
  {
    match outcome
    case None => foods
    case Some(names) => Project(names)
  }

  /** `initialize`: once `fetchFoods` has settled, whatever its outcome, loading is over; the
      combobox state is not touched. */
  function Initialize(p: Page, outcome: FetchOutcome): (r: Page)
    ensures !r.isLoading
    ensures r.sel == p.sel
    ensures outcome.None? ==> r.foods == p.foods
    ensures outcome.Some? ==> r.foods == Project(outcome.value)
  {
    Page(p.sel, FetchFoods(p.foods, outcome), false)
  }

  /** One event applied to the page. */
  function Step(p: Page, e: Event): (r: Page)
    ensures e.Settled? ==> !r.isLoading && r.sel == p.sel
    ensures !e.Settled? ==> r.foods == p.foods && r.isLoading == p.isLoading
    ensures e.OpenChange? ==> r.sel.value == p.sel.value && r.sel.open == e.open
    ensures e.Choose? ==> !r.sel.open
    ensures e.Choose? ==> r.sel.value == (if e.choice == p.sel.value then "" else e.choice)
    ensures e.Settled? ==> r.foods == FetchFoods(p.foods, e.outcome)
  {
    match e
    case OpenChange(b) => p.(sel := OnOpenChange(p.sel, b))
    case Choose(v) => p.(sel := Select(p.sel, v))
    case Settled(outcome) => Initialize(p, outcome)
  }

  /** The page after a sequence of events, starting from the mounted page. */
  function Replay(events: seq<Event>): (r: Page)
    ensures (forall i :: 0 <= i < |events| ==> !events[i].Settled?) ==> r.isLoading && r.foods == []
    ensures events != [] && events[|events| - 1].Settled? ==> !r.isLoading
    ensures events != [] && events[|events| - 1].Choose? ==> !r.sel.open
  {
    if events == [] then Mount()
    else Step(Replay(events[..|events| - 1]), events[|events| - 1])
  }

  /** The effect has an empty dependency list, so a mount issues exactly one fetch and the page sees
      at most one settlement. */
  predicate OneFetch(events: seq<Event>) {
    forall i, j :: 0 <= i < j < |events| && events[i].Settled? ==> !events[j].Settled?
  }

  /** The page is loading exactly until the fetch has settled, successfully or not. */
  lemma {:induction false} LoadingUntilSettled(events: seq<Event>)
    ensures Replay(events).isLoading <==> forall i :: 0 <= i < |events| ==> !events[i].Settled?
  {
    if events != [] {
      var init := events[..|events| - 1];
      LoadingUntilSettled(init);
      assert forall i :: 0 <= i < |init| ==> init[i] == events[i];
    }
  }

  /** Before the fetch settles the catalog is empty; after it, the catalog is the projection of the
      fetched names, or still empty if the fetch failed. No event but the settlement touches it. */
  lemma {:induction false} CatalogAfterEvents(events: seq<Event>, k: nat)
    requires OneFetch(events)
    requires k < |events| && events[k].Settled?
    ensures Replay(events).foods == Project(events[k].outcome.GetOr([]))
  {
    var init := events[..|events| - 1];
    if k == |events| - 1 {
      NoSettleNoCatalog(init);
    } else {
      assert init[k] == events[k];
      CatalogAfterEvents(init, k);
    }
  }

  /** Without a settlement the catalog keeps its initial empty value. */
  lemma {:induction false} NoSettleNoCatalog(events: seq<Event>)
    requires forall i :: 0 <= i < |events| ==> !events[i].Settled?
    ensures Replay(events).foods == []
  {
    if events != [] {
      NoSettleNoCatalog(events[..|events| - 1]);
    }
  }

  /** The `Choose` events of a sequence, in order. */
  function Choices(events: seq<Event>): (cs: seq<Event>)
    ensures |cs| <= |events|
    ensures forall i :: 0 <= i < |cs| ==> cs[i].Choose?
  {
    if events == [] then []
    else
      var last := events[|events| - 1];
      Choices(events[..|events| - 1]) + (if last.Choose? then [last] else [])
  }

  /** Replaying one more event is one more step. */
  lemma ReplaySnoc(events: seq<Event>, e: Event)
    ensures Replay(events + [e]) == Step(Replay(events), e)
  {
    assert (events + [e])[..|events|] == events;
  }

  /** One more event adds itself to the choices exactly when it is a choice. */
  lemma ChoicesSnoc(events: seq<Event>, e: Event)
    ensures Choices(events + [e]) == Choices(events) + (if e.Choose? then [e] else [])
  {
    assert (events + [e])[..|events|] == events;
  }

  /** The chosen value is decided by the `Choose` events alone: dropping every open, close and fetch
      event leaves it unchanged. */
  lemma {:induction false} ChosenValueOnlyFromChoices(events: seq<Event>)
    ensures Replay(events).sel.value == Replay(Choices(events)).sel.value
  {
    if events != [] {
      var init := events[..|events| - 1];
      var last := events[|events| - 1];
      assert events == init + [last];
      ChosenValueOnlyFromChoices(init);
      ReplaySnoc(init, last);
      ChoicesSnoc(init, last);
      if last.Choose? {
        ReplaySnoc(Choices(init), last);
      } else {
        assert Choices(events) == Choices(init);
      }
    }
  }

  /** Choosing an item that is not the current choice checks that item alone and puts its label on
      the button, provided the catalog's values are distinct and non-empty. */
  lemma ChooseItem(p: Page, i: nat)
    requires i < |p.foods| && DistinctValues(p.foods)
    requires p.foods[i].value != "" && p.sel.value != p.foods[i].value
    ensures CheckedIndices(p.foods, Step(p, Choose(p.foods[i].value)).sel.value) == {i}
    ensures DisplayLabel(p.foods, Step(p, Choose(p.foods[i].value)).sel.value)
      == Some(p.foods[i].labelText)
  {
  }

  /** Choosing the current choice again unchecks every item and brings back the placeholder, when no
      catalog value is empty. */
  lemma ChooseItemAgain(p: Page, i: nat)
    requires i < |p.foods| && p.sel.value == p.foods[i].value
    requires forall j :: 0 <= j < |p.foods| ==> p.foods[j].value != ""
    ensures CheckedIndices(p.foods, Step(p, Choose(p.foods[i].value)).sel.value) == {}
    ensures DisplayLabel(p.foods, Step(p, Choose(p.foods[i].value)).sel.value) == Some(Placeholder)
  {
  }

  /** A failed fetch leaves a page that is no longer loading and offers no food, without raising. */
  lemma FailedLoad()
    ensures Replay([Settled(None)]) == Page(State(false, ""), [], false)
  {
  }
}
