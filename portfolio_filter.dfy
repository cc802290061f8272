/** The portfolio filter (script.js:41-72): a click on a filter button makes
    it the only active one and recomputes every card's `hidden` flag from
    the card's `data-category`. A missing attribute reads as `null`, the
    `None` below. */
module PortfolioFilter {
  import opened Wrappers

  /** The `data-filter` value that shows every card. */
  const ShowAll: Option<string> := Some("all")

  /** A card stays visible under `filter` when the filter is `'all'` or the
      card's category is exactly the filter value (`===`). */
  predicate CardShown(filter: Option<string>, category: Option<string>)
  {
    filter == ShowAll || category == filter
  }

  /** The indices of the cards visible under `filter`. */
  function ShownCards(filter: Option<string>, categories: seq<Option<string>>): set<nat>
  {
    set i: nat | i < |categories| && CardShown(filter, categories[i])
  }

  /** The `'all'` filter shows every card. */
  lemma ShowAllShowsEverything(categories: seq<Option<string>>)
    ensures forall i: nat :: i in ShownCards(ShowAll, categories) <==> i < |categories|
  {
  }

  /** Any other filter shows exactly the cards of that category, so a card
      whose own category is the text `"all"` is visible only under the
      `'all'` filter. */
  lemma FilterShowsItsCategory(filter: Option<string>, categories: seq<Option<string>>)
    requires filter != ShowAll
    ensures ShownCards(filter, categories) == set i: nat | i < |categories| && categories[i] == filter
    ensures forall i :: 0 <= i < |categories| && categories[i] == ShowAll ==> i !in ShownCards(filter, categories)
  {
  }

  class FilterBar {
    /** Each filter button's `data-filter`. */
    const filters: seq<Option<string>>
    /** Each card's `data-category`. */
    const categories: seq<Option<string>>
    /** Button `k` carries the `active` class. */
    const active: array<bool>
    /** Card `i` carries the `hidden` class. */
    const hidden: array<bool>
    /** Card `i` has been given the `slideInUp` entrance animation. */
    const animated: array<bool>

    /** One flag per button and per card, in three distinct arrays, and at
        most one active button. */
    ghost predicate Valid()
      reads this, active
    {
      && active.Length == |filters|
      && hidden.Length == |categories| && animated.Length == |categories|
      && active != hidden && active != animated && hidden != animated
      && forall j, k :: 0 <= j < k < active.Length ==> !(active[j] && active[k])
    }

    constructor (filters: seq<Option<string>>, categories: seq<Option<string>>)
      ensures Valid() && this.filters == filters && this.categories == categories
      ensures fresh(active) && fresh(hidden) && fresh(animated)
      ensures forall k :: 0 <= k < active.Length ==> !active[k]
      ensures forall i :: 0 <= i < hidden.Length ==> !hidden[i] && !animated[i]
    {
      this.filters := filters;
      this.categories := categories;
      active := new bool[|filters|](_ => false);
      hidden := new bool[|categories|](_ => false);
      animated := new bool[|categories|](_ => false);
    }

    /** A click on button `b`: it becomes the only active button, and card
        `i` is shown exactly when `CardShown` holds for it, whatever it was
        before; shown cards get the entrance animation. */
    method Click(b: nat)
      requires Valid() && b < |filters|
      modifies active, hidden, animated
      ensures Valid()
      ensures forall k :: 0 <= k < active.Length ==> active[k] == (k == b)
      ensures forall i :: 0 <= i < hidden.Length ==>
        (hidden[i] <==> !CardShown(filters[b], categories[i]))
      ensures forall i :: 0 <= i < animated.Length ==>
        animated[i] == (old(animated[i]) || CardShown(filters[b], categories[i]))
    {
      var k := 0;
      while k < active.Length
        modifies active
        invariant 0 <= k <= active.Length
        invariant forall j :: 0 <= j < k ==> !active[j]
      {
        active[k] := false;
        k := k + 1;
      }
      active[b] := true;

      var filterValue := filters[b];
      var i := 0;
      while i < hidden.Length
        invariant 0 <= i <= hidden.Length
        invariant forall j :: 0 <= j < active.Length ==> active[j] == (j == b)
        invariant forall j :: 0 <= j < i ==> (hidden[j] <==> !CardShown(filterValue, categories[j]))
        invariant forall j :: 0 <= j < i ==>
          animated[j] == (old(animated[j]) || CardShown(filterValue, categories[j]))
        invariant forall j :: i <= j < animated.Length ==> animated[j] == old(animated[j])
      {
        if filterValue == ShowAll {
          hidden[i] := false;
          animated[i] := true;
        } else {
          if categories[i] == filterValue {
            hidden[i] := false;
            animated[i] := true;
          } else {
            hidden[i] := true;
          }
        }
        i := i + 1;
      }
    }

    /** The cards currently visible. */
    function Visible(): set<nat>
      reads this, hidden
    {
      set i: nat | i < hidden.Length && !hidden[i]
    }
  }

  /** Clicking `web` on cards tagged `web`, `design` and `all` shows only the
      `web` card; clicking `all` afterwards shows all three. */
  method WebThenAll() returns (webShown: set<nat>, allShown: set<nat>)
    ensures webShown == {0} && allShown == {0, 1, 2}
  {
    var bar := new FilterBar([ShowAll, Some("web")], [Some("web"), Some("design"), ShowAll]);
    bar.Click(1);
    webShown := bar.Visible();
    assert webShown == {0} by {
      assert bar.hidden[1] && bar.hidden[2] && !bar.hidden[0];
    }
    bar.Click(0);
    allShown := bar.Visible();
    assert allShown == {0, 1, 2} by {
      assert !bar.hidden[0] && !bar.hidden[1] && !bar.hidden[2];
    }
  }
}
