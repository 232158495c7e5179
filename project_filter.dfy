/**
 * The project filter: `initializeProjectFilter` and its click handler.
 *
 * The filter buttons and the project cards are captured once, when the filter
 * is set up. A click on a button makes that button, and only that button,
 * 'active', then walks the captured cards: a card is shown (class 'hidden'
 * removed) when the button's `data-filter` is "all" or is one of the card's
 * classes, and hidden (class 'hidden' added) otherwise.
 */
module ProjectFilter {
  import Catalog

  /** The sentinel filter that shows every card. */
  const All: string := "all"

  /** The class that hides a card. */
  const HiddenClass: string := "hidden"

  /** The test of the click handler: `filter === 'all' || card.classList.contains(filter)`. */
  predicate Shows(f: string, classes: set<string>) {
    f == All || f in classes
  }

  /** A card's class set after a click on a button whose filter is `f`. */
  function Filtered(f: string, classes: set<string>): (r: set<string>)
    ensures HiddenClass !in r <==> Shows(f, classes)
    ensures r - {HiddenClass} == classes - {HiddenClass}
  {
    if Shows(f, classes) then classes - {HiddenClass} else classes + {HiddenClass}
  }

  /** The cards not carrying 'hidden'. */
  function VisibleCards(cards: seq<set<string>>): set<nat> {
    set k | 0 <= k < |cards| && HiddenClass !in cards[k]
  }

  /** Filtering every card by `f` leaves visible exactly the cards `f` shows. */
  lemma VisibleAfterFilter(f: string, before: seq<set<string>>, after: seq<set<string>>)
    requires |after| == |before|
    requires forall k :: 0 <= k < |before| ==> after[k] == Filtered(f, before[k])
    ensures VisibleCards(after) == set k | 0 <= k < |before| && Shows(f, before[k])
  {
  }

  /** A click's effect depends only on the classes other than 'hidden', so
      a click on a filter other than "hidden" undoes whatever came before. */
  lemma LastClickWins(f1: string, f2: string, classes: set<string>)
    requires f2 != HiddenClass
    ensures Filtered(f2, Filtered(f1, classes)) == Filtered(f2, classes)
  {
    var mid := Filtered(f1, classes);
    assert f2 in mid <==> f2 in classes;
  }

  /** The classes after a run of clicks with filters `fs`, in order. */
  function FilteredBy(fs: seq<string>, classes: set<string>): set<string> {
    if fs == [] then classes else FilteredBy(fs[1..], Filtered(fs[0], classes))
  }

  /** After any run of clicks whose last filter is not "hidden", each card is
      as if only the last click had happened. */
  lemma {:induction false} OnlyLastClickMatters(fs: seq<string>, classes: set<string>)
    requires fs != [] && fs[|fs| - 1] != HiddenClass
    ensures FilteredBy(fs, classes) == Filtered(fs[|fs| - 1], classes)
  {
    if |fs| == 1 {
      assert FilteredBy(fs[1..], Filtered(fs[0], classes)) == Filtered(fs[0], classes);
    } else {
      OnlyLastClickMatters(fs[1..], Filtered(fs[0], classes));
      LastClickWins(fs[0], fs[|fs| - 1], classes);
    }
  }

  /** Clicking the same button twice gives what clicking it once gave. */
  lemma ClickIdempotent(f: string, classes: set<string>)
    requires f != HiddenClass
    ensures Filtered(f, Filtered(f, classes)) == Filtered(f, classes)
  {
    LastClickWins(f, f, classes);
  }

  /** A button whose filter is "hidden" flips every card on every click:
      the test reads the very class the handler writes, so one click toggles
      'hidden' and a second click restores the card. */
  lemma HiddenFilterFlips(classes: set<string>)
    ensures (HiddenClass in classes) != (HiddenClass in Filtered(HiddenClass, classes))
    ensures Filtered(HiddenClass, Filtered(HiddenClass, classes)) == classes
  {
  }

  /** The handler's test, on a card whose classes are those
      `createProjectCard` gives, passes exactly when `f` is "all", the card's
      category, or the "project-card" class itself. The page's rendered
      catalog cards are not among the cards the filter captures (it captures
      them before the catalog is rendered), so they stay shown whatever the
      filter; this is what the test would do on them. */
  lemma CatalogCardShown(p: Catalog.ProjectRecord, f: string)
    requires Catalog.IsToken(p.category)
    ensures Shows(f, Catalog.CreateProjectCard(p).classes) <==>
      f == All || f == p.category || f == "project-card"
  {
  }

  /** Exactly the flags of button `i` is set. */
  predicate SoleActive(flags: seq<bool>, i: nat) {
    i < |flags| && forall j :: 0 <= j < |flags| ==> flags[j] == (j == i)
  }

  /** After a click exactly one button is active. */
  lemma SoleActiveCount(flags: seq<bool>, i: nat)
    requires SoleActive(flags, i)
    ensures (set j | 0 <= j < |flags| && flags[j]) == {i}
    ensures |set j | 0 <= j < |flags| && flags[j]| == 1
  {
    var on := set j | 0 <= j < |flags| && flags[j];
    assert i in on;
    assert on == {i};
  }

  /** The filter bar and the cards it captured when it was set up. */
  class FilterBar {
    /** `data-filter` of each `.filter-btn`, in document order. */
    const filters: seq<string>
    /** Whether each button carries the class 'active'. */
    const active: array<bool>
    /** The class set of each `.project-card` present at set-up. */
    const cards: array<set<string>>

    ghost predicate Valid()
      reads this
    {
      active.Length == |filters|
    }

    constructor (filters: seq<string>, active: seq<bool>, cards: seq<set<string>>)
      requires |active| == |filters|
      ensures Valid()
      ensures this.filters == filters && this.active[..] == active && this.cards[..] == cards
      ensures fresh(this.active) && fresh(this.cards)
    {
      this.filters := filters;
      this.active := new bool[|active|](i requires 0 <= i < |active| => active[i]);
      this.cards := new set<string>[|cards|](i requires 0 <= i < |cards| => cards[i]);
    }

    /** The click handler of button `i`. */
    method Click(i: nat)
      requires Valid() && i < |filters|
      modifies active, cards
      ensures Valid()
      ensures SoleActive(active[..], i)
      ensures forall k :: 0 <= k < cards.Length ==> cards[k] == Filtered(filters[i], old(cards[k]))
      ensures VisibleCards(cards[..]) == set k | 0 <= k < cards.Length && Shows(filters[i], old(cards[k]))
    {
      var b := 0;
      while b < active.Length
        invariant 0 <= b <= active.Length
        invariant forall j :: 0 <= j < b ==> !active[j]
        modifies active
      {
        active[b] := false;
        b := b + 1;
      }
      active[i] := true;

      var f := filters[i];
      var k := 0;
      while k < cards.Length
        invariant 0 <= k <= cards.Length
        invariant forall m :: 0 <= m < k ==> cards[m] == Filtered(f, old(cards[m]))
        invariant forall m :: k <= m < cards.Length ==> cards[m] == old(cards[m])
        modifies cards
      {
        if f == All || f in cards[k] {
          cards[k] := cards[k] - {HiddenClass};
        } else {
          cards[k] := cards[k] + {HiddenClass};
        }
        k := k + 1;
      }
      VisibleAfterFilter(f, old(cards[..]), cards[..]);
    }
  }

  /** An example run of `Click`'s contract: the buttons all, web, mobile,
      data and other over one card of each of three categories, clicked web,
      mobile, then all. */
  method ClickThrough()
  {
    var web, mobile, data := {"project-card", "web"}, {"project-card", "mobile"}, {"project-card", "data"};
    var bar := new FilterBar(["all", "web", "mobile", "data", "other"],
                             [true, false, false, false, false],
                             [web, mobile, data]);
    assert "web" !in mobile && "web" !in data && "mobile" !in web && "mobile" !in data;
    bar.Click(1);
    assert VisibleCards(bar.cards[..]) == {0};
    bar.Click(2);
    assert VisibleCards(bar.cards[..]) == {1};
    bar.Click(0);
    assert VisibleCards(bar.cards[..]) == {0, 1, 2};
    assert SoleActive(bar.active[..], 0);
  }
}
