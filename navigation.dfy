/**
 * Scroll-driven navigation state: `initializeNavigation` (the navbar's
 * 'scrolled' class, its hide-on-scroll-down transform, and the active-section
 * highlighting of the nav links) and `initializeBackToTop`.
 *
 * Offsets are whole pixels.
 */
module Navigation {
  import opened Wrappers
  import opened Sequences

  // ----- navbar -----

  /** `window.pageYOffset || document.documentElement.scrollTop`: a non-zero
      `pageYOffset` wins, and the offset reads zero only when both do. */
  function ScrollTop(pageYOffset: int, documentScrollTop: int): (r: int)
    ensures r == pageYOffset || r == documentScrollTop
    ensures pageYOffset != 0 ==> r == pageYOffset
    ensures r == 0 <==> pageYOffset == 0 && documentScrollTop == 0
  {
    if pageYOffset != 0 then pageYOffset else documentScrollTop
  }

  /** The navbar's class 'scrolled', whether it is slid out of view, and the
      offset the handler remembers from the previous event. */
  datatype NavbarState = NavbarState(scrolled: bool, hidden: bool, lastScrollTop: int)

  /** One scroll event, at offset `top`. The navbar only slides away once it
      is already in the 'scrolled' look, and never while the page scrolls up
      or stays put; the event's offset is remembered. */
  function NavbarStep(s: NavbarState, top: int): (r: NavbarState)
    ensures r.hidden ==> r.scrolled
    ensures top <= s.lastScrollTop ==> !r.hidden
    ensures r.lastScrollTop == top
  {
    NavbarState(top > 100, top > s.lastScrollTop && top > 500, top)
  }

  /** A run of scroll events, in order. */
  function NavbarRun(s: NavbarState, tops: seq<int>): NavbarState
    decreases |tops|
  {
    if tops == [] then s else NavbarRun(NavbarStep(s, tops[0]), tops[1..])
  }

  /** After any run of scroll events the navbar reflects only the last two
      offsets: 'scrolled' past 100, hidden when moving down past 500, and the
      remembered offset is the latest one. */
  lemma {:induction false} NavbarRunLatest(s: NavbarState, tops: seq<int>)
    requires tops != []
    ensures var last := tops[|tops| - 1];
            var prev := if |tops| == 1 then s.lastScrollTop else tops[|tops| - 2];
            NavbarRun(s, tops) == NavbarState(last > 100, last > prev && last > 500, last)
    decreases |tops|
  {
    if |tops| > 1 {
      NavbarRunLatest(NavbarStep(s, tops[0]), tops[1..]);
    }
  }

  /** The element `#navbar` and the variable `lastScrollTop` of its handler. */
  class Navbar {
    var scrolled: bool
    var hidden: bool
    var lastScrollTop: int

    function State(): NavbarState
      reads this
    {
      NavbarState(scrolled, hidden, lastScrollTop)
    }

    /** Before the first event: `lastScrollTop = 0`, the navbar in place. */
    constructor (scrolled: bool)
      ensures State() == NavbarState(scrolled, false, 0)
    {
      this.scrolled := scrolled;
      hidden := false;
      lastScrollTop := 0;
    }

    /** The navbar's scroll handler. */
    method OnScroll(pageYOffset: int, documentScrollTop: int)
      modifies this
      ensures var top := ScrollTop(pageYOffset, documentScrollTop);
              scrolled == (top > 100) &&
              hidden == (top > old(lastScrollTop) && top > 500) &&
              lastScrollTop == top
      ensures State() == NavbarStep(old(State()), ScrollTop(pageYOffset, documentScrollTop))
    {
      var top := ScrollTop(pageYOffset, documentScrollTop);
      if top > 100 {
        scrolled := true;
      } else {
        scrolled := false;
      }
      if top > lastScrollTop && top > 500 {
        hidden := true;
      } else {
        hidden := false;
      }
      lastScrollTop := top;
    }
  }

  // ----- active section -----

  /** A `section[id]`: its id, `offsetTop` and `offsetHeight`. */
  datatype Section = Section(id: string, offsetTop: int, offsetHeight: int)

  /** `scrollY` lies in `[offsetTop - 150, offsetTop - 150 + offsetHeight)`. */
  predicate InWindow(sec: Section, scrollY: int) {
    sec.offsetTop - 150 <= scrollY < sec.offsetTop - 150 + sec.offsetHeight
  }

  /** The `href` the switch picks for a section id: "#" followed by the id,
      for the five known ids only. */
  function NavHref(id: string): (r: Option<string>)
    ensures r.Some? <==> id in {"home", "projects", "athletics", "about", "contact"}
    ensures r.Some? ==> r.value == "#" + id
  {
    if id in {"home", "projects", "athletics", "about", "contact"} then Some("#" + id) else None
  }

  /** The nav link a section activates, if any, as `querySelector` finds it:
      the first link whose href is "#" + id, for a known id; none for an
      unknown id or a missing link. */
  function LinkFor(hrefs: seq<string>, id: string): (r: Option<nat>)
    ensures r.Some? ==> NavHref(id).Some? && r.value < |hrefs| && hrefs[r.value] == "#" + id &&
                        forall j :: 0 <= j < r.value ==> hrefs[j] != "#" + id
    ensures r.None? ==> NavHref(id).None? || "#" + id !in hrefs
  {
    match NavHref(id)
    case None => None
    case Some(h) => FirstIndex(hrefs, h)
  }

  /** The last section, in document order, whose window holds `scrollY`. */
  function LastHit(sections: seq<Section>, scrollY: int): (r: Option<nat>)
    ensures r.Some? ==> r.value < |sections| && InWindow(sections[r.value], scrollY) &&
                        forall k :: r.value < k < |sections| ==> !InWindow(sections[k], scrollY)
    ensures r.None? ==> forall k :: 0 <= k < |sections| ==> !InWindow(sections[k], scrollY)
  {
    if sections == [] then None
    else if InWindow(sections[|sections| - 1], scrollY) then Some(|sections| - 1)
    else LastHit(sections[..|sections| - 1], scrollY)
  }

  /** Section windows laid end to end: each ends where the next may start. */
  predicate Stacked(sections: seq<Section>) {
    (forall k :: 0 <= k < |sections| ==> sections[k].offsetHeight >= 0) &&
    forall k :: 0 <= k < |sections| - 1 ==>
      sections[k].offsetTop + sections[k].offsetHeight <= sections[k + 1].offsetTop
  }

  /** In stacked sections, every later window starts after an earlier one ends. */
  lemma {:induction false} StackedOrdered(sections: seq<Section>, k: nat, m: nat)
    requires Stacked(sections) && k < m < |sections|
    ensures sections[k].offsetTop + sections[k].offsetHeight <= sections[m].offsetTop
    decreases m - k
  {
    if k + 1 < m {
      StackedOrdered(sections, k + 1, m);
    }
  }

  /** When the sections are stacked, at most one window holds `scrollY`, so
      the section that wins is the only one that matches. */
  lemma StackedHitIsUnique(sections: seq<Section>, scrollY: int)
    requires Stacked(sections)
    ensures forall k :: 0 <= k < |sections| ==>
      (InWindow(sections[k], scrollY) <==> LastHit(sections, scrollY) == Some(k))
  {
    forall k | 0 <= k < |sections| && InWindow(sections[k], scrollY)
      ensures LastHit(sections, scrollY) == Some(k)
    {
      var h := LastHit(sections, scrollY).value;
      if h > k {
        StackedOrdered(sections, k, h);
      }
    }
  }

  /** The nav links' 'active' classes and the sections they follow. */
  class SectionHighlighter {
    /** The sections, in document order. */
    const sections: seq<Section>
    /** `href` of each `.nav-link`, in document order. */
    const hrefs: seq<string>
    /** Whether each link carries 'active'. */
    const active: array<bool>

    ghost predicate Valid()
      reads this
    {
      active.Length == |hrefs|
    }

    constructor (sections: seq<Section>, hrefs: seq<string>, active: seq<bool>)
      requires |active| == |hrefs|
      ensures Valid() && fresh(this.active)
      ensures this.sections == sections && this.hrefs == hrefs && this.active[..] == active
    {
      this.sections := sections;
      this.hrefs := hrefs;
      this.active := new bool[|active|](i requires 0 <= i < |active| => active[i]);
    }

    /** `highlightActiveSection()`: when no window holds `scrollY` the links
        keep their classes; otherwise the last section that matches leaves
        only its own link active (or none, when it has no link). */
    method Highlight(scrollY: int)
      requires Valid()
      modifies active
      ensures Valid()
      ensures LastHit(sections, scrollY).None? ==> active[..] == old(active[..])
      ensures LastHit(sections, scrollY).Some? ==>
        forall j :: 0 <= j < active.Length ==>
          active[j] == (LinkFor(hrefs, sections[LastHit(sections, scrollY).value].id) == Some(j))
    {
      var k := 0;
      while k < |sections|
        invariant 0 <= k <= |sections|
        invariant LastHit(sections[..k], scrollY).None? ==> active[..] == old(active[..])
        invariant LastHit(sections[..k], scrollY).Some? ==>
          forall j :: 0 <= j < active.Length ==>
            active[j] == (LinkFor(hrefs, sections[LastHit(sections[..k], scrollY).value].id) == Some(j))
      {
        assert sections[..k + 1][..k] == sections[..k];
        var sec := sections[k];
        if sec.offsetTop - 150 <= scrollY && scrollY < sec.offsetTop - 150 + sec.offsetHeight {
          var l := 0;
          while l < active.Length
            invariant 0 <= l <= active.Length
            invariant forall j :: 0 <= j < l ==> !active[j]
          {
            active[l] := false;
            l := l + 1;
          }
          var link := LinkFor(hrefs, sec.id);
          if link.Some? {
            active[link.value] := true;
          }
        }
        k := k + 1;
      }
      assert sections[..|sections|] == sections;
    }
  }

  // ----- back to top -----

  /** The element `#backToTop` and its class 'visible'. */
  class BackToTop {
    var visible: bool

    constructor (visible: bool)
      ensures this.visible == visible
    {
      this.visible := visible;
    }

    /** Its scroll handler: visible past 300 pixels. */
    method OnScroll(pageYOffset: int)
      modifies this
      ensures visible <==> pageYOffset > 300
    {
      if pageYOffset > 300 {
        visible := true;
      } else {
        visible := false;
      }
    }
  }
}
