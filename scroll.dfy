/**
 * The two scroll listeners of a blog post page. One shows or hides the
 * desktop navigation links and the tablet menu icons as the page scrolls.
 * The other shows the mobile footer menu when the reader scrolls up, hides
 * it when they scroll down, closes its sub-menus and toggles its
 * "scroll to top" icon.
 *
 * Each element's visibility is a boolean field. A scroll offset is the
 * integer distance of the viewport from the top of the page.
 */
module ScrollChrome {
  import opened Text

  /** Below this offset the page counts as scrolled to the top. */
  const NearTop: int := 50
  /** Above this offset the page counts as scrolled away from the top. */
  const AwayFromTop: int := 100

  /**
   * A visibility switched by the scroll offset, with a dead band from `low`
   * to `high`. Below `low` it becomes `belowLow` and above `high` its
   * opposite. Inside the band, bounds included, it stays as it was.
   */
  function Band(shown: bool, offset: int, low: int, high: int, belowLow: bool): bool {
    if offset < low then belowLow else if offset > high then !belowLow else shown
  }

  /** The visibility after a series of scroll events, applied first to last. */
  function AfterScrolls(shown: bool, offsets: seq<int>, low: int, high: int, belowLow: bool): bool
    decreases |offsets|
  {
    if offsets == [] then shown
    else AfterScrolls(Band(shown, offsets[0], low, high, belowLow), offsets[1..], low, high, belowLow)
  }

  /** The last offset of the series that lies outside the dead band, if there is one. */
  function LastOutside(offsets: seq<int>, low: int, high: int): (r: Option<int>)
    ensures r.Some? ==> r.value < low || r.value > high
    ensures r.Some? ==>
      exists i :: 0 <= i < |offsets| && offsets[i] == r.value && (forall j :: i < j < |offsets| ==> low <= offsets[j] <= high)
    ensures r.None? ==> forall i :: 0 <= i < |offsets| ==> low <= offsets[i] <= high
    decreases |offsets|
  {
    if offsets == [] then None
    else
      var o := offsets[|offsets| - 1];
      if o < low || o > high then Some(o) else LastOutside(offsets[..|offsets| - 1], low, high)
  }

  /** One more scroll event acts on the visibility the earlier ones left. */
  lemma {:induction false} AfterScrollsAppend(shown: bool, offsets: seq<int>, o: int, low: int, high: int, belowLow: bool)
    ensures AfterScrolls(shown, offsets + [o], low, high, belowLow)
         == Band(AfterScrolls(shown, offsets, low, high, belowLow), o, low, high, belowLow)
    decreases |offsets|
  {
    if offsets == [] {
      assert offsets + [o] == [o];
    } else {
      assert (offsets + [o])[1..] == offsets[1..] + [o];
      AfterScrollsAppend(Band(shown, offsets[0], low, high, belowLow), offsets[1..], o, low, high, belowLow);
    }
  }

  /**
   * Hysteresis: after any series of scroll events, the visibility is set by
   * the last offset that left the dead band. It is `belowLow` if that offset
   * was below the band and the opposite if it was above. When no offset
   * left the band, the visibility is what it was before the series.
   */
  lemma {:induction false} HysteresisMemory(shown: bool, offsets: seq<int>, low: int, high: int, belowLow: bool)
    ensures AfterScrolls(shown, offsets, low, high, belowLow)
         == match LastOutside(offsets, low, high)
            case None => shown
            case Some(o) => if o < low then belowLow else !belowLow
    decreases |offsets|
  {
    if offsets != [] {
      var front, o := offsets[..|offsets| - 1], offsets[|offsets| - 1];
      assert offsets == front + [o];
      AfterScrollsAppend(shown, front, o, low, high, belowLow);
      HysteresisMemory(shown, front, low, high, belowLow);
    }
  }

  /**
   * The listener that hides the desktop navigation links as the page
   * scrolls away from the top. On tablets, where `#menu-icon` is not
   * visible, it also swaps the tablet menu icon for a "scroll to top" icon.
   */
  class MenuScroll {
    /** Whether `#menu > #nav` is itself displayed. */
    var navShown: bool
    /** Whether `#menu-icon-tablet` is displayed. */
    var menuIconTabletShown: bool
    /** Whether `#top-icon-tablet` is displayed. */
    var topIconTabletShown: bool

    constructor (navShown0: bool, menuIconTabletShown0: bool, topIconTabletShown0: bool)
      ensures navShown == navShown0
      ensures menuIconTabletShown == menuIconTabletShown0
      ensures topIconTabletShown == topIconTabletShown0
    {
      navShown := navShown0;
      menuIconTabletShown := menuIconTabletShown0;
      topIconTabletShown := topIconTabletShown0;
    }

    /** Exactly one of the two tablet icons is displayed. */
    predicate TabletIconsExclusive()
      reads this
    {
      menuIconTabletShown != topIconTabletShown
    }

    /**
     * One scroll event at offset `topDistance`. The navigation links are
     * visible only when both they and the `#menu` around them are displayed,
     * so `menuShown` says whether `#menu` is displayed. `menuIconVisible`
     * says whether the layout shows `#menu-icon`.
     */
    method OnScroll(topDistance: int, menuShown: bool, menuIconVisible: bool)
      modifies this
      ensures menuShown ==> navShown == Band(old(navShown), topDistance, AwayFromTop, AwayFromTop, true)
      ensures !menuShown ==> navShown == (old(navShown) || topDistance < AwayFromTop)
      ensures menuIconVisible ==>
        menuIconTabletShown == old(menuIconTabletShown) && topIconTabletShown == old(topIconTabletShown)
      ensures !menuIconVisible ==>
        && menuIconTabletShown == Band(old(menuIconTabletShown), topDistance, NearTop, AwayFromTop, true)
        && topIconTabletShown == Band(old(topIconTabletShown), topDistance, NearTop, AwayFromTop, false)
      ensures old(TabletIconsExclusive()) ==> TabletIconsExclusive()
      ensures !menuIconVisible && (topDistance < NearTop || topDistance > AwayFromTop) ==> TabletIconsExclusive()
    {
      var navVisible := menuShown && navShown;
      if !navVisible && topDistance < AwayFromTop {
        navShown := true;
      } else if navVisible && topDistance > AwayFromTop {
        navShown := false;
      }

      if !menuIconVisible && topDistance < NearTop {
        menuIconTabletShown := true;
        topIconTabletShown := false;
      } else if !menuIconVisible && topDistance > AwayFromTop {
        menuIconTabletShown := false;
        topIconTabletShown := true;
      }
    }
  }

  /**
   * The listener of the mobile footer menu `#footer-post`. It remembers the
   * offset of the previous scroll event in `lastScrollTop`, which starts
   * at 0.
   */
  class FooterScroll {
    var lastScrollTop: int
    /** Whether `#footer-post` is displayed. */
    var footerPostShown: bool
    /** Whether the sub-menus `#nav-footer`, `#toc-footer` and `#share-footer` are displayed. */
    var navFooterShown: bool
    var tocFooterShown: bool
    var shareFooterShown: bool
    /** Whether the "scroll to top" icon `#actions-footer > #top` is displayed. */
    var topShown: bool

    constructor (footerPostShown0: bool, navFooterShown0: bool, tocFooterShown0: bool,
                 shareFooterShown0: bool, topShown0: bool)
      ensures lastScrollTop == 0
      ensures footerPostShown == footerPostShown0 && topShown == topShown0
      ensures navFooterShown == navFooterShown0 && tocFooterShown == tocFooterShown0
      ensures shareFooterShown == shareFooterShown0
    {
      lastScrollTop := 0;
      footerPostShown := footerPostShown0;
      navFooterShown := navFooterShown0;
      tocFooterShown := tocFooterShown0;
      shareFooterShown := shareFooterShown0;
      topShown := topShown0;
    }

    /** No sub-menu of the footer menu is open. */
    predicate SubmenusClosed()
      reads this
    {
      !navFooterShown && !tocFooterShown && !shareFooterShown
    }

    /**
     * One scroll event at offset `topDistance`. The footer menu is hidden
     * exactly when the page moved down since the previous event and shown
     * otherwise, even when it did not move. Every sub-menu is closed. The
     * "scroll to top" icon is hidden near the top and shown far from it.
     */
    method OnScroll(topDistance: int)
      modifies this
      ensures footerPostShown <==> topDistance <= old(lastScrollTop)
      ensures lastScrollTop == topDistance
      ensures SubmenusClosed()
      ensures topShown == Band(old(topShown), topDistance, NearTop, AwayFromTop, false)
    {
      if topDistance > lastScrollTop {
        footerPostShown := false;
      } else {
        footerPostShown := true;
      }
      lastScrollTop := topDistance;

      navFooterShown := false;
      tocFooterShown := false;
      shareFooterShown := false;

      if topDistance < NearTop {
        topShown := false;
      } else if topDistance > AwayFromTop {
        topShown := true;
      }
    }
  }
}
