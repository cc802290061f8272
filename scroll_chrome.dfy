/** The scroll listeners (script.js:21-39, 288-299, 331-356): the back-to-top
    button, the navbar shadow, and the active navigation link, which marks
    the link of the last section the page has scrolled to. Offsets are
    whole pixels. */
module ScrollChrome {
  import opened Wrappers

  /** A `<section>`: its `id` attribute (`None` when absent, which
      `getAttribute` reports as `null`) and its `offsetTop`. */
  datatype Section = Section(id: Option<string>, top: int)

  /** The page has scrolled to within 200 px above the section. */
  predicate Reached(s: Section, scrollY: int)
  {
    scrollY >= s.top - 200
  }

  /** The id the handler settles on: that of the last reached section in
      document order, or `''` when none is reached. */
  function ActiveSectionId(sections: seq<Section>, scrollY: int): Option<string>
  {
    if |sections| == 0 then Some("")
    else if Reached(sections[|sections| - 1], scrollY) then sections[|sections| - 1].id
    else ActiveSectionId(sections[..|sections| - 1], scrollY)
  }

  /** With no section reached, `ActiveSectionId` is `''`. */
  lemma {:induction false} NoSectionReached(sections: seq<Section>, scrollY: int)
    requires forall i :: 0 <= i < |sections| ==> !Reached(sections[i], scrollY)
    ensures ActiveSectionId(sections, scrollY) == Some("")
  {
    if |sections| > 0 {
      var init := sections[..|sections| - 1];
      assert forall i :: 0 <= i < |init| ==> init[i] == sections[i];
      NoSectionReached(init, scrollY);
    }
  }

  /** When section `i` is reached and no later one is, `ActiveSectionId` is
      section `i`'s id: the last reached section wins. */
  lemma {:induction false} LastReachedSectionWins(sections: seq<Section>, scrollY: int, i: nat)
    requires i < |sections| && Reached(sections[i], scrollY)
    requires forall j :: i < j < |sections| ==> !Reached(sections[j], scrollY)
    ensures ActiveSectionId(sections, scrollY) == sections[i].id
  {
    var n := |sections| - 1;
    if i < n {
      var init := sections[..n];
      assert forall j :: 0 <= j < n ==> init[j] == sections[j];
      LastReachedSectionWins(init, scrollY, i);
    }
  }

  /** The loop of the active-link handler: `current` starts as `''` and each
      reached section, in document order, overwrites it. */
  method CurrentSection(sections: seq<Section>, scrollY: int) returns (current: Option<string>)
    ensures current == ActiveSectionId(sections, scrollY)
  {
    current := Some("");
    var i := 0;
    while i < |sections|
      invariant 0 <= i <= |sections|
      invariant current == ActiveSectionId(sections[..i], scrollY)
    {
      if scrollY >= sections[i].top - 200 {
        current := sections[i].id;
      }
      assert sections[..i + 1][..i] == sections[..i];
      i := i + 1;
    }
    assert sections[..i] == sections;
  }

  /** `href.slice(1)`: the link target without its leading `#`. */
  function LinkTarget(href: string): (r: string)
    ensures |href| > 0 ==> [href[0]] + r == href
    ensures |href| == 0 ==> r == ""
  {
    if |href| == 0 then "" else href[1..]
  }

  /** The link is marked active for `current`. A section without an id
      (`null`) matches no link. */
  predicate LinkActive(href: string, current: Option<string>)
  {
    current == Some(LinkTarget(href))
  }

  class ScrollSpy {
    /** Each `.nav-link`'s `href`. */
    const hrefs: seq<string>
    /** Link `k` carries `active` and `aria-current="page"`. */
    const linkActive: array<bool>
    /** `#backToTop` carries the `show` class. */
    var backToTopShown: bool
    /** The navbar has the raised shadow. */
    var navbarRaised: bool

    ghost predicate Valid()
      reads this
    {
      linkActive.Length == |hrefs|
    }

    constructor (hrefs: seq<string>)
      ensures Valid() && this.hrefs == hrefs && fresh(linkActive)
      ensures !backToTopShown && !navbarRaised
      ensures forall k :: 0 <= k < linkActive.Length ==> !linkActive[k]
    {
      this.hrefs := hrefs;
      linkActive := new bool[|hrefs|](_ => false);
      backToTopShown, navbarRaised := false, false;
    }

    /** One `scroll` event, running the three listeners in the order they
        were added: back-to-top past 300 px, shadow past 50 px, then the
        active link. Every link is cleared and the ones whose target is the
        current section marked again. */
    method OnScroll(sections: seq<Section>, scrollY: int)
      requires Valid()
      modifies this, linkActive
      ensures Valid()
      ensures backToTopShown == (scrollY > 300)
      ensures navbarRaised == (scrollY > 50)
      ensures forall k :: 0 <= k < linkActive.Length ==>
        linkActive[k] == LinkActive(hrefs[k], ActiveSectionId(sections, scrollY))
    {
      backToTopShown := scrollY > 300;
      navbarRaised := scrollY > 50;
      var current := CurrentSection(sections, scrollY);
      var k := 0;
      while k < linkActive.Length
        modifies linkActive
        invariant 0 <= k <= linkActive.Length
        invariant forall j :: 0 <= j < k ==> linkActive[j] == LinkActive(hrefs[j], current)
      {
        linkActive[k] := false;
        if current == Some(LinkTarget(hrefs[k])) {
          linkActive[k] := true;
        }
        k := k + 1;
      }
    }
  }

  /** Two sections at 0 and 1000 px: at the top the first one is current;
      at 800 px, 200 px above the second, the second takes over; a link
      `#home` follows the first and `#about` the second. */
  lemma ActiveSectionExample()
    ensures ActiveSectionId([Section(Some("home"), 0), Section(Some("about"), 1000)], 0) == Some("home")
    ensures ActiveSectionId([Section(Some("home"), 0), Section(Some("about"), 1000)], 800) == Some("about")
    ensures LinkActive("#about", Some("about")) && !LinkActive("#home", Some("about"))
    ensures ActiveSectionId([Section(Some("home"), 300)], 0) == Some("")
  {
    var s := [Section(Some("home"), 0), Section(Some("about"), 1000)];
    assert s[..1] == [Section(Some("home"), 0)];
    assert [Section(Some("home"), 0)][..0] == [];
  }
}
