/**
 * The select hook: a click opens or closes a popover. Opening shows the
 * `.popover-content`, points the arrow icon up, creates a Popper and
 * registers a click-outside listener; closing undoes each of these.
 */
module SelectPopover {
  import opened Wrappers
  import opened JsString
  import opened Dom
  import ToggleContent

  const Hidden := "hidden"

  /** `/#.+$/` matches at `i`: a `#`, then one or more characters other than line terminators up to the end. */
  predicate FragmentAt(s: string, i: int) {
    0 <= i < |s| - 1 && s[i] == '#' && forall k :: i < k < |s| ==> !IsLineTerminator(s[k])
  }

  /** The leftmost match at or after `i`. */
  function FragmentFrom(s: string, i: nat): (r: Option<nat>)
    requires i <= |s|
    ensures r.Some? ==> i <= r.value && FragmentAt(s, r.value)
    ensures r.Some? ==> forall k :: i <= k < r.value ==> !FragmentAt(s, k)
    ensures r.None? ==> forall k :: i <= k < |s| ==> !FragmentAt(s, k)
    decreases |s| - i
  {
    if i == |s| then None
    else if FragmentAt(s, i) then Some(i)
    else FragmentFrom(s, i + 1)
  }

  /** `changeArrowTo`'s new `xlink:href`: `href.replace(/#.+$/, '#' + direction)`. */
  function ChangeArrow(href: string, direction: string): (r: string)
    ensures (forall k :: 0 <= k < |href| ==> !FragmentAt(href, k)) ==> r == href
    ensures (exists k :: 0 <= k < |href| && FragmentAt(href, k)) ==>
      var keep := |r| - |direction| - 1;
      0 <= keep < |href| && r[..keep] == href[..keep] && r[keep..] == "#" + direction &&
      FragmentAt(href, keep) && forall k :: 0 <= k < keep ==> !FragmentAt(href, k)
  {
    match FragmentFrom(href, 0)
    case None => href
    case Some(i) => href[..i] + "#" + direction
  }

  /** The sprite path in front of the fragment is kept. */
  lemma ChangeArrowExample()
    ensures ChangeArrow("/icons.svg#down", "up") == "/icons.svg#up"
  {
    var s := "/icons.svg#down";
    assert FragmentAt(s, 10);
    assert forall k :: 0 <= k < 10 ==> s[k] != '#';
    assert FragmentFrom(s, 0) == Some(10);
  }

  /**
   * A second change sees the fragment where the first one put it, so only
   * the last direction counts.
   */
  lemma ChangeArrowTwice(href: string, d1: string, d2: string)
    requires d1 != [] && forall k :: 0 <= k < |d1| ==> !IsLineTerminator(d1[k])
    ensures ChangeArrow(ChangeArrow(href, d1), d2) == ChangeArrow(href, d2)
  {
    var f := FragmentFrom(href, 0);
    if f.Some? {
      var i := f.value;
      var r := href[..i] + "#" + d1;
      assert r[..i] == href[..i];
      assert FragmentAt(r, i) by {
        assert r[i] == '#';
        assert forall k :: i < k < |r| ==> r[k] == d1[k - i - 1];
      }
      forall k | 0 <= k < i
        ensures !FragmentAt(r, k)
      {
        NoEarlierFragment(href, r, i, k);
      }
      FirstFragment(r, i);
      assert (href[..i] + "#" + d1)[..i] + "#" + d2 == href[..i] + "#" + d2;
    }
  }

  /** A position before the first match is still no match once the match's tail is replaced. */
  lemma NoEarlierFragment(href: string, r: string, i: nat, k: nat)
    requires FragmentAt(href, i) && k < i && !FragmentAt(href, k)
    requires i < |r| && r[..i] == href[..i] && r[i] == '#'
    ensures !FragmentAt(r, k)
  {
    assert r[k] == href[k];
    if href[k] == '#' {
      var m :| k < m < |href| && IsLineTerminator(href[m]);
      assert m < i;
      assert r[m] == href[m];
    }
  }

  /** The first position that matches is what the scan finds. */
  lemma {:induction false} FirstFragment(s: string, i: nat)
    requires FragmentAt(s, i) && forall k :: 0 <= k < i ==> !FragmentAt(s, k)
    ensures FragmentFrom(s, 0) == Some(i)
  {
    FirstFragmentFrom(s, i, 0);
  }

  lemma {:induction false} FirstFragmentFrom(s: string, i: nat, j: nat)
    requires j <= i && FragmentAt(s, i) && forall k :: j <= k < i ==> !FragmentAt(s, k)
    ensures FragmentFrom(s, j) == Some(i)
    decreases i - j
  {
    if j < i {
      FirstFragmentFrom(s, i, j + 1);
    }
  }

  /** The `popper` variable: never assigned yet, or holding a Popper that may have been destroyed. */
  datatype Popper = Unassigned | Created(destroyed: bool)

  /** One mounted hook. */
  class Select {
    const elId: string
    var content: set<string>
    var arrowHref: string
    var popper: Popper
    var listening: bool

    predicate IsClosed()
      reads this
    {
      Hidden in content
    }

    /** While the listener is registered the content is shown and its Popper is alive. */
    predicate Inv()
      reads this
    {
      listening ==> !IsClosed() && popper == Created(false)
    }

    constructor (elId: string, content: set<string>, arrowHref: string)
      ensures Inv()
      ensures this.elId == elId && this.content == content && this.arrowHref == arrowHref
      ensures popper == Unassigned && !listening
    {
      this.elId := elId;
      this.content := content;
      this.arrowHref := arrowHref;
      popper := Unassigned;
      listening := false;
    }

    /**
     * `close`: `popper.destroy()` throws while `popper` is unassigned,
     * before anything else happens; otherwise the popper is destroyed,
     * the content hidden, the arrow pointed down and the listener removed.
     */
    method Close() returns (ok: bool)
      modifies this
      ensures ok == (old(popper) != Unassigned)
      ensures !ok ==> (content == old(content) && arrowHref == old(arrowHref) &&
                       popper == old(popper) && listening == old(listening))
      ensures ok ==> (popper == Created(true) && content == old(content) + {Hidden} &&
                      arrowHref == ChangeArrow(old(arrowHref), "down") && !listening)
    {
      if popper == Unassigned {
        return false;
      }
      popper := Created(true);
      content := content + {Hidden};
      arrowHref := ChangeArrow(arrowHref, "down");
      listening := false;
      return true;
    }

    /** `open`: show the content, point the arrow up, create a Popper, register the listener. */
    method Open()
      modifies this
      ensures Inv()
      ensures content == old(content) - {Hidden} && arrowHref == ChangeArrow(old(arrowHref), "up")
      ensures popper == Created(false) && listening
    {
      content := content - {Hidden};
      arrowHref := ChangeArrow(arrowHref, "up");
      popper := Created(false);
      listening := true;
    }

    /** A click on the element: open when the content is hidden, otherwise close. */
    method Click() returns (ok: bool)
      requires Inv()
      modifies this
      ensures Inv()
      ensures old(IsClosed()) ==> (ok && listening && content == old(content) - {Hidden} &&
                                   arrowHref == ChangeArrow(old(arrowHref), "up") && popper == Created(false))
      ensures !old(IsClosed()) ==> ok == (old(popper) != Unassigned)
      ensures !old(IsClosed()) && ok ==> (!listening && content == old(content) + {Hidden} &&
                                          arrowHref == ChangeArrow(old(arrowHref), "down") && popper == Created(true))
      ensures !ok ==> (content == old(content) && arrowHref == old(arrowHref) &&
                       popper == old(popper) && listening == old(listening))
    {
      if IsClosed() {
        Open();
        ok := true;
      } else {
        ok := Close();
      }
    }

    /** A page click reaches `clickOutside` only while it is registered; outside the element it closes. */
    method BodyClick(doc: Document, target: nat)
      requires doc.Valid() && IsElem(doc.tree, target)
      requires Inv()
      modifies this
      ensures Inv()
      ensures old(listening) && ToggleContent.IsOutside(doc.tree, doc.classes, target, elId) ==>
        !listening && popper == Created(true) && content == old(content) + {Hidden} &&
        arrowHref == ChangeArrow(old(arrowHref), "down")
      ensures !(old(listening) && ToggleContent.IsOutside(doc.tree, doc.classes, target, elId)) ==>
        content == old(content) && arrowHref == old(arrowHref) &&
        listening == old(listening) && popper == old(popper)
    {
      if listening && ToggleContent.IsOutside(doc.tree, doc.classes, target, elId) {
        var ok := Close();
      }
    }

    /** `destroyed`: the listener is removed; the Popper is left as it is. */
    method Destroyed()
      requires Inv()
      modifies this`listening
      ensures Inv() && !listening
    {
      listening := false;
    }

    /** `updated`, after a patch has left the content with `patched` classes. */
    method Updated(patched: set<string>)
      requires Inv()
      modifies this`content, this`listening
      ensures Inv()
      ensures content == patched
      ensures listening == (old(listening) && Hidden !in patched)
    {
      content := patched;
      if IsClosed() {
        listening := false;
      }
    }
  }

  /** On a freshly mounted popover whose content starts shown, the first click throws. */
  method FirstClickOnShownContent(elId: string, content: set<string>, arrowHref: string) returns (ok: bool)
    requires Hidden !in content
    ensures !ok
  {
    var s := new Select(elId, content, arrowHref);
    ok := s.Click();
  }
}
