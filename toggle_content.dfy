/**
 * The toggle-content hook: a click on the element shows or hides its
 * `.toggle-content` child; while the content is shown a click-outside
 * listener on `body` hides it again.
 */
module ToggleContent {
  import opened Wrappers
  import opened Dom

  const Hidden := "hidden"

  /** `e.target.closest('#' + el.id) === null`. */
  predicate IsOutside(t: Tree, classes: seq<set<string>>, target: nat, elId: string)
    requires WellFormed(t) && Fits(t, classes) && IsElem(t, target)
  {
    Closest(t, classes, target, IdSel(elId)).None?
  }

  /** A target inside the element (its own id is on the target or an ancestor) is not outside. */
  lemma InsideIsNotOutside(t: Tree, classes: seq<set<string>>, target: nat, a: nat, elId: string)
    requires WellFormed(t) && Fits(t, classes) && IsElem(t, target) && IsElem(t, a)
    requires InclusiveAncestor(t, a, target) && t.id[a] == elId
    ensures !IsOutside(t, classes, target, elId)
  {
  }

  /** One mounted hook: the content's classes and whether `clickOutside` is registered on `body`. */
  class Toggle {
    const elId: string
    var content: set<string>
    var listening: bool

    /** `isClosed`. */
    predicate IsClosed()
      reads this
    {
      Hidden in content
    }

    /** The listener is registered only while the content is shown. */
    predicate Inv()
      reads this
    {
      listening ==> !IsClosed()
    }

    constructor (elId: string, content: set<string>)
      ensures Inv()
      ensures this.elId == elId && this.content == content && !listening
    {
      this.elId := elId;
      this.content := content;
      listening := false;
    }

    /** `close`: hide the content and remove the listener. */
    method Close()
      modifies this
      ensures Inv()
      ensures content == old(content) + {Hidden} && !listening
    {
      content := content + {Hidden};
      listening := false;
    }

    /** `open`: show the content and register the listener. */
    method Open()
      modifies this
      ensures Inv()
      ensures content == old(content) - {Hidden} && listening
    {
      content := content - {Hidden};
      listening := true;
    }

    /** A click on the element: open when closed, otherwise close. */
    method Click()
      modifies this
      ensures Inv()
      ensures old(IsClosed()) ==> content == old(content) - {Hidden} && listening
      ensures !old(IsClosed()) ==> content == old(content) + {Hidden} && !listening
    {
      if IsClosed() {
        Open();
      } else {
        Close();
      }
    }

    /** A click anywhere in the page reaches `clickOutside` only while it is registered. */
    method BodyClick(doc: Document, target: nat)
      requires doc.Valid() && IsElem(doc.tree, target)
      requires Inv()
      modifies this
      ensures Inv()
      ensures old(listening) && IsOutside(doc.tree, doc.classes, target, elId) ==>
        content == old(content) + {Hidden} && !listening
      ensures !(old(listening) && IsOutside(doc.tree, doc.classes, target, elId)) ==>
        content == old(content) && listening == old(listening)
    {
      if listening && IsOutside(doc.tree, doc.classes, target, elId) {
        Close();
      }
    }

    /** `destroyed`: the listener is always removed. */
    method Destroyed()
      requires Inv()
      modifies this
      ensures Inv()
      ensures content == old(content) && !listening
    {
      listening := false;
    }

    /**
     * `updated`, after a patch has left the content with `patched`
     * classes: a closed content loses its listener, which restores the
     * invariant however the patch went.
     */
    method Updated(patched: set<string>)
      modifies this
      ensures Inv()
      ensures content == patched
      ensures listening == (old(listening) && Hidden !in patched)
    {
      content := patched;
      if IsClosed() {
        listening := false;
      }
    }
  }
}
