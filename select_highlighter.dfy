/**
 * The select-highlighter hook: a click hides every `target-class` element
 * inside the element's closest `parent-class` ancestor, then shows the
 * clicked element's own first `target-class` descendant.
 */
module SelectHighlighter {
  import opened Wrappers
  import opened Dom

  const Hidden := "hidden"

  /** How a click ends: thrown at `closest(...)` being `null`, thrown at the final `querySelector` being `null`, or done. */
  datatype Outcome = NoParent | NoTarget | Shown(selected: nat)

  /**
   * `hidden` added to each element of `elements`: a listed element has
   * `hidden` and keeps its other classes; every other element is unchanged.
   */
  function HideAll(classes: seq<set<string>>, elements: seq<nat>): (r: seq<set<string>>)
    ensures |r| == |classes|
    ensures forall e :: 0 <= e < |r| && e in elements ==> Hidden in r[e] && r[e] - {Hidden} == classes[e] - {Hidden}
    ensures forall e :: 0 <= e < |r| && e !in elements ==> r[e] == classes[e]
  {
    seq(|classes|, e requires 0 <= e < |classes| => if e in elements then classes[e] + {Hidden} else classes[e])
  }

  /** The targets of the group: the `targetClass` elements inside the closest `parentClass` ancestor. */
  function Group(t: Tree, classes: seq<set<string>>, el: nat, parentClass: string, targetClass: string): (r: Option<seq<nat>>)
    requires WellFormed(t) && Fits(t, classes) && IsElem(t, el)
    ensures r.None? <==> Closest(t, classes, el, ClassSel(parentClass)).None?
  {
    match Closest(t, classes, el, ClassSel(parentClass))
    case None => None
    case Some(p) => Some(QueryAll(t, classes, Some(p), ClassSel(targetClass)))
  }

  /** The classes after a click, and how it ended. */
  function Highlight(t: Tree, classes: seq<set<string>>, el: nat, parentClass: string, targetClass: string): (r: (Outcome, seq<set<string>>))
    requires WellFormed(t) && Fits(t, classes) && IsElem(t, el)
    ensures Fits(t, r.1)
  {
    match Group(t, classes, el, parentClass, targetClass)
    case None => (NoParent, classes)
    case Some(group) =>
      var hidden := HideAll(classes, group);
      match Query(t, hidden, Some(el), ClassSel(targetClass))
      case None => (NoTarget, hidden)
      case Some(s) => (Shown(s), hidden[s := hidden[s] - {Hidden}])
  }

  /**
   * After a click that does not throw, the shown element is in the group
   * and is its only target without `hidden`; elements outside the group
   * other than the shown one keep their classes.
   */
  lemma OnlySelectedVisible(t: Tree, classes: seq<set<string>>, el: nat, parentClass: string, targetClass: string)
    requires WellFormed(t) && Fits(t, classes) && IsElem(t, el)
    requires Highlight(t, classes, el, parentClass, targetClass).0.Shown?
    ensures var (outcome, after) := Highlight(t, classes, el, parentClass, targetClass);
      var group := Group(t, classes, el, parentClass, targetClass).value;
      var s := outcome.selected;
      s in group && Hidden !in after[s] &&
      (forall e :: e in group && e != s ==> Hidden in after[e]) &&
      (forall e :: 0 <= e < |classes| && e !in group ==> after[e] == classes[e])
  {
    var p := Closest(t, classes, el, ClassSel(parentClass)).value;
    var group := QueryAll(t, classes, Some(p), ClassSel(targetClass));
    var hidden := HideAll(classes, group);
    var s := Query(t, hidden, Some(el), ClassSel(targetClass)).value;
    assert s in QueryAll(t, hidden, Some(el), ClassSel(targetClass));
    AncestorTransitive(t, p, el, s);
    AncestorPrecedes(t, p, el);
    AncestorPrecedes(t, el, s);
    assert targetClass in hidden[s];
    assert s in group by {
      if targetClass != Hidden || s !in group {
        assert targetClass in classes[s];
      }
    }
  }

  /** The click handler, proved against `Highlight`. */
  method Click(doc: Document, el: nat, parentClass: string, targetClass: string) returns (outcome: Outcome)
    requires doc.Valid() && IsElem(doc.tree, el)
    modifies doc`classes
    ensures doc.Valid()
    ensures (outcome, doc.classes) == Highlight(doc.tree, old(doc.classes), el, parentClass, targetClass)
  {
    var parent := Closest(doc.tree, doc.classes, el, ClassSel(parentClass));
    if parent.None? {
      return NoParent;
    }
    var elements := QueryAll(doc.tree, doc.classes, Some(parent.value), ClassSel(targetClass));
    for i := 0 to |elements|
      invariant doc.Valid()
      invariant doc.classes == HideAll(old(doc.classes), elements[..i])
    {
      var e := elements[i];
      assert IsElem(doc.tree, e) by {
        assert e in elements;
      }
      doc.classes := doc.classes[e := doc.classes[e] + {Hidden}];
      assert elements[..i + 1] == elements[..i] + [e];
    }
    assert elements[..|elements|] == elements;
    var selector := Query(doc.tree, doc.classes, Some(el), ClassSel(targetClass));
    if selector.None? {
      return NoTarget;
    }
    var s := selector.value;
    assert s in QueryAll(doc.tree, doc.classes, Some(el), ClassSel(targetClass));
    doc.classes := doc.classes[s := doc.classes[s] - {Hidden}];
    return Shown(s);
  }
}
