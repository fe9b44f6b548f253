/**
 * The toggle-siblings hook: a click flips `hidden` on every element with
 * the `target-class` class inside the first element of the document with
 * the `parent-class` class.
 */
module ToggleSiblings {
  import opened Wrappers
  import opened Dom

  const Hidden := "hidden"

  /** `getElements`: `null.querySelectorAll` throws when no element has the parent class. */
  function Targets(t: Tree, classes: seq<set<string>>, parentClass: string, targetClass: string): (r: Option<seq<nat>>)
    requires WellFormed(t) && Fits(t, classes)
    ensures r.None? <==> Query(t, classes, None, ClassSel(parentClass)).None?
    ensures r.Some? ==> forall k :: 0 <= k < |r.value| ==> IsElem(t, r.value[k]) && targetClass in classes[r.value[k]]
    ensures r.Some? ==> forall j, k :: 0 <= j < k < |r.value| ==> r.value[j] < r.value[k]
  {
    match Query(t, classes, None, ClassSel(parentClass))
    case None => None
    case Some(p) =>
      var all := QueryAll(t, classes, Some(p), ClassSel(targetClass));
      assert forall k :: 0 <= k < |all| ==> all[k] in all;
      Some(all)
  }

  /**
   * Element-wise flip of `hidden` on `elements`: a listed element has
   * `hidden` exactly when it did not, and keeps its other classes; every
   * other element is unchanged.
   */
  function FlipAll(classes: seq<set<string>>, elements: seq<nat>): (r: seq<set<string>>)
    ensures |r| == |classes|
    ensures forall e :: 0 <= e < |r| && e in elements ==>
      (Hidden in r[e] <==> Hidden !in classes[e]) && r[e] - {Hidden} == classes[e] - {Hidden}
    ensures forall e :: 0 <= e < |r| && e !in elements ==> r[e] == classes[e]
  {
    seq(|classes|, e requires 0 <= e < |classes| => if e in elements then Flip(classes[e], Hidden) else classes[e])
  }

  /** Flipping the same elements twice restores every class list. */
  lemma FlipTwice(classes: seq<set<string>>, elements: seq<nat>)
    ensures FlipAll(FlipAll(classes, elements), elements) == classes
  {
    var r := FlipAll(FlipAll(classes, elements), elements);
    forall e | 0 <= e < |classes|
      ensures r[e] == classes[e]
    {
      if e in elements {
        var once := Flip(classes[e], Hidden);
        assert r[e] == Flip(once, Hidden);
      }
    }
  }

  /** A flip changes only `hidden`, so the same elements match classes other than `hidden` afterwards. */
  lemma TargetsUnchangedByFlip(t: Tree, classes: seq<set<string>>, elements: seq<nat>, parentClass: string, targetClass: string)
    requires WellFormed(t) && Fits(t, classes)
    requires parentClass != Hidden && targetClass != Hidden
    ensures Targets(t, FlipAll(classes, elements), parentClass, targetClass) == Targets(t, classes, parentClass, targetClass)
  {
    var flipped := FlipAll(classes, elements);
    QueryAllAgree(t, classes, flipped, None, ClassSel(parentClass));
    forall p: nat {
      QueryAllAgree(t, classes, flipped, Some(p), ClassSel(targetClass));
    }
  }

  /**
   * Two clicks leave every class as it was, unless one of the two class
   * names is `hidden` itself (then the second click finds other elements).
   */
  lemma TwoClicksRestore(t: Tree, classes: seq<set<string>>, parentClass: string, targetClass: string)
    requires WellFormed(t) && Fits(t, classes)
    requires parentClass != Hidden && targetClass != Hidden
    requires Targets(t, classes, parentClass, targetClass).Some?
    ensures var once := FlipAll(classes, Targets(t, classes, parentClass, targetClass).value);
      Targets(t, once, parentClass, targetClass) == Targets(t, classes, parentClass, targetClass) &&
      FlipAll(once, Targets(t, once, parentClass, targetClass).value) == classes
  {
    var m := Targets(t, classes, parentClass, targetClass).value;
    TargetsUnchangedByFlip(t, classes, m, parentClass, targetClass);
    FlipTwice(classes, m);
  }

  /**
   * The click handler. `ok` is false when the handler throws, in which case
   * nothing has changed.
   */
  method Click(doc: Document, parentClass: string, targetClass: string) returns (ok: bool)
    requires doc.Valid()
    modifies doc`classes
    ensures doc.Valid()
    ensures var targets := Targets(doc.tree, old(doc.classes), parentClass, targetClass);
      ok == targets.Some? &&
      doc.classes == if ok then FlipAll(old(doc.classes), targets.value) else old(doc.classes)
  {
    var targets := Targets(doc.tree, doc.classes, parentClass, targetClass);
    if targets.None? {
      return false;
    }
    FlipEach(doc, targets.value);
    return true;
  }

  /** The `forEach` of the handler: `classList.toggle('hidden')` on each element in turn. */
  method FlipEach(doc: Document, elements: seq<nat>)
    requires doc.Valid()
    requires forall k :: 0 <= k < |elements| ==> IsElem(doc.tree, elements[k])
    requires forall j, k :: 0 <= j < k < |elements| ==> elements[j] < elements[k]
    modifies doc`classes
    ensures doc.Valid()
    ensures doc.classes == FlipAll(old(doc.classes), elements)
  {
    for i := 0 to |elements|
      invariant doc.Valid()
      invariant doc.classes == FlipAll(old(doc.classes), elements[..i])
    {
      var e := elements[i];
      assert e !in elements[..i];
      assert elements[..i + 1] == elements[..i] + [e];
      FlipStep(old(doc.classes), elements[..i], e);
      doc.classes := doc.classes[e := Flip(doc.classes[e], Hidden)];
    }
    assert elements[..|elements|] == elements;
  }

  /** Flipping one more element, not flipped yet, extends the flipped list. */
  lemma FlipStep(classes: seq<set<string>>, elements: seq<nat>, e: nat)
    requires e < |classes| && e !in elements
    ensures FlipAll(classes, elements)[e := Flip(FlipAll(classes, elements)[e], Hidden)] == FlipAll(classes, elements + [e])
  {
    var a := FlipAll(classes, elements)[e := Flip(FlipAll(classes, elements)[e], Hidden)];
    var b := FlipAll(classes, elements + [e]);
    forall k | 0 <= k < |classes|
      ensures a[k] == b[k]
    {
      assert k in elements + [e] <==> k in elements || k == e;
    }
  }
}
