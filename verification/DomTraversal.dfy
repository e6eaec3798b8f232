/**
 The order in which marking visits a page (`utils/javascript/frame_mark_elements.js`):
 the elements of the document in document order, with the content of a shadow root spliced
 in right after its host.
 */
module DomTraversal {
  import opened Options

  /** What marking asks of an element besides its attributes: `clickable` covers a click
      handler or a pointer cursor, `button` the selector of the recorded buttons, `hasRole`
      a non-empty role. */
  datatype Look = Look(tag: string, visible: bool, clickable: bool, area: real, button: bool, hasRole: bool)

  /** An element with its `parentElement`, its children and the roots of its shadow tree, if
      it has an open one. */
  datatype Element = Element(id: nat, parent: Option<nat>, look: Look, children: seq<Element>, shadow: seq<Element>)

  /** `querySelectorAll("*")` on a document or a shadow root: document order, without the
      content of further shadow roots. */
  function LightOrder(es: seq<Element>): seq<Element> {
    if es == [] then [] else [es[0]] + (LightOrder(es[0].children) + LightOrder(es[1..]))
  }

  /** Each element is followed by its shadow tree and then by its children. */
  function FullOrder(es: seq<Element>): seq<Element> {
    if es == [] then []
    else [es[0]] + (FullOrder(es[0].shadow) + (FullOrder(es[0].children) + FullOrder(es[1..])))
  }

  /** A list into which the shadow content is still to be spliced. */
  function Spliced(es: seq<Element>): seq<Element> {
    if es == [] then [] else [es[0]] + (FullOrder(es[0].shadow) + Spliced(es[1..]))
  }

  lemma Regroup(a: seq<Element>, b: seq<Element>, c: seq<Element>, d: seq<Element>)
    ensures a + (b + (c + d)) == (a + (b + c)) + d
  {
  }

  lemma SplicedCons(e: Element, rest: seq<Element>)
    ensures Spliced([e] + rest) == [e] + (FullOrder(e.shadow) + Spliced(rest))
  {
    assert ([e] + rest)[1..] == rest;
  }

  lemma SplicedNone()
    ensures Spliced([]) == []
  {
  }

  lemma {:induction false} SplicedAppend(a: seq<Element>, b: seq<Element>)
    ensures Spliced(a + b) == Spliced(a) + Spliced(b)
  {
    hide *;
    if a == [] {
      SplicedNone();
      assert a + b == b && Spliced(a) + Spliced(b) == Spliced(b);
    } else {
      var e, rest := a[0], a[1..];
      SplicedAppend(rest, b);
      assert [e] + rest == a && [e] + (rest + b) == a + b;
      SplicedCons(e, rest);
      SplicedCons(e, rest + b);
      Regroup([e], FullOrder(e.shadow), Spliced(rest), Spliced(b));
    }
  }

  /** Splicing the light order gives the full order. */
  lemma {:induction false} SplicedIsFull(es: seq<Element>)
    ensures Spliced(LightOrder(es)) == FullOrder(es)
  {
    if es != [] {
      var e := es[0];
      SplicedIsFull(e.children);
      SplicedIsFull(es[1..]);
      SplicedAppend(LightOrder(e.children), LightOrder(es[1..]));
      SplicedCons(e, LightOrder(e.children) + LightOrder(es[1..]));
      hide Spliced;
    }
  }

  /** The loop that splices shadow content into the list while walking over it. */
  method CollectElements(document: seq<Element>) returns (elements: seq<Element>)
    ensures elements == FullOrder(document)
  {
    elements := LightOrder(document);
    SplicedIsFull(document);
    var i := 0;
    assert elements[..0] == [] && elements[0..] == elements;
    while i < |elements|
      invariant i <= |elements|
      invariant elements[..i] + Spliced(elements[i..]) == FullOrder(document)
      decreases |Spliced(elements[i..])|
    {
      var e := elements[i];
      SpliceStep(elements, i);
      if e.shadow != [] {
        elements := elements[..i + 1] + LightOrder(e.shadow) + elements[i + 1..];
      }
      i := i + 1;
    }
    assert elements[i..] == [] && elements[..i] == elements;
  }

  lemma SpliceStep(elements: seq<Element>, i: nat)
    requires i < |elements|
    ensures var inner := elements[i].shadow;
            var grown := elements[..i + 1] + LightOrder(inner) + elements[i + 1..];
            && elements[..i] + Spliced(elements[i..]) == grown[..i + 1] + Spliced(grown[i + 1..])
            && |Spliced(grown[i + 1..])| < |Spliced(elements[i..])|
            && (inner == [] ==> grown == elements)
  {
    hide *;
    var e, rest := elements[i], elements[i + 1..];
    SplicedCons(e, rest);
    SplicedIsFull(e.shadow);
    SplicedAppend(LightOrder(e.shadow), rest);
    LightOfNone();
    GrownAt(elements, i, LightOrder(e.shadow));
    SpliceMoves(elements[..i], e, FullOrder(e.shadow) + Spliced(rest));
  }

  lemma LightOfNone()
    ensures LightOrder([]) == []
  {
  }

  lemma GrownAt(elements: seq<Element>, i: nat, inner: seq<Element>)
    requires i < |elements|
    ensures elements[i..] == [elements[i]] + elements[i + 1..]
    ensures var grown := elements[..i + 1] + inner + elements[i + 1..];
            && grown[..i + 1] == elements[..i] + [elements[i]] && grown[i + 1..] == inner + elements[i + 1..]
            && (inner == [] ==> grown == elements)
  {
  }

  lemma SpliceMoves(before: seq<Element>, e: Element, tail: seq<Element>)
    ensures before + ([e] + tail) == (before + [e]) + tail && |tail| < |[e] + tail|
  {
  }

  // ---------------------------------------------------------------------------------
  // Parents come first
  // ---------------------------------------------------------------------------------

  /** The parent links agree with the tree: the roots have parent `above`, and the roots of a
      shadow tree have none. */
  predicate Linked(es: seq<Element>, above: Option<nat>) {
    es == []
    || (es[0].parent == above && Linked(es[0].shadow, None) && Linked(es[0].children, Some(es[0].id)) &&
        Linked(es[1..], above))
  }

  /** Every parent is above, or earlier in the list. */
  predicate ParentsFirst(list: seq<Element>, above: Option<nat>) {
    forall i :: 0 <= i < |list| && list[i].parent.Some? && list[i].parent != above ==>
      exists j :: 0 <= j < i && list[j].id == list[i].parent.value
  }

  lemma ParentsFirstAppend(a: seq<Element>, b: seq<Element>, above: Option<nat>)
    requires ParentsFirst(a, above) && ParentsFirst(b, above)
    ensures ParentsFirst(a + b, above)
  {
    var both := a + b;
    forall i | 0 <= i < |both| && both[i].parent.Some? && both[i].parent != above
      ensures exists j :: 0 <= j < i && both[j].id == both[i].parent.value
    {
      if i < |a| {
        var j :| 0 <= j < i && a[j].id == a[i].parent.value;
        assert both[j] == a[j];
      } else {
        assert both[i] == b[i - |a|];
        var j :| 0 <= j < i - |a| && b[j].id == b[i - |a|].parent.value;
        assert both[|a| + j] == b[j];
      }
    }
  }

  lemma ParentsFirstRelax(list: seq<Element>, above: Option<nat>)
    requires ParentsFirst(list, None)
    ensures ParentsFirst(list, above)
  {
  }

  /** A list below `e`, with `e` put first. */
  lemma ParentsFirstBelow(e: Element, list: seq<Element>, above: Option<nat>)
    requires e.parent == above && ParentsFirst(list, Some(e.id))
    ensures ParentsFirst([e] + list, above)
  {
    var both := [e] + list;
    forall i | 0 <= i < |both| && both[i].parent.Some? && both[i].parent != above
      ensures exists j :: 0 <= j < i && both[j].id == both[i].parent.value
    {
      assert both[i] == list[i - 1] && both[0] == e;
      if both[i].parent.value != e.id {
        var j :| 0 <= j < i - 1 && list[j].id == list[i - 1].parent.value;
        assert both[j + 1] == list[j];
      }
    }
  }

  /** In the visiting order every element comes after its parent. */
  lemma {:induction false} FullOrderParentsFirst(es: seq<Element>, above: Option<nat>)
    requires Linked(es, above)
    ensures ParentsFirst(FullOrder(es), above)
  {
    if es != [] {
      var e := es[0];
      FullOrderParentsFirst(e.shadow, None);
      FullOrderParentsFirst(e.children, Some(e.id));
      FullOrderParentsFirst(es[1..], above);
      Regroup([e], FullOrder(e.shadow), FullOrder(e.children), FullOrder(es[1..]));
      hide *;
      ParentsFirstRelax(FullOrder(e.shadow), Some(e.id));
      ParentsFirstAppend(FullOrder(e.shadow), FullOrder(e.children), Some(e.id));
      ParentsFirstBelow(e, FullOrder(e.shadow) + FullOrder(e.children), above);
      ParentsFirstAppend([e] + (FullOrder(e.shadow) + FullOrder(e.children)), FullOrder(es[1..]), above);
    }
  }
}
