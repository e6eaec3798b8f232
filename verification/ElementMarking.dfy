/**
 Set-of-marks injection (`utils/javascript/frame_mark_elements.js`): one pass over the
 collected elements that gives each visible one an identifier and marks the interactive
 ones, unmarking their ancestors.  Elements are named by their place in the visiting order.
 */
module ElementMarking {
  import opened Options
  import opened PyText
  import opened DomTraversal

  predicate IsHtmlTag(tag: string) {
    tag in {
      "a", "abbr", "acronym", "address", "applet", "area", "article", "aside", "audio",
      "b", "base", "basefont", "bdi", "bdo", "big", "blockquote", "body", "br", "button",
      "canvas", "caption", "center", "cite", "code", "col", "colgroup", "data", "datalist",
      "dd", "del", "details", "dfn", "dialog", "dir", "div", "dl", "dt", "em", "embed",
      "fieldset", "figcaption", "figure", "font", "footer", "form", "frame", "frameset",
      "h1", "h2", "h3", "h4", "h5", "h6", "head", "header", "hgroup", "hr", "html", "i",
      "iframe", "img", "input", "ins", "kbd", "label", "legend", "li", "link", "main",
      "map", "mark", "menu", "meta", "meter", "nav", "noframes", "noscript", "object",
      "ol", "optgroup", "option", "output", "p", "param", "picture", "pre", "progress",
      "q", "rp", "rt", "ruby", "s", "samp", "script", "search", "section", "select",
      "small", "source", "span", "strike", "strong", "style", "sub", "summary", "sup",
      "svg", "table", "tbody", "td", "template", "textarea", "tfoot", "th", "thead",
      "time", "title", "tr", "track", "tt", "u", "ul", "var", "video", "wbr"
    }
  }

  predicate IsMarkTag(tag: string) {
    tag in {
      "input", "textarea", "select", "button", "a", "iframe", "video", "li", "td", "option"
    }
  }

  const MIN_AREA := 20.0

  datatype Page = Page(elements: seq<Element>, standardHtml: bool)

  // ---------------------------------------------------------------------------------
  // Parents
  // ---------------------------------------------------------------------------------

  function IndexOf(es: seq<Element>, id: nat): (r: Option<nat>)
    ensures r.Some? ==> r.value < |es| && es[r.value].id == id
    ensures r.None? ==> forall j :: 0 <= j < |es| ==> es[j].id != id
  {
    if es == [] then None
    else if es[|es| - 1].id == id then Some(|es| - 1)
    else IndexOf(es[..|es| - 1], id)
  }

  /** The parent element, which is visited earlier. */
  function Parent(page: Page, k: nat): (r: Option<nat>)
    requires k < |page.elements|
    ensures r.Some? ==> r.value < k
  {
    if page.elements[k].parent.None? then None else IndexOf(page.elements[..k], page.elements[k].parent.value)
  }

  predicate IsAncestor(page: Page, a: nat, k: nat): (r: bool)
    requires k < |page.elements|
    ensures r ==> a < k
    decreases k
  {
    var p := Parent(page, k);
    p.Some? && (a == p.value || IsAncestor(page, a, p.value))
  }

  /** `Node.contains`: within one tree, shadow roots being trees of their own. */
  predicate Contains(page: Page, a: nat, k: nat)
    requires k < |page.elements|
  {
    a == k || IsAncestor(page, a, k)
  }

  /** On a page collected from a document, no parent is lost. */
  lemma CollectedParents(document: seq<Element>, page: Page, k: nat)
    requires Linked(document, None) && page.elements == FullOrder(document) && k < |page.elements|
    ensures Parent(page, k).Some? <==> page.elements[k].parent.Some?
    ensures Parent(page, k).Some? ==> page.elements[Parent(page, k).value].id == page.elements[k].parent.value
  {
    FullOrderParentsFirst(document, None);
    if page.elements[k].parent.Some? {
      var j :| 0 <= j < k && page.elements[j].id == page.elements[k].parent.value;
      assert page.elements[..k][j] == page.elements[j];
    }
  }

  // ---------------------------------------------------------------------------------
  // Identifiers
  // ---------------------------------------------------------------------------------

  function NewBid(n: nat): string {
    "bid_" + Decimal(n)
  }

  lemma NewBidInjective(m: nat, n: nat)
    ensures NewBid(m) == NewBid(n) ==> m == n
  {
    if NewBid(m) == NewBid(n) {
      assert NewBid(m)[4..] == Decimal(m) && NewBid(n)[4..] == Decimal(n);
      DecimalInjective(m, n);
    }
  }

  // ---------------------------------------------------------------------------------
  // One step
  // ---------------------------------------------------------------------------------

  /** The attributes written so far, and the script's own variables.  `som` tells for each
      element with the mark attribute whether it is "1". */
  datatype Marks = Marks(
    bid: map<nat, string>, visible: map<nat, bool>, som: map<nat, bool>,
    allBids: set<string>, buttons: seq<nat>, generated: nat, marked: nat, picks: nat)

  /** The state at the start of the script. */
  predicate Fresh(m: Marks) {
    m.allBids == {} && m.buttons == [] && m.generated == 0 && m.marked == 0 && m.picks == 0
  }

  predicate Eligible(page: Page, k: nat)
    requires k < |page.elements|
  {
    !page.standardHtml || IsHtmlTag(page.elements[k].look.tag)
  }

  predicate Marked(page: Page, k: nat)
    requires k < |page.elements|
  {
    Eligible(page, k) && page.elements[k].look.visible
  }

  /** The element keeps the identifier it comes with, unless another one has it already. */
  predicate Retains(m: Marks, k: nat) {
    k in m.bid && m.bid[k] !in m.allBids
  }

  function AssignBid(m: Marks, k: nat): Marks {
    var bid := if Retains(m, k) then m.bid[k] else NewBid(m.generated);
    m.(bid := m.bid[k := bid], allBids := m.allBids + {bid},
       generated := if Retains(m, k) then m.generated else m.generated + 1)
  }

  predicate On(m: Marks, k: nat) {
    k in m.som && m.som[k]
  }

  predicate SoleSpanChild(page: Page, m: Marks, k: nat)
    requires k < |page.elements|
  {
    var p := Parent(page, k);
    p.Some? && (var q := page.elements[p.value];
                q.look.tag == "span" && |q.children| == 1 && q.look.hasRole && On(m, p.value))
  }

  predicate OutsideButtons(page: Page, buttons: seq<nat>, k: nat)
    requires k < |page.elements|
  {
    forall i :: 0 <= i < |buttons| ==> !Contains(page, buttons[i], k)
  }

  /** Whether an element gets the mark. */
  predicate Picks(page: Page, m: Marks, k: nat)
    requires k < |page.elements|
  {
    var look := page.elements[k].look;
    && (IsMarkTag(look.tag) || look.clickable) && look.area >= MIN_AREA
    && OutsideButtons(page, m.buttons, k) && !SoleSpanChild(page, m, k)
  }

  /** The marks once those on the ancestors of `k` are taken back. */
  function Cleared(page: Page, som: map<nat, bool>, k: nat): map<nat, bool>
    requires k < |page.elements|
  {
    map x | x in som :: som[x] && !IsAncestor(page, x, k)
  }

  function Pick(page: Page, m: Marks, k: nat): Marks
    requires k < |page.elements|
  {
    m.(som := Cleared(page, m.som[k := true], k), picks := m.picks + 1,
       buttons := if page.elements[k].look.button then m.buttons + [k] else m.buttons)
  }

  function Numbered(m: Marks, k: nat): Marks {
    var n := AssignBid(m.(visible := m.visible[k := true]), k);
    n.(marked := n.marked + 1, som := n.som[k := false])
  }

  function Step(page: Page, m: Marks, k: nat): Marks
    requires k < |page.elements|
  {
    if !Eligible(page, k) then m
    else if !page.elements[k].look.visible then m.(visible := m.visible[k := false])
    else if Picks(page, Numbered(m, k), k) then Pick(page, Numbered(m, k), k)
    else Numbered(m, k)
  }

  /** The first k steps. */
  function Run(page: Page, m: Marks, k: nat): Marks
    requires k <= |page.elements|
  {
    if k == 0 then m else Step(page, Run(page, m, k - 1), k - 1)
  }

  // ---------------------------------------------------------------------------------
  // The script
  // ---------------------------------------------------------------------------------

  class Marker {
    var bid: map<nat, string>
    var visible: map<nat, bool>
    var som: map<nat, bool>
    var allBids: set<string>
    var somButtons: seq<nat>
    var bidCounter: nat
    var markedCount: nat
    var somCount: nat

    function State(): Marks
      reads this
    {
      Marks(bid, visible, som, allBids, somButtons, bidCounter, markedCount, somCount)
    }

    /** Starts the script on a document that has these attributes already. */
    constructor (bid: map<nat, string>, visible: map<nat, bool>, som: map<nat, bool>)
      ensures State() == Marks(bid, visible, som, {}, [], 0, 0, 0)
    {
      this.bid, this.visible, this.som := bid, visible, som;
      allBids, somButtons, bidCounter, markedCount, somCount := {}, [], 0, 0, 0;
    }

    /** The loop over the collected elements. */
    method MarkElements(page: Page)
      modifies this
      ensures State() == Run(page, old(State()), |page.elements|)
    {
      for k := 0 to |page.elements|
        invariant State() == Run(page, old(State()), k)
      {
        MarkElement(page, k);
      }
    }

    method MarkElement(page: Page, k: nat)
      requires k < |page.elements|
      modifies this
      ensures State() == Step(page, old(State()), k)
    {
      hide IsAncestor, SoleSpanChild, Cleared, AssignBid, Contains;
      var look := page.elements[k].look;
      if !Eligible(page, k) { return; }
      visible := visible[k := look.visible];
      if !look.visible { return; }
      InjectBid(k);
      som := som[k := false];
      markedCount := markedCount + 1;
      if (IsMarkTag(look.tag) || look.clickable) && look.area >= MIN_AREA {
        var notContained := OutsideButtons(page, somButtons, k);
        if notContained && !SoleSpanChild(page, State(), k) {
          som := som[k := true];
          if look.button { somButtons := somButtons + [k]; }
          ClearAncestors(page, k);
          somCount := somCount + 1;
        }
      }
    }

    method InjectBid(k: nat)
      modifies this`bid, this`allBids, this`bidCounter
      ensures State() == AssignBid(old(State()), k)
    {
      var id := None;
      if k in bid {
        id := Some(bid[k]);
        if bid[k] in allBids { id := None; }
      }
      if id == None {
        id := Some(NewBid(bidCounter));
        bidCounter := bidCounter + 1;
        bid := bid[k := id.value];
      }
      assert bid == old(bid)[k := id.value];
      allBids := allBids + {id.value};
    }

    /** The walk up the parent chain. */
    method ClearAncestors(page: Page, k: nat)
      requires k < |page.elements|
      modifies this`som
      ensures som == Cleared(page, old(som), k)
    {
      var p := Parent(page, k);
      while p.Some?
        invariant p.Some? ==> IsAncestor(page, p.value, k)
        invariant som == map x | x in old(som) ::
                    old(som)[x] && !(IsAncestor(page, x, k) && !(p.Some? && Contains(page, x, p.value)))
        decreases if p.Some? then p.value + 1 else 0
      {
        if p.value in som && som[p.value] {
          som := som[p.value := false];
        }
        AncestorOfAncestor(page, p.value, k);
        p := Parent(page, p.value);
      }
    }
  }

  lemma {:induction false} AncestorOfAncestor(page: Page, a: nat, k: nat)
    requires k < |page.elements| && IsAncestor(page, a, k)
    ensures Parent(page, a).Some? ==> IsAncestor(page, Parent(page, a).value, k)
    decreases k
  {
    var p := Parent(page, k).value;
    if a != p { AncestorOfAncestor(page, a, p); }
  }
}
