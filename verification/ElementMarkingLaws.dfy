/**
 What a whole marking pass guarantees: which elements carry the mark at the end, that
 recorded buttons keep it, and when the identifiers are distinct.
 */
module ElementMarkingLaws {
  import opened Options
  import opened DomTraversal
  import opened ElementMarking

  // ---------------------------------------------------------------------------------
  // Marks
  // ---------------------------------------------------------------------------------

  /** No element is marked before the script runs. */
  predicate NoneOn(m: Marks) {
    forall x :: x in m.som ==> !m.som[x]
  }

  /** The elements that were given the mark at their turn. */
  function Picked(page: Page, m: Marks, k: nat): (s: set<nat>)
    requires k <= |page.elements|
    ensures forall x :: x in s ==> x < k
  {
    if k == 0 then {}
    else
      PickedNext(page, Run(page, m, k - 1), Picked(page, m, k - 1), k - 1)
  }

  function PickedNext(page: Page, m: Marks, picked: set<nat>, k: nat): set<nat>
    requires k < |page.elements|
  {
    if Marked(page, k) && Picks(page, Numbered(m, k), k) then picked + {k} else picked
  }

  /** `x` contains another picked element. */
  predicate HasPickedBelow(page: Page, picked: set<nat>, x: nat)
    requires forall y :: y in picked ==> y < |page.elements|
  {
    exists y :: y in picked && IsAncestor(page, x, y)
  }

  /** The state after k elements, as far as marks are concerned. */
  ghost predicate MarksInv(page: Page, m: Marks, picked: set<nat>, k: nat)
    requires forall y :: y in picked ==> y < |page.elements|
  {
    && (forall x :: x in picked ==> x < k)
    && (forall x :: On(m, x) <==> x in picked && !HasPickedBelow(page, picked, x))
    && (forall i :: 0 <= i < |m.buttons| ==>
          m.buttons[i] in picked && !HasPickedBelow(page, picked, m.buttons[i]) &&
              page.elements[m.buttons[i]].look.button)
    && m.picks == |picked|
  }

  /** Picking an element below no recorded button. */
  lemma PickKeepsInv(page: Page, m: Marks, picked: set<nat>, k: nat)
    requires k < |page.elements| && forall y :: y in picked ==> y < |page.elements|
    requires MarksInv(page, m, picked, k) && OutsideButtons(page, m.buttons, k)
    ensures MarksInv(page, Pick(page, m, k), picked + {k}, k + 1)
  {
    var n, now := Pick(page, m, k), picked + {k};
    forall x ensures HasPickedBelow(page, now, x) <==> HasPickedBelow(page, picked, x) || IsAncestor(page, x, k) {
      if IsAncestor(page, x, k) { assert k in now; }
      if HasPickedBelow(page, picked, x) {
        var y :| y in picked && IsAncestor(page, x, y);
        assert y in now;
      }
    }
    assert !HasPickedBelow(page, picked, k);
    hide IsAncestor, HasPickedBelow;
    forall x ensures On(n, x) <==> x in now && !HasPickedBelow(page, now, x) {
      assert On(n, x) <==> (x == k || On(m, x)) && !IsAncestor(page, x, k);
    }
  }

  lemma NumberedKeepsInv(page: Page, m: Marks, picked: set<nat>, k: nat)
    requires k < |page.elements| && forall y :: y in picked ==> y < |page.elements|
    requires MarksInv(page, m, picked, k)
    ensures MarksInv(page, Numbered(m, k), picked, k + 1)
  {
    hide HasPickedBelow, AssignBid;
    NumberedMarks(m, k);
  }

  lemma NumberedMarks(m: Marks, k: nat)
    ensures var n := Numbered(m, k); n.buttons == m.buttons && n.picks == m.picks && n.som == m.som[k := false]
  {
  }

  lemma {:induction false} RunKeepsMarks(page: Page, m: Marks, k: nat)
    requires k <= |page.elements| && Fresh(m) && NoneOn(m)
    ensures forall y :: y in Picked(page, m, k) ==> y < |page.elements|
    ensures MarksInv(page, Run(page, m, k), Picked(page, m, k), k)
  {
    hide *;
    if k == 0 {
      NothingPicked(page, m);
    } else {
      RunKeepsMarks(page, m, k - 1);
      StepKeepsMarks(page, Run(page, m, k - 1), Picked(page, m, k - 1), k - 1);
      RunMore(page, m, k);
    }
  }

  lemma NothingPicked(page: Page, m: Marks)
    requires Fresh(m) && NoneOn(m)
    ensures Run(page, m, 0) == m && Picked(page, m, 0) == {} && MarksInv(page, m, {}, 0)
  {
  }

  lemma RunMore(page: Page, m: Marks, k: nat)
    requires 0 < k <= |page.elements|
    ensures Run(page, m, k) == Step(page, Run(page, m, k - 1), k - 1)
    ensures Picked(page, m, k) == PickedNext(page, Run(page, m, k - 1), Picked(page, m, k - 1), k - 1)
  {
    hide Step, Picks, Numbered, Marked;
  }

  lemma StepKeepsMarks(page: Page, m: Marks, picked: set<nat>, k: nat)
    requires k < |page.elements| && (forall y :: y in picked ==> y < |page.elements|) && MarksInv(page, m, picked, k)
    ensures MarksInv(page, Step(page, m, k), PickedNext(page, m, picked, k), k + 1)
  {
    hide MarksInv, Pick, Numbered, OutsideButtons, IsAncestor, SoleSpanChild;
    NumberedIsEarly(page, m, picked, k);
    NumberedKeepsInv(page, m, picked, k);
    LaterInv(page, m, picked, k);
    if Marked(page, k) && Picks(page, Numbered(m, k), k) {
      PickKeepsInv(page, Numbered(m, k), picked, k);
    }
  }

  lemma LaterInv(page: Page, m: Marks, picked: set<nat>, k: nat)
    requires k < |page.elements| && (forall y :: y in picked ==> y < |page.elements|) && MarksInv(page, m, picked, k)
    ensures MarksInv(page, m.(visible := m.visible[k := false]), picked, k + 1) && MarksInv(page, m, picked, k + 1)
  {
    hide HasPickedBelow;
  }

  lemma NumberedIsEarly(page: Page, m: Marks, picked: set<nat>, k: nat)
    requires k < |page.elements| && (forall y :: y in picked ==> y < |page.elements|) && MarksInv(page, m, picked, k)
    ensures MarksInv(page, Numbered(m, k), picked, k)
  {
    NumberedKeepsInv(page, m, picked, k);
    hide HasPickedBelow, Numbered;
  }

  /** At the end the marked elements are the innermost of those that were given the mark. */
  lemma FinalMarksAreInnermost(page: Page, m: Marks, x: nat)
    requires Fresh(m) && NoneOn(m)
    ensures On(Run(page, m, |page.elements|), x) <==>
            x in Picked(page, m, |page.elements|)
            && forall y :: y in Picked(page, m, |page.elements|) ==> !IsAncestor(page, x, y)
  {
    RunKeepsMarks(page, m, |page.elements|);
    hide Run, Picked, On, IsAncestor;
  }

  /** No marked element is inside another one. */
  lemma FinalMarksAreAnAntichain(page: Page, m: Marks, x: nat, y: nat)
    requires Fresh(m) && NoneOn(m) && y < |page.elements|
    requires On(Run(page, m, |page.elements|), x) && On(Run(page, m, |page.elements|), y)
    ensures !IsAncestor(page, x, y)
  {
    FinalMarksAreInnermost(page, m, x);
    FinalMarksAreInnermost(page, m, y);
    hide Run, Picked, On, IsAncestor;
  }

  /** A recorded button keeps its mark, and no element inside it ever gets one. */
  lemma RecordedButtonsStayMarked(page: Page, m: Marks, i: nat)
    requires Fresh(m) && NoneOn(m) && i < |Run(page, m, |page.elements|).buttons|
    ensures var end := Run(page, m, |page.elements|);
            && end.buttons[i] < |page.elements| && page.elements[end.buttons[i]].look.button
            && On(end, end.buttons[i])
            && forall y :: y in Picked(page, m, |page.elements|) ==> !IsAncestor(page, end.buttons[i], y)
  {
    RunKeepsMarks(page, m, |page.elements|);
    hide Run, Picked, On, IsAncestor;
  }

  /** The elements that carry the mark. */
  function OnSet(m: Marks): set<nat> {
    set x | x in m.som && m.som[x]
  }

  /** The reported count is that of the marks given; it is that of the marks left exactly when
      no marked element is inside another one. */
  lemma ReportedCountIsExactIff(page: Page, m: Marks)
    requires Fresh(m) && NoneOn(m)
    ensures var end, picked := Run(page, m, |page.elements|), Picked(page, m, |page.elements|);
            && OnSet(end) <= picked && |OnSet(end)| <= end.picks
            && (end.picks == |OnSet(end)| <==> forall x, y :: x in picked && y in picked ==> !IsAncestor(page, x, y))
  {
    RunKeepsMarks(page, m, |page.elements|);
    hide Run, Picked, IsAncestor;
    CountIsExactIff(page, Run(page, m, |page.elements|), Picked(page, m, |page.elements|), |page.elements|);
  }

  lemma CountIsExactIff(page: Page, m: Marks, picked: set<nat>, k: nat)
    requires (forall y :: y in picked ==> y < |page.elements|) && MarksInv(page, m, picked, k)
    ensures OnSet(m) <= picked && |OnSet(m)| <= m.picks
    ensures m.picks == |OnSet(m)| <==> forall x, y :: x in picked && y in picked ==> !IsAncestor(page, x, y)
  {
    hide IsAncestor, HasPickedBelow;
    assert forall x :: x in OnSet(m) <==> On(m, x);
    SubsetSize(OnSet(m), picked);
    NothingNestedIff(page, picked);
    assert OnSet(m) == picked <==> forall x :: x in picked ==> !HasPickedBelow(page, picked, x);
  }

  lemma NothingNestedIff(page: Page, picked: set<nat>)
    requires forall y :: y in picked ==> y < |page.elements|
    ensures (forall x :: x in picked ==> !HasPickedBelow(page, picked, x))
       <==> (forall x, y :: x in picked && y in picked ==> !IsAncestor(page, x, y))
  {
    hide IsAncestor;
    forall x, y | x in picked && y in picked && IsAncestor(page, x, y) ensures HasPickedBelow(page, picked, x) {
    }
  }

  lemma {:induction false} SubsetSize(a: set<nat>, b: set<nat>)
    requires a <= b
    ensures |a| <= |b| && (|a| == |b| <==> a == b)
  {
    assert b == a + (b - a) && |b| == |a| + |b - a|;
    if a != b {
      var x :| x in b - a;
    }
  }

  /** Which elements are numbered at all. */
  lemma MarkedIff(page: Page, k: nat)
    requires k < |page.elements|
    ensures Marked(page, k) <==>
              page.elements[k].look.visible && (page.standardHtml ==> IsHtmlTag(page.elements[k].look.tag))
  {
  }

  /** Which of them are picked: those of an interactive kind and of some size, unless they lie
      in a recorded button or are all that a marked span with a role contains. */
  lemma PicksIff(page: Page, m: Marks, k: nat)
    requires k < |page.elements|
    ensures Picks(page, m, k) <==>
              var look := page.elements[k].look;
              && (look.clickable
                  || look.tag in {
                       "input", "textarea", "select", "button", "a", "iframe", "video", "li", "td", "option"
                     })
              && look.area >= 20.0
              && (forall b :: b in m.buttons ==> b != k && !IsAncestor(page, b, k))
              && !(exists p: nat :: Parent(page, k) == Some(p) && p in m.som && m.som[p]
                     && page.elements[p].look.tag == "span" && page.elements[p].look.hasRole
                     && |page.elements[p].children| == 1)
  {
    OutsideIff(page, m.buttons, k);
    SoleSpanIff(page, m, k);
    hide OutsideButtons, SoleSpanChild, IsAncestor, Parent;
  }

  lemma OutsideIff(page: Page, buttons: seq<nat>, k: nat)
    requires k < |page.elements|
    ensures OutsideButtons(page, buttons, k) <==> forall b :: b in buttons ==> b != k && !IsAncestor(page, b, k)
  {
    hide IsAncestor;
    if OutsideButtons(page, buttons, k) {
      forall b | b in buttons ensures b != k && !IsAncestor(page, b, k) {
        var i :| 0 <= i < |buttons| && buttons[i] == b;
      }
    } else {
      var i :| 0 <= i < |buttons| && Contains(page, buttons[i], k);
      assert buttons[i] in buttons;
    }
  }

  lemma SoleSpanIff(page: Page, m: Marks, k: nat)
    requires k < |page.elements|
    ensures SoleSpanChild(page, m, k) <==>
              exists p: nat :: Parent(page, k) == Some(p) && p in m.som && m.som[p]
                && page.elements[p].look.tag == "span" && page.elements[p].look.hasRole
                && |page.elements[p].children| == 1
  {
    hide Parent;
  }

  // ---------------------------------------------------------------------------------
  // Identifiers
  // ---------------------------------------------------------------------------------

  /** The number of marked elements before the k-th. */
  function Rank(page: Page, k: nat): nat
    requires k <= |page.elements|
  {
    if k == 0 then 0 else Rank(page, k - 1) + (if Marked(page, k - 1) then 1 else 0)
  }

  lemma {:induction false} RankGrows(page: Page, i: nat, j: nat)
    requires i < j <= |page.elements|
    ensures Rank(page, i) + (if Marked(page, i) then 1 else 0) <= Rank(page, j)
    decreases j
  {
    if i < j - 1 { RankGrows(page, i, j - 1); }
  }

  /** The identifier part of a step. */
  lemma StepBids(page: Page, m: Marks, k: nat)
    requires k < |page.elements|
    ensures var n := Step(page, m, k);
            if Marked(page, k)
            then n.bid == AssignBid(m, k).bid && n.allBids == AssignBid(m, k).allBids
                 && n.generated == AssignBid(m, k).generated && n.marked == m.marked + 1
            else n.bid == m.bid && n.allBids == m.allBids && n.generated == m.generated && n.marked == m.marked
  {
    hide Picks, Cleared;
  }

  /** The elements before the k-th are numbered in visiting order, and no other has an
      identifier. */
  ghost predicate NumberedInOrder(page: Page, m: Marks, k: nat)
    requires k <= |page.elements|
  {
    && m.marked == m.generated == Rank(page, k)
    && (forall x: nat :: x in m.bid <==> x < k && Marked(page, x))
    && (forall x: nat :: x in m.bid ==> m.bid[x] == NewBid(Rank(page, x)))
  }

  lemma NumberedStep(page: Page, m: Marks, k: nat)
    requires k < |page.elements| && NumberedInOrder(page, m, k)
    ensures NumberedInOrder(page, Step(page, m, k), k + 1)
  {
    StepBids(page, m, k);
    hide Step, NewBid, Marked;
  }

  /** On a page without identifiers the marked elements are numbered in visiting order. */
  lemma {:induction false} FreshPageIsNumbered(page: Page, m: Marks, k: nat)
    requires k <= |page.elements| && Fresh(m) && m.bid == map[]
    ensures NumberedInOrder(page, Run(page, m, k), k)
  {
    hide *;
    RunIs(page, m, k);
    if k == 0 {
      NothingNumbered(page, m);
    } else {
      FreshPageIsNumbered(page, m, k - 1);
      NumberedStep(page, Run(page, m, k - 1), k - 1);
    }
  }

  lemma RunIs(page: Page, m: Marks, k: nat)
    requires k <= |page.elements|
    ensures Run(page, m, k) == if k == 0 then m else Step(page, Run(page, m, k - 1), k - 1)
  {
    hide Step;
  }

  lemma NothingNumbered(page: Page, m: Marks)
    requires Fresh(m) && m.bid == map[]
    ensures NumberedInOrder(page, m, 0)
  {
  }

  /** ... so no two elements share an identifier. */
  lemma FreshPageHasDistinctBids(page: Page, m: Marks, x: nat, y: nat)
    requires Fresh(m) && m.bid == map[] && x < y < |page.elements| && Marked(page, x) && Marked(page, y)
    ensures var end := Run(page, m, |page.elements|); x in end.bid && y in end.bid && end.bid[x] != end.bid[y]
  {
    FreshPageIsNumbered(page, m, |page.elements|);
    RankGrows(page, x, y);
    NewBidInjective(Rank(page, x), Rank(page, y));
    hide Run, NewBid;
  }

  /** The k-th element keeps the identifier it comes with. */
  predicate Keeps(page: Page, m: Marks, k: nat)
    requires k < |page.elements|
  {
    Marked(page, k) && Retains(Run(page, m, k), k)
  }

  predicate Generates(page: Page, m: Marks, k: nat)
    requires k < |page.elements|
  {
    Marked(page, k) && !Retains(Run(page, m, k), k)
  }

  /** The identifier a step gives. */
  function Given(page: Page, m: Marks, k: nat): string
    requires k < |page.elements|
  {
    var before := Run(page, m, k);
    if Retains(before, k) then before.bid[k] else NewBid(before.generated)
  }

  /** Every identifier is as given, those seen so far are the given ones, and an element
      not reached yet still has the identifier it came with. */
  ghost predicate BidsInv(page: Page, m: Marks, n: Marks, k: nat)
    requires k <= |page.elements|
  {
    && (forall x: nat :: x < k && Marked(page, x) ==> x in n.bid && n.bid[x] == Given(page, m, x))
    && n.allBids == GivenBefore(page, m, k)
    && (forall x: nat :: x >= k ==> (x in n.bid <==> x in m.bid) && (x in n.bid ==> n.bid[x] == m.bid[x]))
  }

  function GivenBefore(page: Page, m: Marks, k: nat): set<string>
    requires k <= |page.elements|
  {
    if k == 0 then {}
    else if Marked(page, k - 1) then GivenBefore(page, m, k - 1) + {Given(page, m, k - 1)}
    else GivenBefore(page, m, k - 1)
  }

  lemma {:induction false} GivenIsKnown(page: Page, m: Marks, x: nat, k: nat)
    requires x < k <= |page.elements| && Marked(page, x)
    ensures Given(page, m, x) in GivenBefore(page, m, k)
  {
    hide Given, Marked;
    if x < k - 1 { GivenIsKnown(page, m, x, k - 1); }
  }

  lemma {:induction false} RunBids(page: Page, m: Marks, k: nat)
    requires k <= |page.elements| && Fresh(m)
    ensures BidsInv(page, m, Run(page, m, k), k)
  {
    hide *;
    RunIs(page, m, k);
    if k == 0 {
      NothingGiven(page, m);
    } else {
      RunBids(page, m, k - 1);
      BidsStep(page, m, k - 1);
    }
  }

  lemma NothingGiven(page: Page, m: Marks)
    requires Fresh(m)
    ensures BidsInv(page, m, m, 0)
  {
    hide Given, Marked;
  }

  lemma BidsStep(page: Page, m: Marks, k: nat)
    requires k < |page.elements| && BidsInv(page, m, Run(page, m, k), k)
    ensures BidsInv(page, m, Step(page, Run(page, m, k), k), k + 1)
  {
    hide Step, NewBid, Marked, Run, Given, Retains, AssignBid;
    StepBids(page, Run(page, m, k), k);
    GivenIs(page, m, k);
  }

  lemma GivenIs(page: Page, m: Marks, k: nat)
    requires k < |page.elements|
    ensures var n := Run(page, m, k);
            && AssignBid(n, k).bid == n.bid[k := Given(page, m, k)]
            && AssignBid(n, k).allBids == n.allBids + {Given(page, m, k)}
  {
    hide Run, NewBid;
  }

  lemma {:induction false} GeneratedGrows(page: Page, m: Marks, i: nat, j: nat)
    requires i < j <= |page.elements|
    ensures Run(page, m, i).generated + (if Generates(page, m, i) then 1 else 0) <= Run(page, m, j).generated
    decreases j
  {
    hide Run, Step, Marked, Retains;
    RunIs(page, m, j);
    StepBids(page, Run(page, m, j - 1), j - 1);
    if i < j - 1 { GeneratedGrows(page, m, i, j - 1); }
  }

  // The same told from the page and the identifiers it comes with, `bid`.

  /** Some marked element before the k-th comes with b. */
  ghost predicate CameWith(page: Page, bid: map<nat, string>, k: nat, b: string)
    requires k <= |page.elements|
  {
    exists z: nat :: z < k && z in bid && bid[z] == b && Marked(page, z)
  }

  /** b is one of the first n new identifiers. */
  ghost predicate IsNewBid(b: string, n: nat) {
    exists i: nat :: i < n && b == NewBid(i)
  }

  ghost predicate Taken(page: Page, bid: map<nat, string>, k: nat, n: nat, b: string)
    requires k <= |page.elements|
  {
    CameWith(page, bid, k, b) || IsNewBid(b, n)
  }

  /** The k-th element comes with an identifier that no marked element before it came with
      and that is none of the new ones given before it. */
  ghost predicate Stays(page: Page, bid: map<nat, string>, k: nat)
    requires k < |page.elements|
    decreases k, 1
  {
    k in bid && !Taken(page, bid, k, NewBefore(page, bid, k), bid[k])
  }

  /** The number of marked elements before the k-th that do not stay as they are. */
  ghost function NewBefore(page: Page, bid: map<nat, string>, k: nat): nat
    requires k <= |page.elements|
    decreases k, 0
  {
    if k == 0 then 0
    else if Marked(page, k - 1) && !Stays(page, bid, k - 1) then NewBefore(page, bid, k - 1) + 1
    else NewBefore(page, bid, k - 1)
  }

  ghost function NameGiven(page: Page, bid: map<nat, string>, k: nat): string
    requires k < |page.elements|
  {
    if Stays(page, bid, k) then bid[k] else NewBid(NewBefore(page, bid, k))
  }

  /** The run gives out what the page's own identifiers say. */
  ghost predicate AsTheyCame(page: Page, m: Marks, k: nat)
    requires k <= |page.elements|
  {
    && Run(page, m, k).generated == NewBefore(page, m.bid, k)
    && (forall b: string :: b in Run(page, m, k).allBids <==> Taken(page, m.bid, k, NewBefore(page, m.bid, k), b))
  }

  lemma {:induction false} RunAsTheyCame(page: Page, m: Marks, k: nat)
    requires k <= |page.elements| && Fresh(m)
    ensures AsTheyCame(page, m, k)
  {
    hide *;
    if k == 0 {
      NothingTaken(page, m);
    } else {
      RunAsTheyCame(page, m, k - 1);
      AsTheyCameStep(page, m, k - 1);
    }
  }

  lemma NothingTaken(page: Page, m: Marks)
    requires Fresh(m)
    ensures AsTheyCame(page, m, 0)
  {
    hide NewBid, Marked;
  }

  lemma RetainsIff(page: Page, m: Marks, k: nat)
    requires k < |page.elements| && Fresh(m) && AsTheyCame(page, m, k)
    ensures Retains(Run(page, m, k), k) <==> Stays(page, m.bid, k)
    ensures Given(page, m, k) == NameGiven(page, m.bid, k)
  {
    RunBids(page, m, k);
    hide Run, Taken, NewBid, Marked, NewBefore, GivenBefore;
  }

  lemma AsTheyCameStep(page: Page, m: Marks, k: nat)
    requires k < |page.elements| && Fresh(m) && AsTheyCame(page, m, k)
    ensures AsTheyCame(page, m, k + 1)
  {
    RetainsIff(page, m, k);
    StepBids(page, Run(page, m, k), k);
    RunUnfold(page, m, k);
    GivenIs(page, m, k);
    NewBeforeNext(page, m.bid, k);
    hide Run, Step, NewBid, Marked, Taken, Given, Stays, NameGiven, NewBefore;
    var j, all, n := k + 1, Run(page, m, k + 1).allBids, NewBefore(page, m.bid, k + 1);
    forall b: string ensures b in all <==> Taken(page, m.bid, j, n, b) {
      OneMoreTaken(page, m.bid, k, b);
    }
  }

  lemma RunUnfold(page: Page, m: Marks, k: nat)
    requires k < |page.elements|
    ensures Run(page, m, k + 1) == Step(page, Run(page, m, k), k)
  {
    hide Step;
  }

  lemma CameWithNext(page: Page, bid: map<nat, string>, k: nat, b: string)
    requires k < |page.elements|
    ensures CameWith(page, bid, k + 1, b) <==> CameWith(page, bid, k, b) || (k in bid && bid[k] == b && Marked(page, k))
  {
    hide Marked;
  }

  lemma IsNewBidNext(b: string, n: nat)
    ensures IsNewBid(b, n + 1) <==> IsNewBid(b, n) || b == NewBid(n)
  {
    hide NewBid;
  }

  lemma NewBeforeNext(page: Page, bid: map<nat, string>, k: nat)
    requires k < |page.elements|
    ensures NewBefore(page, bid, k + 1) == NewBefore(page, bid, k) +
              (if Marked(page, k) && !Stays(page, bid, k) then 1 else 0)
  {
    hide Marked, Stays;
  }

  lemma OneMoreTaken(page: Page, bid: map<nat, string>, k: nat, b: string)
    requires k < |page.elements|
    ensures Taken(page, bid, k + 1, NewBefore(page, bid, k + 1), b)
       <==> Taken(page, bid, k, NewBefore(page, bid, k), b) || (Marked(page, k) && b == NameGiven(page, bid, k))
  {
    CameWithNext(page, bid, k, b);
    IsNewBidNext(b, NewBefore(page, bid, k));
    NewBeforeNext(page, bid, k);
    hide NewBid, Marked, CameWith, IsNewBid, NewBefore;
  }

  /** Two elements share an identifier exactly when the earlier one stays with the very name
      that the later one is given anew. */
  lemma SharedBidIff(page: Page, m: Marks, x: nat, y: nat)
    requires Fresh(m) && x < y < |page.elements| && Marked(page, x) && Marked(page, y)
    ensures var end := Run(page, m, |page.elements|);
            && x in end.bid && y in end.bid
            && (end.bid[x] == end.bid[y] <==>
                Stays(page, m.bid, x) && !Stays(page, m.bid, y) && m.bid[x] == NewBid(NewBefore(page, m.bid, y)))
  {
    SharedInRunIff(page, m, x, y);
    RunAsTheyCame(page, m, x);
    RunAsTheyCame(page, m, y);
    RetainsIff(page, m, x);
    RetainsIff(page, m, y);
    hide Run, NewBid, Marked, Taken, NewBefore, Retains, Given;
  }

  lemma SharedInRunIff(page: Page, m: Marks, x: nat, y: nat)
    requires Fresh(m) && x < y < |page.elements| && Marked(page, x) && Marked(page, y)
    ensures var end := Run(page, m, |page.elements|);
            && x in end.bid && y in end.bid
            && (end.bid[x] == end.bid[y] <==>
                Keeps(page, m, x) && Generates(page, m, y) && x in m.bid &&
                    m.bid[x] == NewBid(Run(page, m, y).generated))
  {
    RunBids(page, m, |page.elements|);
    RunBids(page, m, x);
    RunBids(page, m, y);
    hide Run, NewBid, Marked;
    GivenIsKnown(page, m, x, y);
    if Generates(page, m, x) && Generates(page, m, y) {
      GeneratedGrows(page, m, x, y);
      NewBidInjective(Run(page, m, x).generated, Run(page, m, y).generated);
    }
  }

  ghost predicate DistinctBids(page: Page, bids: map<nat, string>) {
    forall x: nat, y: nat :: x < y < |page.elements| && Marked(page, x) && Marked(page, y) && x in bids && y in bids
      ==> bids[x] != bids[y]
  }

  /** Element x stays with a name that is given anew further down. */
  ghost predicate Clashes(page: Page, bid: map<nat, string>, x: nat, n: nat)
    requires x < |page.elements|
  {
    Marked(page, x) && Stays(page, bid, x) && bid[x] == NewBid(n) && n < NewBefore(page, bid, |page.elements|)
  }

  /** All identifiers end up distinct exactly when no element stays with a name whose number
      is below the count of elements given new names. */
  lemma DistinctBidsIff(page: Page, m: Marks)
    requires Fresh(m)
    ensures DistinctBids(page, Run(page, m, |page.elements|).bid) <==>
            forall x: nat, n: nat :: x < |page.elements| ==> !Clashes(page, m.bid, x, n)
  {
    var end := Run(page, m, |page.elements|);
    hide *;
    if x: nat, n: nat :| x < |page.elements| && Clashes(page, m.bid, x, n) {
      var y := GivenAnew(page, m.bid, x, n);
      ClashIsShared(page, m, x, y);
      SharedIsNotDistinct(page, end.bid, x, y);
    }
    if !DistinctBids(page, end.bid) {
      var x, y := SharedPair(page, end.bid);
      SharedIsAClash(page, m, x, y);
    }
  }

  lemma SharedIsNotDistinct(page: Page, bids: map<nat, string>, x: nat, y: nat)
    requires x < y < |page.elements| && Marked(page, x) && Marked(page, y) && x in bids && y in bids &&
               bids[x] == bids[y]
    ensures !DistinctBids(page, bids)
  {
    hide Marked;
  }

  lemma SharedPair(page: Page, bids: map<nat, string>) returns (x: nat, y: nat)
    requires !DistinctBids(page, bids)
    ensures x < y < |page.elements| && Marked(page, x) && Marked(page, y) && x in bids && y in bids &&
              bids[x] == bids[y]
  {
    hide Marked;
    x, y :| x < y < |page.elements| && Marked(page, x) && Marked(page, y) && x in bids && y in bids &&
        bids[x] == bids[y];
  }

  lemma ClashIsShared(page: Page, m: Marks, x: nat, y: nat)
    requires Fresh(m) && x < y < |page.elements| && Marked(page, x) && Marked(page, y) && !Stays(page, m.bid, y)
    requires Clashes(page, m.bid, x, NewBefore(page, m.bid, y))
    ensures var bids := Run(page, m, |page.elements|).bid; x in bids && y in bids && bids[x] == bids[y]
  {
    hide Run, NewBid, Marked, Stays, NewBefore;
    SharedBidIff(page, m, x, y);
  }

  lemma SharedIsAClash(page: Page, m: Marks, x: nat, y: nat)
    requires Fresh(m) && x < y < |page.elements| && Marked(page, x) && Marked(page, y)
    requires var bids := Run(page, m, |page.elements|).bid; x in bids && y in bids && bids[x] == bids[y]
    ensures Clashes(page, m.bid, x, NewBefore(page, m.bid, y))
  {
    hide Run, NewBid, Marked, Stays, NewBefore;
    SharedBidIff(page, m, x, y);
    NewGrows(page, m.bid, y, |page.elements|);
  }

  lemma {:induction false} NewGrows(page: Page, bid: map<nat, string>, y: nat, k: nat)
    requires y < k <= |page.elements|
    ensures NewBefore(page, bid, k) >= NewBefore(page, bid, y) +
              (if Marked(page, y) && !Stays(page, bid, y) then 1 else 0)
    decreases k
  {
    hide Marked, Stays, Taken;
    if y < k - 1 { NewGrows(page, bid, y, k - 1); }
  }

  /** Every number below the count is given to some element. */
  lemma {:induction false} SomeoneGets(page: Page, bid: map<nat, string>, n: nat, k: nat) returns (y: nat)
    requires k <= |page.elements| && n < NewBefore(page, bid, k)
    ensures y < k && Marked(page, y) && !Stays(page, bid, y) && n == NewBefore(page, bid, y)
  {
    hide Marked, Stays, Taken;
    if n < NewBefore(page, bid, k - 1) {
      y := SomeoneGets(page, bid, n, k - 1);
    } else {
      y := k - 1;
    }
  }

  lemma GivenAnew(page: Page, bid: map<nat, string>, x: nat, n: nat) returns (y: nat)
    requires x < |page.elements| && Clashes(page, bid, x, n)
    ensures x < y < |page.elements| && Marked(page, x) && Marked(page, y) && !Stays(page, bid, y) &&
              n == NewBefore(page, bid, y)
  {
    hide Marked, NewBefore, NewBid, Taken;
    y := SomeoneGets(page, bid, n, |page.elements|);
    StaysBeyond(page, bid, x, n);
    if y < x { NewGrows(page, bid, y, x); }
  }

  lemma StaysBeyond(page: Page, bid: map<nat, string>, k: nat, n: nat)
    requires k < |page.elements| && Stays(page, bid, k) && bid[k] == NewBid(n)
    ensures n >= NewBefore(page, bid, k)
  {
    hide NewBid, Marked, NewBefore;
  }

  /** So a page none of whose identifiers looks like a generated one gets distinct ones. */
  lemma ForeignBidsStayDistinct(page: Page, m: Marks, x: nat, y: nat)
    requires Fresh(m) && x < y < |page.elements| && Marked(page, x) && Marked(page, y)
    requires forall z, n :: z in m.bid ==> m.bid[z] != NewBid(n)
    ensures var end := Run(page, m, |page.elements|); x in end.bid && y in end.bid && end.bid[x] != end.bid[y]
  {
    SharedBidIff(page, m, x, y);
    hide Run, NewBid, Marked, NewBefore;
  }

  /** An element that comes first with "bid_0" and one without identifier end up the same. */
  lemma RemarkingCanRepeatABid()
    ensures var look := Look("div", true, false, 0.0, false, false);
            var page := Page([Element(0, None, look, [], []), Element(1, None, look, [], [])], false);
            var m := Marks(map[0 := "bid_0"], map[], map[], {}, [], 0, 0, 0);
            var end := Run(page, m, 2);
            0 in end.bid && 1 in end.bid && end.bid[0] == end.bid[1]
  {
    var look := Look("div", true, false, 0.0, false, false);
    var page := Page([Element(0, None, look, [], []), Element(1, None, look, [], [])], false);
    var m := Marks(map[0 := "bid_0"], map[], map[], {}, [], 0, 0, 0);
    assert Marked(page, 0) && Marked(page, 1);
    assert NewBid(0) == "bid_0";
    assert Run(page, m, 0) == m;
    StepBids(page, m, 0);
    assert Run(page, m, 1) == Step(page, m, 0);
    hide Step;
    SharedInRunIff(page, m, 0, 1);
  }
}
