/** Grouping matches by the expression they state, with one map that first counts and then points. */
module Grouping {
  import opened Detections
  import opened Options
  import opened Picking

  /** A match, the expression its rule states with its identification, and whether it is only a clue. */
  datatype Item = Item(expression: string, identification: Identification, clue: bool, found: Found)

  predicate States(item: Item, expression: string) {
    !item.clue && item.expression == expression
  }

  /** The matches stating an expression, in order. */
  function Stating(items: seq<Item>, expression: string): seq<Found> {
    if items == [] then []
    else
      var last := items[|items| - 1];
      Stating(items[..|items| - 1], expression) + if States(last, expression) then [last.found] else []
  }

  function Clues(items: seq<Item>): seq<Found> {
    if items == [] then []
    else
      var last := items[|items| - 1];
      Clues(items[..|items| - 1]) + if last.clue then [last.found] else []
  }

  /** Stated expressions, each once, in order of first appearance. */
  function Firsts(items: seq<Item>): seq<string> {
    if items == [] then []
    else
      var last, before := items[|items| - 1], Firsts(items[..|items| - 1]);
      if last.clue || last.expression in before then before else before + [last.expression]
  }

  /** The identification of the first match that states an expression. */
  function IdentifiedAs(items: seq<Item>, expression: string): Option<Identification> {
    if items == [] then None
    else
      var last, before := items[|items| - 1], IdentifiedAs(items[..|items| - 1], expression);
      if before.Some? then before else if States(last, expression) then Some(last.identification) else None
  }

  lemma OneMore(items: seq<Item>, i: nat, e: string)
    requires i < |items|
    ensures items[..i + 1][..i] == items[..i]
    ensures Stating(items[..i + 1], e) == Stating(items[..i], e) + if States(items[i], e) then [items[i].found] else []
    ensures IdentifiedAs(items[..i + 1], e) == if IdentifiedAs(items[..i], e).Some? then IdentifiedAs(items[..i], e)
                                               else if States(items[i], e) then Some(items[i].identification) else None
    ensures Clues(items[..i + 1]) == Clues(items[..i]) + if items[i].clue then [items[i].found] else []
    ensures Firsts(items[..i + 1]) == if items[i].clue || items[i].expression in Firsts(items[..i])
      then Firsts(items[..i])
                                      else Firsts(items[..i]) + [items[i].expression]
  {
    assert items[..i + 1][..i] == items[..i];
  }

  lemma {:induction false} FirstsStated(items: seq<Item>, e: string)
    ensures e in Firsts(items) <==> Stating(items, e) != []
    ensures e in Firsts(items) <==> IdentifiedAs(items, e).Some?
  {
    if items == [] {
    } else {
      FirstsStated(items[..|items| - 1], e);
    }
  }

  lemma {:induction false} FirstsDistinct(items: seq<Item>)
    ensures forall i, j | 0 <= i < j < |Firsts(items)| :: Firsts(items)[i] != Firsts(items)[j]
  {
    if items == [] {
    } else {
      FirstsDistinct(items[..|items| - 1]);
    }
  }

  lemma {:induction false} StatingGrows(items: seq<Item>, i: nat, e: string)
    requires i <= |items|
    ensures |Stating(items[..i], e)| <= |Stating(items, e)|
    decreases |items| - i
  {
    if i < |items| {
      OneMore(items, i, e);
      StatingGrows(items, i + 1, e);
    } else {
      assert items[..i] == items;
    }
  }

  ghost function StatesAt(items: seq<Item>, e: string): nat -> bool {
    (i: nat) => i < |items| && !items[i].clue && items[i].expression == e
  }

  ghost function ClueAt(items: seq<Item>): nat -> bool {
    (i: nat) => i < |items| && items[i].clue
  }

  ghost function FoundAt(items: seq<Item>): (nat, Found) -> bool {
    (i: nat, m: Found) => i < |items| && m == items[i].found
  }

  /** The matches that state an expression, each once and in order. */
  lemma {:induction false} StatingPicks(items: seq<Item>, e: string)
    ensures Picks(0, |items|, StatesAt(items, e), FoundAt(items), Stating(items, e))
  {
    if items == [] {
      PicksNone(0, StatesAt(items, e), FoundAt(items));
    } else {
      var n := |items| - 1;
      StatingPicks(items[..n], e);
      StatingLast(items, n, e, Stating(items[..n], e));
    }
  }

  lemma StatingLast(items: seq<Item>, n: nat, e: string, before: seq<Found>)
    requires n + 1 == |items| && before == Stating(items[..n], e)
    requires Picks(0, n, StatesAt(items[..n], e), FoundAt(items[..n]), before)
    ensures Picks(0, n + 1, StatesAt(items, e), FoundAt(items), Stating(items, e))
  {
    PicksAlike(0, n, StatesAt(items[..n], e), FoundAt(items[..n]), StatesAt(items, e), FoundAt(items), before);
    PicksNext(0, n, StatesAt(items, e), FoundAt(items), before, if States(items[n], e) then [items[n].found] else []);
  }

  /** The clues, each once and in order. */
  lemma {:induction false} CluesPicks(items: seq<Item>)
    ensures Picks(0, |items|, ClueAt(items), FoundAt(items), Clues(items))
  {
    if items == [] {
      PicksNone(0, ClueAt(items), FoundAt(items));
    } else {
      var n := |items| - 1;
      CluesPicks(items[..n]);
      CluesLast(items, n, Clues(items[..n]));
    }
  }

  lemma CluesLast(items: seq<Item>, n: nat, before: seq<Found>)
    requires n + 1 == |items| && before == Clues(items[..n])
    requires Picks(0, n, ClueAt(items[..n]), FoundAt(items[..n]), before)
    ensures Picks(0, n + 1, ClueAt(items), FoundAt(items), Clues(items))
  {
    PicksAlike(0, n, ClueAt(items[..n]), FoundAt(items[..n]), ClueAt(items), FoundAt(items), before);
    PicksNext(0, n, ClueAt(items), FoundAt(items), before, if items[n].clue then [items[n].found] else []);
  }

  /** An expression is identified as the first match that states it. */
  lemma {:induction false} IdentifiedFirst(items: seq<Item>, e: string, identification: Identification)
    ensures IdentifiedAs(items, e) == Some(identification) <==>
      exists i: nat :: StatesAt(items, e)(i) && items[i].identification == identification
                       && forall j: nat | j < i :: !StatesAt(items, e)(j)
  {
    if items == [] {
    } else {
      var n := |items| - 1;
      var init := items[..n];
      IdentifiedFirst(init, e, identification);
      FirstsStated(init, e);
      assert forall i: nat | i < n :: StatesAt(init, e)(i) <==> StatesAt(items, e)(i);
      if IdentifiedAs(init, e).Some? {
        IdentifiedSome(init, e);
      } else {
        IdentifiedNone(init, e);
        assert StatesAt(items, e)(n) <==> States(items[n], e);
      }
    }
  }

  lemma {:induction false} IdentifiedSome(items: seq<Item>, e: string)
    requires IdentifiedAs(items, e).Some?
    ensures exists i: nat :: i < |items| && StatesAt(items, e)(i)
  {
    var n := |items| - 1;
    if IdentifiedAs(items[..n], e).Some? {
      IdentifiedSome(items[..n], e);
      var i: nat :| i < n && StatesAt(items[..n], e)(i);
      assert StatesAt(items, e)(i);
    } else {
      assert StatesAt(items, e)(n);
    }
  }

  lemma {:induction false} IdentifiedNone(items: seq<Item>, e: string)
    requires IdentifiedAs(items, e).None?
    ensures forall i: nat :: !StatesAt(items, e)(i)
  {
    if items != [] {
      var n := |items| - 1;
      IdentifiedNone(items[..n], e);
      forall i: nat ensures !StatesAt(items, e)(i) { assert i < n ==> !StatesAt(items[..n], e)(i); }
    }
  }

  // Counting ------------------------------------------------------------------------------------------

  ghost predicate Counts(counts: map<string, int>, items: seq<Item>) {
    forall e: string {:trigger Stating(items, e)} ::
      (e in counts <==> Stating(items, e) != []) && (e in counts ==> counts[e] == |Stating(items, e)|)
  }

  method CountDetections(items: seq<Item>) returns (counts: map<string, int>)
    ensures Counts(counts, items)
  {
    counts := map[];
    for i := 0 to |items|
      invariant Counts(counts, items[..i])
    {
      var item := items[i];
      ghost var before := counts;
      if !item.clue {
        counts := counts[item.expression := 1 + if item.expression in counts then counts[item.expression] else 0];
      }
      forall e: string
        ensures e in counts <==> Stating(items[..i + 1], e) != []
        ensures e in counts ==> counts[e] == |Stating(items[..i + 1], e)|
      {
        OneMore(items, i, e);
        assert e in before <==> Stating(items[..i], e) != [];
      }
    }
    assert items[..|items|] == items;
  }

  // Grouping ------------------------------------------------------------------------------------------

  function Expressions(ds: seq<Detection>): seq<string> {
    seq(|ds|, k requires 0 <= k < |ds| => ds[k].expression)
  }

  /** Until an expression has a detection its entry is its count, afterwards minus one minus the detection's place. */
  ghost predicate Entry(counts: map<string, int>, ds: seq<Detection>, e: string) {
    e in counts && if e in Expressions(ds)
      then counts[e] < 0 && -counts[e] - 1 < |ds| && ds[-counts[e] - 1].expression == e else counts[e] > 0
  }

  /** One detection per stated expression, in order of first appearance, with all its matches. */
  ghost predicate GroupedFrom(ds: seq<Detection>, items: seq<Item>) {
    Expressions(ds) == Firsts(items) && forall k | 0 <= k < |ds| :: DetectedFrom(ds[k], items)
  }

  ghost predicate DetectedFrom(d: Detection, items: seq<Item>) {
    d.matches == Stating(items, d.expression) && Some(d.identification) == IdentifiedAs(items, d.expression)
  }

  function NewDetection(item: Item): Detection {
    Detection(item.expression, item.identification, [item.found])
  }

  function WithItem(d: Detection, item: Item): Detection {
    d.(matches := d.matches + [item.found])
  }

  ghost predicate Placing(counts: map<string, int>, ds: seq<Detection>, items: seq<Item>, i: nat) {
    && i <= |items| && GroupedFrom(ds, items[..i])
    && forall e {:trigger Entry(counts, ds, e)} | Stating(items, e) != [] :: Entry(counts, ds, e)
  }

  /** An item's expression has an entry: a count until its detection exists, then the detection's place. */
  lemma ItemHasEntry(counts: map<string, int>, ds: seq<Detection>, items: seq<Item>, i: nat)
    requires Placing(counts, ds, items, i) && i < |items| && !items[i].clue
    ensures Entry(counts, ds, items[i].expression)
  {
    OneMore(items, i, items[i].expression);
    StatingGrows(items, i + 1, items[i].expression);
  }

  lemma PlaceNew(counts: map<string, int>, ds: seq<Detection>, items: seq<Item>, i: nat)
    requires Placing(counts, ds, items, i) && i < |items| && !items[i].clue
    requires Entry(counts, ds, items[i].expression) && counts[items[i].expression] > 0
    ensures Placing(counts[items[i].expression := -|ds| - 1], ds + [NewDetection(items[i])], items, i + 1)
  {
    var more, after := ds + [NewDetection(items[i])], counts[items[i].expression := -|ds| - 1];
    GroupNew(ds, items, i);
    forall x | Stating(items, x) != [] ensures Entry(after, more, x) {
      assert Entry(counts, ds, x);
      EntryMore(counts, ds, items[i], x);
    }
  }

  lemma GroupNew(ds: seq<Detection>, items: seq<Item>, i: nat)
    requires i < |items| && GroupedFrom(ds, items[..i]) && !items[i].clue && items[i].expression !in Expressions(ds)
    ensures GroupedFrom(ds + [NewDetection(items[i])], items[..i + 1])
  {
    var e, more := items[i].expression, ds + [NewDetection(items[i])];
    OneMore(items, i, e);
    FirstsStated(items[..i], e);
    assert Expressions(more) == Expressions(ds) + [e];
    forall k | 0 <= k < |more| ensures DetectedFrom(more[k], items[..i + 1]) {
      OneMore(items, i, more[k].expression);
      if k < |ds| { assert DetectedFrom(ds[k], items[..i]) && Expressions(ds)[k] != e; }
    }
  }

  lemma EntryMore(counts: map<string, int>, ds: seq<Detection>, item: Item, x: string)
    requires Entry(counts, ds, x) && item.expression !in Expressions(ds)
    ensures Entry(counts[item.expression := -|ds| - 1], ds + [NewDetection(item)], x)
  {
    assert Expressions(ds + [NewDetection(item)]) == Expressions(ds) + [item.expression];
  }

  lemma PlaceOld(counts: map<string, int>, ds: seq<Detection>, items: seq<Item>, i: nat)
    requires Placing(counts, ds, items, i) && i < |items| && !items[i].clue
    requires Entry(counts, ds, items[i].expression) && counts[items[i].expression] < 0
    ensures var at := -counts[items[i].expression] - 1;
      Placing(counts, ds[at := WithItem(ds[at], items[i])], items, i + 1)
  {
    var e, at := items[i].expression, -counts[items[i].expression] - 1;
    var more := ds[at := WithItem(ds[at], items[i])];
    OneMore(items, i, e);
    FirstsDistinct(items[..i]);
    assert Expressions(more) == Expressions(ds);
    forall k | 0 <= k < |more| ensures DetectedFrom(more[k], items[..i + 1]) {
      OneMore(items, i, more[k].expression);
      assert DetectedFrom(ds[k], items[..i]);
      if k != at { assert Expressions(ds)[k] != Expressions(ds)[at]; }
    }
    forall x | Stating(items, x) != [] ensures Entry(counts, more, x) { assert Entry(counts, ds, x); }
  }

  lemma PlaceClue(counts: map<string, int>, ds: seq<Detection>, items: seq<Item>, i: nat)
    requires Placing(counts, ds, items, i) && i < |items| && items[i].clue
    ensures Placing(counts, ds, items, i + 1)
  {
    OneMore(items, i, "");
    forall k | 0 <= k < |ds| ensures DetectedFrom(ds[k], items[..i + 1]) {
      OneMore(items, i, ds[k].expression);
    }
  }

  /** A match joins the detection of its expression, or starts it. */
  method AddItem(counts0: map<string, int>, detections0: seq<Detection>, items: seq<Item>, i: nat)
    returns (counts: map<string, int>, detections: seq<Detection>)
    requires Placing(counts0, detections0, items, i) && i < |items| && !items[i].clue
    ensures Placing(counts, detections, items, i + 1)
  {
    var item := items[i];
    ItemHasEntry(counts0, detections0, items, i);
    var count := counts0[item.expression];
    counts, detections := counts0, detections0;
    if count > 0 {
      PlaceNew(counts, detections, items, i);
      counts := counts[item.expression := -|detections| - 1];
      detections := detections + [NewDetection(item)];
    } else {
      PlaceOld(counts, detections, items, i);
      var at := -count - 1;
      detections := detections[at := WithItem(detections[at], item)];
    }
  }

  /** One detection per stated expression, in order of first appearance, with all its matches; clues apart. */
  method AddExactMatches(items: seq<Item>) returns (detections: seq<Detection>, clues: seq<Found>)
    ensures GroupedFrom(detections, items) && clues == Clues(items)
  {
    var counts := CountDetections(items);
    detections, clues := [], [];
    for i := 0 to |items|
      invariant Placing(counts, detections, items, i) && clues == Clues(items[..i])
    {
      OneMore(items, i, "");
      if items[i].clue {
        PlaceClue(counts, detections, items, i);
        clues := clues + [items[i].found];
        continue;
      }
      counts, detections := AddItem(counts, detections, items, i);
    }
    assert items[..|items|] == items;
  }

  /** Every match is a clue or in exactly the detection of its expression, and no detection is empty. */
  lemma NothingLost(ds: seq<Detection>, items: seq<Item>)
    requires GroupedFrom(ds, items)
    ensures forall k | 0 <= k < |ds| :: ds[k].matches != []
    ensures forall j, k | 0 <= j < k < |ds| :: ds[j].expression != ds[k].expression
    ensures forall i | 0 <= i < |items| && !items[i].clue :: items[i].expression in Expressions(ds)
  {
    FirstsDistinct(items);
    forall k | 0 <= k < |ds| ensures ds[k].matches != [] {
      assert Expressions(ds)[k] in Firsts(items);
      FirstsStated(items, ds[k].expression);
    }
    forall j, k | 0 <= j < k < |ds| ensures ds[j].expression != ds[k].expression {
      assert Expressions(ds)[j] != Expressions(ds)[k];
    }
    forall i | 0 <= i < |items| && !items[i].clue ensures items[i].expression in Expressions(ds) {
      OneMore(items, i, items[i].expression);
      StatingGrows(items, i + 1, items[i].expression);
      FirstsStated(items, items[i].expression);
    }
  }
}
