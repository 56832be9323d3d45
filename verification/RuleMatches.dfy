/** Placed rule matches become reported ones: identifiers, categories, grouping, and texts that go on past the match. */
module RuleMatches {
  import opened Sequences
  import opened ExactMatches
  import opened Detections
  import opened Grouping
  import opened Matching
  import opened Picking

  /** What the engine knows of a rule's expression. */
  datatype Metadata = Metadata(expression: string, identification: Identification, licenseIds: seq<string>)

  /** The category a rule's flags name, if they name exactly one. */
  function KindOf(f: Flags): Kind {
    match (f.text, f.notice, f.tag, f.reference, f.intro, f.clue)
    case (true, false, false, false, false, false) => Text
    case (false, true, false, false, false, false) => Notice
    case (false, false, true, false, false, false) => Tag
    case (false, false, false, true, false, false) => Reference
    case (false, false, false, false, true, false) => Intro
    case (false, false, false, false, false, true) => Clue
    case _ => UnknownKind
  }

  function MakeItem(rule: MatchRule, known: Metadata, how: Method, f: Reported, own: seq<string>): Item {
    Item(known.expression, known.identification, rule.flags.clue,
         Found(OfRule(f.rule, how), own, KindOf(rule.flags), rule.relevance, f.start, f.end))
  }

  function ItemOf(rules: seq<MatchRule>, metadata: seq<Metadata>, how: Method, f: Reported): Item
    requires f.rule < |rules| == |metadata|
  {
    MakeItem(rules[f.rule], metadata[f.rule], how, f, metadata[f.rule].licenseIds)
  }

  /** The flags name the category. */
  ghost predicate Names(f: Flags, kind: Kind) {
    match kind
    case Text => f.text
    case Notice => f.notice
    case Tag => f.tag
    case Reference => f.reference
    case Intro => f.intro
    case Clue => f.clue
    case UnknownKind => false
  }

  /** How many categories the flags name. */
  ghost function NamedKinds(f: Flags): nat {
    (if f.text then 1 else 0) + (if f.notice then 1 else 0) + (if f.tag then 1 else 0)
    + (if f.reference then 1 else 0) + (if f.intro then 1 else 0) + (if f.clue then 1 else 0)
  }

  /** The one category the flags name, or no known category if they name none or several. */
  ghost predicate IsKind(f: Flags, kind: Kind) {
    if NamedKinds(f) == 1 then Names(f, kind) else kind == UnknownKind
  }

  lemma KindNamed(f: Flags)
    ensures IsKind(f, KindOf(f))
  {
  }

  /** There is just one. */
  lemma OneKind(f: Flags, a: Kind, b: Kind)
    requires IsKind(f, a) && IsKind(f, b)
    ensures a == b
  {
  }

  /** The match as a result shows it: its rule, how it was found, its range, and what is known of the rule. */
  ghost predicate IsItem(rules: seq<MatchRule>, metadata: seq<Metadata>, how: Method, f: Reported, item: Item) {
    && f.rule < |rules| == |metadata|
    && item.expression == metadata[f.rule].expression && item.identification == metadata[f.rule].identification
    && (item.clue <==> rules[f.rule].flags.clue) && item.found.origin == OfRule(f.rule, how)
    && item.found.start == f.start && item.found.end == f.end && item.found.score == rules[f.rule].relevance
    && item.found.licenseIds == metadata[f.rule].licenseIds && IsKind(rules[f.rule].flags, item.found.kind)
  }

  lemma ItemIsItem(rules: seq<MatchRule>, metadata: seq<Metadata>, how: Method, f: Reported, item: Item)
    requires f.rule < |rules| == |metadata|
    ensures item == ItemOf(rules, metadata, how, f) <==> IsItem(rules, metadata, how, f, item)
  {
    KindNamed(rules[f.rule].flags);
    if IsItem(rules, metadata, how, f, item) {
      OneKind(rules[f.rule].flags, item.found.kind, KindOf(rules[f.rule].flags));
    }
  }

  // The identifier arena -----------------------------------------------------------------------------

  function Concat(lists: seq<seq<string>>): seq<string> {
    if lists == [] then [] else Concat(lists[..|lists| - 1]) + lists[|lists| - 1]
  }

  lemma ConcatOne(lists: seq<seq<string>>, i: nat)
    requires i < |lists|
    ensures Concat(lists[..i + 1]) == Concat(lists[..i]) + lists[i]
  {
    assert lists[..i + 1][..i] == lists[..i];
  }

  /** Where a list stands in the concatenation. */
  lemma {:induction false} ConcatHolds(lists: seq<seq<string>>, k: nat)
    requires k < |lists|
    ensures var at := |Concat(lists[..k])|;
      at + |lists[k]| <= |Concat(lists)| && Concat(lists)[at..at + |lists[k]|] == lists[k]
  {
    var n := |lists| - 1;
    var all, init, at := Concat(lists), Concat(lists[..n]), |Concat(lists[..k])|;
    if k < n {
      ConcatHolds(lists[..n], k);
      assert lists[..n][..k] == lists[..k];
      assert all[at..at + |lists[k]|] == init[at..at + |lists[k]|];
    } else {
      assert lists[..k] == lists[..n] && all[at..at + |lists[k]|] == lists[n];
    }
  }

  /** Every list stands in the arena at its cut, apart from all others. */
  ghost predicate Held(lists: seq<seq<string>>, arena: seq<string>, cuts: seq<nat>) {
    && |cuts| == |lists|
    && (forall k | 0 <= k < |lists| ::
        cuts[k] + |lists[k]| <= |arena| && arena[cuts[k]..cuts[k] + |lists[k]|] == lists[k])
    && forall j, k | 0 <= j < k < |lists| :: cuts[j] + |lists[j]| <= cuts[k]
  }

  /** Copies all identifiers into one array, each match's into a slice of its own. */
  method CopyIdentifiers(lists: seq<seq<string>>) returns (arena: array<string>, cuts: seq<nat>)
    ensures fresh(arena) && Held(lists, arena[..], cuts)
  {
    var identifierCount := CountIdentifiers(lists);
    arena := new string[identifierCount](_ => "");
    cuts := [];
    var used: nat := 0;
    for i := 0 to |lists|
      invariant Filling(lists, i, arena[..], used, cuts)
    {
      cuts, used := CopyList(arena, lists, i, used, cuts);
    }
    FilledHolds(lists, arena[..], used, cuts);
  }

  method CountIdentifiers(lists: seq<seq<string>>) returns (identifierCount: nat)
    ensures identifierCount == |Concat(lists)|
  {
    identifierCount := 0;
    for i := 0 to |lists|
      invariant identifierCount == |Concat(lists[..i])|
    {
      ConcatOne(lists, i);
      identifierCount := identifierCount + |lists[i]|;
    }
    assert lists[..|lists|] == lists;
  }

  /** The first lists have been copied, each to its own cut. */
  ghost predicate Filling(lists: seq<seq<string>>, i: nat, arena: seq<string>, used: nat, cuts: seq<nat>) {
    && i <= |lists| && |arena| == |Concat(lists)| && |cuts| == i && used <= |arena|
    && arena[..used] == Concat(lists[..i])
    && forall k | 0 <= k < i :: cuts[k] == |Concat(lists[..k])|
  }

  lemma RoomForList(lists: seq<seq<string>>, i: nat, arena: seq<string>, used: nat, cuts: seq<nat>)
    requires Filling(lists, i, arena, used, cuts) && i < |lists|
    ensures used + |lists[i]| <= |arena|
  {
    ConcatOne(lists, i);
    ConcatFits(lists, i + 1);
  }

  lemma FillOne(lists: seq<seq<string>>, i: nat, arena: seq<string>, after: seq<string>, used: nat, cuts: seq<nat>)
    requires Filling(lists, i, arena, used, cuts) && i < |lists|
    requires |after| == |arena| && used + |lists[i]| <= |arena|
      && after[..used + |lists[i]|] == arena[..used] + lists[i]
    ensures Filling(lists, i + 1, after, used + |lists[i]|, cuts + [used])
  {
    ConcatOne(lists, i);
  }

  /** Copies one list behind those already there. */
  method CopyList(arena: array<string>, lists: seq<seq<string>>, i: nat, used0: nat, cuts0: seq<nat>)
    returns (cuts: seq<nat>, used: nat)
    requires i < |lists| && Filling(lists, i, arena[..], used0, cuts0)
    modifies arena
    ensures Filling(lists, i + 1, arena[..], used, cuts)
  {
    ghost var before := arena[..];
    RoomForList(lists, i, before, used0, cuts0);
    CopyInto(arena, used0, lists[i]);
    FillOne(lists, i, before, arena[..], used0, cuts0);
    cuts, used := cuts0 + [used0], used0 + |lists[i]|;
  }

  lemma FilledHolds(lists: seq<seq<string>>, arena: seq<string>, used: nat, cuts: seq<nat>)
    requires Filling(lists, |lists|, arena, used, cuts)
    ensures Held(lists, arena, cuts)
  {
    assert lists[..|lists|] == lists && arena[..used] == arena;
    CutsHold(lists, arena, cuts);
  }

  lemma {:induction false} ConcatFits(lists: seq<seq<string>>, i: nat)
    requires i <= |lists|
    ensures |Concat(lists[..i])| <= |Concat(lists)|
    decreases |lists| - i
  {
    if i < |lists| {
      ConcatOne(lists, i);
      ConcatFits(lists, i + 1);
    } else {
      assert lists[..i] == lists;
    }
  }

  method CopyInto(arena: array<string>, used: nat, list: seq<string>)
    requires used + |list| <= arena.Length
    modifies arena
    ensures arena[..][..used + |list|] == old(arena[..])[..used] + list
  {
    for k := 0 to |list|
      invariant arena[..used] == old(arena[..used]) && arena[used..used + k] == list[..k]
    {
      arena[used + k] := list[k];
      assert arena[used..used + k + 1] == list[..k] + [list[k]] == list[..k + 1];
    }
    assert arena[..][..used + |list|] == arena[..used] + arena[used..used + |list|] && list[..|list|] == list;
  }

  lemma CutsHold(lists: seq<seq<string>>, arena: seq<string>, cuts: seq<nat>)
    requires arena == Concat(lists) && |cuts| == |lists| && forall k | 0 <= k < |lists| ::
      cuts[k] == |Concat(lists[..k])|
    ensures Held(lists, arena, cuts)
  {
    forall k | 0 <= k < |lists|
      ensures cuts[k] + |lists[k]| <= |arena| && arena[cuts[k]..cuts[k] + |lists[k]|] == lists[k] {
      ConcatHolds(lists, k);
    }
    forall j, k | 0 <= j < k < |lists| ensures cuts[j] + |lists[j]| <= cuts[k] {
      ConcatHolds(lists[..k], j);
      assert lists[..k][..j] == lists[..j];
    }
  }

  /** Items for all placed matches, with identifiers read back from the arena after all were copied. */
  method MakeItems(rules: seq<MatchRule>, metadata: seq<Metadata>, how: Method, placed: seq<Reported>)
    returns (items: seq<Item>)
    requires |rules| == |metadata| && forall f | f in placed :: f.rule < |rules|
    ensures |items| == |placed| && forall i | 0 <= i < |placed| :: IsItem(rules, metadata, how, placed[i], items[i])
  {
    var lists :=
      seq(|placed|, i requires 0 <= i < |placed| => assert placed[i] in placed; metadata[placed[i].rule].licenseIds);
    var arena, cuts := CopyIdentifiers(lists);
    var identifiers := arena[..];
    items := [];
    for i := 0 to |placed|
      invariant |items| == i
      invariant forall k | 0 <= k < i :: IsItem(rules, metadata, how, placed[k], items[k])
    {
      var f := placed[i];
      assert f in placed;
      var own := identifiers[cuts[i]..cuts[i] + |lists[i]|];
      items := items + [MakeItem(rules[f.rule], metadata[f.rule], how, f, own)];
      ItemIsItem(rules, metadata, how, f, items[i]);
    }
  }

  // Members of the groups -------------------------------------------------------------------------------

  lemma {:induction false} StatingMember(items: seq<Item>, e: string, m: Found)
    ensures m in Stating(items, e) <==> exists i :: 0 <= i < |items| && States(items[i], e) && items[i].found == m
  {
    if items == [] {
    } else {
      var n := |items| - 1;
      StatingMember(items[..n], e, m);
      assert forall i | 0 <= i < n :: items[i] == items[..n][i];
    }
  }

  lemma {:induction false} ClueMember(items: seq<Item>, m: Found)
    ensures m in Clues(items) <==> exists i :: 0 <= i < |items| && items[i].clue && items[i].found == m
  {
    if items == [] {
    } else {
      var n := |items| - 1;
      ClueMember(items[..n], m);
      assert forall i | 0 <= i < n :: items[i] == items[..n][i];
    }
  }

  lemma {:induction false} GroupsAreGrouped(ds: seq<Detection>, items: seq<Item>)
    requires GroupedFrom(ds, items) && forall i | 0 <= i < |items| :: items[i].found.start < items[i].found.end
    ensures Grouped(ds)
  {
    NothingLost(ds, items);
    forall k | 0 <= k < |ds| ensures NonEmptyMatches(ds[k].matches) {
      assert DetectedFrom(ds[k], items);
      forall j | 0 <= j < |ds[k].matches| ensures ds[k].matches[j].start < ds[k].matches[j].end {
        StatingMember(items, ds[k].expression, ds[k].matches[j]);
      }
    }
  }

  lemma {:induction false} CluesNonEmpty(items: seq<Item>)
    requires forall i | 0 <= i < |items| :: items[i].found.start < items[i].found.end
    ensures NonEmptyMatches(Clues(items))
  {
    var clues := Clues(items);
    forall k | 0 <= k < |clues| ensures clues[k].start < clues[k].end {
      ClueMember(items, clues[k]);
      var i :| 0 <= i < |items| && items[i].clue && items[i].found == clues[k];
    }
  }

  // Texts that continue ----------------------------------------------------------------------------------

  /** Whether a match stays with its expression: a license text that goes on after the match becomes a clue. */
  function Stays(continues: (nat, nat) -> bool): Found -> bool {
    (m: Found) => !(m.kind == Text && continues(m.start, m.end))
  }

  /** The matches that do not stay, as clues. */
  function Downgraded(keep: Found -> bool, ms: seq<Found>): seq<Found> {
    if ms == [] then []
    else
      var last := ms[|ms| - 1];
      Downgraded(keep, ms[..|ms| - 1]) + if keep(last) then [] else [last.(kind := Clue)]
  }

  function DowngradedIn(keep: Found -> bool, ds: seq<Detection>): seq<Found> {
    if ds == [] then [] else DowngradedIn(keep, ds[..|ds| - 1]) + Downgraded(keep, ds[|ds| - 1].matches)
  }

  method SplitMatches(ms: seq<Found>, continues: (nat, nat) -> bool) returns (kept: seq<Found>, clues: seq<Found>)
    ensures kept == Filter(Stays(continues), ms) && clues == Downgraded(Stays(continues), ms)
  {
    kept, clues := [], [];
    for i := 0 to |ms|
      invariant kept == Filter(Stays(continues), ms[..i]) && clues == Downgraded(Stays(continues), ms[..i])
    {
      TakeNext(ms, i);
      FilterOne(Stays(continues), ms, i);
      if ms[i].kind == Text && continues(ms[i].start, ms[i].end) {
        clues := clues + [ms[i].(kind := Clue)];
      } else {
        kept := kept + [ms[i]];
      }
    }
    assert ms[..|ms|] == ms;
  }

  /** Texts that continue past their match become clues; a detection left empty goes. */
  method DowngradeContinuedText(before: seq<Detection>, clues0: seq<Found>, continues: (nat, nat) -> bool)
    returns (after: seq<Detection>, clues: seq<Found>)
    requires Grouped(before)
    ensures Removed(before, after, Stays(continues)) && clues == clues0 + DowngradedIn(Stays(continues), before)
  {
    after, clues := [], clues0;
    assert clues0 + [] == clues0;
    for i := 0 to |before|
      invariant Removed(before[..i], after, Stays(continues))
        && clues == clues0 + DowngradedIn(Stays(continues), before[..i])
    {
      var kept, gone := SplitMatches(before[i].matches, continues);
      RemoveOne(before, i, after, Stays(continues), kept);
      TakeNext(before, i);
      Regroup(clues0, DowngradedIn(Stays(continues), before[..i]), gone);
      clues := clues + gone;
      if |kept| != 0 {
        after := after + [before[i].(matches := kept)];
      }
    }
    assert before[..|before|] == before;
  }

  ghost function Continuing(continues: (nat, nat) -> bool, ms: seq<Found>): nat -> bool {
    (i: nat) => i < |ms| && ms[i].kind == Text && continues(ms[i].start, ms[i].end)
  }

  ghost function ClueOf(ms: seq<Found>): (nat, Found) -> bool {
    (i: nat, c: Found) => i < |ms| && c == ms[i].(kind := Clue)
  }

  /** Just the texts that continue become clues, each once and in order. */
  lemma {:induction false} DowngradedPicks(continues: (nat, nat) -> bool, ms: seq<Found>)
    ensures Picks(0, |ms|, Continuing(continues, ms), ClueOf(ms), Downgraded(Stays(continues), ms))
  {
    if ms == [] {
      PicksNone(0, Continuing(continues, ms), ClueOf(ms));
    } else {
      var n := |ms| - 1;
      DowngradedPicks(continues, ms[..n]);
      DowngradedLast(continues, ms, n, Downgraded(Stays(continues), ms[..n]));
    }
  }

  lemma DowngradedLast(continues: (nat, nat) -> bool, ms: seq<Found>, n: nat, before: seq<Found>)
    requires n + 1 == |ms| && before == Downgraded(Stays(continues), ms[..n])
    requires Picks(0, n, Continuing(continues, ms[..n]), ClueOf(ms[..n]), before)
    ensures Picks(0, n + 1, Continuing(continues, ms), ClueOf(ms), Downgraded(Stays(continues), ms))
  {
    PicksAlike(0, n, Continuing(continues, ms[..n]), ClueOf(ms[..n]), Continuing(continues, ms), ClueOf(ms), before);
    PicksNext(0, n, Continuing(continues, ms), ClueOf(ms), before,
              if Stays(continues)(ms[n]) then [] else [ms[n].(kind := Clue)]);
  }

  lemma {:induction false} DowngradedMember(keep: Found -> bool, ms: seq<Found>, c: Found)
    ensures c in Downgraded(keep, ms) <==> exists m :: m in ms && !keep(m) && c == m.(kind := Clue)
  {
    if ms == [] {
    } else {
      var n := |ms| - 1;
      DowngradedMember(keep, ms[..n], c);
      assert ms == ms[..n] + [ms[n]];
    }
  }

  lemma {:induction false} DowngradedInMember(keep: Found -> bool, ds: seq<Detection>, c: Found)
    ensures c in DowngradedIn(keep, ds) <==> exists d, m ::
      d in ds && m in d.matches && !keep(m) && c == m.(kind := Clue)
  {
    if ds == [] {
    } else {
      var n := |ds| - 1;
      DowngradedInMember(keep, ds[..n], c);
      DowngradedMember(keep, ds[n].matches, c);
      assert ds == ds[..n] + [ds[n]];
    }
  }
}
