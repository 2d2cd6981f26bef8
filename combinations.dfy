/**
 * The per-location search: for each orientation, build the location's slot
 * list from all of its listings, run the packer once per vehicle ordering on
 * a fresh copy of that list, and collect every non-empty used-set.
 */
module Combinations {
  import opened SlotGeneration
  import opened Packing
  import opened Runs

  /** The orientations, in the order they are tried. */
  const Orientations: seq<Orientation> := [ByWidth, ByLength]

  /**
   * Whether a packing run records `c`: it packed every vehicle and its
   * used-set is `c`, which is non-empty (a failed run and an empty used-set
   * are both skipped).
   */
  predicate Records(r: Outcome, c: set<Id>)
  {
    r.Packed? && r.used == c && c != {}
  }

  /** What one packing run contributes to the collection. */
  function Recorded(r: Outcome): set<set<Id>>
  {
    if r.Packed? && r.used != {} then {r.used} else {}
  }

  /** The combinations recorded for one orientation, over the given orderings. */
  function CombosFor(ls: seq<Listing>, o: Orientation, orderings: seq<seq<nat>>): set<set<Id>>
  {
    if orderings == [] then {}
    else CombosFor(ls, o, orderings[..|orderings| - 1])
         + Recorded(Pack(orderings[|orderings| - 1], SlotsFor(ls, o)))
  }

  /** The combinations recorded over a list of orientations. */
  function CombosOver(ls: seq<Listing>, os: seq<Orientation>, orderings: seq<seq<nat>>): set<set<Id>>
  {
    if os == [] then {}
    else CombosOver(ls, os[..|os| - 1], orderings) + CombosFor(ls, os[|os| - 1], orderings)
  }

  /** Everything the search records for a location. */
  function Combinations(ls: seq<Listing>, orderings: seq<seq<nat>>): set<set<Id>>
  {
    CombosOver(ls, Orientations, orderings)
  }

  /**
   * The search. Each run gets a freshly allocated copy of the slot list, so
   * no run sees another's placements.
   */
  method FitListings(ls: seq<Listing>, orderings: seq<seq<nat>>) returns (combos: set<set<Id>>)
    ensures combos == Combinations(ls, orderings)
  {
    combos := {};
    for n := 0 to |Orientations|
      invariant combos == CombosOver(ls, Orientations[..n], orderings)
    {
      var orientation := Orientations[n];
      var slots := BuildSlots(ls, orientation);
      for j := 0 to |orderings|
        invariant combos == CombosOver(ls, Orientations[..n], orderings) + CombosFor(ls, orientation, orderings[..j])
      {
        var copy := new Slot[|slots|](i requires 0 <= i < |slots| => slots[i]);
        assert copy[..] == slots;
        var listingsUsed := FitOrder(orderings[j], copy);
        if listingsUsed.Some? && listingsUsed.value != {} {
          combos := combos + {listingsUsed.value};
        }
        assert orderings[..j + 1][..j] == orderings[..j];
      }
      assert orderings[..|orderings|] == orderings;
      assert Orientations[..n + 1][..n] == Orientations[..n];
    }
    assert Orientations[..|Orientations|] == Orientations;
  }

  lemma {:induction false} CombosForMembers(ls: seq<Listing>, o: Orientation, orderings: seq<seq<nat>>, c: set<Id>)
    ensures c in CombosFor(ls, o, orderings)
            <==> exists j :: 0 <= j < |orderings| && Records(Pack(orderings[j], SlotsFor(ls, o)), c)
  {
    if orderings != [] {
      var last := |orderings| - 1;
      var init := orderings[..last];
      CombosForMembers(ls, o, init, c);
      var recordedLast := Records(Pack(orderings[last], SlotsFor(ls, o)), c);
      assert c in CombosFor(ls, o, orderings) <==> c in CombosFor(ls, o, init) || recordedLast;
      assert forall j :: 0 <= j < last ==> init[j] == orderings[j];
      if recordedLast {
        assert 0 <= last < |orderings| && Records(Pack(orderings[last], SlotsFor(ls, o)), c);
      }
    }
  }

  /**
   * Soundness and completeness of the search relative to the packer: a set is
   * recorded exactly when, in some orientation, some ordering packs completely
   * into the location's slot list and uses exactly that non-empty set.
   */
  lemma CombinationsIff(ls: seq<Listing>, orderings: seq<seq<nat>>, c: set<Id>)
    ensures c in Combinations(ls, orderings)
            <==> exists o: Orientation, j :: 0 <= j < |orderings| && Records(Pack(orderings[j], SlotsFor(ls, o)), c)
  {
    assert Orientations[..1] == [ByWidth];
    assert [ByWidth][..0] == [];
    assert CombosOver(ls, [ByWidth], orderings) == CombosFor(ls, ByWidth, orderings);
    assert Combinations(ls, orderings) == CombosFor(ls, ByWidth, orderings) + CombosFor(ls, ByLength, orderings);
    CombosForMembers(ls, ByWidth, orderings, c);
    CombosForMembers(ls, ByLength, orderings, c);
    if exists o: Orientation, j :: 0 <= j < |orderings| && Records(Pack(orderings[j], SlotsFor(ls, o)), c) {
      var o: Orientation, j :| 0 <= j < |orderings| && Records(Pack(orderings[j], SlotsFor(ls, o)), c);
      assert o == ByWidth || o == ByLength;
    }
  }

  /**
   * Every recorded combination is a non-empty set of identifiers of the
   * location's own listings.
   */
  lemma CombinationsWithinListings(ls: seq<Listing>, orderings: seq<seq<nat>>, c: set<Id>)
    requires c in Combinations(ls, orderings)
    ensures c != {} && c <= Ids(ls)
  {
    CombinationsIff(ls, orderings, c);
    var o: Orientation, j :| 0 <= j < |orderings| && Records(Pack(orderings[j], SlotsFor(ls, o)), c);
    var slots := SlotsFor(ls, o);
    PackSucceeds(orderings[j], slots);
    forall x | x in Owners(slots) ensures x in Ids(ls) {
      var k :| 0 <= k < |slots| && slots[k].owner == x;
      SlotsForOrigin(ls, o, k);
    }
  }

  /**
   * An ordering that packs completely is recorded exactly when it holds at
   * least one vehicle: the empty ordering's empty used-set is never recorded.
   */
  lemma PackedOrderingRecorded(ls: seq<Listing>, orderings: seq<seq<nat>>, o: Orientation, j: nat)
    requires j < |orderings| && Pack(orderings[j], SlotsFor(ls, o)).Packed?
    ensures Pack(orderings[j], SlotsFor(ls, o)).used in Combinations(ls, orderings) <==> orderings[j] != []
  {
    var u := Pack(orderings[j], SlotsFor(ls, o)).used;
    PackSucceeds(orderings[j], SlotsFor(ls, o));
    CombinationsIff(ls, orderings, u);
    if u in Combinations(ls, orderings) {
      CombinationsWithinListings(ls, orderings, u);
    } else {
      assert !Records(Pack(orderings[j], SlotsFor(ls, o)), u);
    }
  }

  /** No packing run of a location's slot list leaves a slot with negative capacity. */
  lemma SearchCapacitiesNonNegative(ls: seq<Listing>, o: Orientation, order: seq<nat>)
    ensures forall k :: 0 <= k < |Pack(order, SlotsFor(ls, o)).after| ==> Pack(order, SlotsFor(ls, o)).after[k].capacity >= 0
  {
    var slots := SlotsFor(ls, o);
    PackShape(order, slots);
    forall k | 0 <= k < |slots| ensures slots[k].capacity >= 0 {
      SlotsForOrigin(ls, o, k);
    }
  }

  /**
   * One 40 x 20 listing and vehicles of 10 and 20: both orientations pack, and
   * the listing is the only combination recorded.
   */
  lemma OneListingExample()
    ensures Combinations([Listing("A", 40, 20, 1000)], [[10, 20]]) == {{"A"}}
  {
    var ls := [Listing("A", 40, 20, 1000)];
    var order: seq<nat> := [10, 20];
    forall o: Orientation ensures Records(Pack(order, SlotsFor(ls, o)), {"A"}) {
      OneListingPacks(o);
    }
    forall c ensures c in Combinations(ls, [order]) <==> c == {"A"} {
      CombinationsIff(ls, [order], c);
    }
  }

  lemma OneListingPacks(o: Orientation)
    ensures Pack([10, 20], SlotsFor([Listing("A", 40, 20, 1000)], o)) == Packed({"A"}, Pack([10, 20], SlotsFor([Listing("A", 40, 20, 1000)], o)).after)
  {
    var ls := [Listing("A", 40, 20, 1000)];
    var lane := Slot("A", LaneCapacity(ls[0], o));
    var slots := SlotsFor(ls, o);
    assert LaneRuns(ls, o) == [LaneRun(ls[0], o)];
    assert slots == Repeat(lane, SlotCount(ls[0], o));
    assert slots[0] == lane && slots[1] == lane;
    assert FirstFit(slots, 10) == Some(0);
    var s1 := Park(slots, 0, 10);
    assert s1[1] == lane;
    assert FirstFit(s1, 20) == Some(if o == ByWidth then 0 else 1);
  }
}
