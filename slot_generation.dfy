/**
 * Slot generation. A listing is a rectangle cut into parallel parking lanes
 * 10 units wide; each lane becomes one slot whose capacity is the lane's
 * length. The "width" orientation lays the lanes across the width (width // 10
 * lanes, each as long as the listing's length), the "length" orientation
 * across the length (length // 10 lanes, each as long as the width).
 */
module SlotGeneration {
  import opened Runs

  type Id = string

  /** A listing record of one location; only its id and dimensions take part in packing. */
  datatype Listing = Listing(id: Id, length: nat, width: nat, priceInCents: nat)

  /** One lane: the listing that owns it and the length still free in it. */
  datatype Slot = Slot(owner: Id, capacity: int)

  /** The two orientations, named after the dimension that is divided into lanes. */
  datatype Orientation = ByWidth | ByLength

  /** Lane width in the listing's unit. */
  const LaneWidth: nat := 10

  /** How many lanes a listing has in an orientation (integer division truncates). */
  function SlotCount(l: Listing, o: Orientation): nat
  {
    match o
    case ByWidth => l.width / LaneWidth
    case ByLength => l.length / LaneWidth
  }

  /** The length of each of those lanes: the other dimension. */
  function LaneCapacity(l: Listing, o: Orientation): nat
  {
    match o
    case ByWidth => l.length
    case ByLength => l.width
  }

  /** The lanes of one listing, as a run of identical slots. */
  function LaneRun(l: Listing, o: Orientation): Run<Slot>
  {
    Run(Slot(l.id, LaneCapacity(l, o)), SlotCount(l, o))
  }

  function LaneRuns(ls: seq<Listing>, o: Orientation): seq<Run<Slot>>
  {
    seq(|ls|, p requires 0 <= p < |ls| => LaneRun(ls[p], o))
  }

  /** The slot list of a location in one orientation: each listing's lanes, in listing order. */
  function SlotsFor(ls: seq<Listing>, o: Orientation): seq<Slot>
  {
    Expand(LaneRuns(ls, o))
  }

  /** The identifiers of a collection of listings. */
  function Ids(ls: seq<Listing>): set<Id>
  {
    set p | 0 <= p < |ls| :: ls[p].id
  }

  /** Total number of lanes over all listings. */
  function TotalSlotCount(ls: seq<Listing>, o: Orientation): nat
  {
    if ls == [] then 0 else SlotCount(ls[0], o) + TotalSlotCount(ls[1..], o)
  }

  /**
   * Builds the slot list of a location as the packing search does: start
   * empty, and for each listing extend it with its lanes for the orientation.
   */
  method BuildSlots(ls: seq<Listing>, o: Orientation) returns (slots: seq<Slot>)
    ensures slots == SlotsFor(ls, o)
  {
    slots := [];
    for p := 0 to |ls|
      invariant slots == Expand(LaneRuns(ls, o)[..p])
    {
      var listing := ls[p];
      if o == ByWidth {
        var numSlots := listing.width / 10;
        slots := slots + Repeat(Slot(listing.id, listing.length), numSlots);
      } else {
        var numSlots := listing.length / 10;
        slots := slots + Repeat(Slot(listing.id, listing.width), numSlots);
      }
      assert LaneRuns(ls, o)[..p + 1] == LaneRuns(ls, o)[..p] + [LaneRun(listing, o)];
      ExpandSnoc(LaneRuns(ls, o)[..p], LaneRun(listing, o));
    }
    assert LaneRuns(ls, o)[..|ls|] == LaneRuns(ls, o);
  }

  /**
   * Layout of the slot list: listing `p` contributes exactly SlotCount lanes of
   * capacity LaneCapacity, owned by it, placed after the lanes of every
   * earlier listing and before those of every later one.
   */
  lemma SlotsForSplit(ls: seq<Listing>, o: Orientation, p: nat)
    requires p < |ls|
    ensures SlotsFor(ls, o)
         == SlotsFor(ls[..p], o)
            + Repeat(Slot(ls[p].id, LaneCapacity(ls[p], o)), SlotCount(ls[p], o))
            + SlotsFor(ls[p + 1..], o)
  {
    var rs := LaneRuns(ls, o);
    ExpandSplit(rs, p);
    assert rs[..p] == LaneRuns(ls[..p], o);
    assert rs[p + 1..] == LaneRuns(ls[p + 1..], o);
  }

  /** The slot list has one slot per lane of every listing. */
  lemma {:induction false} SlotsForLength(ls: seq<Listing>, o: Orientation)
    ensures |SlotsFor(ls, o)| == TotalSlotCount(ls, o)
  {
    if ls != [] {
      SlotsForSplit(ls, o, 0);
      assert ls[..0] == [];
      assert SlotsFor([], o) == [];
      SlotsForLength(ls[1..], o);
    }
  }

  /**
   * Every slot belongs to one of the listings, and has that listing's lane
   * length as its (non-negative) capacity.
   */
  lemma SlotsForOrigin(ls: seq<Listing>, o: Orientation, j: nat)
    requires j < |SlotsFor(ls, o)|
    ensures exists p :: 0 <= p < |ls| && SlotCount(ls[p], o) > 0
                        && SlotsFor(ls, o)[j] == Slot(ls[p].id, LaneCapacity(ls[p], o))
    ensures SlotsFor(ls, o)[j].owner in Ids(ls)
    ensures SlotsFor(ls, o)[j].capacity >= 0
  {
    var rs := LaneRuns(ls, o);
    ExpandMember(rs, j);
    var p :| 0 <= p < |rs| && rs[p].count > 0 && Expand(rs)[j] == rs[p].value;
    assert rs[p] == LaneRun(ls[p], o);
  }
}
