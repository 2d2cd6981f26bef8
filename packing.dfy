/**
 * The greedy first-fit packer. Vehicles are taken in the order given; each
 * goes into the first slot, in slot-list order, whose remaining capacity is
 * at least its length, and that slot's capacity is reduced by the length.
 * The first vehicle that fits nowhere ends the run with no result; vehicles
 * after it are never tried.
 */
module Packing {
  import opened SlotGeneration

  datatype Option<T> = None | Some(value: T)

  /**
   * How a packing run ends: every vehicle placed, with the listings whose
   * slots were used; or stopped at vehicle index `vehicle`, which fitted
   * nowhere. `after` is the slot list as the run left it.
   */
  datatype Outcome = Packed(used: set<Id>, after: seq<Slot>) | NoFit(vehicle: nat, after: seq<Slot>)

  /** The lowest-index slot whose remaining capacity admits length `v`, if any. */
  function FirstFit(slots: seq<Slot>, v: nat): (r: Option<nat>)
    ensures r.Some? ==> r.value < |slots| && v <= slots[r.value].capacity
    ensures r.Some? ==> forall j :: 0 <= j < r.value ==> slots[j].capacity < v
    ensures r.None? ==> forall j :: 0 <= j < |slots| ==> slots[j].capacity < v
  {
    if slots == [] then None
    else if v <= slots[0].capacity then Some(0)
    else match FirstFit(slots[1..], v)
      case None => None
      case Some(i) => Some(i + 1)
  }

  /** A slot that admits `v` and has only non-admitting slots before it is the first fit. */
  lemma FirstFitAt(slots: seq<Slot>, v: nat, i: nat)
    requires i < |slots| && v <= slots[i].capacity
    requires forall j :: 0 <= j < i ==> slots[j].capacity < v
    ensures FirstFit(slots, v) == Some(i)
  {
  }

  /** The slot list after a vehicle of length `v` is parked in slot `i`. */
  function Park(slots: seq<Slot>, i: nat, v: nat): seq<Slot>
    requires i < |slots|
  {
    slots[i := Slot(slots[i].owner, slots[i].capacity - v)]
  }

  /**
   * The packing run from vehicle `k` on, with `slots` as the current slot list
   * and `used` the listings used by vehicles 0 .. k-1.
   */
  function PackFrom(order: seq<nat>, k: nat, slots: seq<Slot>, used: set<Id>): Outcome
    requires k <= |order|
    decreases |order| - k
  {
    if k == |order| then Packed(used, slots)
    else match FirstFit(slots, order[k])
      case None => NoFit(k, slots)
      case Some(i) => PackFrom(order, k + 1, Park(slots, i, order[k]), used + {slots[i].owner})
  }

  /** The whole packing run of `order` against `slots`. */
  function Pack(order: seq<nat>, slots: seq<Slot>): Outcome
  {
    PackFrom(order, 0, slots, {})
  }

  /**
   * The inner scan of the packer: park a vehicle of length `v` in the first
   * slot that admits it, if there is one, and say which listing owns it.
   */
  method ParkFirstFit(v: nat, slots: array<Slot>) returns (updated: bool, owner: Id)
    modifies slots
    ensures updated == FirstFit(old(slots[..]), v).Some?
    ensures updated ==> owner == old(slots[..])[FirstFit(old(slots[..]), v).value].owner
    ensures slots[..] == if updated then Park(old(slots[..]), FirstFit(old(slots[..]), v).value, v) else old(slots[..])
  {
    ghost var before := slots[..];
    updated, owner := false, "";
    var i := 0;
    while i < slots.Length
      invariant 0 <= i <= slots.Length
      invariant !updated && slots[..] == before
      invariant forall j :: 0 <= j < i ==> before[j].capacity < v
    {
      var slot := slots[i];
      if v <= slot.capacity {
        slots[i] := Slot(slot.owner, slot.capacity - v);
        updated, owner := true, slot.owner;
        FirstFitAt(before, v, i);
        assert slots[..] == Park(before, i, v);
        return;
      }
      i := i + 1;
    }
  }

  /**
   * The packer, in place: `slots` is the caller's copy of the slot list and
   * is left as the run leaves it (also when a vehicle does not fit, after the
   * earlier vehicles were placed). Returns the listings used, or None.
   */
  method FitOrder(order: seq<nat>, slots: array<Slot>) returns (used: Option<set<Id>>)
    modifies slots
    ensures slots[..] == Pack(order, old(slots[..])).after
    ensures used == if Pack(order, old(slots[..])).Packed? then Some(Pack(order, old(slots[..])).used) else None
  {
    ghost var initial := slots[..];
    var listingsUsed: set<Id> := {};
    var k := 0;
    while k < |order|
      invariant 0 <= k <= |order|
      invariant Pack(order, initial) == PackFrom(order, k, slots[..], listingsUsed)
    {
      var updated, owner := ParkFirstFit(order[k], slots);
      if !updated {
        used := None;
        return;
      }
      listingsUsed := listingsUsed + {owner};
      k := k + 1;
    }
    used := Some(listingsUsed);
  }

  /** Sum of the remaining capacities of a slot list. */
  function Total(slots: seq<Slot>): int
  {
    if slots == [] then 0 else slots[0].capacity + Total(slots[1..])
  }

  /** Sum of a list of vehicle lengths. */
  function Sum(vs: seq<nat>): nat
  {
    if vs == [] then 0 else vs[0] + Sum(vs[1..])
  }

  /** Owners of the slots of a list. */
  function Owners(slots: seq<Slot>): set<Id>
  {
    set j | 0 <= j < |slots| :: slots[j].owner
  }

  /** Owners of the slots whose capacity went down between `before` and `after`. */
  function Touched(before: seq<Slot>, after: seq<Slot>): set<Id>
  {
    set j | 0 <= j < |before| && j < |after| && after[j].capacity < before[j].capacity :: before[j].owner
  }

  lemma {:induction false} TotalPark(slots: seq<Slot>, i: nat, v: nat)
    requires i < |slots|
    ensures Total(Park(slots, i, v)) == Total(slots) - v
  {
    if i > 0 {
      assert Park(slots, i, v)[1..] == Park(slots[1..], i - 1, v);
      TotalPark(slots[1..], i - 1, v);
    } else {
      assert Park(slots, i, v)[1..] == slots[1..];
    }
  }

  /**
   * A run keeps the length of the slot list and the owner of every slot,
   * never raises a capacity, and never takes a non-negative capacity below
   * zero (a slot is reduced only when it admits the vehicle).
   */
  lemma {:induction false} PackFromShape(order: seq<nat>, k: nat, slots: seq<Slot>, used: set<Id>)
    requires k <= |order|
    ensures |PackFrom(order, k, slots, used).after| == |slots|
    ensures forall j :: 0 <= j < |slots| ==>
              PackFrom(order, k, slots, used).after[j].owner == slots[j].owner
              && PackFrom(order, k, slots, used).after[j].capacity <= slots[j].capacity
              && (slots[j].capacity >= 0 ==> PackFrom(order, k, slots, used).after[j].capacity >= 0)
    decreases |order| - k
  {
    if k < |order| {
      match FirstFit(slots, order[k]) {
        case None =>
        case Some(i) =>
          PackFromShape(order, k + 1, Park(slots, i, order[k]), used + {slots[i].owner});
      }
    }
  }

  /** A failed run names a vehicle not yet placed, and at that point no slot admits it. */
  lemma {:induction false} PackFromStops(order: seq<nat>, k: nat, slots: seq<Slot>, used: set<Id>)
    requires k <= |order|
    ensures PackFrom(order, k, slots, used).NoFit? ==>
              k <= PackFrom(order, k, slots, used).vehicle < |order|
              && FirstFit(PackFrom(order, k, slots, used).after, order[PackFrom(order, k, slots, used).vehicle]).None?
    decreases |order| - k
  {
    if k < |order| {
      match FirstFit(slots, order[k]) {
        case None =>
        case Some(i) =>
          PackFromStops(order, k + 1, Park(slots, i, order[k]), used + {slots[i].owner});
      }
    }
  }

  /** Capacity is conserved: what the run took out is the sum of the vehicles it placed. */
  lemma {:induction false} PackFromConserves(order: seq<nat>, k: nat, slots: seq<Slot>, used: set<Id>)
    requires k <= |order|
    ensures PackFrom(order, k, slots, used).Packed? ==>
              Total(PackFrom(order, k, slots, used).after) == Total(slots) - Sum(order[k..])
    ensures PackFrom(order, k, slots, used).NoFit? ==>
              k <= PackFrom(order, k, slots, used).vehicle <= |order|
              && Total(PackFrom(order, k, slots, used).after)
                 == Total(slots) - Sum(order[k..PackFrom(order, k, slots, used).vehicle])
    decreases |order| - k
  {
    PackFromStops(order, k, slots, used);
    if k < |order| {
      match FirstFit(slots, order[k]) {
        case None =>
          assert order[k..k] == [];
        case Some(i) =>
          var next := Park(slots, i, order[k]);
          PackFromConserves(order, k + 1, next, used + {slots[i].owner});
          TotalPark(slots, i, order[k]);
          assert order[k..][1..] == order[k + 1..];
          var r := PackFrom(order, k, slots, used);
          if r.NoFit? {
            assert order[k..r.vehicle][0] == order[k];
            assert order[k..r.vehicle][1..] == order[k + 1..r.vehicle];
          }
      }
    } else {
      assert order[k..] == [];
    }
  }

  lemma SameOwners(a: seq<Slot>, b: seq<Slot>)
    requires |a| == |b|
    requires forall j :: 0 <= j < |a| ==> a[j].owner == b[j].owner
    ensures Owners(a) == Owners(b)
  {
  }

  /** A slot that lost capacity over a step either is the one parked in, or lost it afterwards. */
  lemma TouchedStep(slots: seq<Slot>, i: nat, v: nat, a: seq<Slot>)
    requires i < |slots|
    ensures Touched(slots, a) <= {slots[i].owner} + Touched(Park(slots, i, v), a)
  {
  }

  /** Conversely, when the parked length is positive and capacities only go down afterwards. */
  lemma TouchedStepPositive(slots: seq<Slot>, i: nat, v: nat, a: seq<Slot>)
    requires i < |slots| && v > 0 && |a| == |slots|
    requires forall j :: 0 <= j < |slots| ==> a[j].capacity <= Park(slots, i, v)[j].capacity
    ensures {slots[i].owner} + Touched(Park(slots, i, v), a) <= Touched(slots, a)
  {
  }

  /**
   * The used-set of a successful run: it contains the owner of every slot
   * whose capacity went down, only owners of slots in the list, at least one
   * owner per run with a vehicle, and, when every vehicle is longer than
   * zero, exactly the owners of the slots whose capacity went down.
   */
  lemma {:induction false} PackFromUsed(order: seq<nat>, k: nat, slots: seq<Slot>, used: set<Id>)
    requires k <= |order|
    requires PackFrom(order, k, slots, used).Packed?
    ensures used + Touched(slots, PackFrom(order, k, slots, used).after) <= PackFrom(order, k, slots, used).used
    ensures PackFrom(order, k, slots, used).used <= used + Owners(slots)
    ensures k < |order| ==> PackFrom(order, k, slots, used).used != {}
    ensures (forall m :: k <= m < |order| ==> order[m] > 0) ==>
              PackFrom(order, k, slots, used).used == used + Touched(slots, PackFrom(order, k, slots, used).after)
    decreases |order| - k
  {
    var r := PackFrom(order, k, slots, used);
    if k == |order| {
      assert Touched(slots, slots) == {};
    } else {
      var v := order[k];
      var i := FirstFit(slots, v).value;
      var next := Park(slots, i, v);
      var used1 := used + {slots[i].owner};
      assert r == PackFrom(order, k + 1, next, used1);
      PackFromUsed(order, k + 1, next, used1);
      SameOwners(next, slots);
      TouchedStep(slots, i, v, r.after);
      assert slots[i].owner in Owners(slots);
      if forall m :: k <= m < |order| ==> order[m] > 0 {
        PackFromShape(order, k + 1, next, used1);
        TouchedStepPositive(slots, i, v, r.after);
      }
    }
  }

  /** Running the first `n` vehicles and then resuming from the state they leave. */
  function Resume(r: Outcome, order: seq<nat>, n: nat): Outcome
    requires n <= |order|
  {
    if r.Packed? then PackFrom(order, n, r.after, r.used) else r
  }

  /** A run over `order` is the run over its first `n` vehicles, continued. */
  lemma {:induction false} PackFromSplit(order: seq<nat>, n: nat, k: nat, slots: seq<Slot>, used: set<Id>)
    requires k <= n <= |order|
    ensures PackFrom(order, k, slots, used) == Resume(PackFrom(order[..n], k, slots, used), order, n)
    decreases n - k
  {
    if k < n {
      assert order[..n][k] == order[k];
      match FirstFit(slots, order[k]) {
        case None =>
        case Some(i) =>
          PackFromSplit(order, n, k + 1, Park(slots, i, order[k]), used + {slots[i].owner});
      }
    }
  }

  /** The first `m` vehicles pack, and then vehicle `m` fits in no slot. */
  predicate StuckAt(order: seq<nat>, slots: seq<Slot>, m: nat)
  {
    m < |order| && Pack(order[..m], slots).Packed? && FirstFit(Pack(order[..m], slots).after, order[m]).None?
  }

  /**
   * The run fails exactly when some vehicle finds no slot once the vehicles
   * before it are placed; it fails at that vehicle, and the slot list is left
   * as those earlier vehicles left it.
   */
  lemma PackFailsIff(order: seq<nat>, slots: seq<Slot>)
    ensures Pack(order, slots).NoFit? ==> StuckAt(order, slots, Pack(order, slots).vehicle)
    ensures forall m: nat :: StuckAt(order, slots, m) ==> Pack(order, slots) == NoFit(m, Pack(order[..m], slots).after)
  {
    var r := Pack(order, slots);
    if r.NoFit? {
      PackFromStops(order, 0, slots, {});
      var m := r.vehicle;
      PackFromSplit(order, m, 0, slots, {});
      PackFromStops(order[..m], 0, slots, {});
      var p := Pack(order[..m], slots);
      assert p.Packed?;
      assert r == PackFrom(order, m, p.after, p.used);
      if FirstFit(p.after, order[m]).Some? {
        var i := FirstFit(p.after, order[m]).value;
        PackFromStops(order, m + 1, Park(p.after, i, order[m]), p.used + {p.after[i].owner});
        assert false;
      }
    }
    forall m: nat | StuckAt(order, slots, m) ensures r == NoFit(m, Pack(order[..m], slots).after) {
      PackFromSplit(order, m, 0, slots, {});
    }
  }

  /** Failure short-circuits: vehicles after the one that fits nowhere do not change the outcome. */
  lemma PackIgnoresLaterVehicles(order: seq<nat>, slots: seq<Slot>, tail: seq<nat>)
    requires Pack(order, slots).NoFit?
    ensures Pack(order, slots).vehicle < |order|
    ensures Pack(order[..Pack(order, slots).vehicle + 1] + tail, slots) == Pack(order, slots)
  {
    PackFailsIff(order, slots);
    var m := Pack(order, slots).vehicle;
    var order' := order[..m + 1] + tail;
    assert order'[..m] == order[..m];
    assert order'[m] == order[m];
    assert StuckAt(order', slots, m);
    PackFailsIff(order', slots);
  }

  /**
   * One step of the run: after the first `m` vehicles, vehicle `m` goes into
   * the lowest-index slot that admits it; that slot loses exactly its length,
   * every other slot is unchanged, and the slot's owner joins the used-set.
   */
  lemma PackStep(order: seq<nat>, slots: seq<Slot>, m: nat)
    requires m < |order| && Pack(order[..m], slots).Packed?
    requires FirstFit(Pack(order[..m], slots).after, order[m]).Some?
    ensures var s := Pack(order[..m], slots).after;
            var i := FirstFit(s, order[m]).value;
            Pack(order[..m + 1], slots)
            == Packed(Pack(order[..m], slots).used + {s[i].owner}, s[i := Slot(s[i].owner, s[i].capacity - order[m])])
  {
    var prefix := order[..m + 1];
    assert prefix[..m] == order[..m];
    assert prefix[m] == order[m];
    PackFromSplit(prefix, m, 0, slots, {});
    var p := Pack(order[..m], slots);
    var i := FirstFit(p.after, order[m]).value;
    assert Pack(prefix, slots) == PackFrom(prefix, m, p.after, p.used);
    assert PackFrom(prefix, m, p.after, p.used)
        == PackFrom(prefix, m + 1, Park(p.after, i, order[m]), p.used + {p.after[i].owner});
  }

  /** Properties of a whole run that succeeds. */
  lemma PackSucceeds(order: seq<nat>, slots: seq<Slot>)
    requires Pack(order, slots).Packed?
    ensures Total(Pack(order, slots).after) == Total(slots) - Sum(order)
    ensures Touched(slots, Pack(order, slots).after) <= Pack(order, slots).used <= Owners(slots)
    ensures Pack(order, slots).used == {} <==> order == []
    ensures (forall m :: 0 <= m < |order| ==> order[m] > 0) ==>
              Pack(order, slots).used == Touched(slots, Pack(order, slots).after)
  {
    PackFromConserves(order, 0, slots, {});
    assert order[0..] == order;
    PackFromUsed(order, 0, slots, {});
  }

  /** A run that fails has taken out exactly the lengths of the vehicles before the failing one. */
  lemma PackFailsConserves(order: seq<nat>, slots: seq<Slot>)
    requires Pack(order, slots).NoFit?
    ensures Pack(order, slots).vehicle < |order|
    ensures Total(Pack(order, slots).after) == Total(slots) - Sum(order[..Pack(order, slots).vehicle])
  {
    PackFromStops(order, 0, slots, {});
    PackFromConserves(order, 0, slots, {});
    assert order[0..Pack(order, slots).vehicle] == order[..Pack(order, slots).vehicle];
  }

  /**
   * Whatever the outcome, the slot list keeps its length and owners, no
   * capacity goes up, and a slot list with no negative capacity never gets one.
   */
  lemma PackShape(order: seq<nat>, slots: seq<Slot>)
    ensures |Pack(order, slots).after| == |slots|
    ensures forall j :: 0 <= j < |slots| ==>
              Pack(order, slots).after[j].owner == slots[j].owner
              && Pack(order, slots).after[j].capacity <= slots[j].capacity
              && (slots[j].capacity >= 0 ==> Pack(order, slots).after[j].capacity >= 0)
  {
    PackFromShape(order, 0, slots, {});
  }

  /**
   * The packer is order-sensitive, not an optimal bin packer: against lanes of
   * 30 (listing "A") and 10 (listing "B"), vehicles 10 then 30 fail, because
   * the 10 takes the front of the first lane that admits it, while 30 then 10
   * pack into both listings.
   */
  lemma OrderSensitive()
    ensures Pack([10, 30], [Slot("A", 30), Slot("B", 10)]) == NoFit(1, [Slot("A", 20), Slot("B", 10)])
    ensures Pack([30, 10], [Slot("A", 30), Slot("B", 10)]).Packed?
    ensures Pack([30, 10], [Slot("A", 30), Slot("B", 10)]).used == {"A", "B"}
  {
  }
}
