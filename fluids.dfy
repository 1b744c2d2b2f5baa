/**
  The mop transfer engine of AbsorbentSystem: an absorber (a mop) trades
  reagents with a puddle or with a refillable container (a bucket).

  Water and Holywater are the mop-friendly reagents; every other reagent is a
  contaminant. Each transfer is written twice: as a function over mixtures
  that gives the outcome, and as a method that performs the same splits and
  adds on the Solution objects, in the source's order.
 */
module Fluids {
  import opened Optional
  import opened Solutions

  const Water: ReagentId := "Water"
  const Holywater: ReagentId := "Holywater"
  const MopFriendlyReagents: set<ReagentId> := {Water, Holywater}

  const MopFriendly: Filter := Only(MopFriendlyReagents)
  const Contaminants: Filter := Without(MopFriendlyReagents)

  /** The solution holds nothing but mop-friendly reagents. */
  predicate IsMoppable(m: Mixture) {
    TotalOf(m, MopFriendly) == Volume(m)
  }

  lemma IsMoppableIffOnlyMopFriendly(m: Mixture)
    requires Pruned(m)
    ensures IsMoppable(m) <==> forall i :: 0 <= i < |m| ==> m[i].reagent in MopFriendlyReagents
    ensures IsMoppable(m) <==> TotalOf(m, Contaminants) == 0
  {
    TotalOfComplement(m, MopFriendly);
    NothingAdmitted(m, Contaminants);
  }

  // ---------------------------------------------------------------- puddle

  datatype PuddleOutcome =
    | NotAPuddle                                  // empty puddle: not handled, the refillable path is tried
    | AlreadyMoppable                             // nothing but mop-friendly reagents: handled, no transfer
    | NoWater                                     // the absorber holds no mop-friendly reagent: handled, no transfer
    | Swapped(absorber: Mixture, puddle: Mixture) // contaminants traded for the same volume of water

  /** The volume traded by a swap: contaminants pulled from the puddle, water given back. */
  function PuddleTradeVolume(absorber: Mixture, puddle: Mixture, pickupAmount: nat): nat {
    Min(Min(pickupAmount, TotalOf(absorber, MopFriendly)), TotalOf(puddle, Contaminants))
  }

  /** TryPuddleInteract, with the tile reaction on the water leaving the absorber taken as the identity. */
  function PuddleInteract(absorber: Mixture, puddle: Mixture, pickupAmount: nat): (o: PuddleOutcome)
    requires Pruned(absorber) && Pruned(puddle)
    ensures o.NotAPuddle? <==> Volume(puddle) == 0
    ensures o.AlreadyMoppable? <==> Volume(puddle) > 0 && TotalOf(puddle, Contaminants) == 0
    ensures o.NoWater? <==> Volume(puddle) > 0 && TotalOf(puddle, Contaminants) > 0 && TotalOf(absorber, MopFriendly) == 0
    ensures o.Swapped? ==> Pruned(o.absorber) && Pruned(o.puddle)
    ensures o.Swapped? ==>
      var moved := PuddleTradeVolume(absorber, puddle, pickupAmount);
      && TotalOf(o.puddle, Contaminants) == TotalOf(puddle, Contaminants) - moved
      && TotalOf(o.puddle, MopFriendly) == TotalOf(puddle, MopFriendly) + moved
      && TotalOf(o.absorber, MopFriendly) == TotalOf(absorber, MopFriendly) - moved
      && TotalOf(o.absorber, Contaminants) == TotalOf(absorber, Contaminants) + moved
    ensures o.Swapped? ==> forall g {:trigger TotalOf(o.absorber, g)} {:trigger TotalOf(o.puddle, g)} :: TotalOf(o.absorber, g) + TotalOf(o.puddle, g) == TotalOf(absorber, g) + TotalOf(puddle, g)
  {
    IsMoppableIffOnlyMopFriendly(puddle);
    if Volume(puddle) == 0 then NotAPuddle
    else if IsMoppable(puddle) then AlreadyMoppable
    else
      var available := TotalOf(absorber, MopFriendly);
      if available == 0 then NoWater
      else
        var transferAmount := if available > pickupAmount then pickupAmount else available;
        Swap(absorber, puddle, transferAmount)
  }

  /**
    The trade of TryPuddleInteract: up to `transferAmount` of contaminants
    leave the puddle and the same volume of water leaves the absorber, and
    each ends up in the other.
   */
  function Swap(absorber: Mixture, puddle: Mixture, transferAmount: nat): (o: PuddleOutcome)
    requires Pruned(absorber) && Pruned(puddle) && transferAmount <= TotalOf(absorber, MopFriendly)
    ensures o.Swapped? && Pruned(o.absorber) && Pruned(o.puddle)
    ensures var moved := Min(transferAmount, TotalOf(puddle, Contaminants));
      && TotalOf(o.puddle, Contaminants) == TotalOf(puddle, Contaminants) - moved
      && TotalOf(o.puddle, MopFriendly) == TotalOf(puddle, MopFriendly) + moved
      && TotalOf(o.absorber, MopFriendly) == TotalOf(absorber, MopFriendly) - moved
      && TotalOf(o.absorber, Contaminants) == TotalOf(absorber, Contaminants) + moved
    ensures forall g {:trigger TotalOf(o.absorber, g)} {:trigger TotalOf(o.puddle, g)} ::
      TotalOf(o.absorber, g) + TotalOf(o.puddle, g) == TotalOf(absorber, g) + TotalOf(puddle, g)
  {
    var puddleSplit := SplitBy(puddle, transferAmount, Contaminants);
    var absorberSplit := SplitBy(absorber, Volume(puddleSplit.removed), MopFriendly);
    TotalOfComplement(puddleSplit.removed, Contaminants);
    TotalOfComplement(absorberSplit.removed, MopFriendly);
    Swapped(Merge(absorberSplit.remaining, puddleSplit.removed),
            Merge(puddleSplit.remaining, absorberSplit.removed))
  }

  /** The swap is volume for volume: neither the absorber's nor the puddle's volume changes. */
  lemma PuddleSwapKeepsVolumes(absorber: Mixture, puddle: Mixture, pickupAmount: nat)
    requires Pruned(absorber) && Pruned(puddle)
    requires PuddleInteract(absorber, puddle, pickupAmount).Swapped?
    ensures Volume(PuddleInteract(absorber, puddle, pickupAmount).absorber) == Volume(absorber)
    ensures Volume(PuddleInteract(absorber, puddle, pickupAmount).puddle) == Volume(puddle)
  {
    var o := PuddleInteract(absorber, puddle, pickupAmount);
    TotalOfComplement(absorber, MopFriendly);
    TotalOfComplement(puddle, MopFriendly);
    TotalOfComplement(o.absorber, MopFriendly);
    TotalOfComplement(o.puddle, MopFriendly);
  }

  /** A swap always moves something when the pickup amount is positive, and nothing at all when it is zero. */
  lemma PuddleSwapMovesIffPickup(absorber: Mixture, puddle: Mixture, pickupAmount: nat)
    requires Pruned(absorber) && Pruned(puddle)
    requires PuddleInteract(absorber, puddle, pickupAmount).Swapped?
    ensures PuddleTradeVolume(absorber, puddle, pickupAmount) > 0 <==> pickupAmount > 0
    ensures pickupAmount == 0 ==>
      PuddleInteract(absorber, puddle, pickupAmount) == Swapped(absorber, puddle)
  {
  }

  // ------------------------------------------------------------ refillable

  /** What a transfer with a refillable reports and leaves behind. */
  datatype Transfer = Transfer(ok: bool, absorber: Mixture, refillable: Mixture)

  /**
    TryTransferFromAbsorbentToRefillable: a one-way push into an empty
    refillable, contaminants first.
   */
  function TransferToEmpty(absorber: Mixture, refillable: Mixture, refillableMax: nat, pickupAmount: nat): (t: Transfer)
    requires Pruned(absorber) && Pruned(refillable) && Volume(refillable) <= refillableMax
    ensures Pruned(t.absorber) && Pruned(t.refillable)
    ensures t.ok <==> Volume(absorber) > 0 && Min(pickupAmount, refillableMax - Volume(refillable)) > 0
    ensures !t.ok ==> t.absorber == absorber && t.refillable == refillable
    ensures forall g {:trigger TotalOf(t.absorber, g)} {:trigger TotalOf(t.refillable, g)} :: TotalOf(t.absorber, g) + TotalOf(t.refillable, g) == TotalOf(absorber, g) + TotalOf(refillable, g)
    ensures Volume(t.refillable) <= refillableMax
    ensures Volume(refillable) + Min(pickupAmount, refillableMax - Volume(refillable)) >= Volume(t.refillable)
  {
    if Volume(absorber) == 0 then Transfer(false, absorber, refillable)
    else
      var available := refillableMax - Volume(refillable);
      var transferAmount := if pickupAmount < available then pickupAmount else available;
      if transferAmount == 0 then Transfer(false, absorber, refillable)
      else PushContaminantsFirst(absorber, refillable, transferAmount)
  }

  /**
    The push of TransferToEmpty once it is known to go ahead: up to
    `transferAmount` of contaminants, or, when the absorber holds none, up to
    `transferAmount` of whatever it holds.
   */
  function PushContaminantsFirst(absorber: Mixture, refillable: Mixture, transferAmount: nat): (t: Transfer)
    requires Pruned(absorber) && Pruned(refillable)
    ensures Pruned(t.absorber) && Pruned(t.refillable) && t.ok
    ensures forall g {:trigger TotalOf(t.absorber, g)} {:trigger TotalOf(t.refillable, g)} ::
      TotalOf(t.absorber, g) + TotalOf(t.refillable, g) == TotalOf(absorber, g) + TotalOf(refillable, g)
    ensures Volume(t.refillable) <= Volume(refillable) + transferAmount
  {
    var contaminants := SplitBy(absorber, transferAmount, Contaminants);
    if Volume(contaminants.removed) > 0 then
      Transfer(true, contaminants.remaining, Merge(refillable, contaminants.removed))
    else
      var evaporatives := SplitBy(contaminants.remaining, transferAmount, Everything);
      Transfer(true, evaporatives.remaining, Merge(refillable, evaporatives.removed))
  }

  /**
    Contaminants go first: while the absorber holds any, only contaminants are
    pushed, as much as the transfer amount allows; water is pushed only from
    an absorber that holds none.
   */
  lemma TransferToEmptyPushesContaminantsFirst(absorber: Mixture, refillable: Mixture, refillableMax: nat, pickupAmount: nat)
    requires Pruned(absorber) && Pruned(refillable) && Volume(refillable) <= refillableMax
    requires TransferToEmpty(absorber, refillable, refillableMax, pickupAmount).ok
    ensures var t := TransferToEmpty(absorber, refillable, refillableMax, pickupAmount);
      var transferAmount := Min(pickupAmount, refillableMax - Volume(refillable));
      && (TotalOf(absorber, Contaminants) > 0 ==>
            && TotalOf(t.refillable, MopFriendly) == TotalOf(refillable, MopFriendly)
            && Volume(t.refillable) == Volume(refillable) + Min(transferAmount, TotalOf(absorber, Contaminants)))
      && (TotalOf(absorber, Contaminants) == 0 ==>
            Volume(t.refillable) == Volume(refillable) + Min(transferAmount, Volume(absorber)))
  {
    var t := TransferToEmpty(absorber, refillable, refillableMax, pickupAmount);
    var transferAmount := Min(pickupAmount, refillableMax - Volume(refillable));
    var contaminants := SplitBy(absorber, transferAmount, Contaminants);
    TotalOfComplement(contaminants.removed, Contaminants);
    if TotalOf(absorber, Contaminants) == 0 {
      assert contaminants.remaining == absorber;
    }
  }

  /** Pulling water from the refillable lowers its water by the pulled volume and leaves its contaminants alone. */
  lemma WaterLeavesRefillable(refillable: Mixture, waterPulled: nat)
    requires Pruned(refillable)
    ensures var water := SplitBy(refillable, waterPulled, MopFriendly);
      && TotalOf(water.remaining, MopFriendly) + Volume(water.removed) == TotalOf(refillable, MopFriendly)
      && TotalOf(water.remaining, Contaminants) == TotalOf(refillable, Contaminants)
      && Volume(water.removed) <= waterPulled
  {
    var water := SplitBy(refillable, waterPulled, MopFriendly);
    TotalOfComplement(water.removed, MopFriendly);
  }

  /**
    TryTwoWayAbsorbentRefillableTransfer: contaminants leave the absorber for
    a non-empty refillable and water comes back; contaminants that do not fit
    return to the absorber. `ok` is the source's anyTransferOccurred.
   */
  function TwoWayTransfer(absorber: Mixture, absorberMax: nat, refillable: Mixture, refillableMax: nat, pickupAmount: nat): (t: Transfer)
    requires Pruned(absorber) && Volume(absorber) <= absorberMax
    requires Pruned(refillable) && Volume(refillable) <= refillableMax
    ensures Pruned(t.absorber) && Pruned(t.refillable)
    // nothing is created or lost: every reagent class keeps its combined amount
    ensures forall g {:trigger TotalOf(t.absorber, g)} {:trigger TotalOf(t.refillable, g)} :: TotalOf(t.absorber, g) + TotalOf(t.refillable, g) == TotalOf(absorber, g) + TotalOf(refillable, g)
    // both stay within capacity: the contaminants that do not fit in the refillable fit back into the absorber
    ensures Volume(t.absorber) <= absorberMax && Volume(t.refillable) <= refillableMax
    // a reported failure leaves the refillable as it was and the absorber with the same amounts
    ensures !t.ok ==> t.refillable == refillable && SameAmounts(t.absorber, absorber)
    // success exactly when water left the refillable or contaminants entered it
    ensures t.ok <==> (TotalOf(t.refillable, MopFriendly) < TotalOf(refillable, MopFriendly)
                       || TotalOf(t.refillable, Contaminants) > TotalOf(refillable, Contaminants))
    // at most the pickup amount moves each way
    ensures TotalOf(t.refillable, MopFriendly) + pickupAmount >= TotalOf(refillable, MopFriendly)
    ensures TotalOf(t.refillable, Contaminants) <= TotalOf(refillable, Contaminants) + pickupAmount
  {
    var contaminants := SplitBy(absorber, pickupAmount, Contaminants);
    var absorber1 := contaminants.remaining;
    if Volume(contaminants.removed) == 0 && absorberMax - Volume(absorber1) == 0 then
      Transfer(false, absorber1, refillable)
    else
      TotalOfComplement(contaminants.removed, Contaminants);
      ExchangeWithRefillable(absorber1, absorberMax, contaminants.removed, refillable, refillableMax, pickupAmount)
  }

  /**
    The two-way transfer after `contaminants` have left the absorber, which
    now holds `absorber1`: water is pulled from the refillable into the room
    the absorber has, then the exchange is committed.
   */
  function ExchangeWithRefillable(absorber1: Mixture, absorberMax: nat, contaminants: Mixture,
                                  refillable: Mixture, refillableMax: nat, pickupAmount: nat): (t: Transfer)
    requires Pruned(absorber1) && Pruned(contaminants) && Pruned(refillable)
    requires Volume(absorber1) <= absorberMax && Volume(refillable) <= refillableMax
    requires TotalOf(contaminants, MopFriendly) == 0 && Volume(contaminants) <= pickupAmount
    ensures Pruned(t.absorber) && Pruned(t.refillable)
    ensures forall g {:trigger TotalOf(t.absorber, g)} {:trigger TotalOf(t.refillable, g)} :: TotalOf(t.absorber, g) + TotalOf(t.refillable, g)
                        == TotalOf(absorber1, g) + TotalOf(contaminants, g) + TotalOf(refillable, g)
    ensures Volume(t.refillable) <= refillableMax
    ensures Volume(absorber1) + Volume(contaminants) <= absorberMax ==> Volume(t.absorber) <= absorberMax
    ensures !t.ok ==> t.refillable == refillable
                      && forall g {:trigger TotalOf(t.absorber, g)} :: TotalOf(t.absorber, g) == TotalOf(absorber1, g) + TotalOf(contaminants, g)
    ensures t.ok <==> (TotalOf(t.refillable, MopFriendly) < TotalOf(refillable, MopFriendly)
                       || TotalOf(t.refillable, Contaminants) > TotalOf(refillable, Contaminants))
    ensures TotalOf(t.refillable, MopFriendly) + pickupAmount >= TotalOf(refillable, MopFriendly)
    ensures TotalOf(t.refillable, Contaminants) <= TotalOf(refillable, Contaminants) + pickupAmount
  {
    var absorberSpace := absorberMax - Volume(absorber1);
    var waterPulled := if pickupAmount < absorberSpace then pickupAmount else absorberSpace;
    var water := SplitBy(refillable, waterPulled, MopFriendly);
    WaterLeavesRefillable(refillable, waterPulled);
    if Volume(water.removed) == 0 && Volume(contaminants) == 0 then
      EmptyIffNoVolume(contaminants);
      Transfer(false, absorber1, water.remaining)
    else
      CommitExchange(absorber1, water.removed, contaminants, water.remaining, refillableMax)
  }

  /** The absorber once the water pulled from the refillable has been added to it. */
  function WithWater(absorber1: Mixture, water: Mixture): (a: Mixture)
    requires Pruned(absorber1) && Pruned(water)
    ensures Pruned(a)
    ensures forall g {:trigger TotalOf(a, g)} :: TotalOf(a, g) == TotalOf(absorber1, g) + TotalOf(water, g)
  {
    if Volume(water) > 0 then Merge(absorber1, water)
    else
      EmptyIffNoVolume(water);
      absorber1
  }

  /**
    The contaminants taken from the absorber are offered to the refillable:
    as much as fits goes in, the rest goes back to the absorber, which now
    holds `absorber2`. `ok` says whether any contaminant entered the
    refillable.
   */
  function PushContaminants(absorber2: Mixture, contaminants: Mixture, refillable1: Mixture, refillableMax: nat): (t: Transfer)
    requires Pruned(absorber2) && Pruned(contaminants) && Pruned(refillable1)
    requires TotalOf(contaminants, MopFriendly) == 0 && Volume(refillable1) <= refillableMax
    ensures Pruned(t.absorber) && Pruned(t.refillable)
    ensures var pushed := Min(refillableMax - Volume(refillable1), Volume(contaminants));
      && (t.ok <==> pushed > 0)
      && TotalOf(t.refillable, MopFriendly) == TotalOf(refillable1, MopFriendly)
      && TotalOf(t.refillable, Contaminants) == TotalOf(refillable1, Contaminants) + pushed
      && Volume(t.refillable) == Volume(refillable1) + pushed
      && Volume(t.absorber) + pushed == Volume(absorber2) + Volume(contaminants)
      && (pushed == 0 ==> t.refillable == refillable1)
    ensures forall g {:trigger TotalOf(t.absorber, g)} {:trigger TotalOf(t.refillable, g)} ::
      TotalOf(t.absorber, g) + TotalOf(t.refillable, g) == TotalOf(absorber2, g) + TotalOf(contaminants, g) + TotalOf(refillable1, g)
  {
    if Volume(contaminants) > 0 then
      if refillableMax - Volume(refillable1) == 0 then
        Transfer(false, Merge(absorber2, contaminants), refillable1)
      else
        var forRefillable := SplitBy(contaminants, refillableMax - Volume(refillable1), Everything);
        TotalOfComplement(forRefillable.removed, Contaminants);
        Transfer(true, Merge(absorber2, forRefillable.remaining), Merge(refillable1, forRefillable.removed))
    else
      EmptyIffNoVolume(contaminants);
      Transfer(false, absorber2, refillable1)
  }

  /**
    The committing half of the two-way transfer, once `water` has been pulled
    from the refillable and `contaminants` from the absorber: the water goes
    to the absorber, then the contaminants are pushed. The transfer succeeds
    when water moved or contaminants entered the refillable.
   */
  function CommitExchange(absorber1: Mixture, water: Mixture, contaminants: Mixture, refillable1: Mixture, refillableMax: nat): (t: Transfer)
    requires Pruned(absorber1) && Pruned(water) && Pruned(contaminants) && Pruned(refillable1)
    requires TotalOf(contaminants, MopFriendly) == 0 && Volume(refillable1) <= refillableMax
    ensures Pruned(t.absorber) && Pruned(t.refillable)
    ensures var pushed := Min(refillableMax - Volume(refillable1), Volume(contaminants));
      && (t.ok <==> Volume(water) > 0 || pushed > 0)
      && TotalOf(t.refillable, MopFriendly) == TotalOf(refillable1, MopFriendly)
      && TotalOf(t.refillable, Contaminants) == TotalOf(refillable1, Contaminants) + pushed
      && Volume(t.refillable) == Volume(refillable1) + pushed
      && Volume(t.absorber) + pushed == Volume(absorber1) + Volume(water) + Volume(contaminants)
      && (pushed == 0 ==> t.refillable == refillable1)
    ensures forall g {:trigger TotalOf(t.absorber, g)} {:trigger TotalOf(t.refillable, g)} ::
      TotalOf(t.absorber, g) + TotalOf(t.refillable, g)
      == TotalOf(absorber1, g) + TotalOf(water, g) + TotalOf(contaminants, g) + TotalOf(refillable1, g)
  {
    var absorber2 := WithWater(absorber1, water);
    var pushed := PushContaminants(absorber2, contaminants, refillable1, refillableMax);
    Transfer(Volume(water) > 0 || pushed.ok, pushed.absorber, pushed.refillable)
  }

  /** Dispatch of TryRefillableInteract on whether the refillable is empty. */
  function RefillableInteract(absorber: Mixture, absorberMax: nat, refillable: Mixture, refillableMax: nat, pickupAmount: nat): (t: Transfer)
    requires Pruned(absorber) && Volume(absorber) <= absorberMax
    requires Pruned(refillable) && Volume(refillable) <= refillableMax
    ensures Pruned(t.absorber) && Pruned(t.refillable)
    ensures Volume(t.absorber) <= absorberMax && Volume(t.refillable) <= refillableMax
    ensures forall g {:trigger TotalOf(t.absorber, g)} {:trigger TotalOf(t.refillable, g)} :: TotalOf(t.absorber, g) + TotalOf(t.refillable, g) == TotalOf(absorber, g) + TotalOf(refillable, g)
  {
    if Volume(refillable) == 0 then TransferToEmpty(absorber, refillable, refillableMax, pickupAmount)
    else TwoWayTransfer(absorber, absorberMax, refillable, refillableMax, pickupAmount)
  }

  // --------------------------------------------------------------- entities

  /** The tool's use delay; only whether it is running is modelled, the clock is not. */
  class UseDelay {
    var delayed: bool

    /** TryResetDelay: starts the delay again. */
    method ResetDelay()
      modifies this
      ensures delayed
    {
      delayed := true;
    }
  }

  /** A display colour, 0-255 per channel. */
  datatype Color = Rgba(r: nat, g: nat, b: nat, a: nat)

  const DarkGray: Color := Rgba(0xA9, 0xA9, 0xA9, 0xFF)

  /** The absorbent component of a mop: its pickup amount and its progress display. */
  class AbsorbentComponent {
    const pickupAmount: nat
    var progress: map<Color, nat>
  }

  // ------------------------------------------------------------ operations

  /** TryPuddleInteract; returns whether the target was handled as a puddle. */
  method TryPuddleInteract(component: AbsorbentComponent, absorber: Solution, useDelay: UseDelay?, puddle: Solution?)
    returns (handled: bool)
    requires absorber.Valid() && absorber != puddle
    requires puddle != null ==> puddle.Valid()
    modifies absorber, puddle, useDelay
    ensures absorber.Valid() && (puddle != null ==> puddle.Valid())
    ensures puddle == null ==> !handled && unchanged(absorber) && (useDelay != null ==> unchanged(useDelay))
    ensures puddle != null ==>
      var o := PuddleInteract(old(absorber.contents), old(puddle.contents), component.pickupAmount);
      && handled == !o.NotAPuddle?
      && (o.Swapped? ==> absorber.contents == o.absorber && puddle.contents == o.puddle
                         && (useDelay != null ==> useDelay.delayed))
      && (!o.Swapped? ==> unchanged(absorber, puddle) && (useDelay != null ==> unchanged(useDelay)))
  {
    hide SplitBy, Merge, AddReagent, TotalOf;
    if puddle == null {
      return false;
    }
    if Volume(puddle.contents) == 0 {
      return false;
    }
    if IsMoppable(puddle.contents) {
      return true;
    }
    var available := TotalOf(absorber.contents, MopFriendly);
    if available == 0 {
      return true;
    }
    var transferMax := component.pickupAmount;
    var transferAmount := if available > transferMax then transferMax else available;
    ghost var absorber0, puddle0 := absorber.contents, puddle.contents;
    var puddleSplit := puddle.SplitSolution(transferAmount, Contaminants);
    var absorberSplit := absorber.SplitSolution(Volume(puddleSplit), MopFriendly);
    PuddleSwapKeepsVolumes(absorber0, puddle0, component.pickupAmount);
    // the tile reaction on absorberSplit is not modelled: the identity
    puddle.AddSolution(absorberSplit);
    absorber.AddSolution(puddleSplit);
    if useDelay != null {
      useDelay.ResetDelay();
    }
    return true;
  }

  /** TryTransferFromAbsorbentToRefillable, on a refillable that the caller found empty. */
  method TryTransferFromAbsorbentToRefillable(component: AbsorbentComponent, absorber: Solution, refillable: Solution)
    returns (ok: bool)
    requires absorber.Valid() && refillable.Valid() && refillable.maxVolume.Some? && absorber != refillable
    modifies absorber, refillable
    ensures absorber.Valid() && refillable.Valid()
    ensures var t := TransferToEmpty(old(absorber.contents), old(refillable.contents), refillable.maxVolume.value, component.pickupAmount);
      ok == t.ok && absorber.contents == t.absorber && refillable.contents == t.refillable
  {
    hide SplitBy, Merge, AddReagent, TotalOf;
    if Volume(absorber.contents) == 0 {
      return false;
    }
    var available := refillable.AvailableVolume();
    var transferAmount := if component.pickupAmount < available then component.pickupAmount else available;
    if transferAmount == 0 {
      return false;
    }
    var contaminants := absorber.SplitSolution(transferAmount, Contaminants);
    if Volume(contaminants) > 0 {
      refillable.AddSolution(contaminants);
    } else {
      var evaporatives := absorber.SplitSolution(transferAmount, Everything);
      refillable.AddSolution(evaporatives);
    }
    return true;
  }

  /** TryTwoWayAbsorbentRefillableTransfer, on a refillable that the caller found non-empty. */
  method TryTwoWayAbsorbentRefillableTransfer(component: AbsorbentComponent, absorber: Solution, refillable: Solution)
    returns (anyTransferOccurred: bool)
    requires absorber.Valid() && absorber.maxVolume.Some?
    requires refillable.Valid() && refillable.maxVolume.Some? && absorber != refillable
    modifies absorber, refillable
    ensures absorber.Valid() && refillable.Valid()
    ensures var t := TwoWayTransfer(old(absorber.contents), absorber.maxVolume.value,
                                    old(refillable.contents), refillable.maxVolume.value, component.pickupAmount);
      anyTransferOccurred == t.ok && absorber.contents == t.absorber && refillable.contents == t.refillable
  {
    hide TwoWayTransfer, ExchangeWithRefillable, CommitExchange, SplitBy, Merge, AddReagent, TotalOf;
    ghost var absorber0, refillable0 := absorber.contents, refillable.contents;
    ghost var aMax, rMax := absorber.maxVolume.value, refillable.maxVolume.value;
    TwoWayTransferCases(absorber0, aMax, refillable0, rMax, component.pickupAmount);
    var contaminantsFromAbsorbent := absorber.SplitSolution(component.pickupAmount, Contaminants);
    if Volume(contaminantsFromAbsorbent) == 0 && absorber.AvailableVolume() == 0 {
      return false;
    }
    ghost var absorber1 := absorber.contents;
    ExchangeWithRefillableCases(absorber1, aMax, contaminantsFromAbsorbent, refillable0, rMax, component.pickupAmount);
    var waterPulled := if component.pickupAmount < absorber.AvailableVolume() then component.pickupAmount
                       else absorber.AvailableVolume();
    var waterFromRefillable := refillable.SplitSolution(waterPulled, MopFriendly);
    // UpdateChemicals: reactions in the refillable are not modelled
    if Volume(waterFromRefillable) == 0 && Volume(contaminantsFromAbsorbent) == 0 {
      return false;
    }
    anyTransferOccurred := CommitTwoWay(absorber, refillable, waterFromRefillable, contaminantsFromAbsorbent);
  }

  /** TwoWayTransfer by cases, in the order the source takes its steps. */
  lemma TwoWayTransferCases(absorber: Mixture, absorberMax: nat, refillable: Mixture, refillableMax: nat, pickupAmount: nat)
    requires Pruned(absorber) && Volume(absorber) <= absorberMax
    requires Pruned(refillable) && Volume(refillable) <= refillableMax
    ensures var contaminants := SplitBy(absorber, pickupAmount, Contaminants);
      var t := TwoWayTransfer(absorber, absorberMax, refillable, refillableMax, pickupAmount);
      && Volume(contaminants.remaining) + Volume(contaminants.removed) <= absorberMax
      && TotalOf(contaminants.removed, MopFriendly) == 0
      && Volume(contaminants.removed) <= pickupAmount
      && if Volume(contaminants.removed) == 0 && absorberMax - Volume(contaminants.remaining) == 0
         then t == Transfer(false, contaminants.remaining, refillable)
         else t == ExchangeWithRefillable(contaminants.remaining, absorberMax, contaminants.removed, refillable, refillableMax, pickupAmount)
  {
    var contaminants := SplitBy(absorber, pickupAmount, Contaminants);
    TotalOfComplement(contaminants.removed, Contaminants);
  }

  /** ExchangeWithRefillable by cases, in the order the source takes its steps. */
  lemma ExchangeWithRefillableCases(absorber1: Mixture, absorberMax: nat, contaminants: Mixture,
                                    refillable: Mixture, refillableMax: nat, pickupAmount: nat)
    requires Pruned(absorber1) && Pruned(contaminants) && Pruned(refillable)
    requires Volume(absorber1) <= absorberMax && Volume(refillable) <= refillableMax
    requires TotalOf(contaminants, MopFriendly) == 0 && Volume(contaminants) <= pickupAmount
    ensures var absorberSpace := absorberMax - Volume(absorber1);
      var waterPulled := if pickupAmount < absorberSpace then pickupAmount else absorberSpace;
      var water := SplitBy(refillable, waterPulled, MopFriendly);
      var t := ExchangeWithRefillable(absorber1, absorberMax, contaminants, refillable, refillableMax, pickupAmount);
      && Volume(absorber1) + Volume(water.removed) <= absorberMax
      && Volume(water.remaining) + Volume(water.removed) <= refillableMax
      && if Volume(water.removed) == 0 && Volume(contaminants) == 0
         then t == Transfer(false, absorber1, water.remaining)
         else t == CommitExchange(absorber1, water.removed, contaminants, water.remaining, refillableMax)
  {
  }

  /**
    The committing half of TryTwoWayAbsorbentRefillableTransfer: `water` has
    left the refillable and `contaminants` the absorber; the water goes to the
    absorber, as much of the contaminants as fits to the refillable and the
    rest back to the absorber.
   */
  method CommitTwoWay(absorber: Solution, refillable: Solution, water: Mixture, contaminants: Mixture)
    returns (anyTransferOccurred: bool)
    requires absorber.Valid() && absorber.maxVolume.Some?
    requires refillable.Valid() && refillable.maxVolume.Some? && absorber != refillable
    requires Pruned(water) && Pruned(contaminants) && TotalOf(contaminants, MopFriendly) == 0
    // the water was pulled into the room the absorber had, out of the refillable
    requires Volume(absorber.contents) + Volume(water) <= absorber.maxVolume.value
    requires Volume(refillable.contents) + Volume(water) <= refillable.maxVolume.value
    // the contaminants came out of the absorber
    requires Volume(absorber.contents) + Volume(contaminants) <= absorber.maxVolume.value
    modifies absorber, refillable
    ensures absorber.Valid() && refillable.Valid()
    ensures var t := CommitExchange(old(absorber.contents), water, contaminants, old(refillable.contents), refillable.maxVolume.value);
      anyTransferOccurred == t.ok && absorber.contents == t.absorber && refillable.contents == t.refillable
  {
    hide PushContaminants, SplitBy, Merge, AddReagent, TotalOf;
    ghost var absorber1 := absorber.contents;
    if Volume(water) > 0 {
      absorber.AddSolution(water);
    }
    assert absorber.contents == WithWater(absorber1, water);
    var pushed := PushContaminantsInto(absorber, refillable, contaminants);
    anyTransferOccurred := Volume(water) > 0 || pushed;
  }

  /** The contaminant half of the commit: what fits goes into the refillable, the rest back into the absorber. */
  method PushContaminantsInto(absorber: Solution, refillable: Solution, contaminants: Mixture)
    returns (pushed: bool)
    requires absorber.Valid() && absorber.maxVolume.Some?
    requires refillable.Valid() && refillable.maxVolume.Some? && absorber != refillable
    requires Pruned(contaminants) && TotalOf(contaminants, MopFriendly) == 0
    // what does not fit in the refillable fits back into the absorber
    requires Volume(absorber.contents) + Volume(contaminants) <= absorber.maxVolume.value + refillable.AvailableVolume()
    modifies absorber, refillable
    ensures absorber.Valid() && refillable.Valid()
    ensures var t := PushContaminants(old(absorber.contents), contaminants, old(refillable.contents), refillable.maxVolume.value);
      pushed == t.ok && absorber.contents == t.absorber && refillable.contents == t.refillable
  {
    hide SplitBy, Merge, AddReagent, TotalOf;
    pushed := false;
    if Volume(contaminants) > 0 {
      var remaining := contaminants;
      if refillable.AvailableVolume() > 0 {
        var parts := SplitBy(contaminants, refillable.AvailableVolume(), Everything);
        refillable.AddSolution(parts.removed);
        remaining := parts.remaining;
        pushed := true;
      }
      absorber.AddSolution(remaining);
    }
  }

  /**
    TryRefillableInteract; `refillable` is the target's refillable solution,
    null when the target has none. An empty refillable gets a one-way push,
    a non-empty one the two-way exchange; success restarts the use delay.
   */
  method TryRefillableInteract(component: AbsorbentComponent, absorber: Solution, useDelay: UseDelay?, refillable: Solution?)
    returns (ok: bool)
    requires absorber.Valid() && absorber.maxVolume.Some?
    requires refillable != null ==> refillable.Valid() && refillable.maxVolume.Some? && refillable != absorber
    modifies absorber, refillable, useDelay
    ensures absorber.Valid() && (refillable != null ==> refillable.Valid())
    ensures refillable == null ==> !ok && unchanged(absorber) && (useDelay != null ==> unchanged(useDelay))
    ensures refillable != null ==>
      var t := RefillableInteract(old(absorber.contents), absorber.maxVolume.value,
                                  old(refillable.contents), refillable.maxVolume.value, component.pickupAmount);
      ok == t.ok && absorber.contents == t.absorber && refillable.contents == t.refillable
    ensures useDelay != null ==> if ok then useDelay.delayed else unchanged(useDelay)
  {
    hide TransferToEmpty, TwoWayTransfer, SplitBy, Merge, AddReagent, TotalOf;
    if refillable == null {
      return false;
    }
    if Volume(refillable.contents) == 0 {
      ok := TryTransferFromAbsorbentToRefillable(component, absorber, refillable);
    } else {
      ok := TryTwoWayAbsorbentRefillableTransfer(component, absorber, refillable);
    }
    if !ok {
      return false;
    }
    if useDelay != null {
      useDelay.ResetDelay();
    }
  }

  /**
    Mop: the absorber `used` acts on a target that may be a puddle (`puddle`
    is its solution), a refillable (`refillable` is its solution), or
    neither. Nothing happens without an absorbent solution or while the use
    delay runs; otherwise a non-empty puddle is mopped, and only a target
    that is not one is tried as a refillable.
   */
  method Mop(component: AbsorbentComponent, absorber: Solution?, useDelay: UseDelay?, puddle: Solution?, refillable: Solution?)
    requires absorber != null ==> absorber.Valid() && absorber.maxVolume.Some?
    requires puddle != null ==> puddle.Valid() && puddle != absorber && puddle != refillable
    requires refillable != null ==> refillable.Valid() && refillable.maxVolume.Some? && refillable != absorber
    modifies absorber, useDelay, puddle, refillable
    // no absorbent solution, or the use delay still running: nothing changes
    ensures absorber == null || (useDelay != null && old(useDelay.delayed)) ==>
      && (absorber != null ==> unchanged(absorber))
      && (puddle != null ==> unchanged(puddle))
      && (refillable != null ==> unchanged(refillable))
      && (useDelay != null ==> unchanged(useDelay))
    // a non-empty puddle is mopped and the refillable path is not tried
    ensures absorber != null && !(useDelay != null && old(useDelay.delayed)) && puddle != null && Volume(old(puddle.contents)) > 0 ==>
      var o := PuddleInteract(old(absorber.contents), old(puddle.contents), component.pickupAmount);
      && (o.Swapped? ==> absorber.contents == o.absorber && puddle.contents == o.puddle)
      && (!o.Swapped? ==> unchanged(absorber, puddle))
      && (refillable != null ==> unchanged(refillable))
      // the use delay restarts on a swap only
      && (useDelay != null ==> if o.Swapped? then useDelay.delayed else unchanged(useDelay))
    // any other target is tried as a refillable
    ensures absorber != null && !(useDelay != null && old(useDelay.delayed)) && (puddle == null || Volume(old(puddle.contents)) == 0) ==>
      && (puddle != null ==> unchanged(puddle))
      && (refillable == null ==> unchanged(absorber) && (useDelay != null ==> unchanged(useDelay)))
      && (refillable != null ==>
            var t := RefillableInteract(old(absorber.contents), absorber.maxVolume.value,
                                        old(refillable.contents), refillable.maxVolume.value, component.pickupAmount);
            && absorber.contents == t.absorber && refillable.contents == t.refillable
            // the use delay restarts on a successful transfer only
            && (useDelay != null ==> if t.ok then useDelay.delayed else unchanged(useDelay)))
    ensures absorber != null ==> absorber.Valid()
    ensures puddle != null ==> puddle.Valid()
    ensures refillable != null ==> refillable.Valid()
  {
    hide PuddleInteract, RefillableInteract, SplitBy, Merge, AddReagent, TotalOf;
    if absorber == null {
      return;
    }
    if useDelay != null && useDelay.delayed {
      return;
    }
    var handled := TryPuddleInteract(component, absorber, useDelay, puddle);
    if !handled {
      var _ := TryRefillableInteract(component, absorber, useDelay, refillable);
    }
  }

  // ---------------------------------------------------------------- display

  /**
    The progress bars of UpdateAbsorbent, in hundredths of a unit: the
    mop-friendly part in `waterColor`, the rest of the contents in
    `otherColor` and the free room in dark gray. Each bar is written only when
    it is positive, in that order, so a later bar replaces an earlier one of
    the same colour.
   */
  function Progress(m: Mixture, maxVolume: nat, waterColor: Color, otherColor: Color): (p: map<Color, nat>)
    requires Volume(m) <= maxVolume
    ensures forall c :: c in p ==> c == waterColor || c == otherColor || c == DarkGray
    ensures forall c :: c in p ==> p[c] > 0
  {
    var water := TotalOf(m, MopFriendly);
    TotalOfComplement(m, MopFriendly);
    var other := Volume(m) - water;
    var remainder := maxVolume - Volume(m);
    var p0: map<Color, nat> := if water > 0 then map[waterColor := water] else map[];
    var p1 := if other > 0 then p0[otherColor := other] else p0;
    if remainder > 0 then p1[DarkGray := remainder] else p1
  }

  /**
    With three distinct colours the bars show the water, the contaminants and
    the free room exactly, each present just when it is positive, and together
    they add up to the maximum volume.
   */
  lemma ProgressShowsContents(m: Mixture, maxVolume: nat, waterColor: Color, otherColor: Color)
    requires Volume(m) <= maxVolume
    requires waterColor != otherColor && waterColor != DarkGray && otherColor != DarkGray
    ensures var p := Progress(m, maxVolume, waterColor, otherColor);
      && (waterColor in p <==> TotalOf(m, MopFriendly) > 0)
      && (otherColor in p <==> TotalOf(m, Contaminants) > 0)
      && (DarkGray in p <==> Volume(m) < maxVolume)
      && (waterColor in p ==> p[waterColor] == TotalOf(m, MopFriendly))
      && (otherColor in p ==> p[otherColor] == TotalOf(m, Contaminants))
      && (DarkGray in p ==> p[DarkGray] == maxVolume - Volume(m))
      && (if waterColor in p then p[waterColor] else 0)
         + (if otherColor in p then p[otherColor] else 0)
         + (if DarkGray in p then p[DarkGray] else 0) == maxVolume
  {
    TotalOfComplement(m, MopFriendly);
  }

  /**
    UpdateAbsorbent on the absorber's solution, null when the absorber has
    none; `dirty` says whether the component is marked dirty and sent to
    clients. The source compares the refilled progress dictionary with a
    fresh shallow clone of the old one by `Equals`, which for a dictionary
    compares references and so never holds: every update with a solution
    marks the component dirty, changed or not. The two colours are taken as
    given.
   */
  method UpdateAbsorbent(component: AbsorbentComponent, solution: Solution?, waterColor: Color, otherColor: Color)
    returns (dirty: bool)
    requires solution != null ==> solution.Valid() && solution.maxVolume.Some?
    modifies component
    ensures solution == null ==> !dirty && unchanged(component)
    ensures solution != null ==>
      && component.progress == Progress(solution.contents, solution.maxVolume.value, waterColor, otherColor)
      && dirty
  {
    if solution == null {
      return false;
    }
    component.progress := map[];
    var water := TotalOf(solution.contents, MopFriendly);
    if water > 0 {
      component.progress := component.progress[waterColor := water];
    }
    TotalOfComplement(solution.contents, MopFriendly);
    var other := Volume(solution.contents) - water;
    if other > 0 {
      component.progress := component.progress[otherColor := other];
    }
    var remainder := solution.AvailableVolume();
    if remainder > 0 {
      component.progress := component.progress[DarkGray := remainder];
    }
    // Equals against the clone is reference equality: never equal
    dirty := true;
  }
}
