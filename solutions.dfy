/**
  Reagent mixtures and the solution containers that hold them.

  A FixedPoint2 amount is counted in hundredths, so every quantity is a `nat`.
  The split and add primitives of the chemistry library are given the
  behaviour their callers rely on: a split removes exactly
  `min(amount, eligible pool)`, takes nothing that is not eligible, and what
  it removes plus what it leaves is what there was.
 */
module Solutions {
  import opened Optional

  type ReagentId = string

  datatype ReagentQuantity = ReagentQuantity(reagent: ReagentId, quantity: nat)

  /** The contents of a solution, one entry per reagent, in insertion order. */
  type Mixture = seq<ReagentQuantity>

  /** Selects the reagents that a total or a split draws from. */
  datatype Filter = Only(ids: set<ReagentId>) | Without(ids: set<ReagentId>)
  {
    predicate Admits(r: ReagentId) {
      if Only? then r in ids else r !in ids
    }

    function Complement(): (c: Filter)
      ensures forall r :: c.Admits(r) == !Admits(r)
    {
      if Only? then Without(ids) else Only(ids)
    }
  }

  /** The filter of an unrestricted split: every reagent is eligible. */
  const Everything: Filter := Without({})

  function Min(a: nat, b: nat): nat {
    if a <= b then a else b
  }

  /** A solution keeps no zero entries. */
  predicate Pruned(m: Mixture) {
    forall i :: 0 <= i < |m| ==> m[i].quantity > 0
  }

  /** The summed quantity of the reagents `f` admits (GetTotalPrototypeQuantity). */
  function TotalOf(m: Mixture, f: Filter): nat {
    if m == [] then 0
    else (if f.Admits(m[0].reagent) then m[0].quantity else 0) + TotalOf(m[1..], f)
  }

  function Volume(m: Mixture): nat {
    TotalOf(m, Everything)
  }

  /** Two mixtures hold the same amount of every reagent, whatever their order. */
  ghost predicate SameAmounts(a: Mixture, b: Mixture) {
    forall g :: TotalOf(a, g) == TotalOf(b, g)
  }

  /** The total of a mixture with one entry put in front. */
  lemma TotalOfCons(e: ReagentQuantity, rest: Mixture)
    ensures forall g {:trigger TotalOf([e] + rest, g)} ::
      TotalOf([e] + rest, g) == (if g.Admits(e.reagent) then e.quantity else 0) + TotalOf(rest, g)
  {
    assert ([e] + rest)[1..] == rest;
  }

  /** Every reagent is admitted by exactly one of `f` and its complement. */
  lemma {:induction false} TotalOfComplement(m: Mixture, f: Filter)
    ensures TotalOf(m, f) + TotalOf(m, f.Complement()) == Volume(m)
  {
    if m != [] {
      TotalOfComplement(m[1..], f);
    }
  }

  /** In a pruned mixture a class total is zero exactly when no entry belongs to the class. */
  lemma {:induction false} NothingAdmitted(m: Mixture, f: Filter)
    requires Pruned(m)
    ensures TotalOf(m, f) == 0 <==> forall i :: 0 <= i < |m| ==> !f.Admits(m[i].reagent)
  {
    if m != [] {
      NothingAdmitted(m[1..], f);
      assert forall i :: 1 <= i < |m| ==> m[i] == m[1..][i - 1];
    }
  }

  /** A pruned mixture has volume zero only when it is empty. */
  lemma EmptyIffNoVolume(m: Mixture)
    requires Pruned(m)
    ensures Volume(m) == 0 <==> m == []
  {
  }

  /** The two parts a split leaves: what it took out and what stays in the solution. */
  datatype Parts = Parts(removed: Mixture, remaining: Mixture)

  /**
    Removes up to `amount` from the reagents `f` admits, walking the entries
    in order (SplitSolutionWithout, SplitSolutionWithOnly and SplitSolution).
   */
  function SplitBy(m: Mixture, amount: nat, f: Filter): (s: Parts)
    requires Pruned(m)
    ensures Pruned(s.removed) && Pruned(s.remaining)
    ensures Volume(s.removed) == Min(amount, TotalOf(m, f))
    ensures TotalOf(s.removed, f.Complement()) == 0
    ensures forall g {:trigger TotalOf(s.removed, g)} {:trigger TotalOf(s.remaining, g)} ::
      TotalOf(s.removed, g) + TotalOf(s.remaining, g) == TotalOf(m, g)
    ensures s.removed == [] ==> s.remaining == m
    decreases |m|
  {
    if m == [] then Parts([], [])
    else
      var e := m[0];
      assert m == [e] + m[1..];
      if amount == 0 || !f.Admits(e.reagent) then
        var rest := SplitBy(m[1..], amount, f);
        TotalOfCons(e, rest.remaining);
        TotalOfCons(e, m[1..]);
        Parts(rest.removed, [e] + rest.remaining)
      else
        var take := Min(amount, e.quantity);
        var rest := SplitBy(m[1..], amount - take, f);
        TotalOfCons(ReagentQuantity(e.reagent, take), rest.removed);
        TotalOfCons(ReagentQuantity(e.reagent, e.quantity - take), rest.remaining);
        TotalOfCons(e, m[1..]);
        Parts([ReagentQuantity(e.reagent, take)] + rest.removed,
              if take == e.quantity then rest.remaining
              else [ReagentQuantity(e.reagent, e.quantity - take)] + rest.remaining)
  }

  /** Adds `q` of reagent `r`, topping up the entry for `r` if there is one and appending one otherwise. */
  function AddReagent(m: Mixture, r: ReagentId, q: nat): (m': Mixture)
    requires Pruned(m) && q > 0
    ensures Pruned(m')
    ensures forall g {:trigger TotalOf(m', g)} :: TotalOf(m', g) == TotalOf(m, g) + (if g.Admits(r) then q else 0)
  {
    if m == [] then [ReagentQuantity(r, q)]
    else if m[0].reagent == r then [ReagentQuantity(r, m[0].quantity + q)] + m[1..]
    else [m[0]] + AddReagent(m[1..], r, q)
  }

  /** Pours `added` into `m` entry by entry (AddSolution). */
  function Merge(m: Mixture, added: Mixture): (r: Mixture)
    requires Pruned(m) && Pruned(added)
    ensures Pruned(r)
    ensures forall g {:trigger TotalOf(r, g)} :: TotalOf(r, g) == TotalOf(m, g) + TotalOf(added, g)
    ensures added == [] ==> r == m
    decreases |added|
  {
    if added == [] then m
    else Merge(AddReagent(m, added[0].reagent, added[0].quantity), added[1..])
  }

  /**
    A solution held by an entity. Puddles are uncapped; the solutions of
    absorbers and refillables have a maximum volume.
   */
  class Solution {
    var contents: Mixture
    const maxVolume: Option<nat>

    ghost predicate Valid()
      reads this
    {
      Pruned(contents) && (maxVolume.Some? ==> Volume(contents) <= maxVolume.value)
    }

    function AvailableVolume(): nat
      reads this
      requires Valid() && maxVolume.Some?
    {
      maxVolume.value - Volume(contents)
    }

    /** Takes up to `amount` of the reagents `f` admits out of this solution. */
    method SplitSolution(amount: nat, f: Filter) returns (removed: Mixture)
      requires Valid()
      modifies this
      ensures Valid()
      ensures removed == SplitBy(old(contents), amount, f).removed
      ensures contents == SplitBy(old(contents), amount, f).remaining
    {
      var parts := SplitBy(contents, amount, f);
      removed, contents := parts.removed, parts.remaining;
    }

    /** Adds `added` to this solution; the caller has sized it to fit. */
    method AddSolution(added: Mixture)
      requires Valid() && Pruned(added)
      requires maxVolume.Some? ==> Volume(contents) + Volume(added) <= maxVolume.value
      modifies this
      ensures Valid()
      ensures contents == Merge(old(contents), added)
    {
      contents := Merge(contents, added);
    }
  }
}
