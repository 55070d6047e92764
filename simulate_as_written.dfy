// simulateTree as SeedbankTree and SeedbankTreeX write it (the two are the
// same code over SeedbankNode and SeedbankNodeX). Both hand
// updatePropensities a freshly allocated, empty list of migration
// propensities, whose set(1, ...) throws, and a boxed coalescence
// propensity that the callee only rebinds locally, so the caller's stays 0.
// The corrected loop is the one of SeedbankTreeInitializer (module
// Simulation).

module SimulationAsWritten {
  import opened Wrappers
  import opened Doubles
  import opened TransitionModels
  import opened Simulation

  /** What updatePropensities hands back: the migration list it wrote and the total it returns. */
  datatype Updated = Updated(migrationProp: seq<real>, total: Double)

  /**
   * updatePropensities as written: the coalescence propensity
   * k_a(k_a-1)/(2 N_a) enters the total but is assigned to the local
   * parameter only; migrationProp.set(1, ...) and set(0, ...) need a list
   * of at least two entries.
   */
  function UpdatePropensitiesAsWritten(m: TransitionModel, migrationProp: seq<real>, kActive: nat, kDormant: nat): (r: Result<Updated>)
    ensures r.Fail? <==> |migrationProp| < 2
    ensures r.Fail? ==> r.error == IndexOutOfBounds
    ensures r.Ok? ==> |r.value.migrationProp| == |migrationProp| &&
                      forall i :: 2 <= i < |migrationProp| ==> r.value.migrationProp[i] == migrationProp[i]
  {
    var na := PopSize(m, 1).v;
    var coalesceProp := Div((kActive * (kActive - 1)) as real, 2.0 * na);
    var total := Add(Finite(0.0), coalesceProp);
    if |migrationProp| < 2 then Fail(IndexOutOfBounds)
    else
      var mp := migrationProp[1 := kActive as real * BackwardRate(m, 1, 0)][0 := kDormant as real * BackwardRate(m, 0, 1)];
      Ok(Updated(mp, Add(Add(total, Finite(mp[1])), Finite(mp[0]))))
  }

  /**
   * With a list of two entries and a positive active size, the list holds
   * the two migration propensities and the total is the sum of all three
   * propensities, the coalescence one included.
   */
  lemma UpdatedTotal(m: TransitionModel, migrationProp: seq<real>, kActive: nat, kDormant: nat)
    requires |migrationProp| == 2 && m.activeSize.value > 0.0
    ensures UpdatePropensitiesAsWritten(m, migrationProp, kActive, kDormant) ==
            Ok(Updated([kDormant as real * BackwardRate(m, 0, 1), kActive as real * BackwardRate(m, 1, 0)],
                       Finite((kActive * (kActive - 1)) as real / (2.0 * m.activeSize.value) +
                              kActive as real * BackwardRate(m, 1, 0) + kDormant as real * BackwardRate(m, 0, 1))))
  {
    var r := UpdatePropensitiesAsWritten(m, migrationProp, kActive, kDormant);
    assert Div((kActive * (kActive - 1)) as real, 2.0 * m.activeSize.value) ==
           Finite((kActive * (kActive - 1)) as real / (2.0 * m.activeSize.value));
    assert |r.value.migrationProp| == 2;
    assert r.value.migrationProp[0] == kDormant as real * BackwardRate(m, 0, 1);
    assert r.value.migrationProp[1] == kActive as real * BackwardRate(m, 1, 0);
    assert r.value.migrationProp == [kDormant as real * BackwardRate(m, 0, 1), kActive as real * BackwardRate(m, 1, 0)];
    assert r.value.total == Finite((kActive * (kActive - 1)) as real / (2.0 * m.activeSize.value) +
                              kActive as real * BackwardRate(m, 1, 0) + kDormant as real * BackwardRate(m, 0, 1));
  }

  /**
   * getNextEvent as written: migrateProp.get(0) and get(1) are read only
   * when the uniform gets past the earlier shares, and throw on a list too
   * short for them.
   */
  function GetNextEventAsWritten(migrateProp: seq<real>, coalesceProp: real, total: real, t: real, d: Draw): (r: Result<Event>)
    ensures |migrateProp| >= 2 ==> r == GetNextEvent(Propensities(coalesceProp, migrateProp[0], migrateProp[1]), total, t, d)
    ensures r.Fail? ==> r.error == IndexOutOfBounds || r.error == Runtime
  {
    if !(total > 0.0) then Ok(NullEvent)
    else
      var time := t + d.wait;
      var u0 := d.u * total;
      if u0 < coalesceProp then Ok(Coalescence(time))
      else
        var u1 := u0 - coalesceProp;
        if |migrateProp| < 1 then Fail(IndexOutOfBounds)
        else if u1 < migrateProp[0] then Ok(Migration(0, 1, time))
        else
          var u2 := u1 - migrateProp[0];
          if |migrateProp| < 2 then Fail(IndexOutOfBounds)
          else if u2 < migrateProp[1] then Ok(Migration(1, 0, time))
          else Fail(Runtime)
  }

  /** With the caller's coalescence propensity left at 0, no draw ever yields a coalescence. */
  lemma NeverCoalesces(migrateProp: seq<real>, total: real, t: real, d: Draw)
    requires d.u >= 0.0
    ensures !(GetNextEventAsWritten(migrateProp, 0.0, total, t, d).Ok? &&
              GetNextEventAsWritten(migrateProp, 0.0, total, t, d).value.Coalescence?)
  {
    if total > 0.0 {
      assert d.u * total >= 0.0;
    }
  }

  /**
   * Even with a two-entry list, a uniform that lands in the coalescence
   * share of the total falls through every test: with the caller's
   * propensity at 0 the event selection throws.
   */
  lemma CoalescenceShareFails(migrateProp: seq<real>, pc: real, t: real, d: Draw)
    requires |migrateProp| == 2 && pc > 0.0 && migrateProp[0] >= 0.0 && migrateProp[1] >= 0.0
    requires d.u * (pc + migrateProp[0] + migrateProp[1]) >= migrateProp[0] + migrateProp[1]
    ensures GetNextEventAsWritten(migrateProp, 0.0, pc + migrateProp[0] + migrateProp[1], t, d) == Fail(Runtime)
  {
  }

  /**
   * Two active lineages, N_a = 1, no dormant lineage and an active-to-dormant
   * propensity of 1: the total is 2, and the uniform 0.75 throws.
   */
  lemma CoalescenceShareExample()
    ensures GetNextEventAsWritten([0.0, 1.0], 0.0, 2.0, 0.0, Draw(0.5, 0.75, 0, 0)) == Fail(Runtime)
    ensures GetNextEvent(Propensities(1.0, 0.0, 1.0), 2.0, 0.0, Draw(0.5, 0.75, 0, 0)) == Ok(Migration(1, 0, 0.5))
  {
  }

  /**
   * simulateTree as written: the leaves enter the dead list of their type
   * (an index outside the two lists throws), and, as soon as there is a
   * leaf, the first round of the loop calls updatePropensities with the
   * empty list and throws; without leaves no live node is left to return.
   * The sort of the dead lists is left out: nothing after it is reached
   * that depends on it. No draw is taken, so none is a parameter.
   */
  method SimulateTreeAsWritten(m: TransitionModel, leafTypes: seq<int>) returns (r: Result<int>)
    ensures |leafTypes| > 0 ==> r == Fail(IndexOutOfBounds)
    ensures |leafTypes| == 0 ==> r == Fail(Runtime)
  {
    var dead0: seq<int> := [];
    var dead1: seq<int> := [];
    var l := 0;
    while l < |leafTypes|
      invariant 0 <= l <= |leafTypes| && |dead0| + |dead1| == l
    {
      var ty := leafTypes[l];
      if ty == 0 {
        dead0 := dead0 + [l];
      } else if ty == 1 {
        dead1 := dead1 + [l];
      } else {
        return Fail(IndexOutOfBounds);
      }
      l := l + 1;
    }
    var live0: seq<int> := [];
    var live1: seq<int> := [];
    var migrationProp: seq<real> := [];
    if |live0| + |live1| > 1 || |dead0| + |dead1| > 0 {
      var props := UpdatePropensitiesAsWritten(m, migrationProp, |live1|, |live0|);
      return Fail(props.error);
    }
    r := Fail(Runtime);
  }
}
