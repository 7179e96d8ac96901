/** Which outputs a calculator window computes and shows, decided by which of
    its ten input buffers hold text (`DSCCalculateAndShow`,
    `NonDSCCalculateAndShow`). The float formulas themselves are not modelled;
    each output is described by the set of inputs its formula reads. */
module Gating {
  import opened Records

  /** The inputs whose buffers are non-empty. */
  function Present(buffers: seq<string>): (p: set<Field>)
    requires |buffers| == 10
    ensures forall k :: 0 <= k < 10 ==> (InputFields[k] in p <==> buffers[k] != "")
    ensures forall f :: f in p ==> IsInput(f)
  {
    set k | 0 <= k < 10 && buffers[k] != "" :: InputFields[k]
  }

  /** The buffers each output's `if` tests, as the program is written. */
  function GateAsWritten(isDSC: bool, o: Field): set<Field> {
    match o
    case Fps => if isDSC then {Txvid, Vactive, Htotal, Vtotal, AdjVactive} else {Txvid, Htotal, Vtotal}
    case AdjHtotal => {Vactive, Htotal, AdjVactive}
    case AdjHblank => {Vactive, Htotal, AdjVactive, Hactive}
    case MinimumHline => {AdjHactive, Hsync, Hbp}
    case MinimumLaneRate => {Txvid, Vactive, Htotal, AdjVactive, AdjHactive, Hfp, Hsync, Hbp}
    case AdjHblankMinus40 => {Vactive, Htotal, AdjVactive, AdjHactive}
    case HblankMinus40 => {Hactive, Htotal}
    case _ => {}
  }

  /** The inputs `adj_htotal = vactive * htotal / adj_vactive` reads; several
      formulas compute it first. */
  const AdjHtotalReads: set<Field> := {Vactive, Htotal, AdjVactive}

  /** The inputs each output's formula reads, following the formulas; an
      intermediate value contributes what it reads itself. */
  function Reads(isDSC: bool, o: Field): (r: set<Field>)
    ensures forall f :: f in r ==> IsInput(f)
  {
    match o
    case AdjHtotal => AdjHtotalReads
    // fps = txvid * 1e6 / (adj_htotal * (vtotal - vactive + adj_vactive)), or txvid * 1e6 / (htotal * vtotal)
    case Fps => if isDSC then AdjHtotalReads + {Txvid, Vtotal} else {Txvid, Htotal, Vtotal}
    // adj_hblank = adj_htotal - adj_hactive
    case AdjHblank => AdjHtotalReads + {AdjHactive}
    case MinimumHline => {AdjHactive, Hsync, Hbp}
    case MinimumLaneRate => AdjHtotalReads + {AdjHactive, Hfp, Hsync, Hbp, Txvid}
    // adj_hblank - 40
    case AdjHblankMinus40 => AdjHtotalReads + {AdjHactive}
    // htotal - 40 - hactive
    case HblankMinus40 => {Hactive, Htotal}
    case _ => {}
  }

  /** The outputs a window shows, as written. On every output but
      `adj_hblank` it agrees with the corrected gate. */
  function ShownAsWritten(isDSC: bool, present: set<Field>): (s: set<Field>)
    ensures forall o :: o in s <==> o in OutputFields(isDSC) && GateAsWritten(isDSC, o) <= present
    ensures forall o :: o != AdjHblank ==> (o in s <==> o in ShownIntended(isDSC, present))
  {
    AllGatesMatchReads(isDSC);
    set o | o in OutputFields(isDSC) && GateAsWritten(isDSC, o) <= present
  }

  /** The corrected gate: an output is shown when every input its formula
      reads is present. */
  function GateIntended(isDSC: bool, o: Field): (g: set<Field>)
    ensures g == Reads(isDSC, o)
    ensures o != AdjHblank ==> g == GateAsWritten(isDSC, o)
  {
    if o == AdjHblank then
      assert {Vactive, Htotal, AdjVactive, AdjHactive} == AdjHtotalReads + {AdjHactive};
      {Vactive, Htotal, AdjVactive, AdjHactive}
    else
      GatesMatchReads(isDSC, o);
      GateAsWritten(isDSC, o)
  }

  /** The outputs a window shows under the corrected gate: those whose
      formula reads only present inputs. */
  function ShownIntended(isDSC: bool, present: set<Field>): (s: set<Field>)
    ensures forall o :: o in s <==> o in OutputFields(isDSC) && Reads(isDSC, o) <= present
  {
    set o | o in OutputFields(isDSC) && GateIntended(isDSC, o) <= present
  }

  /** The written gates measured against what the formulas read: an output
      is shown exactly when every input its formula reads is present, except
      that `adj_hblank` demands `hactive`, which it does not read, in place
      of `adj_hactive`, which it does. */
  lemma ShownAsWrittenByReads(isDSC: bool, present: set<Field>, o: Field)
    requires o in OutputFields(isDSC)
    ensures o in ShownAsWritten(isDSC, present)
        <==> Reads(isDSC, o) - {AdjHactive} <= present
             && (o == AdjHblank ==> Hactive in present)
             && (o != AdjHblank && AdjHactive in Reads(isDSC, o) ==> AdjHactive in present)
  {
    if o != AdjHblank {
      GatesMatchReads(isDSC, o);
    } else {
      assert Reads(isDSC, o) - {AdjHactive} == {Vactive, Htotal, AdjVactive};
    }
  }

  /** Every gate but one tests exactly the inputs its formula reads. */
  lemma GatesMatchReads(isDSC: bool, o: Field)
    requires o != AdjHblank
    ensures GateAsWritten(isDSC, o) == Reads(isDSC, o)
  {
    match o
    case Fps =>
      if isDSC {
        assert GateAsWritten(isDSC, o) == AdjHtotalReads + {Txvid, Vtotal};
      }
    case MinimumLaneRate =>
      assert GateAsWritten(isDSC, o) == AdjHtotalReads + {AdjHactive, Hfp, Hsync, Hbp, Txvid};
    case AdjHblankMinus40 =>
      assert GateAsWritten(isDSC, o) == AdjHtotalReads + {AdjHactive};
    case _ =>
  }

  lemma AllGatesMatchReads(isDSC: bool)
    ensures forall o :: o != AdjHblank ==> GateAsWritten(isDSC, o) == Reads(isDSC, o)
  {
    forall o | o != AdjHblank ensures GateAsWritten(isDSC, o) == Reads(isDSC, o) {
      GatesMatchReads(isDSC, o);
    }
  }

  /** With the corrected gate, an output is shown if and only if every input
      its formula reads is present: never computed from an empty buffer, and
      never hidden when it could be computed. */
  lemma IntendedSoundAndComplete(isDSC: bool, present: set<Field>, o: Field)
    requires o in OutputFields(isDSC)
    ensures o in ShownIntended(isDSC, present) <==> Reads(isDSC, o) <= present
  {
  }

  /** The `adj_hblank` gate as written lets the output through with the
      `adj_hactive` buffer empty, so the formula reads an unset value. */
  lemma AdjHblankGateUnsound(isDSC: bool)
    ensures var present := {Vactive, Htotal, AdjVactive, Hactive};
            AdjHblank in ShownAsWritten(isDSC, present)
            && AdjHactive in Reads(isDSC, AdjHblank) && AdjHactive !in present
  {
    var present := {Vactive, Htotal, AdjVactive, Hactive};
    assert AdjHblank in OutputFields(isDSC);
    assert GateAsWritten(isDSC, AdjHblank) <= present;
  }

  /** And it hides the output when everything the formula needs is there but
      `hactive`, which the formula does not read. */
  lemma AdjHblankGateIncomplete(isDSC: bool)
    ensures var present := {Vactive, Htotal, AdjVactive, AdjHactive};
            AdjHblank !in ShownAsWritten(isDSC, present)
            && Reads(isDSC, AdjHblank) <= present
  {
    var present := {Vactive, Htotal, AdjVactive, AdjHactive};
    assert Hactive in GateAsWritten(isDSC, AdjHblank) && Hactive !in present;
  }

  /** More filled buffers never hide an output. */
  lemma ShownMonotone(isDSC: bool, p: set<Field>, q: set<Field>)
    requires p <= q
    ensures ShownAsWritten(isDSC, p) <= ShownAsWritten(isDSC, q)
    ensures ShownIntended(isDSC, p) <= ShownIntended(isDSC, q)
  {
  }

  /** All ten buffers filled — what the save path insists on — means every
      output of the mode was computed, under either gate. */
  lemma AllFilledShowsAll(isDSC: bool, buffers: seq<string>)
    requires |buffers| == 10
    requires forall k :: 0 <= k < 10 ==> buffers[k] != ""
    ensures forall o :: o in OutputFields(isDSC) ==> o in ShownAsWritten(isDSC, Present(buffers))
    ensures forall o :: o in OutputFields(isDSC) ==> o in ShownIntended(isDSC, Present(buffers))
  {
    var p := Present(buffers);
    forall f | IsInput(f) ensures f in p {
      var k :| 0 <= k < 10 && InputFields[k] == f;
    }
    forall o | o in OutputFields(isDSC)
      ensures GateAsWritten(isDSC, o) <= p && GateIntended(isDSC, o) <= p
    {
      assert forall f :: f in GateAsWritten(isDSC, o) ==> IsInput(f);
    }
  }
}
