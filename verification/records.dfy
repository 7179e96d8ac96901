/** The porch configuration record (`struct Conf`) and its numeric fields. */
module Records {

  /** The seventeen numeric fields of a record: ten inputs, five outputs
      common to both modes, and two DSC-only outputs. */
  datatype Field =
    | Txvid | Hactive | Vactive | Htotal | Vtotal
    | AdjVactive | AdjHactive | Hfp | Hsync | Hbp
    | Fps | AdjHtotal | AdjHblank | MinimumHline | MinimumLaneRate
    | AdjHblankMinus40 | HblankMinus40

  /** One named parameter set. The numeric fields are floats in the program;
      here they are integers (see README). */
  datatype Conf = Conf(
    name: string,
    isDSC: bool,
    txvid: int, hactive: int, vactive: int, htotal: int, vtotal: int,
    adjVactive: int, adjHactive: int, hfp: int, hsync: int, hbp: int,
    fps: int, adjHtotal: int, adjHblank: int, minimumHline: int, minimumLaneRate: int,
    adjHblankMinus40: int, hblankMinus40: int)

  /** Sentinel for an input or output that has not been set. */
  const Unset: int := -1
  /** Sentinel for an output that does not apply to the record's mode. */
  const NotApplicable: int := -2

  /** The record a freshly constructed `Conf` holds. */
  const DefaultConf: Conf := Conf(
    "Default", true,
    Unset, Unset, Unset, Unset, Unset, Unset, Unset, Unset, Unset, Unset,
    Unset, Unset, Unset, Unset, Unset,
    NotApplicable, NotApplicable)

  /** The ten inputs in the order the file and the input arrays list them. */
  const InputFields: seq<Field> :=
    [Txvid, Hactive, Vactive, Htotal, Vtotal, AdjVactive, AdjHactive, Hfp, Hsync, Hbp]

  const DscExtras: seq<Field> := [AdjHblankMinus40, HblankMinus40]

  /** The outputs a record of the given mode carries, in file order. */
  function OutputFields(isDSC: bool): (fs: seq<Field>)
    ensures |fs| == if isDSC then 7 else 5
  {
    [Fps, AdjHtotal, AdjHblank, MinimumHline, MinimumLaneRate] + (if isDSC then DscExtras else [])
  }

  predicate IsInput(f: Field) {
    f in InputFields
  }

  function Get(c: Conf, f: Field): int {
    match f
    case Txvid => c.txvid
    case Hactive => c.hactive
    case Vactive => c.vactive
    case Htotal => c.htotal
    case Vtotal => c.vtotal
    case AdjVactive => c.adjVactive
    case AdjHactive => c.adjHactive
    case Hfp => c.hfp
    case Hsync => c.hsync
    case Hbp => c.hbp
    case Fps => c.fps
    case AdjHtotal => c.adjHtotal
    case AdjHblank => c.adjHblank
    case MinimumHline => c.minimumHline
    case MinimumLaneRate => c.minimumLaneRate
    case AdjHblankMinus40 => c.adjHblankMinus40
    case HblankMinus40 => c.hblankMinus40
  }

  /** Overwrites one field; the name, the mode and every other field keep
      their values. */
  function Set(c: Conf, f: Field, v: int): (r: Conf)
    ensures r.name == c.name && r.isDSC == c.isDSC
    ensures forall g :: Get(r, g) == if g == f then v else Get(c, g)
  {
    match f
    case Txvid => c.(txvid := v)
    case Hactive => c.(hactive := v)
    case Vactive => c.(vactive := v)
    case Htotal => c.(htotal := v)
    case Vtotal => c.(vtotal := v)
    case AdjVactive => c.(adjVactive := v)
    case AdjHactive => c.(adjHactive := v)
    case Hfp => c.(hfp := v)
    case Hsync => c.(hsync := v)
    case Hbp => c.(hbp := v)
    case Fps => c.(fps := v)
    case AdjHtotal => c.(adjHtotal := v)
    case AdjHblank => c.(adjHblank := v)
    case MinimumHline => c.(minimumHline := v)
    case MinimumLaneRate => c.(minimumLaneRate := v)
    case AdjHblankMinus40 => c.(adjHblankMinus40 := v)
    case HblankMinus40 => c.(hblankMinus40 := v)
  }

  /** Two records are equal when their names, modes and all seventeen
      fields agree. */
  lemma ConfExt(a: Conf, b: Conf)
    requires a.name == b.name && a.isDSC == b.isDSC
    requires forall g :: Get(a, g) == Get(b, g)
    ensures a == b
  {
    assert Get(a, Txvid) == Get(b, Txvid);
    assert Get(a, Hactive) == Get(b, Hactive);
    assert Get(a, Vactive) == Get(b, Vactive);
    assert Get(a, Htotal) == Get(b, Htotal);
    assert Get(a, Vtotal) == Get(b, Vtotal);
    assert Get(a, AdjVactive) == Get(b, AdjVactive);
    assert Get(a, AdjHactive) == Get(b, AdjHactive);
    assert Get(a, Hfp) == Get(b, Hfp);
    assert Get(a, Hsync) == Get(b, Hsync);
    assert Get(a, Hbp) == Get(b, Hbp);
    assert Get(a, Fps) == Get(b, Fps);
    assert Get(a, AdjHtotal) == Get(b, AdjHtotal);
    assert Get(a, AdjHblank) == Get(b, AdjHblank);
    assert Get(a, MinimumHline) == Get(b, MinimumHline);
    assert Get(a, MinimumLaneRate) == Get(b, MinimumLaneRate);
    assert Get(a, AdjHblankMinus40) == Get(b, AdjHblankMinus40);
    assert Get(a, HblankMinus40) == Get(b, HblankMinus40);
  }

  /** Copies the fields `fs` of `src` into `c`, first to last. */
  function CopyFields(c: Conf, fs: seq<Field>, src: Conf): (r: Conf)
    ensures r.name == c.name && r.isDSC == c.isDSC
    ensures forall g :: Get(r, g) == if g in fs then Get(src, g) else Get(c, g)
    decreases |fs|
  {
    if fs == [] then c else CopyFields(Set(c, fs[0], Get(src, fs[0])), fs[1..], src)
  }

  /** What a record looks like once it has been through the file: a NonDSC
      record loses its two DSC-only outputs, which read back as
      `NotApplicable`. */
  function Canonical(c: Conf): (r: Conf)
    ensures r.name == c.name && r.isDSC == c.isDSC
    ensures forall g :: Get(r, g) == if g in DscExtras && !c.isDSC then NotApplicable else Get(c, g)
  {
    if c.isDSC then c else c.(adjHblankMinus40 := NotApplicable, hblankMinus40 := NotApplicable)
  }

  function CanonicalAll(s: seq<Conf>): (r: seq<Conf>)
    ensures |r| == |s|
    ensures forall i :: 0 <= i < |s| ==> r[i] == Canonical(s[i])
    ensures forall i :: 0 <= i < |s| ==> IsCanonical(r[i]) && r[i].name == s[i].name && r[i].isDSC == s[i].isDSC
    ensures r == s <==> forall i :: 0 <= i < |s| ==> IsCanonical(s[i])
  {
    seq(|s|, i requires 0 <= i < |s| => Canonical(s[i]))
  }

  predicate IsCanonical(c: Conf) {
    c.isDSC || (c.adjHblankMinus40 == NotApplicable && c.hblankMinus40 == NotApplicable)
  }

  lemma CanonicalFixes(c: Conf)
    ensures IsCanonical(Canonical(c))
    ensures IsCanonical(c) <==> Canonical(c) == c
  {
  }

  /** Every field is an input, an output of the record's mode, or one of the
      DSC-only outputs a NonDSC record lacks. */
  lemma CoveredFields(isDSC: bool, g: Field)
    ensures g in InputFields || g in OutputFields(isDSC) || (!isDSC && g in DscExtras)
    ensures !isDSC && g in DscExtras ==> g !in InputFields && g !in OutputFields(isDSC)
  {
  }

  lemma CopyTwice(d: Conf, ins: seq<Field>, outs: seq<Field>, c: Conf, g: Field)
    ensures Get(CopyFields(CopyFields(d, ins, c), outs, c), g)
         == if g in ins || g in outs then Get(c, g) else Get(d, g)
  {
  }

  lemma CanonicalRenamedGet(c: Conf, n: string, g: Field)
    ensures Get(Canonical(c).(name := n), g) == if g in DscExtras && !c.isDSC then NotApplicable else Get(c, g)
  {
  }

  lemma CopyInputsOutputsField(d: Conf, c: Conf, g: Field)
    requires d.isDSC == c.isDSC
    requires Get(d, AdjHblankMinus40) == NotApplicable && Get(d, HblankMinus40) == NotApplicable
    ensures Get(CopyFields(CopyFields(d, InputFields, c), OutputFields(c.isDSC), c), g)
         == Get(Canonical(c).(name := d.name), g)
  {
    CopyTwice(d, InputFields, OutputFields(c.isDSC), c, g);
    CoveredFields(c.isDSC, g);
    CanonicalRenamedGet(c, d.name, g);
  }

  /** Copying a record's inputs and the outputs of its mode onto a record of
      the same mode whose DSC-only outputs are `NotApplicable` yields the
      canonical form of the source under the target's name. */
  lemma CopyInputsOutputs(d: Conf, c: Conf)
    requires d.isDSC == c.isDSC
    requires Get(d, AdjHblankMinus40) == NotApplicable && Get(d, HblankMinus40) == NotApplicable
    ensures CopyFields(CopyFields(d, InputFields, c), OutputFields(c.isDSC), c) == Canonical(c).(name := d.name)
  {
    var r := CopyFields(CopyFields(d, InputFields, c), OutputFields(c.isDSC), c);
    var target := Canonical(c).(name := d.name);
    forall g ensures Get(r, g) == Get(target, g) {
      CopyInputsOutputsField(d, c, g);
    }
    ConfExt(r, target);
  }
}
