/** The calculator windows: five DSC and five NonDSC slots, each open or
    closed and carrying a title (`DSCWindowState` / `DSCWindowName` and their
    NonDSC twins). */
module Windows {
  import opened Codec

  datatype Slot = Slot(open: bool, name: string)

  /** Both families of slots. */
  datatype Slots = Slots(dsc: seq<Slot>, nonDsc: seq<Slot>)

  const SlotCount: nat := 5

  /** The title `UpdateWindows` gives a closed slot. */
  const ClosedName: string := "NULL"

  /** Program start: every slot closed, every title empty. */
  function InitialSlots(): (w: Slots)
    ensures |w.dsc| == SlotCount && |w.nonDsc| == SlotCount
    ensures forall i :: 0 <= i < SlotCount ==> !w.dsc[i].open && !w.nonDsc[i].open
  {
    var closed := Slot(false, "");
    Slots([closed, closed, closed, closed, closed], [closed, closed, closed, closed, closed])
  }

  /** Index of the lowest closed slot, or the number of slots when all are
      open. */
  function FirstClosed(slots: seq<Slot>): (i: nat)
    ensures i <= |slots|
    ensures forall j :: 0 <= j < i ==> slots[j].open
    ensures i < |slots| ==> !slots[i].open
  {
    if slots == [] || !slots[0].open then 0 else 1 + FirstClosed(slots[1..])
  }

  /** Some slot, open or closed, already carries `title`. */
  predicate Taken(slots: seq<Slot>, title: string) {
    exists j :: 0 <= j < |slots| && slots[j].name == title
  }

  predicate AllOpen(slots: seq<Slot>) {
    forall j :: 0 <= j < |slots| ==> slots[j].open
  }

  /** The shared body of `AddDSCWindow` and `AddNonDSCWindow`: an empty name,
      a title some slot already carries, or no closed slot leave everything as
      it was; otherwise the lowest closed slot opens under the new title. */
  function AddWindow(slots: seq<Slot>, windowName: string, suffix: string): (r: seq<Slot>)
    requires suffix != []
    ensures |r| == |slots|
    ensures r == slots <==> windowName == "" || Taken(slots, windowName + suffix) || AllOpen(slots)
    ensures r != slots ==>
              var i := FirstClosed(slots);
              i < |slots| && r[i] == Slot(true, windowName + suffix)
              && (forall j :: 0 <= j < |slots| && j != i ==> r[j] == slots[j])
  {
    if windowName == "" then slots
    else if Taken(slots, windowName + suffix) then slots
    else
      var i := FirstClosed(slots);
      if i == |slots| then slots
      else
        assert slots[i].open != true;
        slots[i := Slot(true, windowName + suffix)]
  }

  function AddDSCWindow(w: Slots, windowName: string): (r: Slots)
    ensures r.nonDsc == w.nonDsc && |r.dsc| == |w.dsc|
  {
    w.(dsc := AddWindow(w.dsc, windowName, DscSuffix))
  }

  function AddNonDSCWindow(w: Slots, windowName: string): (r: Slots)
    ensures r.dsc == w.dsc && |r.nonDsc| == |w.nonDsc|
  {
    w.(nonDsc := AddWindow(w.nonDsc, windowName, NonDscSuffix))
  }

  /** The close button of window `i`, which clears its open flag. */
  function CloseWindow(slots: seq<Slot>, i: nat): (r: seq<Slot>)
    requires i < |slots|
    ensures |r| == |slots| && !r[i].open && r[i].name == slots[i].name
    ensures forall j :: 0 <= j < |slots| && j != i ==> r[j] == slots[j]
  {
    slots[i := slots[i].(open := false)]
  }

  /** One family's half of `UpdateWindows`: closed slots are renamed
      `ClosedName`. */
  function ReleaseClosed(slots: seq<Slot>): (r: seq<Slot>)
    ensures |r| == |slots|
    ensures forall j :: 0 <= j < |slots| ==> r[j].open == slots[j].open
    ensures forall j :: 0 <= j < |slots| && slots[j].open ==> r[j] == slots[j]
    ensures forall j :: 0 <= j < |slots| && !slots[j].open ==> r[j].name == ClosedName
  {
    seq(|slots|, j requires 0 <= j < |slots| => if slots[j].open then slots[j] else Slot(false, ClosedName))
  }

  /** `UpdateWindows`: in both families, closed slots are renamed
      `ClosedName`; open slots and every open flag are kept. */
  function UpdateWindows(w: Slots): (r: Slots)
    ensures |r.dsc| == |w.dsc| && |r.nonDsc| == |w.nonDsc|
    ensures forall j :: 0 <= j < |w.dsc| ==>
              r.dsc[j].open == w.dsc[j].open
              && r.dsc[j].name == (if w.dsc[j].open then w.dsc[j].name else ClosedName)
    ensures forall j :: 0 <= j < |w.nonDsc| ==>
              r.nonDsc[j].open == w.nonDsc[j].open
              && r.nonDsc[j].name == (if w.nonDsc[j].open then w.nonDsc[j].name else ClosedName)
  {
    Slots(ReleaseClosed(w.dsc), ReleaseClosed(w.nonDsc))
  }

  // ---------------------------------------------------------------------
  // Invariants

  /** No two open slots share a title. */
  predicate UniqueOpen(slots: seq<Slot>) {
    forall i, j :: 0 <= i < j < |slots| && slots[i].open && slots[j].open ==> slots[i].name != slots[j].name
  }

  predicate EndsWith(s: string, suffix: string) {
    |suffix| <= |s| && s[|s| - |suffix|..] == suffix
  }

  /** Every open slot's title is a non-empty name followed by the family's
      suffix. */
  predicate OpenSuffixed(slots: seq<Slot>, suffix: string) {
    forall i :: 0 <= i < |slots| && slots[i].open ==> |slots[i].name| > |suffix| && EndsWith(slots[i].name, suffix)
  }

  predicate Good(w: Slots) {
    |w.dsc| == SlotCount && |w.nonDsc| == SlotCount
    && UniqueOpen(w.dsc) && UniqueOpen(w.nonDsc)
    && OpenSuffixed(w.dsc, DscSuffix) && OpenSuffixed(w.nonDsc, NonDscSuffix)
  }

  lemma EndsWithAppend(x: string, suffix: string)
    ensures EndsWith(x + suffix, suffix)
  {
    assert (x + suffix)[|x + suffix| - |suffix|..] == suffix;
  }

  /** Adding a window keeps open titles distinct and suffixed. */
  lemma AddWindowPreserves(slots: seq<Slot>, windowName: string, suffix: string)
    requires suffix != []
    requires UniqueOpen(slots) && OpenSuffixed(slots, suffix)
    ensures UniqueOpen(AddWindow(slots, windowName, suffix))
    ensures OpenSuffixed(AddWindow(slots, windowName, suffix), suffix)
  {
    var r := AddWindow(slots, windowName, suffix);
    if r != slots {
      var i := FirstClosed(slots);
      var title := windowName + suffix;
      assert !Taken(slots, title);
      forall a, b | 0 <= a < b < |r| && r[a].open && r[b].open ensures r[a].name != r[b].name {
        if a == i {
          assert slots[b].name != title;
        } else if b == i {
          assert slots[a].name != title;
        }
      }
      EndsWithAppend(windowName, suffix);
    }
  }

  lemma CloseWindowPreserves(slots: seq<Slot>, i: nat, suffix: string)
    requires i < |slots|
    requires UniqueOpen(slots) && OpenSuffixed(slots, suffix)
    ensures UniqueOpen(CloseWindow(slots, i)) && OpenSuffixed(CloseWindow(slots, i), suffix)
  {
  }

  lemma ReleaseClosedPreserves(slots: seq<Slot>, suffix: string)
    requires UniqueOpen(slots) && OpenSuffixed(slots, suffix)
    ensures UniqueOpen(ReleaseClosed(slots)) && OpenSuffixed(ReleaseClosed(slots), suffix)
  {
  }

  /** Every reachable slot state is good: the initial one, and whatever the
      two add operations, a close button or `UpdateWindows` make of a good
      one. */
  lemma GoodInvariant(w: Slots, windowName: string, i: nat)
    ensures Good(InitialSlots())
    ensures Good(w) ==> Good(AddDSCWindow(w, windowName)) && Good(AddNonDSCWindow(w, windowName))
    ensures Good(w) ==> Good(UpdateWindows(w))
    ensures Good(w) && i < SlotCount ==> Good(w.(dsc := CloseWindow(w.dsc, i))) && Good(w.(nonDsc := CloseWindow(w.nonDsc, i)))
  {
    if Good(w) {
      AddWindowPreserves(w.dsc, windowName, DscSuffix);
      AddWindowPreserves(w.nonDsc, windowName, NonDscSuffix);
      ReleaseClosedPreserves(w.dsc, DscSuffix);
      ReleaseClosedPreserves(w.nonDsc, NonDscSuffix);
      if i < SlotCount {
        CloseWindowPreserves(w.dsc, i, DscSuffix);
        CloseWindowPreserves(w.nonDsc, i, NonDscSuffix);
      }
    }
  }

  // ---------------------------------------------------------------------
  // UpdateWindows and the duplicate check

  lemma ReleaseClosedIdempotent(slots: seq<Slot>)
    ensures ReleaseClosed(ReleaseClosed(slots)) == ReleaseClosed(slots)
  {
  }

  lemma UpdateWindowsIdempotent(w: Slots)
    ensures UpdateWindows(UpdateWindows(w)) == UpdateWindows(w)
  {
    ReleaseClosedIdempotent(w.dsc);
    ReleaseClosedIdempotent(w.nonDsc);
  }

  /** No window title equals the closed-slot title: every title ends in
      `C`, the closed one in `L`. */
  lemma SuffixedIsNotClosedName(x: string, isDSC: bool)
    ensures x + (if isDSC then DscSuffix else NonDscSuffix) != ClosedName
  {
    var t := x + (if isDSC then DscSuffix else NonDscSuffix);
    assert t[|t| - 1] == 'C';
  }

  /** Once closed slots have been released, the duplicate check in the add
      operations sees only open windows: a title is refused as taken exactly
      when an open window carries it. */
  lemma TakenAfterRelease(slots: seq<Slot>, x: string, isDSC: bool)
    ensures var title := x + (if isDSC then DscSuffix else NonDscSuffix);
            Taken(ReleaseClosed(slots), title)
            <==> exists j :: 0 <= j < |slots| && slots[j].open && slots[j].name == title
  {
    var title := x + (if isDSC then DscSuffix else NonDscSuffix);
    var r := ReleaseClosed(slots);
    SuffixedIsNotClosedName(x, isDSC);
    if Taken(r, title) {
      var j :| 0 <= j < |r| && r[j].name == title;
      assert slots[j].open;
    }
    if exists j :: 0 <= j < |slots| && slots[j].open && slots[j].name == title {
      var j :| 0 <= j < |slots| && slots[j].open && slots[j].name == title;
      assert r[j].name == title;
    }
  }

  /** Why the per-frame release is needed: if nothing released a closed
      window's title, it would still block adding a window of the same name.
      The program runs `UpdateWindows` at the end of every frame (after the
      menu and the windows are drawn), so it never reaches this state; the
      lemma shows the situation that call exists to prevent. */
  lemma StaleTitleBlocks(slots: seq<Slot>, x: string, i: nat)
    requires i < |slots| && slots[i].open && slots[i].name == x + DscSuffix
    ensures AddWindow(CloseWindow(slots, i), x, DscSuffix) == CloseWindow(slots, i)
  {
    assert CloseWindow(slots, i)[i].name == x + DscSuffix;
  }

  /** With the release in between, closing a window and adding one of the
      same name reopens a slot under that title, at or below the closed
      one. */
  lemma ReopenAfterClose(slots: seq<Slot>, x: string, i: nat)
    requires UniqueOpen(slots) && OpenSuffixed(slots, DscSuffix)
    requires i < |slots| && slots[i].open && slots[i].name == x + DscSuffix
    ensures var released := ReleaseClosed(CloseWindow(slots, i));
            var r := AddWindow(released, x, DscSuffix);
            FirstClosed(released) <= i && r[FirstClosed(released)] == Slot(true, x + DscSuffix)
  {
    var closed := CloseWindow(slots, i);
    var released := ReleaseClosed(closed);
    assert x != "" by {
      assert |x + DscSuffix| > |DscSuffix|;
    }
    TakenAfterRelease(closed, x, true);
    assert !released[i].open;
    assert !AllOpen(released);
    assert !Taken(released, x + DscSuffix) by {
      forall j | 0 <= j < |closed| && closed[j].open ensures closed[j].name != x + DscSuffix {
        assert j != i;
        if j < i {
          assert slots[j].name != slots[i].name;
        } else {
          assert slots[i].name != slots[j].name;
        }
      }
    }
  }
}
