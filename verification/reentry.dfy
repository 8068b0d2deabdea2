/**
 * Leaving a slide and entering it again. Slide entry writes the entered
 * slide's setup and then the cleanup of the slide left, so the state an
 * element reaches on entry depends on the slide the presenter came from.
 */
module Reentry {
  import opened Wrappers
  import opened Dom
  import opened Substeps
  import opened Effects
  import opened StepWrites
  import opened EntryLeave

  /** A substep's setup writes an element's opacity exactly when it reaches the element, and its style exactly when `reset_css` does. */
  lemma SetupSilent(s: Substep, t: Target)
    ensures Merged(SetupStep(s), t).opacity == None <==> !Touches(s, t)
    ensures Merged(SetupStep(s), t).style == None <==> !ResetHits(s.attrs, t)
  {
    SetupWrite(s, t);
    assert EnterKinds == {ShowOnly, ShowFrom} + {HideOnly, HideFrom};
  }

  /** The same for a substep's cleanup. */
  lemma CleanupSilent(s: Substep, t: Target)
    ensures Merged(CleanupStep(s), t).opacity == None <==> !Touches(s, t)
    ensures Merged(CleanupStep(s), t).style == None <==> !ResetHits(s.attrs, t)
  {
    CleanupWrite(s, t);
  }

  /** A substep's pre-arming on slide leave writes only opacity and transition, and only into elements its setup reaches. */
  lemma LeaveSilent(s: Substep, t: Target)
    ensures !Touches(s, t) ==> Merged(LeaveStep(s), t).opacity == None
    ensures Merged(LeaveStep(s), t).style == None
  {
    LeaveWrite(s, t);
    assert EnterKinds == {ShowOnly, ShowFrom} + {HideOnly, HideFrom};
  }

  /**
   * Entering slide `a`, leaving it for `b`, and coming back to `a` gives an
   * element the opacity and style the first entry gave it, provided neither
   * the slide before the first entry nor `b` reaches the element.
   */
  lemma ReentryRestores(g: Engine, a: Slide, b: Slide, x: nat)
    requires x < |g.dom|
    requires g.slideFrom.Some? ==>
      forall n :: 0 <= n < |g.slideFrom.value.substeps| ==> !Touches(g.slideFrom.value.substeps[n], g.dom[x].target)
    requires forall n :: 0 <= n < |b.substeps| ==> !Touches(b.substeps[n], g.dom[x].target)
    ensures var first := StepEnter(g, a);
            var again := StepEnter(StepLeave(StepEnter(StepLeave(first, a, b), b), b, a), a);
            again.dom[x].inline.opacity == first.dom[x].inline.opacity
            && again.dom[x].inline.style == first.dom[x].inline.style
  {
    var t, ss := g.dom[x].target, a.substeps;
    var first := StepEnter(g, a);
    var s1 := StepLeave(first, a, b);
    var s2 := StepEnter(s1, b);
    var s3 := StepLeave(s2, b, a);
    var again := StepEnter(s3, a);
    var sa, ca, la := Merged(FlatMap(ss, SetupStep), t), Merged(FlatMap(ss, CleanupStep), t), Merged(FlatMap(ss, LeaveStep), t);

    StepEnterWrite(g, a, x);
    if g.slideFrom.Some? {
      EnterQuiet(g.slideFrom.value.substeps, t);
    }
    EnterQuiet(b.substeps, t);
    StepLeaveKeepsStyle(first, a, b, x);
    StepEnterWrite(s1, b, x);
    RunElementMerged(s2.dom[x], FlatMap(ss, LeaveStep));
    StepEnterWrite(s3, a, x);
    assert again.dom[x].inline == Apply(Apply(Apply(first.dom[x].inline, ca), la), sa);
    assert first.dom[x].inline == Apply(g.dom[x].inline, sa);

    MergedSilent(ss, SetupStep, t);
    MergedSilent(ss, CleanupStep, t);
    MergedSilent(ss, LeaveStep, t);
    forall n | 0 <= n < |ss|
      ensures Merged(SetupStep(ss[n]), t).opacity == None <==> !Touches(ss[n], t)
      ensures Merged(SetupStep(ss[n]), t).style == None <==> !ResetHits(ss[n].attrs, t)
      ensures Merged(CleanupStep(ss[n]), t).opacity == None <==> !Touches(ss[n], t)
      ensures Merged(CleanupStep(ss[n]), t).style == None <==> !ResetHits(ss[n].attrs, t)
      ensures !Touches(ss[n], t) ==> Merged(LeaveStep(ss[n]), t).opacity == None
      ensures Merged(LeaveStep(ss[n]), t).style == None
    {
      SetupSilent(ss[n], t);
      CleanupSilent(ss[n], t);
      LeaveSilent(ss[n], t);
    }
  }

  /**
   * Without the proviso on the slide before, re-entry need not restore the
   * state. Slide `f` shows class `c` only at its one substep and slide `a`
   * shows `c` from its one substep on; `b` has no substeps. Entering `a` from
   * `f` ends with `c` carrying no opacity override, since the cleanup of `f`
   * runs after the setup of `a`; leaving for `b` and coming back ends with
   * `c` hidden.
   */
  lemma ReentryDependsOnPredecessor()
    ensures var d := [Element(Target({"c"}, None), Inline(Unset, NoTransition, ""))];
            var f := Slide([Substep(false, false, map[ShowOnly := "c"], [])]);
            var a := Slide([Substep(false, false, map[ShowFrom := "c"], [])]);
            var b := Slide([]);
            var first := StepEnter(StepLeave(Start(d), f, a), a);
            var again := StepEnter(StepLeave(StepEnter(StepLeave(first, a, b), b), b, a), a);
            first.dom[0].inline.opacity == Unset && again.dom[0].inline.opacity == Zero
  {
    var t := Target({"c"}, None);
    var d := [Element(t, Inline(Unset, NoTransition, ""))];
    var f := Slide([Substep(false, false, map[ShowOnly := "c"], [])]);
    var a := Slide([Substep(false, false, map[ShowFrom := "c"], [])]);
    var b := Slide([]);
    assert Kinds(f.substeps[0], t) == {ShowOnly};
    assert Kinds(a.substeps[0], t) == {ShowFrom};
    assert StyleEntriesFor([], t) == [];
    var g0 := StepLeave(Start(d), f, a);
    StepEnterCleanupWins(g0, a, 0, 0);
    var first := StepEnter(g0, a);
    var s3 := StepLeave(StepEnter(StepLeave(first, a, b), b), b, a);
    StepEnterSetup(s3, a, 0, 0);
  }
}
