/**
 * Properties of `reset_css`, of slide entry (`impress:stepenter`) and of
 * slide leave (`impress:stepleave`), and the idempotence of every handler.
 */
module EntryLeave {
  import opened Wrappers
  import opened Dom
  import opened Substeps
  import opened Effects
  import opened StepWrites

  /** Whether slide entry's work for substep `s` (setup or cleanup) reaches an element with target `t`. */
  predicate Touches(s: Substep, t: Target) {
    !(EnterKinds !! Kinds(s, t)) || ResetHits(s.attrs, t)
  }

  /** What `reset_css` leaves in one element: its base style and no opacity or transition override if a style-only or style-from attribute names it, else its old state. */
  function ResetElement(e: Element, s: Substep): Element {
    if ResetHits(s.attrs, e.target) then Element(e.target, Inline(Unset, NoTransition, BaseStyle(e.target))) else e
  }

  /** Replaying the passes of `reset_css` leaves every element as `ResetElement` says. */
  lemma ResetCssEffect(d: Document, s: Substep)
    ensures forall x :: 0 <= x < |d| ==> Run(d, ResetCssOps(s))[x] == ResetElement(d[x], s)
  {
    forall x | 0 <= x < |d|
      ensures Run(d, ResetCssOps(s))[x] == ResetElement(d[x], s)
    {
      RunElementMerged(d[x], ResetCssOps(s));
      ResetCssWrite(s, d[x].target);
    }
  }

  /**
   * `reset_css(sub_el)`: every element named by a `data-style-only-*` or
   * `data-style-from-*` attribute of the marker gets its base style (its
   * inline opacity and transition go with the rest of the style attribute);
   * every other element keeps its state.
   */
  function ResetCss(d: Document, s: Substep): (r: Document)
    ensures |r| == |d|
    ensures forall x :: 0 <= x < |d| ==>
      r[x] == if ResetHits(s.attrs, d[x].target)
              then Element(d[x].target, Inline(Unset, NoTransition, BaseStyle(d[x].target)))
              else d[x]
  {
    ResetCssEffect(d, s);
    Run(d, ResetCssOps(s))
  }

  /** Applying `reset_css` twice equals applying it once. */
  lemma ResetCssIdempotent(d: Document, s: Substep)
    ensures ResetCss(ResetCss(d, s), s) == ResetCss(d, s)
  {
    RunIdempotent(d, ResetCssOps(s));
  }

  /** Slide entry run twice on the same slide leaves the state of one run. */
  lemma StepEnterIdempotent(g: Engine, entered: Slide)
    ensures StepEnter(StepEnter(g, entered), entered) == StepEnter(g, entered)
  {
    var left := if g.slideFrom.Some? then Some(g.slideFrom.value.substeps) else None;
    RunIdempotent(g.dom, EnterOps(entered.substeps, left));
  }

  /** `sub_effects` run twice for the same event leaves the state of one run: it re-converges from scratch. */
  lemma SubEffectsIdempotent(g: Engine, slide: Slide, ev: SubstepEvent)
    ensures SubEffects(SubEffects(g, slide, ev), slide, ev) == SubEffects(g, slide, ev)
  {
    RunIdempotent(g.dom, SubEffectsOps(slide.substeps, ev));
  }

  /** The cleanup of a left slide only ever clears opacity and restores base styles. */
  lemma {:induction false} CleanupOnlyClears(ss: seq<Substep>, t: Target)
    ensures Merged(FlatMap(ss, CleanupStep), t).opacity in {None, Some(Unset)}
    ensures Merged(FlatMap(ss, CleanupStep), t).style in {None, Some(BaseStyle(t))}
    decreases |ss|
  {
    if |ss| > 0 {
      CleanupOnlyClears(ss[1..], t);
      CleanupWrite(ss[0], t);
      MergedAppend(CleanupStep(ss[0]), FlatMap(ss[1..], CleanupStep), t);
    }
  }

  /** Once any substep of the left slide reaches an element, the cleanup ends with its opacity override cleared. */
  lemma {:induction false} CleanupClears(ss: seq<Substep>, t: Target, n: nat)
    requires n < |ss| && Touches(ss[n], t)
    ensures Merged(FlatMap(ss, CleanupStep), t).opacity == Some(Unset)
    ensures ResetHits(ss[n].attrs, t) ==> Merged(FlatMap(ss, CleanupStep), t).style == Some(BaseStyle(t))
    decreases |ss|
  {
    CleanupWrite(ss[0], t);
    MergedAppend(CleanupStep(ss[0]), FlatMap(ss[1..], CleanupStep), t);
    if n == 0 {
      CleanupOnlyClears(ss[1..], t);
    } else {
      assert ss[1..][n - 1] == ss[n];
      CleanupClears(ss[1..], t, n - 1);
    }
  }

  /** The element state after slide entry, as the setup's and the cleanup's combined writes. */
  lemma StepEnterWrite(g: Engine, entered: Slide, x: nat)
    requires x < |g.dom|
    ensures StepEnter(g, entered).dom[x].inline
         == Apply(g.dom[x].inline,
                  Then(Merged(FlatMap(entered.substeps, SetupStep), g.dom[x].target),
                       if g.slideFrom.Some? then Merged(FlatMap(g.slideFrom.value.substeps, CleanupStep), g.dom[x].target)
                       else NoWrite))
  {
    var left := if g.slideFrom.Some? then Some(g.slideFrom.value.substeps) else None;
    var cleanup := if left.Some? then FlatMap(left.value, CleanupStep) else [];
    RunElementMerged(g.dom[x], EnterOps(entered.substeps, left));
    MergedAppend(FlatMap(entered.substeps, SetupStep), cleanup, g.dom[x].target);
  }

  /** A slide none of whose substeps reaches an element: its setup, or its cleanup, writes nothing into it. */
  lemma EnterQuiet(ss: seq<Substep>, t: Target)
    requires forall n :: 0 <= n < |ss| ==> !Touches(ss[n], t)
    ensures Merged(FlatMap(ss, SetupStep), t) == NoWrite
    ensures Merged(FlatMap(ss, CleanupStep), t) == NoWrite
  {
    forall n | 0 <= n < |ss|
      ensures Merged(SetupStep(ss[n]), t) == NoWrite
      ensures Merged(CleanupStep(ss[n]), t) == NoWrite
    {
      SetupWrite(ss[n], t);
      CleanupWrite(ss[n], t);
    }
    MergedQuiet(ss, SetupStep, t, AllFields);
    MergedQuiet(ss, CleanupStep, t, AllFields);
  }

  /**
   * Entering the first slide (`slide_from` still null) runs no cleanup: an
   * element the entered slide does not reach keeps its state.
   */
  lemma StepEnterFirstSlide(g: Engine, entered: Slide, x: nat)
    requires g.slideFrom == None
    requires x < |g.dom|
    requires forall n :: 0 <= n < |entered.substeps| ==> !Touches(entered.substeps[n], g.dom[x].target)
    ensures StepEnter(g, entered).dom[x] == g.dom[x]
  {
    StepEnterWrite(g, entered, x);
    EnterQuiet(entered.substeps, g.dom[x].target);
  }

  /**
   * Slide entry's setup, for an element the left slide (if any) does not
   * reach: the last substep `m` of the entered slide that reaches it decides.
   * Within that substep the opacity becomes 0 for show-only/show-from, then 1
   * for hide-only/hide-from (so 1 when both name it), and `reset_css` then
   * rewrites the style attribute, which clears the opacity override. Setup
   * never starts a fade.
   */
  lemma StepEnterSetup(g: Engine, entered: Slide, x: nat, m: nat)
    requires x < |g.dom|
    requires g.slideFrom.Some? ==>
      forall n :: 0 <= n < |g.slideFrom.value.substeps| ==> !Touches(g.slideFrom.value.substeps[n], g.dom[x].target)
    requires m < |entered.substeps| && Touches(entered.substeps[m], g.dom[x].target)
    requires forall n :: m < n < |entered.substeps| ==> !Touches(entered.substeps[n], g.dom[x].target)
    ensures StepEnter(g, entered).dom[x].inline.opacity
         == if ResetHits(entered.substeps[m].attrs, g.dom[x].target) then Unset
            else if !({HideOnly, HideFrom} !! Kinds(entered.substeps[m], g.dom[x].target)) then One
            else Zero
    ensures ResetHits(entered.substeps[m].attrs, g.dom[x].target) ==>
      StepEnter(g, entered).dom[x].inline == Inline(Unset, NoTransition, BaseStyle(g.dom[x].target))
    ensures StepEnter(g, entered).dom[x].inline.transition in {g.dom[x].inline.transition, NoTransition}
  {
    var ss, t := entered.substeps, g.dom[x].target;
    StepEnterWrite(g, entered, x);
    if g.slideFrom.Some? {
      EnterQuiet(g.slideFrom.value.substeps, t);
    }
    forall n | m < n < |ss|
      ensures Project(Merged(SetupStep(ss[n]), t), AllFields) == NoWrite
    {
      SetupWrite(ss[n], t);
    }
    MergedLast(ss, SetupStep, t, AllFields, m);
    SetupWrite(ss[m], t);
    SetupKeepsTransition(ss[..m], t);
  }

  /** Setup writes a transition only through `reset_css`, and then always clears it. */
  lemma {:induction false} SetupKeepsTransition(ss: seq<Substep>, t: Target)
    ensures Merged(FlatMap(ss, SetupStep), t).transition in {None, Some(NoTransition)}
    decreases |ss|
  {
    if |ss| > 0 {
      SetupKeepsTransition(ss[1..], t);
      SetupWrite(ss[0], t);
      MergedAppend(SetupStep(ss[0]), FlatMap(ss[1..], SetupStep), t);
    }
  }

  /**
   * Slide entry's cleanup wins: an element that any substep of the left
   * slide reaches ends with no opacity override, whatever the entered slide
   * did to it, and with its base style when that substep resets its style.
   */
  lemma StepEnterCleanupWins(g: Engine, entered: Slide, x: nat, n: nat)
    requires x < |g.dom|
    requires g.slideFrom.Some?
    requires n < |g.slideFrom.value.substeps| && Touches(g.slideFrom.value.substeps[n], g.dom[x].target)
    ensures StepEnter(g, entered).dom[x].inline.opacity == Unset
    ensures ResetHits(g.slideFrom.value.substeps[n].attrs, g.dom[x].target) ==>
      StepEnter(g, entered).dom[x].inline.style == BaseStyle(g.dom[x].target)
  {
    StepEnterWrite(g, entered, x);
    CleanupClears(g.slideFrom.value.substeps, g.dom[x].target, n);
  }

  /**
   * Slide leave never writes a style attribute, and an element no substep
   * of the next slide names through show-only/hide-only/show-from/hide-from
   * keeps its whole state.
   */
  lemma StepLeaveKeepsStyle(g: Engine, leaving: Slide, next: Slide, x: nat)
    requires x < |g.dom|
    ensures StepLeave(g, leaving, next).dom[x].inline.style == g.dom[x].inline.style
    ensures (forall n :: 0 <= n < |next.substeps| ==> EnterKinds !! Kinds(next.substeps[n], g.dom[x].target)) ==>
      StepLeave(g, leaving, next).dom[x] == g.dom[x]
  {
    var ss, t := next.substeps, g.dom[x].target;
    RunElementMerged(g.dom[x], FlatMap(ss, LeaveStep));
    forall n | 0 <= n < |ss|
      ensures Project(Merged(LeaveStep(ss[n]), t), StyleField) == NoWrite
    {
      LeaveWrite(ss[n], t);
    }
    MergedQuiet(ss, LeaveStep, t, StyleField);
    if forall n :: 0 <= n < |ss| ==> EnterKinds !! Kinds(ss[n], t) {
      forall n | 0 <= n < |ss|
        ensures Project(Merged(LeaveStep(ss[n]), t), AllFields) == NoWrite
      {
        LeaveWrite(ss[n], t);
      }
      MergedQuiet(ss, LeaveStep, t, AllFields);
    }
  }

  /**
   * Slide leave pre-arms the next slide: the last substep `m` of the next
   * slide that names an element decides its opacity (0 for show-only/
   * show-from, 1 for hide-only/hide-from, 1 when both), with no transition.
   */
  lemma StepLeaveLastWins(g: Engine, leaving: Slide, next: Slide, x: nat, m: nat)
    requires x < |g.dom|
    requires m < |next.substeps| && !(EnterKinds !! Kinds(next.substeps[m], g.dom[x].target))
    requires forall n :: m < n < |next.substeps| ==> EnterKinds !! Kinds(next.substeps[n], g.dom[x].target)
    ensures StepLeave(g, leaving, next).dom[x].inline.opacity
         == if !({HideOnly, HideFrom} !! Kinds(next.substeps[m], g.dom[x].target)) then One else Zero
    ensures StepLeave(g, leaving, next).dom[x].inline.transition == NoTransition
  {
    var ss, t := next.substeps, g.dom[x].target;
    RunElementMerged(g.dom[x], FlatMap(ss, LeaveStep));
    forall n | m < n < |ss|
      ensures Project(Merged(LeaveStep(ss[n]), t), AllFields) == NoWrite
    {
      LeaveWrite(ss[n], t);
    }
    MergedLast(ss, LeaveStep, t, AllFields, m);
    LeaveWrite(ss[m], t);
  }
}
