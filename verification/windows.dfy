/**
 * The windows `sub_effects` realises. With the cursor at substep `k` (the
 * substeps before it visible, it active, those after neither; `k == -1`
 * before the first substep), an element referenced by the slide at substep
 * `i` (a "from" or "only" attribute) and possibly at a later substep `j` (the
 * matching "to"; `j == |substeps|` when there is none) ends in the state the
 * plugin's documentation describes.
 */
module Windows {
  import opened Wrappers
  import opened Dom
  import opened Substeps
  import opened Effects
  import opened StepWrites

  /** What iteration `n` of a loop over `ss` writes into `t`; nothing past the end. */
  function At(f: Substep -> seq<Op>, ss: seq<Substep>, n: nat, t: Target): Write {
    if n < |ss| then Merged(f(ss[n]), t) else NoWrite
  }

  /** Whether substep `n` exists and carries `substep-active`. */
  predicate ActiveAt(ss: seq<Substep>, n: nat) {
    n < |ss| && ss[n].isActive
  }

  /** Whether substep `n` exists and carries `substep-visible`. */
  predicate VisibleAt(ss: seq<Substep>, n: nat) {
    n < |ss| && ss[n].isVisible
  }

  /** The state an element is left in by `sub_effects`, as the three phases' combined writes. */
  lemma SubEffectsWrite(g: Engine, slide: Slide, ev: SubstepEvent, x: nat)
    requires x < |g.dom|
    ensures SubEffects(g, slide, ev).dom[x].inline
         == Apply(g.dom[x].inline,
                  Then(Then(Merged(NotActiveOps(slide.substeps, ev), g.dom[x].target),
                            Merged(VisibleOps(slide.substeps), g.dom[x].target)),
                       Merged(ActiveOps(slide.substeps), g.dom[x].target)))
  {
    var ss, t := slide.substeps, g.dom[x].target;
    RunElementMerged(g.dom[x], SubEffectsOps(ss, ev));
    MergedAppend(NotActiveOps(ss, ev) + VisibleOps(ss), ActiveOps(ss), t);
    MergedAppend(NotActiveOps(ss, ev), VisibleOps(ss), t);
  }

  /** When only substeps `i` and `j` write an element, each phase writes what they write, `i` first. */
  lemma PhasesTwo(ss: seq<Substep>, ev: SubstepEvent, t: Target, m: Fields, i: nat, j: nat)
    requires i < j <= |ss|
    requires forall n :: 0 <= n < |ss| && n != i && n != j ==>
      && Project(Merged(NotActiveStep(ev, ss[n]), t), m) == NoWrite
      && Project(Merged(VisibleStep(ss[n]), t), m) == NoWrite
      && Project(Merged(ActiveStep(ss[n]), t), m) == NoWrite
    ensures Project(Then(Then(Merged(NotActiveOps(ss, ev), t), Merged(VisibleOps(ss), t)), Merged(ActiveOps(ss), t)), m)
         == Project(Then(Then(Then(At(NotActiveFn(ev), ss, i, t), At(NotActiveFn(ev), ss, j, t)),
                              Then(At(VisibleStep, ss, i, t), At(VisibleStep, ss, j, t))),
                         Then(At(ActiveStep, ss, i, t), At(ActiveStep, ss, j, t))), m)
  {
    forall n | 0 <= n < |ss|
      ensures NotActiveFn(ev)(ss[n]) == NotActiveStep(ev, ss[n])
    {
    }
    MergedTwo(ss, NotActiveFn(ev), t, m, i, j);
    MergedTwo(ss, VisibleStep, t, m, i, j);
    MergedTwo(ss, ActiveStep, t, m, i, j);
    var a1, a2, a3 := Merged(NotActiveOps(ss, ev), t), Merged(VisibleOps(ss), t), Merged(ActiveOps(ss), t);
    ProjectThen(Then(a1, a2), a3, m);
    ProjectThen(a1, a2, m);
    var b1 := Then(At(NotActiveFn(ev), ss, i, t), At(NotActiveFn(ev), ss, j, t));
    var b2 := Then(At(VisibleStep, ss, i, t), At(VisibleStep, ss, j, t));
    var b3 := Then(At(ActiveStep, ss, i, t), At(ActiveStep, ss, j, t));
    ProjectThen(Then(b1, b2), b3, m);
    ProjectThen(b1, b2, m);
  }

  /** What the three phases write for one substep none of whose style attributes names a class of `t`. */
  lemma StyleFreeWrites(ev: SubstepEvent, s: Substep, t: Target)
    requires StyleEntriesFor(s.attrs, t) == []
    ensures Merged(NotActiveStep(ev, s), t) == if s.isActive then NoWrite else NotActivePick(Kinds(s, t))
    ensures Merged(VisibleStep(s), t) == if s.isVisible then VisiblePick(Kinds(s, t)) else NoWrite
    ensures Merged(ActiveStep(s), t) == if s.isActive then ActivePick(Kinds(s, t)) else NoWrite
  {
    NotActiveWrite(ev, s, t);
    VisibleWrite(s, t);
    ActiveWrite(s, t);
    assert FlatMap([], EntryFn(VisiblePhase)) == [];
    assert FlatMap([], EntryFn(ActivePhase)) == [];
  }

  /**
   * The slide names the classes of `t` only through class-valued attributes:
   * with kinds `ki` at substep `i`, kinds `kj` at substep `j`, none elsewhere.
   */
  ghost predicate OpacityRefs(ss: seq<Substep>, t: Target, i: nat, ki: set<RefKind>, j: nat, kj: set<RefKind>) {
    forall n :: 0 <= n < |ss| ==>
      && StyleEntriesFor(ss[n].attrs, t) == []
      && Kinds(ss[n], t) == (if n == i then ki else if n == j then kj else {})
  }

  /**
   * The opacity write of `sub_effects` on such an element, phase by phase and
   * substep by substep, from the role flags of substeps `i` and `j`.
   */
  lemma OpacityTwo(g: Engine, slide: Slide, ev: SubstepEvent, i: nat, ki: set<RefKind>, j: nat, kj: set<RefKind>, x: nat)
    requires i < j <= |slide.substeps|
    requires x < |g.dom|
    requires OpacityRefs(slide.substeps, g.dom[x].target, i, ki, j, kj)
    ensures SubEffects(g, slide, ev).dom[x].inline
         == Apply(g.dom[x].inline,
                  Then(Then(Then(if ActiveAt(slide.substeps, i) then NoWrite else NotActivePick(ki),
                                 if j == |slide.substeps| || ActiveAt(slide.substeps, j) then NoWrite else NotActivePick(kj)),
                            Then(if VisibleAt(slide.substeps, i) then VisiblePick(ki) else NoWrite,
                                 if VisibleAt(slide.substeps, j) then VisiblePick(kj) else NoWrite)),
                       Then(if ActiveAt(slide.substeps, i) then ActivePick(ki) else NoWrite,
                            if ActiveAt(slide.substeps, j) then ActivePick(kj) else NoWrite)))
  {
    var ss, t := slide.substeps, g.dom[x].target;
    forall n | 0 <= n < |ss|
      ensures Merged(NotActiveStep(ev, ss[n]), t) == if ss[n].isActive then NoWrite else NotActivePick(Kinds(ss[n], t))
      ensures Merged(VisibleStep(ss[n]), t) == if ss[n].isVisible then VisiblePick(Kinds(ss[n], t)) else NoWrite
      ensures Merged(ActiveStep(ss[n]), t) == if ss[n].isActive then ActivePick(Kinds(ss[n], t)) else NoWrite
    {
      StyleFreeWrites(ev, ss[n], t);
    }
    SubEffectsWrite(g, slide, ev, x);
    PhasesTwo(ss, ev, t, AllFields, i, j);
  }

  /**
   * `data-show-from` at `i` with `data-show-to` at `j` (none when `j` is
   * past the end): shown exactly while the cursor is in `[i, j)`, always fading.
   */
  lemma ShowWindow(g: Engine, slide: Slide, ev: SubstepEvent, k: int, i: nat, j: nat, x: nat)
    requires Cursor(slide.substeps, k)
    requires i < j <= |slide.substeps|
    requires x < |g.dom|
    requires OpacityRefs(slide.substeps, g.dom[x].target, i, {ShowFrom}, j, {ShowTo})
    ensures SubEffects(g, slide, ev).dom[x].inline.opacity == if i <= k < j then One else Zero
    ensures SubEffects(g, slide, ev).dom[x].inline.transition == Fade1s
  {
    OpacityTwo(g, slide, ev, i, {ShowFrom}, j, {ShowTo}, x);
  }

  /** `data-show-only` at `m`: shown exactly when the cursor is at `m`. */
  lemma ShowOnlyWindow(g: Engine, slide: Slide, ev: SubstepEvent, k: int, m: nat, x: nat)
    requires Cursor(slide.substeps, k)
    requires m < |slide.substeps|
    requires x < |g.dom|
    requires OpacityRefs(slide.substeps, g.dom[x].target, m, {ShowOnly}, |slide.substeps|, {})
    ensures SubEffects(g, slide, ev).dom[x].inline.opacity == if k == m then One else Zero
    ensures SubEffects(g, slide, ev).dom[x].inline.transition == Fade1s
  {
    OpacityTwo(g, slide, ev, m, {ShowOnly}, |slide.substeps|, {}, x);
  }

  /**
   * `data-hide-from` at `i` with `data-hide-to` at `j` (none when `j` is
   * past the end): hidden exactly while the cursor is in `[i, j)`.
   */
  lemma HideWindow(g: Engine, slide: Slide, ev: SubstepEvent, k: int, i: nat, j: nat, x: nat)
    requires Cursor(slide.substeps, k)
    requires i < j <= |slide.substeps|
    requires x < |g.dom|
    requires OpacityRefs(slide.substeps, g.dom[x].target, i, {HideFrom}, j, {HideTo})
    ensures SubEffects(g, slide, ev).dom[x].inline.opacity == if i <= k < j then Zero else One
    ensures SubEffects(g, slide, ev).dom[x].inline.transition == Fade1s
  {
    OpacityTwo(g, slide, ev, i, {HideFrom}, j, {HideTo}, x);
  }

  /** `data-hide-only` at `m`: hidden exactly when the cursor is at `m`. */
  lemma HideOnlyWindow(g: Engine, slide: Slide, ev: SubstepEvent, k: int, m: nat, x: nat)
    requires Cursor(slide.substeps, k)
    requires m < |slide.substeps|
    requires x < |g.dom|
    requires OpacityRefs(slide.substeps, g.dom[x].target, m, {HideOnly}, |slide.substeps|, {})
    ensures SubEffects(g, slide, ev).dom[x].inline.opacity == if k == m then Zero else One
    ensures SubEffects(g, slide, ev).dom[x].inline.transition == Fade1s
  {
    OpacityTwo(g, slide, ev, m, {HideOnly}, |slide.substeps|, {}, x);
  }

  /**
   * The slide names the classes of `t` only through style attributes: the
   * single entry `ei` at substep `i`, the single entry `ej` at substep `j`,
   * none elsewhere. Class-valued attributes may name `t` anywhere.
   */
  ghost predicate StyleRefs(ss: seq<Substep>, t: Target, i: nat, ei: StyleEntry, j: nat, ej: StyleEntry) {
    forall n :: 0 <= n < |ss| ==>
      StyleEntriesFor(ss[n].attrs, t) == (if n == i then [ei] else if n == j then [ej] else [])
  }

  /** What the three phases write into the style of `t` for one substep with at most one style entry naming it. */
  lemma StyleStepWrites(ev: SubstepEvent, s: Substep, t: Target, es: seq<StyleEntry>)
    requires StyleEntriesFor(s.attrs, t) == es && |es| <= 1
    ensures Project(Merged(NotActiveStep(ev, s), t), StyleField)
         == if s.isActive || ev == SubstepEnter || es == [] then NoWrite
            else Project(EntryWrite(ResetPhase, es[0], t), StyleField)
    ensures Project(Merged(VisibleStep(s), t), StyleField)
         == if !s.isVisible || es == [] then NoWrite else Project(EntryWrite(VisiblePhase, es[0], t), StyleField)
    ensures Project(Merged(ActiveStep(s), t), StyleField)
         == if !s.isActive || es == [] then NoWrite else Project(EntryWrite(ActivePhase, es[0], t), StyleField)
  {
    NotActiveWrite(ev, s, t);
    VisibleWrite(s, t);
    ActiveWrite(s, t);
    if es == [] {
      assert FlatMap([], EntryFn(VisiblePhase)) == [];
      assert FlatMap([], EntryFn(ActivePhase)) == [];
    } else {
      assert es == [es[0]];
      assert es[0] in StyleEntriesFor(s.attrs, t);
      EntriesOpsSingle(VisiblePhase, es[0], t);
      EntriesOpsSingle(ActivePhase, es[0], t);
      assert forall e :: e in es ==> e == es[0];
    }
  }

  /**
   * The style write of `sub_effects` on an element named by style entries at
   * `i` and `j` only, from the role flags of those two substeps.
   */
  lemma StyleTwo(g: Engine, slide: Slide, ev: SubstepEvent, i: nat, ei: StyleEntry, j: nat, ej: StyleEntry, x: nat)
    requires i < j <= |slide.substeps|
    requires x < |g.dom|
    requires StyleRefs(slide.substeps, g.dom[x].target, i, ei, j, ej)
    ensures SubEffects(g, slide, ev).dom[x].inline.style
         == Apply(g.dom[x].inline,
                  Project(Then(Then(Then(if ActiveAt(slide.substeps, i) || ev == SubstepEnter then NoWrite
                                         else EntryWrite(ResetPhase, ei, g.dom[x].target),
                                         if j == |slide.substeps| || ActiveAt(slide.substeps, j) || ev == SubstepEnter then NoWrite
                                         else EntryWrite(ResetPhase, ej, g.dom[x].target)),
                                    Then(if VisibleAt(slide.substeps, i) then EntryWrite(VisiblePhase, ei, g.dom[x].target) else NoWrite,
                                         if VisibleAt(slide.substeps, j) then EntryWrite(VisiblePhase, ej, g.dom[x].target) else NoWrite)),
                               Then(if ActiveAt(slide.substeps, i) then EntryWrite(ActivePhase, ei, g.dom[x].target) else NoWrite,
                                    if ActiveAt(slide.substeps, j) then EntryWrite(ActivePhase, ej, g.dom[x].target) else NoWrite)),
                          StyleField)).style
  {
    var ss, t := slide.substeps, g.dom[x].target;
    forall n | 0 <= n < |ss|
      ensures var es := if n == i then [ei] else if n == j then [ej] else [];
        && Project(Merged(NotActiveStep(ev, ss[n]), t), StyleField)
           == (if ss[n].isActive || ev == SubstepEnter || es == [] then NoWrite else Project(EntryWrite(ResetPhase, es[0], t), StyleField))
        && Project(Merged(VisibleStep(ss[n]), t), StyleField)
           == (if !ss[n].isVisible || es == [] then NoWrite else Project(EntryWrite(VisiblePhase, es[0], t), StyleField))
        && Project(Merged(ActiveStep(ss[n]), t), StyleField)
           == (if !ss[n].isActive || es == [] then NoWrite else Project(EntryWrite(ActivePhase, es[0], t), StyleField))
    {
      var es := if n == i then [ei] else if n == j then [ej] else [];
      StyleStepWrites(ev, ss[n], t, es);
    }
    SubEffectsWrite(g, slide, ev, x);
    PhasesTwo(ss, ev, t, StyleField, i, j);
    assert NotActiveFn(ev)(ss[i]) == NotActiveStep(ev, ss[i]);
    assert j < |ss| ==> NotActiveFn(ev)(ss[j]) == NotActiveStep(ev, ss[j]);
    ProjectPhases(
      At(NotActiveFn(ev), ss, i, t), At(NotActiveFn(ev), ss, j, t),
      At(VisibleStep, ss, i, t), At(VisibleStep, ss, j, t),
      At(ActiveStep, ss, i, t), At(ActiveStep, ss, j, t),
      if ActiveAt(ss, i) || ev == SubstepEnter then NoWrite else EntryWrite(ResetPhase, ei, t),
      if j == |ss| || ActiveAt(ss, j) || ev == SubstepEnter then NoWrite else EntryWrite(ResetPhase, ej, t),
      if VisibleAt(ss, i) then EntryWrite(VisiblePhase, ei, t) else NoWrite,
      if VisibleAt(ss, j) then EntryWrite(VisiblePhase, ej, t) else NoWrite,
      if ActiveAt(ss, i) then EntryWrite(ActivePhase, ei, t) else NoWrite,
      if ActiveAt(ss, j) then EntryWrite(ActivePhase, ej, t) else NoWrite,
      StyleField);
  }

  /** Writes that agree on the projected properties combine, phase by phase, into writes that agree on them. */
  lemma ProjectPhases(a1: Write, a2: Write, b1: Write, b2: Write, c1: Write, c2: Write,
                      a1': Write, a2': Write, b1': Write, b2': Write, c1': Write, c2': Write, m: Fields)
    requires Project(a1, m) == Project(a1', m) && Project(a2, m) == Project(a2', m)
    requires Project(b1, m) == Project(b1', m) && Project(b2, m) == Project(b2', m)
    requires Project(c1, m) == Project(c1', m) && Project(c2, m) == Project(c2', m)
    ensures Project(Then(Then(Then(a1, a2), Then(b1, b2)), Then(c1, c2)), m)
         == Project(Then(Then(Then(a1', a2'), Then(b1', b2')), Then(c1', c2')), m)
  {
  }

  /**
   * `data-style-from-C` with value `v` at `i` and `data-style-to-C` at `j`
   * (none when `j` is past the end): the element carries `v` while the cursor
   * is in `[i, j)` and its base style from `j` on. Before `i` an aborted
   * transition restores the base style and a plain substep entry leaves the
   * style alone.
   */
  lemma StyleWindow(g: Engine, slide: Slide, ev: SubstepEvent, k: int, i: nat, ei: StyleEntry, j: nat, ej: StyleEntry, x: nat)
    requires Cursor(slide.substeps, k)
    requires i < j <= |slide.substeps|
    requires x < |g.dom|
    requires ei.kind == StyleFrom && ej.kind == StyleTo
    requires StyleRefs(slide.substeps, g.dom[x].target, i, ei, j, ej)
    ensures i <= k < j ==> SubEffects(g, slide, ev).dom[x].inline.style == ei.value
    ensures j <= k ==> SubEffects(g, slide, ev).dom[x].inline.style == BaseStyle(g.dom[x].target)
    ensures k < i ==>
      SubEffects(g, slide, ev).dom[x].inline.style
        == (if ev == SubstepLeaveAborted then BaseStyle(g.dom[x].target) else g.dom[x].inline.style)
  {
    StyleTwo(g, slide, ev, i, ei, j, ej, x);
  }

  /**
   * `data-style-only-C` with value `v` at `m`: the element carries `v` when
   * the cursor is at `m`; elsewhere an aborted transition restores the base
   * style and a plain substep entry leaves the style alone.
   */
  lemma StyleOnlyWindow(g: Engine, slide: Slide, ev: SubstepEvent, k: int, m: nat, e: StyleEntry, x: nat)
    requires Cursor(slide.substeps, k)
    requires m < |slide.substeps|
    requires x < |g.dom|
    requires e.kind == StyleOnly
    requires StyleRefs(slide.substeps, g.dom[x].target, m, e, |slide.substeps|, e)
    ensures k == m ==> SubEffects(g, slide, ev).dom[x].inline.style == e.value
    ensures k != m ==>
      SubEffects(g, slide, ev).dom[x].inline.style
        == (if ev == SubstepLeaveAborted then BaseStyle(g.dom[x].target) else g.dom[x].inline.style)
  {
    StyleTwo(g, slide, ev, m, e, |slide.substeps|, e, x);
  }
}
