/**
 * What each handler's work for ONE substep writes into one element, stated
 * through the kinds of attribute by which the substep names the element's
 * classes (`Kinds`) and the style entries that name them (`StyleEntriesFor`),
 * rather than through the passes themselves.
 */
module StepWrites {
  import opened Wrappers
  import opened Dom
  import opened Substeps
  import opened Effects

  /**
   * Two opacity passes, the first writing `a` to the targets of kinds
   * `first`, the second writing `b` to those of kinds `second`: an element
   * named by both ends with `b`.
   */
  function Pick(ks: set<RefKind>, first: set<RefKind>, a: Opacity, second: set<RefKind>, b: Opacity, tr: Option<Transition>): Write {
    if !(ks !! second) then Write(Some(b), tr, None)
    else if !(ks !! first) then Write(Some(a), tr, None)
    else NoWrite
  }

  /** Phase (a): show-only/show-from hidden, then hide-only/hide-from shown, fading. */
  function NotActivePick(ks: set<RefKind>): Write {
    Pick(ks, {ShowOnly, ShowFrom}, Zero, {HideOnly, HideFrom}, One, Some(Fade1s))
  }

  /** Phase (b): show-from/hide-to shown, then show-to/hide-from hidden, fading. */
  function VisiblePick(ks: set<RefKind>): Write {
    Pick(ks, {ShowFrom, HideTo}, One, {ShowTo, HideFrom}, Zero, Some(Fade1s))
  }

  /** Phase (c): show-only/show-from/hide-to shown, then hide-only/show-to/hide-from hidden, fading. */
  function ActivePick(ks: set<RefKind>): Write {
    Pick(ks, {ShowOnly, ShowFrom, HideTo}, One, {HideOnly, ShowTo, HideFrom}, Zero, Some(Fade1s))
  }

  /** What `reset_css` on a marker with attributes `attrs` writes into an element with target `t`. */
  function ResetWrite(attrs: seq<Attr>, t: Target): Write {
    if ResetHits(attrs, t) then StyleWrite(BaseStyle(t)) else NoWrite
  }

  lemma TwoOpacityOps(s: Substep, first: set<RefKind>, a: Opacity, second: set<RefKind>, b: Opacity, tr: Option<Transition>, t: Target)
    ensures Merged([SetOpacity(Sel(s, first), a, tr), SetOpacity(Sel(s, second), b, tr)], t)
         == Pick(Kinds(s, t), first, a, second, b, tr)
  {
    SelMisses(s, first, t);
    SelMisses(s, second, t);
    var ops := [SetOpacity(Sel(s, first), a, tr), SetOpacity(Sel(s, second), b, tr)];
    assert ops[1..] == [ops[1]];
    assert ops[1..][1..] == [];
    assert Merged(ops[1..], t) == Then(Effect(ops[1], t), NoWrite);
    assert Merged(ops, t) == Then(Effect(ops[0], t), Then(Effect(ops[1], t), NoWrite));
  }

  /** A style loop writes into `t` only through the entries that name a class of `t`, in order. */
  lemma {:induction false} StyleOpsFiltered(p: StylePhase, attrs: seq<Attr>, t: Target)
    ensures Merged(StyleOps(p, attrs), t) == Merged(EntriesOps(p, StyleEntriesFor(attrs, t)), t)
    decreases |attrs|
  {
    if |attrs| > 0 {
      var rest := StyleEntriesFor(attrs[1..], t);
      StyleOpsFiltered(p, attrs[1..], t);
      assert StyleOps(p, attrs) == AttrOps(p, attrs[0]) + StyleOps(p, attrs[1..]);
      MergedAppend(AttrOps(p, attrs[0]), StyleOps(p, attrs[1..]), t);
      match Parse(attrs[0])
      case None =>
        assert StyleEntriesFor(attrs, t) == rest;
      case Some(e) =>
        if e.cls in t.classes {
          assert StyleEntriesFor(attrs, t) == [e] + rest;
          assert ([e] + rest)[0] == e;
          assert ([e] + rest)[1..] == rest;
          MergedAppend(EntryOps(p, e), EntriesOps(p, rest), t);
        } else {
          assert StyleEntriesFor(attrs, t) == rest;
          var ops := EntryOps(p, e);
          assert |ops| == 0 || ops[1..] == [];
        }
    }
  }

  /** `reset_css` over entries that all name a class of `t` writes its base style exactly when one of them is a style-only or style-from entry. */
  lemma {:induction false} ResetEntriesWrite(es: seq<StyleEntry>, t: Target)
    requires forall e :: e in es ==> e.cls in t.classes
    ensures Merged(EntriesOps(ResetPhase, es), t)
         == if exists e :: e in es && e.kind != StyleTo then StyleWrite(BaseStyle(t)) else NoWrite
    decreases |es|
  {
    if |es| > 0 {
      assert forall e :: e in es[1..] ==> e in es;
      ResetEntriesWrite(es[1..], t);
      MergedAppend(EntryOps(ResetPhase, es[0]), EntriesOps(ResetPhase, es[1..]), t);
      assert forall e :: e in es ==> e == es[0] || e in es[1..];
      if es[0].kind != StyleTo {
        assert [RestoreStyle(es[0].cls)][1..] == [];
      }
    }
  }

  lemma ResetCssWrite(s: Substep, t: Target)
    ensures Merged(ResetCssOps(s), t) == ResetWrite(s.attrs, t)
  {
    StyleOpsFiltered(ResetPhase, s.attrs, t);
    ResetEntriesWrite(StyleEntriesFor(s.attrs, t), t);
  }

  /** Phase (a) for one substep: nothing when it is active; otherwise the hide/show pair, then `reset_css` on an abort only. */
  lemma NotActiveWrite(ev: SubstepEvent, s: Substep, t: Target)
    ensures Merged(NotActiveStep(ev, s), t)
         == if s.isActive then NoWrite
            else Then(NotActivePick(Kinds(s, t)), if ev == SubstepLeaveAborted then ResetWrite(s.attrs, t) else NoWrite)
  {
    if !s.isActive {
      var pair := [SetOpacity(Sel(s, {ShowOnly, ShowFrom}), Zero, Some(Fade1s)),
                   SetOpacity(Sel(s, {HideOnly, HideFrom}), One, Some(Fade1s))];
      var tail := if ev == SubstepLeaveAborted then ResetCssOps(s) else [];
      TwoOpacityOps(s, {ShowOnly, ShowFrom}, Zero, {HideOnly, HideFrom}, One, Some(Fade1s), t);
      MergedAppend(pair, tail, t);
      ResetCssWrite(s, t);
    }
  }

  /** Phase (b) for one substep: nothing unless it is visible; otherwise the show/hide pair, then its style-from and style-to entries in order. */
  lemma VisibleWrite(s: Substep, t: Target)
    ensures Merged(VisibleStep(s), t)
         == if !s.isVisible then NoWrite
            else Then(VisiblePick(Kinds(s, t)), Merged(EntriesOps(VisiblePhase, StyleEntriesFor(s.attrs, t)), t))
  {
    if s.isVisible {
      var pair := [SetOpacity(Sel(s, {ShowFrom, HideTo}), One, Some(Fade1s)),
                   SetOpacity(Sel(s, {ShowTo, HideFrom}), Zero, Some(Fade1s))];
      TwoOpacityOps(s, {ShowFrom, HideTo}, One, {ShowTo, HideFrom}, Zero, Some(Fade1s), t);
      MergedAppend(pair, StyleOps(VisiblePhase, s.attrs), t);
      StyleOpsFiltered(VisiblePhase, s.attrs, t);
    }
  }

  /** Phase (c) for one substep: nothing unless it is active; otherwise the show/hide pair, then all its style entries in order. */
  lemma ActiveWrite(s: Substep, t: Target)
    ensures Merged(ActiveStep(s), t)
         == if !s.isActive then NoWrite
            else Then(ActivePick(Kinds(s, t)), Merged(EntriesOps(ActivePhase, StyleEntriesFor(s.attrs, t)), t))
  {
    if s.isActive {
      var pair := [SetOpacity(Sel(s, {ShowOnly, ShowFrom, HideTo}), One, Some(Fade1s)),
                   SetOpacity(Sel(s, {HideOnly, ShowTo, HideFrom}), Zero, Some(Fade1s))];
      TwoOpacityOps(s, {ShowOnly, ShowFrom, HideTo}, One, {HideOnly, ShowTo, HideFrom}, Zero, Some(Fade1s), t);
      MergedAppend(pair, StyleOps(ActivePhase, s.attrs), t);
      StyleOpsFiltered(ActivePhase, s.attrs, t);
    }
  }

  /** Slide entry, for one substep of the entered slide: hide, show (transition untouched), then `reset_css`. */
  lemma SetupWrite(s: Substep, t: Target)
    ensures Merged(SetupStep(s), t)
         == Then(Pick(Kinds(s, t), {ShowOnly, ShowFrom}, Zero, {HideOnly, HideFrom}, One, None), ResetWrite(s.attrs, t))
  {
    var pair := [SetOpacity(Sel(s, {ShowOnly, ShowFrom}), Zero, None),
                 SetOpacity(Sel(s, {HideOnly, HideFrom}), One, None)];
    TwoOpacityOps(s, {ShowOnly, ShowFrom}, Zero, {HideOnly, HideFrom}, One, None, t);
    MergedAppend(pair, ResetCssOps(s), t);
    ResetCssWrite(s, t);
  }

  /** Slide entry, for one substep of the slide left: the opacity override cleared on any of the four kinds, then `reset_css`. */
  lemma CleanupWrite(s: Substep, t: Target)
    ensures Merged(CleanupStep(s), t)
         == Then(if EnterKinds !! Kinds(s, t) then NoWrite else Write(Some(Unset), None, None), ResetWrite(s.attrs, t))
  {
    var op := SetOpacity(Sel(s, EnterKinds), Unset, None);
    SelMisses(s, EnterKinds, t);
    assert [op][1..] == [];
    MergedAppend([op], ResetCssOps(s), t);
    ResetCssWrite(s, t);
  }

  /** Slide leave, for one substep of the next slide: hide, then show, both with the transition cleared, and no style. */
  lemma LeaveWrite(s: Substep, t: Target)
    ensures Merged(LeaveStep(s), t)
         == Pick(Kinds(s, t), {ShowOnly, ShowFrom}, Zero, {HideOnly, HideFrom}, One, Some(NoTransition))
  {
    TwoOpacityOps(s, {ShowOnly, ShowFrom}, Zero, {HideOnly, HideFrom}, One, Some(NoTransition), t);
  }

  /** What one style entry naming a class of the element writes in each style loop. */
  function EntryWrite(p: StylePhase, e: StyleEntry, t: Target): Write {
    match p
    case ResetPhase => if e.kind == StyleTo then NoWrite else StyleWrite(BaseStyle(t))
    case VisiblePhase =>
      (match e.kind
       case StyleOnly => NoWrite
       case StyleFrom => StyleWrite(e.value)
       case StyleTo => StyleWrite(BaseStyle(t)))
    case ActivePhase => if e.kind == StyleTo then StyleWrite(BaseStyle(t)) else StyleWrite(e.value)
  }

  lemma EntriesOpsSingle(p: StylePhase, e: StyleEntry, t: Target)
    requires e.cls in t.classes
    ensures Merged(EntriesOps(p, [e]), t) == EntryWrite(p, e, t)
  {
    assert [e][1..] == [];
    assert [e][0] == e;
    assert EntryFn(p)(e) == EntryOps(p, e);
    assert FlatMap([e], EntryFn(p)) == EntryFn(p)(e) + FlatMap([e][1..], EntryFn(p));
    assert EntriesOps(p, [e]) == EntryOps(p, e) + [];
    var ops := EntryOps(p, e);
    assert |ops| == 0 || ops[1..] == [];
  }
}
