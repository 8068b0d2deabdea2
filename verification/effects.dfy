/**
 * The substep effects engine: `reset_css` and the three event handlers, each
 * written as the sequence of document passes it performs, in source order,
 * and run over the document by `Dom.Run`.
 */
module Effects {
  import opened Wrappers
  import opened Dom
  import opened Substeps

  /** The two events `sub_effects` is registered for. */
  datatype SubstepEvent = SubstepEnter | SubstepLeaveAborted

  /** The three loops over style attributes: `reset_css`, the visible phase and the active phase. */
  datatype StylePhase = ResetPhase | VisiblePhase | ActivePhase

  /** The passes one style entry causes in each loop. */
  function EntryOps(p: StylePhase, e: StyleEntry): seq<Op> {
    match p
    case ResetPhase =>
      if e.kind == StyleTo then [] else [RestoreStyle(e.cls)]
    case VisiblePhase =>
      (match e.kind
       case StyleOnly => []
       case StyleFrom => [SetStyle(e.cls, e.value)]
       case StyleTo => [RestoreStyle(e.cls)])
    case ActivePhase =>
      if e.kind == StyleTo then [RestoreStyle(e.cls)] else [SetStyle(e.cls, e.value)]
  }

  function EntryFn(p: StylePhase): StyleEntry -> seq<Op> {
    e => EntryOps(p, e)
  }

  function EntriesOps(p: StylePhase, es: seq<StyleEntry>): seq<Op> {
    FlatMap(es, EntryFn(p))
  }

  /** The passes one attribute causes: none unless its name is a style attribute. */
  function AttrOps(p: StylePhase, a: Attr): seq<Op> {
    match Parse(a)
    case Some(e) => EntryOps(p, e)
    case None => []
  }

  function AttrFn(p: StylePhase): Attr -> seq<Op> {
    a => AttrOps(p, a)
  }

  /** A loop over a marker's attributes in order (`for (var i = 0, atts = sub_el.attributes ...)`). */
  function StyleOps(p: StylePhase, attrs: seq<Attr>): seq<Op> {
    FlatMap(attrs, AttrFn(p))
  }

  /** `reset_css(sub_el)`. */
  function ResetCssOps(s: Substep): seq<Op> {
    StyleOps(ResetPhase, s.attrs)
  }

  /** The kinds of class-valued attribute that slide entry and slide leave read. */
  const EnterKinds: set<RefKind> := {ShowOnly, HideOnly, ShowFrom, HideFrom}

  /** Slide entry, for one substep of the entered slide: hide, show, then `reset_css`. */
  function SetupStep(s: Substep): seq<Op> {
    [SetOpacity(Sel(s, {ShowOnly, ShowFrom}), Zero, None),
     SetOpacity(Sel(s, {HideOnly, HideFrom}), One, None)]
    + ResetCssOps(s)
  }

  /** Slide entry, for one substep of the slide left before: clear the opacity override, then `reset_css`. */
  function CleanupStep(s: Substep): seq<Op> {
    [SetOpacity(Sel(s, EnterKinds), Unset, None)] + ResetCssOps(s)
  }

  /** The `impress:stepenter` handler: setup of the entered slide, then cleanup of the slide left, if any. */
  function EnterOps(entered: seq<Substep>, slideFrom: Option<seq<Substep>>): seq<Op> {
    FlatMap(entered, SetupStep)
    + (if slideFrom.Some? then FlatMap(slideFrom.value, CleanupStep) else [])
  }

  /** Phase (a) of `sub_effects`, for one substep: `.substep:not(.substep-active)`, visible ones included. */
  function NotActiveStep(ev: SubstepEvent, s: Substep): seq<Op> {
    if s.isActive then []
    else
      [SetOpacity(Sel(s, {ShowOnly, ShowFrom}), Zero, Some(Fade1s)),
       SetOpacity(Sel(s, {HideOnly, HideFrom}), One, Some(Fade1s))]
      + (if ev == SubstepLeaveAborted then ResetCssOps(s) else [])
  }

  function NotActiveFn(ev: SubstepEvent): Substep -> seq<Op> {
    s => NotActiveStep(ev, s)
  }

  /** Phase (b), for one substep: `.substep.substep-visible`. */
  function VisibleStep(s: Substep): seq<Op> {
    if !s.isVisible then []
    else
      [SetOpacity(Sel(s, {ShowFrom, HideTo}), One, Some(Fade1s)),
       SetOpacity(Sel(s, {ShowTo, HideFrom}), Zero, Some(Fade1s))]
      + StyleOps(VisiblePhase, s.attrs)
  }

  /** Phase (c), for one substep: `.substep.substep-active`. */
  function ActiveStep(s: Substep): seq<Op> {
    if !s.isActive then []
    else
      [SetOpacity(Sel(s, {ShowOnly, ShowFrom, HideTo}), One, Some(Fade1s)),
       SetOpacity(Sel(s, {HideOnly, ShowTo, HideFrom}), Zero, Some(Fade1s))]
      + StyleOps(ActivePhase, s.attrs)
  }

  function NotActiveOps(ss: seq<Substep>, ev: SubstepEvent): seq<Op> {
    FlatMap(ss, NotActiveFn(ev))
  }

  function VisibleOps(ss: seq<Substep>): seq<Op> {
    FlatMap(ss, VisibleStep)
  }

  function ActiveOps(ss: seq<Substep>): seq<Op> {
    FlatMap(ss, ActiveStep)
  }

  /** `sub_effects`: the three phases, each over all substeps in document order. */
  function SubEffectsOps(ss: seq<Substep>, ev: SubstepEvent): seq<Op> {
    NotActiveOps(ss, ev) + VisibleOps(ss) + ActiveOps(ss)
  }

  /** The `impress:stepleave` handler, for one substep of the next slide: hide and show with no transition. */
  function LeaveStep(s: Substep): seq<Op> {
    [SetOpacity(Sel(s, {ShowOnly, ShowFrom}), Zero, Some(NoTransition)),
     SetOpacity(Sel(s, {HideOnly, HideFrom}), One, Some(NoTransition))]
  }

  /** A slide: its substep markers in document order. */
  datatype Slide = Slide(substeps: seq<Substep>)

  /** The document and the remembered `slide_from`. */
  datatype Engine = Engine(dom: Document, slideFrom: Option<Slide>)

  /** The state when the plugin is loaded: `slide_from = null`. */
  function Start(dom: Document): (r: Engine)
    ensures r.slideFrom == None && r.dom == dom
  {
    Engine(dom, None)
  }

  /** `impress:stepenter` on slide `entered`; `slide_from` is kept. */
  function StepEnter(g: Engine, entered: Slide): (r: Engine)
    ensures r.slideFrom == g.slideFrom
    ensures |r.dom| == |g.dom|
    ensures forall x :: 0 <= x < |g.dom| ==> r.dom[x].target == g.dom[x].target
  {
    var left := if g.slideFrom.Some? then Some(g.slideFrom.value.substeps) else None;
    g.(dom := Run(g.dom, EnterOps(entered.substeps, left)))
  }

  /** `sub_effects` for an event of type `ev` on `slide`. */
  function SubEffects(g: Engine, slide: Slide, ev: SubstepEvent): (r: Engine)
    ensures r.slideFrom == g.slideFrom
    ensures |r.dom| == |g.dom|
    ensures forall x :: 0 <= x < |g.dom| ==> r.dom[x].target == g.dom[x].target
  {
    g.(dom := Run(g.dom, SubEffectsOps(slide.substeps, ev)))
  }

  /** `impress:stepleave` from `leaving` towards `next`. */
  function StepLeave(g: Engine, leaving: Slide, next: Slide): (r: Engine)
    ensures r.slideFrom == Some(leaving)
    ensures |r.dom| == |g.dom|
    ensures forall x :: 0 <= x < |g.dom| ==> r.dom[x].target == g.dom[x].target
  {
    Engine(Run(g.dom, FlatMap(next.substeps, LeaveStep)), Some(leaving))
  }

  /**
   * The roles the host gives the substeps of a slide whose cursor is at `k`:
   * the substeps before `k` are visible, `k` is active (and may be visible
   * too), the ones after are neither. `k == -1` is the state before the
   * first substep, with no active substep.
   */
  predicate Cursor(ss: seq<Substep>, k: int) {
    && -1 <= k < |ss|
    && forall n :: 0 <= n < |ss| ==> ss[n].isActive == (n == k) && (n != k ==> ss[n].isVisible == (n < k))
  }
}
