# Substep effects of impress.js, in Dafny

This project models the substep effects plugin of impress.js
(`src/plugins/subeffects/substep-effects.js`). A slide holds `.substep` markers.
Each marker names target classes in two ways:

- through `data-show-only`, `data-hide-only`, `data-show-from`, `data-show-to`,
  `data-hide-from` and `data-hide-to`;
- through `data-style-only-CLASS`, `data-style-from-CLASS` and `data-style-to-CLASS`.

As the presenter steps through the substeps, the plugin opens and closes
visibility windows on the targets by writing their inline `opacity`, `transition`
and `style`. Four pieces of code do this work:

- `reset_css`;
- the `impress:stepenter` handler, which sets up the entered slide and cleans up the slide left;
- `sub_effects`, with its not-active, visible and active phases;
- the `impress:stepleave` handler, which records `slide_from` and pre-arms the next slide.

Each handler is modelled as the sequence of document passes it makes, one per
`querySelectorAll(...).forEach(...)`, in source order (module `Effects`). A
handler's state transformer replays those passes over the document (`Dom.Run`).
An independent last-writer-wins reading (`Dom.Merged`) is proved equal to the
replay. Every handler property is then proved through that reading.

Modules:

- `Wrappers`: `Option`.
- `Dom`: elements, passes, replay and the last-writer reading, with generic loop lemmas.
- `Substeps`: markers, attribute-name parsing, and the kinds of attribute that name an element.
- `Effects`: the four handlers and the engine state (document plus `slide_from`).
- `StepWrites`: what each handler's work for one substep writes into one element.
- `EntryLeave`: properties of `reset_css`, slide entry and slide leave.
- `Windows`: the show, hide and style windows that `sub_effects` realises for a cursor position.
- `Reentry`: leaving a slide and entering it again, and how the result depends on the slide entered from.

Modelling decisions:

- A target element is its class set, its optional `data-style-base`, and three
  inline fields. Opacity is `Unset` (""), `Zero` or `One`. Transition is
  `NoTransition` ("") or `Fade1s` ("opacity 1s"). Style is a string.
- Writing the style attribute replaces the whole inline declaration block. So
  every `setAttribute("style", v)` also clears the inline opacity and transition.
- An absent class-valued attribute names no class. It is a missing key of `Substep.refs`.
- `data-style-base` counts only when it is a non-empty string, because the
  source tests it for truthiness.
- A style attribute is recognised by a prefix test on its name. The class is
  read from one character past the prefix, whatever that character is.
- The host's `substep-active` and `substep-visible` flags are inputs. The
  window lemmas assume a cursor (`Effects.Cursor`) at `k`: substeps before
  `k` are visible, `k` is active and may also be visible, and the rest are
  neither. `k == -1` is the state before the first substep, where no substep
  is active.
- Phase (a) of `sub_effects` selects `.substep:not(.substep-active)`, so it
  resets visible substeps too, as the comments at lines 118-120 and 128 say
  ("at each substep", "in all substeps"). The visible and active phases then
  override what phase (a) wrote.

## Model

| member | source | states |
|---|---|---|
| Dom.Run | src/plugins/subeffects/substep-effects.js:81-93 | a handler's passes over the document leave each element as that element alone experiences the passes, and keep the number of elements |
| Dom.RunElementMerged | src/plugins/subeffects/substep-effects.js:81-93 | replaying the passes one by one equals applying, once, the last write each pass sequence makes to each inline property |
| Dom.RunIdempotent | src/plugins/subeffects/substep-effects.js:46-75 | every pass writes values independent of the element's prior state, so replaying a handler's passes twice equals replaying them once |
| Dom.MergedAppend | src/plugins/subeffects/substep-effects.js:117-241 | the passes of consecutive loops combine as their writes do, the later loop on top |
| Substeps.ParseRender | src/plugins/subeffects/substep-effects.js:50-52 | an attribute written as `data-style-<family>-CLASS` is read back as that family, class and value |
| Substeps.ParseAnySeparator | src/plugins/subeffects/substep-effects.js:63-65 | the class is read from one character past the prefix, whatever that character is |
| Substeps.PrefixesExclusive | src/plugins/subeffects/substep-effects.js:207-238 | no attribute name starts with two family prefixes, so the three separate tests select at most one family |
| StepWrites.TwoOpacityOps | src/plugins/subeffects/substep-effects.js:81-93 | of two opacity passes in a row, an element named by both ends with the second value, by one ends with that one's value, by neither is untouched |
| StepWrites.ResetCssWrite | src/plugins/subeffects/substep-effects.js:46-75 | `reset_css` restores the base style of exactly the elements named by a style-only or style-from attribute, and writes nothing elsewhere |
| StepWrites.StyleOpsFiltered | src/plugins/subeffects/substep-effects.js:162-184 | an attribute loop writes into an element only through the style entries naming its classes, in attribute order |
| StepWrites.NotActiveWrite | src/plugins/subeffects/substep-effects.js:119-140 | a non-active substep, visible ones included, hides show-only/show-from targets, then shows hide-only/hide-from targets, fading; it resets styles only on an aborted leave |
| StepWrites.VisibleWrite | src/plugins/subeffects/substep-effects.js:142-185 | a visible substep shows show-from/hide-to targets, then hides show-to/hide-from targets, fading, then applies its style-from and style-to entries in order |
| StepWrites.ActiveWrite | src/plugins/subeffects/substep-effects.js:187-240 | the active substep shows show-only/show-from/hide-to targets, then hides hide-only/show-to/hide-from targets, then applies style-only/style-from values and restores style-to targets |
| StepWrites.SetupWrite | src/plugins/subeffects/substep-effects.js:79-96 | slide entry hides a substep's show-only/show-from targets, then shows its hide-only/hide-from targets (one named by both ends shown), then runs `reset_css` |
| StepWrites.CleanupWrite | src/plugins/subeffects/substep-effects.js:100-112 | cleanup of a left substep clears the opacity override of any of its four kinds of target, then runs `reset_css` |
| StepWrites.LeaveWrite | src/plugins/subeffects/substep-effects.js:254-273 | slide leave hides show-only/show-from targets and shows hide-only/hide-from targets of a next-slide substep with no transition, and never writes a style |
| Effects.Start | src/plugins/subeffects/substep-effects.js:44 | the plugin starts with no remembered `slide_from` and the document as it is |
| Effects.StepEnter | src/plugins/subeffects/substep-effects.js:77-114 | slide entry keeps `slide_from`, the elements and their classes |
| Effects.SubEffects | src/plugins/subeffects/substep-effects.js:117-241 | `sub_effects` keeps `slide_from`, the elements and their classes |
| Effects.StepLeave | src/plugins/subeffects/substep-effects.js:250-274 | slide leave records the leaving slide as `slide_from` and keeps the elements and their classes |
| EntryLeave.ResetCss | src/plugins/subeffects/substep-effects.js:46-75 | `reset_css` gives each element named by a style-only or style-from attribute its non-empty `data-style-base` or "" (clearing its inline opacity and transition with it), and leaves every other element unchanged |
| EntryLeave.ResetCssIdempotent | src/plugins/subeffects/substep-effects.js:46-75 | applying `reset_css` twice equals applying it once |
| EntryLeave.StepEnterIdempotent | src/plugins/subeffects/substep-effects.js:77-114 | entering the same slide twice leaves the state of one entry |
| EntryLeave.SubEffectsIdempotent | src/plugins/subeffects/substep-effects.js:117-241 | `sub_effects` run twice for the same event leaves the state of one run |
| EntryLeave.StepEnterWrite | src/plugins/subeffects/substep-effects.js:77-114 | an element's state after slide entry is the setup's writes with the cleanup's writes on top |
| EntryLeave.CleanupOnlyClears | src/plugins/subeffects/substep-effects.js:100-112 | the cleanup loop only ever clears opacity overrides and restores base styles |
| EntryLeave.CleanupClears | src/plugins/subeffects/substep-effects.js:100-112 | once any substep of the left slide reaches an element, the cleanup loop ends with that element's opacity override cleared, and restores its base style when the reaching substep resets styles |
| EntryLeave.EnterQuiet | src/plugins/subeffects/substep-effects.js:79-112 | a slide none of whose substeps reaches an element writes nothing into it at entry, neither in setup nor in cleanup |
| EntryLeave.StepEnterFirstSlide | src/plugins/subeffects/substep-effects.js:99 | with `slide_from` still null no cleanup runs, so an element the entered slide does not reach keeps its state |
| EntryLeave.StepEnterSetup | src/plugins/subeffects/substep-effects.js:79-96 | the last substep of the entered slide reaching an element decides its opacity: 0 for show kinds, 1 for hide kinds or both, cleared (with base style) when that substep resets its style; setup never starts a fade |
| EntryLeave.SetupKeepsTransition | src/plugins/subeffects/substep-effects.js:79-96 | the setup loop writes a transition only through `reset_css`, which clears it |
| EntryLeave.StepEnterCleanupWins | src/plugins/subeffects/substep-effects.js:99-113 | an element reached by any substep of the left slide ends with no opacity override, whatever the entered slide wrote, and with its base style when that substep resets styles |
| EntryLeave.StepLeaveKeepsStyle | src/plugins/subeffects/substep-effects.js:254-273 | slide leave never changes an element's style, and an element the next slide's four kinds of attribute do not name keeps its whole state |
| EntryLeave.StepLeaveLastWins | src/plugins/subeffects/substep-effects.js:254-273 | the last substep of the next slide naming an element decides its pre-armed opacity (0 for show kinds, 1 for hide kinds or both), with no transition |
| Windows.SubEffectsWrite | src/plugins/subeffects/substep-effects.js:117-241 | an element's state after `sub_effects` is the not-active phase's writes, then the visible phase's, then the active phase's |
| Windows.PhasesTwo | src/plugins/subeffects/substep-effects.js:117-241 | when only substeps `i` and `j` write an element, each phase writes `i`'s part then `j`'s part |
| Windows.StyleFreeWrites | src/plugins/subeffects/substep-effects.js:119-205 | for a substep with no style entry naming an element, each phase writes only its opacity pair, and only for substeps of that phase's role |
| Windows.OpacityTwo | src/plugins/subeffects/substep-effects.js:119-205 | for an element named at `i` and `j` through class-valued attributes only, the final state is the phases' picks in order, decided by the active and visible flags of `i` and `j` alone |
| Windows.ShowWindow | src/plugins/subeffects/substep-effects.js:15-17 | with show-from at `i` and show-to at `j` (or none), the element is shown exactly while the cursor is in `[i, j)` and hidden otherwise (before the first substep included), always with a fade, whether or not the active substep is also visible |
| Windows.ShowOnlyWindow | src/plugins/subeffects/substep-effects.js:11 | with show-only at `m`, the element is shown exactly when the cursor is at `m`, fading, whether or not the active substep is also visible |
| Windows.HideWindow | src/plugins/subeffects/substep-effects.js:19-21 | with hide-from at `i` and hide-to at `j` (or none), the element is hidden exactly while the cursor is in `[i, j)` and shown otherwise, fading, whether or not the active substep is also visible |
| Windows.HideOnlyWindow | src/plugins/subeffects/substep-effects.js:13 | with hide-only at `m`, the element is hidden exactly when the cursor is at `m`, fading, whether or not the active substep is also visible |
| Windows.StyleStepWrites | src/plugins/subeffects/substep-effects.js:136-238 | for a substep with at most one style entry naming an element, what each phase writes into its style, by role and event |
| Windows.StyleTwo | src/plugins/subeffects/substep-effects.js:162-238 | for an element named by style entries at `i` and `j` only, its final style is the phases' style writes in order, decided by the active and visible flags of `i` and `j` and the event |
| Windows.StyleWindow | src/plugins/subeffects/substep-effects.js:29-32 | with style-from `v` at `i` and style-to at `j` (or none), the element has style `v` while the cursor is in `[i, j)` and its base style from `j` on; before `i` (or before the first substep) an aborted leave restores the base style and a plain substep entry leaves the style alone; the active substep may also be visible |
| Windows.StyleOnlyWindow | src/plugins/subeffects/substep-effects.js:27 | with style-only `v` at `m`, the element has style `v` when the cursor is at `m`; elsewhere an aborted leave restores the base style and a plain substep entry leaves it alone; the active substep may also be visible |
| Reentry.SetupSilent | src/plugins/subeffects/substep-effects.js:79-96 | a substep's setup writes an element's opacity exactly when one of its four kinds of attribute or its `reset_css` reaches it, and its style exactly when `reset_css` does |
| Reentry.CleanupSilent | src/plugins/subeffects/substep-effects.js:100-112 | a left substep's cleanup writes an element's opacity exactly when it reaches the element, and its style exactly when `reset_css` does |
| Reentry.LeaveSilent | src/plugins/subeffects/substep-effects.js:254-273 | pre-arming on slide leave never writes a style, and writes no opacity into an element the substep's setup does not reach |
| Reentry.ReentryRestores | src/plugins/subeffects/substep-effects.js:77-114 | entering a slide, leaving it for a slide that does not reach an element, and entering it again restores that element's opacity and style from the first entry, when the slide before the first entry did not reach it either |
| Reentry.ReentryDependsOnPredecessor | src/plugins/subeffects/substep-effects.js:99-113 | without that proviso re-entry need not restore the state: a show-from target entered from a slide that shows it only at one substep ends with no opacity override, and hidden after leaving to an empty slide and returning |

## Left out

- Event registration and dispatch (lines 77, 243-248, 250): each handler is a function called with its slides and, for `sub_effects`, the event type.
- Selector construction: the model keeps only "elements having one of these classes". An invalid selector throws in the browser; for example, a bare `data-style-only` attribute builds the selector `.`. Neither case is modelled.
- The `.null` selector that an absent class-valued attribute produces: the model assumes no element carries the class `null`.
- HTML case folding of attribute names, the CSS parsing of style strings (they are opaque values), and the opacity animation a transition starts.
- The host engine's assignment of `substep-active` and `substep-visible`: the flags are inputs, and the cursor assumption appears only in lemma preconditions.
- The browser's interaction between `style.opacity` and `setAttribute("style")` beyond the rule that writing the style attribute clears the inline opacity and transition.
- EntryLeave.StepEnterSetup: this follows one element whose last reaching substep is known. It also requires that the left slide, if any, does not reach the element; `EntryLeave.StepEnterCleanupWins` covers the other case.
- Windows.ShowWindow: stated for an element the slide names only through `data-show-from` at `i` and `data-show-to` at `j`, and through no style attribute.
- Windows.ShowOnlyWindow: stated for an element the slide names only through `data-show-only` at `m`, and through no style attribute.
- Windows.HideWindow: stated for an element the slide names only through `data-hide-from` at `i` and `data-hide-to` at `j`, and through no style attribute.
- Windows.HideOnlyWindow: stated for an element the slide names only through `data-hide-only` at `m`, and through no style attribute.
- Windows.StyleWindow: stated for an element named by exactly the window's two style attributes. Before the window on a plain substep entry the style is whatever the previous event left, because only an aborted leave resets it.
- Windows.StyleOnlyWindow: stated for an element named by exactly the one style-only attribute. Away from `m` on a plain substep entry the style is whatever the previous event left, because only an aborted leave resets it.
- Reentry.ReentryRestores: the transition is not promised. Pre-arming on leave clears the transition of every target, so after re-entry it can differ from the first entry's.
