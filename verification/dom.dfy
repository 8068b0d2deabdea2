/**
 * The document as the substep effects see it. A target element is known by
 * its classes and its optional `data-style-base`, which the handlers only
 * read, and carries the three inline properties the handlers write: opacity,
 * transition, and the rest of the `style` attribute.
 *
 * Every handler is a sequence of passes, one per
 * `document.querySelectorAll(selector).forEach(...)` in the source, each
 * writing the same values into every element the selector matches. `Run`
 * replays the passes over the whole document; `Merged` is the reference
 * reading of the same passes for one element: each property ends with the
 * value of the last pass that wrote it.
 */
module Dom {
  import opened Wrappers

  type ClassName = string

  /** Inline `style.opacity`: "" (no override), 0 or 1. */
  datatype Opacity = Unset | Zero | One

  /** Inline `style.transition`: "" or "opacity 1s". */
  datatype Transition = NoTransition | Fade1s

  /** What the handlers read of an element and never write. */
  datatype Target = Target(classes: set<ClassName>, styleBase: Option<string>)

  /** What the handlers write: opacity, transition, and the other declarations of the style attribute. */
  datatype Inline = Inline(opacity: Opacity, transition: Transition, style: string)

  datatype Element = Element(target: Target, inline: Inline)

  /** The target elements of the document, in document order. */
  type Document = seq<Element>

  /**
   * The style a closed style window returns to: `data-style-base` when it is
   * a non-empty string (the source tests the attribute for truthiness), else "".
   */
  function BaseStyle(t: Target): string {
    if t.styleBase.Some? && t.styleBase.value != "" then t.styleBase.value else ""
  }

  /** One pass over the elements matching a class selector. */
  datatype Op =
      /** `style.opacity = o` (and `style.transition = tr` when `tr` is given) on every element having a class in `selector` */
    | SetOpacity(selector: set<ClassName>, opacity: Opacity, transition: Option<Transition>)
      /** `setAttribute("style", value)` on every element of class `cls` */
    | SetStyle(cls: ClassName, value: string)
      /** `setAttribute("style", "")`, then the truthy `data-style-base` if any, on every element of class `cls` */
    | RestoreStyle(cls: ClassName)

  /** What one or more passes write into one element; `None` leaves the property as it was. */
  datatype Write = Write(opacity: Option<Opacity>, transition: Option<Transition>, style: Option<string>)

  const NoWrite := Write(None, None, None)

  /**
   * Writing the style attribute replaces the whole inline declaration block,
   * so the inline opacity and transition are cleared along with it.
   */
  function StyleWrite(v: string): Write {
    Write(Some(Unset), Some(NoTransition), Some(v))
  }

  /** What pass `op` writes into an element with target `t`. */
  function Effect(op: Op, t: Target): Write {
    match op
    case SetOpacity(sel, o, tr) => if sel !! t.classes then NoWrite else Write(Some(o), tr, None)
    case SetStyle(c, v) => if c in t.classes then StyleWrite(v) else NoWrite
    case RestoreStyle(c) => if c in t.classes then StyleWrite(BaseStyle(t)) else NoWrite
  }

  function Apply(i: Inline, w: Write): Inline {
    Inline(w.opacity.GetOr(i.opacity), w.transition.GetOr(i.transition), w.style.GetOr(i.style))
  }

  /** `first` followed by `second`. */
  function Then(first: Write, second: Write): Write {
    Write(Latest(first.opacity, second.opacity),
          Latest(first.transition, second.transition),
          Latest(first.style, second.style))
  }

  function ApplyOp(e: Element, op: Op): Element {
    e.(inline := Apply(e.inline, Effect(op, e.target)))
  }

  /** The passes `ops`, in order, as one element experiences them. */
  function RunElement(e: Element, ops: seq<Op>): (r: Element)
    ensures r.target == e.target
    decreases |ops|
  {
    if |ops| == 0 then e else RunElement(ApplyOp(e, ops[0]), ops[1..])
  }

  /** One pass over the whole document. */
  function Pass(d: Document, op: Op): (r: Document)
    ensures |r| == |d|
  {
    seq(|d|, x requires 0 <= x < |d| => ApplyOp(d[x], op))
  }

  /**
   * The passes `ops`, in order, over the whole document. Every pass treats
   * each element on its own, so the document afterwards is, element by
   * element, what that element alone goes through.
   */
  function Run(d: Document, ops: seq<Op>): (r: Document)
    ensures |r| == |d|
    ensures forall x :: 0 <= x < |d| ==> r[x] == RunElement(d[x], ops)
    decreases |ops|
  {
    if |ops| == 0 then d else Run(Pass(d, ops[0]), ops[1..])
  }

  /** The combined write of the passes `ops` into an element with target `t`: last writer wins. */
  function Merged(ops: seq<Op>, t: Target): Write
    decreases |ops|
  {
    if |ops| == 0 then NoWrite else Then(Effect(ops[0], t), Merged(ops[1..], t))
  }

  /** The passes of a handler that loops over `xs` (substeps, attributes) in order. */
  function FlatMap<T>(xs: seq<T>, f: T -> seq<Op>): seq<Op>
    decreases |xs|
  {
    if |xs| == 0 then [] else f(xs[0]) + FlatMap(xs[1..], f)
  }

  /** Which properties of a write a statement is about. */
  datatype Fields = AllFields | StyleField

  function Project(w: Write, m: Fields): Write {
    match m
    case AllFields => w
    case StyleField => Write(None, None, w.style)
  }

  lemma ProjectThen(a: Write, b: Write, m: Fields)
    ensures Project(Then(a, b), m) == Then(Project(a, m), Project(b, m))
  {
  }

  /** Passes run one after the other combine as their writes do. */
  lemma {:induction false} MergedAppend(a: seq<Op>, b: seq<Op>, t: Target)
    ensures Merged(a + b, t) == Then(Merged(a, t), Merged(b, t))
    decreases |a|
  {
    if |a| == 0 {
      assert a + b == b;
    } else {
      assert (a + b)[0] == a[0];
      assert (a + b)[1..] == a[1..] + b;
      MergedAppend(a[1..], b, t);
    }
  }

  /** Replaying the passes one by one is the same as applying their last-writer combination once. */
  lemma {:induction false} RunElementMerged(e: Element, ops: seq<Op>)
    ensures RunElement(e, ops) == e.(inline := Apply(e.inline, Merged(ops, e.target)))
    decreases |ops|
  {
    if |ops| > 0 {
      RunElementMerged(ApplyOp(e, ops[0]), ops[1..]);
    }
  }

  /**
   * Every pass writes values that do not depend on what the element held
   * before, so replaying a handler's passes a second time changes nothing.
   */
  lemma RunIdempotent(d: Document, ops: seq<Op>)
    ensures Run(Run(d, ops), ops) == Run(d, ops)
  {
    var r := Run(d, ops);
    forall x | 0 <= x < |d|
      ensures Run(r, ops)[x] == r[x]
    {
      RunElementMerged(d[x], ops);
      RunElementMerged(r[x], ops);
    }
  }

  lemma {:induction false} FlatMapAppend<T>(xs: seq<T>, ys: seq<T>, f: T -> seq<Op>)
    ensures FlatMap(xs + ys, f) == FlatMap(xs, f) + FlatMap(ys, f)
    decreases |xs|
  {
    if |xs| == 0 {
      assert xs + ys == ys;
    } else {
      assert (xs + ys)[0] == xs[0];
      assert (xs + ys)[1..] == xs[1..] + ys;
      FlatMapAppend(xs[1..], ys, f);
    }
  }

  /** A loop none of whose iterations writes (the projected properties of) an element does not write them at all. */
  lemma {:induction false} MergedQuiet<T>(xs: seq<T>, f: T -> seq<Op>, t: Target, m: Fields)
    requires forall n :: 0 <= n < |xs| ==> Project(Merged(f(xs[n]), t), m) == NoWrite
    ensures Project(Merged(FlatMap(xs, f), t), m) == NoWrite
    decreases |xs|
  {
    if |xs| > 0 {
      forall n | 0 <= n < |xs| - 1
        ensures Project(Merged(f(xs[1..][n]), t), m) == NoWrite
      {
        assert xs[1..][n] == xs[n + 1];
      }
      MergedQuiet(xs[1..], f, t, m);
      MergedAppend(f(xs[0]), FlatMap(xs[1..], f), t);
      ProjectThen(Merged(f(xs[0]), t), Merged(FlatMap(xs[1..], f), t), m);
    }
  }

  /** When iteration `last` is the last to write an element, the loop ends with that iteration's writes on top. */
  lemma MergedLast<T>(xs: seq<T>, f: T -> seq<Op>, t: Target, m: Fields, last: nat)
    requires last < |xs|
    requires forall n :: last < n < |xs| ==> Project(Merged(f(xs[n]), t), m) == NoWrite
    ensures Project(Merged(FlatMap(xs, f), t), m)
         == Project(Then(Merged(FlatMap(xs[..last], f), t), Merged(f(xs[last]), t)), m)
  {
    var pre, rest := xs[..last], xs[last + 1..];
    assert xs == pre + ([xs[last]] + rest);
    FlatMapAppend(pre, [xs[last]] + rest, f);
    assert ([xs[last]] + rest)[0] == xs[last];
    assert ([xs[last]] + rest)[1..] == rest;
    forall n | 0 <= n < |rest|
      ensures Project(Merged(f(rest[n]), t), m) == NoWrite
    {
      assert rest[n] == xs[last + 1 + n];
    }
    MergedQuiet(rest, f, t, m);
    MergedAppend(FlatMap(pre, f), f(xs[last]) + FlatMap(rest, f), t);
    MergedAppend(f(xs[last]), FlatMap(rest, f), t);
    ProjectThen(Merged(FlatMap(pre, f), t), Then(Merged(f(xs[last]), t), Merged(FlatMap(rest, f), t)), m);
    ProjectThen(Merged(f(xs[last]), t), Merged(FlatMap(rest, f), t), m);
    ProjectThen(Merged(FlatMap(pre, f), t), Merged(f(xs[last]), t), m);
  }

  /**
   * When only iterations `i` and `j` (`j == |xs|` meaning none) may write an
   * element, the loop writes what iteration `i` writes, then what `j` writes.
   */
  lemma MergedTwo<T>(xs: seq<T>, f: T -> seq<Op>, t: Target, m: Fields, i: nat, j: nat)
    requires i < j <= |xs|
    requires forall n :: 0 <= n < |xs| && n != i && n != j ==> Project(Merged(f(xs[n]), t), m) == NoWrite
    ensures Project(Merged(FlatMap(xs, f), t), m)
         == Project(Then(Merged(f(xs[i]), t), if j < |xs| then Merged(f(xs[j]), t) else NoWrite), m)
  {
    var pre := xs[..j];
    forall n | 0 <= n < i
      ensures Project(Merged(f(xs[..i][n]), t), m) == NoWrite
    {
      assert xs[..i][n] == xs[n];
    }
    MergedQuiet(xs[..i], f, t, m);
    if j < |xs| {
      MergedLast(xs, f, t, m, j);
      forall n | i < n < |pre|
        ensures Project(Merged(f(pre[n]), t), m) == NoWrite
      {
        assert pre[n] == xs[n];
      }
      MergedLast(pre, f, t, m, i);
      assert pre[..i] == xs[..i];
      assert pre[i] == xs[i];
      var a, b, c := Merged(FlatMap(xs[..i], f), t), Merged(f(xs[i]), t), Merged(f(xs[j]), t);
      ProjectThen(Merged(FlatMap(pre, f), t), c, m);
      ProjectThen(a, b, m);
      ProjectThen(Then(a, b), c, m);
      ProjectThen(b, c, m);
    } else {
      MergedLast(xs, f, t, m, i);
      ProjectThen(Merged(FlatMap(xs[..i], f), t), Merged(f(xs[i]), t), m);
      ProjectThen(Merged(f(xs[i]), t), NoWrite, m);
    }
  }

  /** A loop leaves the opacity (the style) of an element unwritten exactly when each of its iterations does. */
  lemma {:induction false} MergedSilent<T>(xs: seq<T>, f: T -> seq<Op>, t: Target)
    ensures Merged(FlatMap(xs, f), t).opacity == None <==> forall n :: 0 <= n < |xs| ==> Merged(f(xs[n]), t).opacity == None
    ensures Merged(FlatMap(xs, f), t).style == None <==> forall n :: 0 <= n < |xs| ==> Merged(f(xs[n]), t).style == None
    decreases |xs|
  {
    if |xs| > 0 {
      MergedSilent(xs[1..], f, t);
      MergedAppend(f(xs[0]), FlatMap(xs[1..], f), t);
      forall n | 0 < n < |xs|
        ensures xs[1..][n - 1] == xs[n]
      {
      }
    }
  }
}
