/**
 * Substep markers: the `.substep` elements of a slide, with the role flags
 * the host engine puts on them and the attributes that name their targets.
 */
module Substeps {
  import opened Wrappers
  import opened Dom

  /** The six class-valued attributes `data-show-only` ... `data-hide-to`. */
  datatype RefKind = ShowOnly | HideOnly | ShowFrom | ShowTo | HideFrom | HideTo

  /** One attribute of a marker, as `atts[i].nodeName` and `atts[i].value`. */
  datatype Attr = Attr(name: string, value: string)

  /** The three families of style attributes `data-style-only-CLASS`, `data-style-from-CLASS`, `data-style-to-CLASS`. */
  datatype StyleKind = StyleOnly | StyleFrom | StyleTo

  /** A style attribute once its name is split into family and class. */
  datatype StyleEntry = StyleEntry(kind: StyleKind, cls: ClassName, value: string)

  /**
   * A substep marker. `isActive` and `isVisible` are the host's
   * `substep-active` and `substep-visible` classes, kept independent because
   * the handlers select on each separately. `refs` holds the class-valued
   * attributes that are present (a missing key is an absent attribute).
   * `attrs` is the marker's attribute list in document order, scanned for
   * style attributes.
   */
  datatype Substep = Substep(isActive: bool, isVisible: bool, refs: map<RefKind, ClassName>, attrs: seq<Attr>)

  function Prefix(k: StyleKind): string {
    match k
    case StyleOnly => "data-style-only"
    case StyleFrom => "data-style-from"
    case StyleTo => "data-style-to"
  }

  /** `name.substring(n + 1)`: one character past the prefix is skipped, whatever it is. */
  function After(name: string, n: nat): string {
    if n + 1 <= |name| then name[n + 1..] else ""
  }

  /**
   * Reads a style attribute: the name starts with one of the three prefixes
   * and the class is what follows the prefix and one more character.
   */
  function Parse(a: Attr): Option<StyleEntry> {
    if Prefix(StyleOnly) <= a.name then Some(StyleEntry(StyleOnly, After(a.name, |Prefix(StyleOnly)|), a.value))
    else if Prefix(StyleFrom) <= a.name then Some(StyleEntry(StyleFrom, After(a.name, |Prefix(StyleFrom)|), a.value))
    else if Prefix(StyleTo) <= a.name then Some(StyleEntry(StyleTo, After(a.name, |Prefix(StyleTo)|), a.value))
    else None
  }

  /** The attribute an author writes for a style entry. */
  function Render(e: StyleEntry): Attr {
    Attr(Prefix(e.kind) + "-" + e.cls, e.value)
  }

  /**
   * No attribute name starts with two of the prefixes, so the separate
   * prefix tests each handler makes on one attribute select at most one family.
   */
  lemma PrefixesExclusive(name: string, k1: StyleKind, k2: StyleKind)
    requires Prefix(k1) <= name && Prefix(k2) <= name
    ensures k1 == k2
  {
    assert name[11] == Prefix(k1)[11] == Prefix(k2)[11];
  }

  /** Whatever character separates prefix and class, the entry is read back. */
  lemma ParseAnySeparator(k: StyleKind, sep: char, cls: ClassName, v: string)
    ensures Parse(Attr(Prefix(k) + [sep] + cls, v)) == Some(StyleEntry(k, cls, v))
  {
    var name := Prefix(k) + [sep] + cls;
    assert name[..|Prefix(k)|] == Prefix(k);
    assert Prefix(k) <= name;
    forall k' | Prefix(k') <= name
      ensures k' == k
    {
      PrefixesExclusive(name, k, k');
    }
    assert name[|Prefix(k)| + 1..] == cls;
  }

  /** Rendering an entry as an attribute and reading it back gives the entry. */
  lemma ParseRender(e: StyleEntry)
    ensures Parse(Render(e)) == Some(e)
  {
    ParseAnySeparator(e.kind, '-', e.cls, e.value);
    assert Prefix(e.kind) + "-" + e.cls == Prefix(e.kind) + ['-'] + e.cls;
  }

  /** The classes named by the attributes of kinds `ks` that `s` carries: the selector `.A,.B,...`. */
  function Sel(s: Substep, ks: set<RefKind>): set<ClassName> {
    set k | k in ks && k in s.refs :: s.refs[k]
  }

  /** The kinds of class-valued attribute by which `s` names a class of `t`. */
  function Kinds(s: Substep, t: Target): set<RefKind> {
    set k | k in s.refs && s.refs[k] in t.classes
  }

  /** A selector built from kinds `ks` misses `t` exactly when none of those kinds names a class of `t`. */
  lemma SelMisses(s: Substep, ks: set<RefKind>, t: Target)
    ensures Sel(s, ks) !! t.classes <==> ks !! Kinds(s, t)
  {
    if !(ks !! Kinds(s, t)) {
      var k :| k in ks && k in Kinds(s, t);
      assert s.refs[k] in Sel(s, ks);
    }
  }

  /** The style entries of `attrs` that name a class of `t`, in attribute order. */
  function StyleEntriesFor(attrs: seq<Attr>, t: Target): (es: seq<StyleEntry>)
    ensures |es| <= |attrs|
    ensures forall e :: e in es ==> e.cls in t.classes
    decreases |attrs|
  {
    if |attrs| == 0 then []
    else
      var here := match Parse(attrs[0])
        case Some(e) => if e.cls in t.classes then [e] else []
        case None => [];
      here + StyleEntriesFor(attrs[1..], t)
  }

  /** Whether `reset_css` on a marker with attributes `attrs` reaches `t`: a `data-style-only-*` or `data-style-from-*` names one of its classes. */
  predicate ResetHits(attrs: seq<Attr>, t: Target) {
    exists e :: e in StyleEntriesFor(attrs, t) && e.kind != StyleTo
  }
}
