// Node identifiers: their byte-wise order, and the dotted identifiers that inlining produces.
module Strings {

  // The order used by Rust's `str::cmp`: lexicographic by code point.
  predicate Less(a: string, b: string) {
    if b == [] then false
    else if a == [] then true
    else a[0] < b[0] || (a[0] == b[0] && Less(a[1..], b[1..]))
  }

  // The identifier of a child inlined below `parent`.
  function PrefixId(parent: string, child: string): string {
    parent + "." + child
  }

  // `id` names something strictly below `parent` in the dotted hierarchy.
  predicate Below(parent: string, id: string) {
    parent + "." <= id
  }

  // The part of a dotted identifier that follows `parent`.
  function Strip(parent: string, id: string): string
    requires Below(parent, id)
  {
    id[|parent| + 1..]
  }

  predicate DotFree(id: string) {
    '.' !in id
  }

  // Every character of the identifier sorts at or after the dot. Letters, digits and the
  // underscore all do; the hyphen, the blank and the other characters below '.' do not.
  predicate SortsAfterDot(id: string) {
    forall i :: 0 <= i < |id| ==> id[i] >= '.'
  }

  lemma {:induction false} LessIrreflexive(a: string)
    ensures !Less(a, a)
  {
    if a != [] { LessIrreflexive(a[1..]); }
  }

  lemma {:induction false} LessTransitive(a: string, b: string, c: string)
    requires Less(a, b) && Less(b, c)
    ensures Less(a, c)
  {
    if a != [] && a[0] == b[0] && b[0] == c[0] { LessTransitive(a[1..], b[1..], c[1..]); }
  }

  lemma {:induction false} LessTotal(a: string, b: string)
    ensures Less(a, b) || a == b || Less(b, a)
  {
    if a != [] && b != [] && a[0] == b[0] {
      LessTotal(a[1..], b[1..]);
      if a[1..] == b[1..] { assert a == [a[0]] + a[1..] && b == [b[0]] + b[1..]; }
    }
  }

  // A common prefix does not take part in a comparison.
  lemma {:induction false} LessCommonPrefix(p: string, a: string, b: string)
    ensures Less(p + a, p + b) == Less(a, b)
  {
    if p == [] {
      assert p + a == a && p + b == b;
    } else {
      assert (p + a)[1..] == p[1..] + a && (p + b)[1..] == p[1..] + b;
      LessCommonPrefix(p[1..], a, b);
    }
  }

  lemma PrefixIdInjective(parent: string, a: string, b: string)
    ensures PrefixId(parent, a) == PrefixId(parent, b) <==> a == b
  {
    assert PrefixId(parent, a)[|parent| + 1..] == a;
    assert PrefixId(parent, b)[|parent| + 1..] == b;
  }

  lemma StripPrefixId(parent: string, child: string, id: string)
    ensures Below(parent, PrefixId(parent, child))
    ensures PrefixId(parent, child) != parent
    ensures Strip(parent, PrefixId(parent, child)) == child
    ensures Below(parent, id) ==> PrefixId(parent, Strip(parent, id)) == id
  {
    assert PrefixId(parent, child)[..|parent| + 1] == parent + ".";
    assert |PrefixId(parent, child)| > |parent|;
    if Below(parent, id) {
      assert id == id[..|parent| + 1] + id[|parent| + 1..];
    }
  }

  // Two dotted identifiers below parents that are not themselves nested never coincide.
  lemma PrefixIdsApart(p: string, q: string, a: string, b: string)
    requires p != q && !Below(p, q) && !Below(q, p)
    ensures PrefixId(p, a) != PrefixId(q, b)
  {
    var x, y := PrefixId(p, a), PrefixId(q, b);
    assert x[..|p|] == p && y[..|q|] == q;
    assert x[..|p| + 1] == p + "." && y[..|q| + 1] == q + ".";
    assert |p| < |q| ==> y[..|p| + 1] == q[..|p| + 1];
    assert |q| < |p| ==> x[..|q| + 1] == p[..|q| + 1];
  }

  // Appending a dotted suffix to one side keeps the comparison with an unrelated identifier,
  // except with an identifier that extends `id` by a character sorting before the dot.
  lemma {:induction false} LessAfterPrefix(id: string, child: string, t: string)
    requires t != id && !Below(id, t)
    ensures (Less(PrefixId(id, child), t) == Less(id, t)
             && Less(t, PrefixId(id, child)) == Less(t, id)) <==>
            !(id < t && t[|id|] < '.')
  {
    if id == [] {
      assert PrefixId(id, child)[0] == '.';
      assert t[0] == '.' ==> Below(id, t);
    } else if t != [] && id[0] == t[0] {
      assert PrefixId(id, child)[1..] == PrefixId(id[1..], child);
      assert id == [id[0]] + id[1..] && t == [t[0]] + t[1..];
      assert id + "." == [id[0]] + (id[1..] + ".");
      assert Below(id[1..], t[1..]) ==> Below(id, t);
      LessAfterPrefix(id[1..], child, t[1..]);
      assert id < t <==> id[1..] < t[1..];
    } else {
      assert PrefixId(id, child)[0] == id[0];
    }
  }

  // With an identifier below `id` it keeps the comparison exactly when the children compare so.
  lemma LessBelowPrefix(id: string, child: string, t: string)
    requires Below(id, t) && t != PrefixId(id, child)
    ensures (Less(PrefixId(id, child), t) == Less(id, t)
             && Less(t, PrefixId(id, child)) == Less(t, id)) <==>
            Less(child, Strip(id, t))
  {
    var y := Strip(id, t);
    StripPrefixId(id, child, t);
    LessCommonPrefix(id + ".", child, y);
    LessCommonPrefix(id + ".", y, child);
    LessCommonPrefix(id, [], "." + y);
    LessCommonPrefix(id, "." + y, []);
    assert id + [] == id && id + ("." + y) == t;
    LessTotal(child, y);
    if Less(child, y) && Less(y, child) { LessTransitive(child, y, child); }
    LessIrreflexive(child);
  }
}
