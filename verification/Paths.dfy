/** Paths below a root, and their order (`Path::cmp`): component by component, each
    component by its characters. */
module Paths {

  /** A path below the root, as its components. */
  type Path = seq<string>

  predicate NameLe(a: string, b: string) {
    a == [] || (b != [] && (a[0] < b[0] || (a[0] == b[0] && NameLe(a[1..], b[1..]))))
  }

  lemma {:induction false} NameLeTotal(a: string, b: string)
    ensures NameLe(a, b) || NameLe(b, a)
    ensures NameLe(a, b) && NameLe(b, a) ==> a == b
  {
    if a != [] && b != [] && a[0] == b[0] {
      NameLeTotal(a[1..], b[1..]);
      assert a == [a[0]] + a[1..] && b == [b[0]] + b[1..];
    }
  }

  lemma {:induction false} NameLeTransitive(a: string, b: string, c: string)
    requires NameLe(a, b) && NameLe(b, c)
    ensures NameLe(a, c)
  {
    if a != [] && a[0] == b[0] == c[0] {
      NameLeTransitive(a[1..], b[1..], c[1..]);
    }
  }

  predicate NameLess(a: string, b: string) { NameLe(a, b) && a != b }

  /** The order of paths: component by component, a folder before what it holds. */
  predicate PathLess(p: Path, q: Path) {
    q != [] && (p == [] || NameLess(p[0], q[0]) || (p[0] == q[0] && PathLess(p[1..], q[1..])))
  }

  lemma {:induction false} PathOrder(p: Path, q: Path)
    ensures PathLess(p, q) || p == q || PathLess(q, p)
    ensures !(PathLess(p, q) && PathLess(q, p)) && !PathLess(p, p)
  {
    if p != [] {
      PathOrder(p[1..], p[1..]);
    }
    if p != [] && q != [] {
      NameLeTotal(p[0], q[0]);
      PathOrder(p[1..], q[1..]);
      assert p == [p[0]] + p[1..] && q == [q[0]] + q[1..];
    }
  }

  lemma {:induction false} PathLessTransitive(p: Path, q: Path, r: Path)
    requires PathLess(p, q) && PathLess(q, r)
    ensures PathLess(p, r)
  {
    if p != [] {
      NameLeTotal(p[0], q[0]);
      NameLeTotal(q[0], r[0]);
      if NameLe(p[0], q[0]) && NameLe(q[0], r[0]) {
        NameLeTransitive(p[0], q[0], r[0]);
        NameLeTotal(p[0], r[0]);
      }
      if p[0] == q[0] == r[0] {
        PathLessTransitive(p[1..], q[1..], r[1..]);
      }
    }
  }

  /** Paths below one folder compare as what follows the folder. */
  lemma {:induction false} PathLessBelow(base: Path, p: Path, q: Path)
    ensures PathLess(base + p, base + q) == PathLess(p, q)
  {
    if base == [] {
      assert base + p == p && base + q == q;
    } else {
      PathLessBelow(base[1..], p, q);
      assert (base + p)[1..] == base[1..] + p && (base + q)[1..] == base[1..] + q;
    }
  }

  predicate Below(path: Path, base: Path) {
    |path| > |base| && path[..|base|] == base
  }

  lemma BelowIsConcat(path: Path, base: Path)
    requires Below(path, base)
    ensures path == base + path[|base|..]
  {
  }

  predicate Ascending(paths: seq<Path>) {
    forall i, j | 0 <= i < j < |paths| :: PathLess(paths[i], paths[j])
  }
}
