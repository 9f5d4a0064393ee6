/** The component name Register derives from a type. */
module Naming {

  /** PkgPath, a dot when PkgPath is not empty, then Name. */
  function QualifiedName(pkgPath: string, name: string): (s: string)
    ensures |s| == 0 <==> pkgPath == [] && name == []
    ensures pkgPath == [] ==> s == name
    ensures pkgPath != [] ==> |s| == |pkgPath| + 1 + |name| && s[|pkgPath|] == '.'
    ensures pkgPath != [] ==> s[..|pkgPath|] == pkgPath && s[|pkgPath| + 1..] == name
  {
    (if |pkgPath| > 0 then pkgPath + "." else "") + name
  }

  /** Derived names do not collide: two types whose (dot-free) Go names
      or package paths differ get different names, so Register's duplicate
      check only fires on a second registration of the same type. */
  lemma {:induction false} QualifiedNameInjective(p1: string, n1: string, p2: string, n2: string)
    requires '.' !in n1 && '.' !in n2
    requires QualifiedName(p1, n1) == QualifiedName(p2, n2)
    ensures p1 == p2 && n1 == n2
  {
    var s := QualifiedName(p1, n1);
    if p1 != [] && p2 != [] {
      assert |p1| == |p2|;
      assert p1 == s[..|p1|] == p2;
      assert n1 == s[|p1| + 1..] == n2;
    }
  }
}
