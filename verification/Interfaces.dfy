/** When the inheritance rules end, which classes they find, and the interfaces built on them. */
module Interfaces {
  import PathSearch
  import opened ExtendsFacts
  import opened Inheritance

  // ---------- When the rules end ----------

  /** The net of the extends facts: from a child to its fathers. */
  function NetOf(es: seq<Edge>, all: seq<Edge>): PathSearch.Net {
    if es == [] then []
    else [PathSearch.Entry(es[0].child, FathersOf(all, es[0].child))] + NetOf(es[1..], all)
  }

  function FathersOf(es: seq<Edge>, c: Class): seq<Class> {
    if es == [] then [] else (if es[0].child == c then [es[0].father] else []) + FathersOf(es[1..], c)
  }

  lemma {:induction false} FathersAreExtended(es: seq<Edge>, c: Class, y: Class)
    ensures y in FathersOf(es, c) <==> Edge(c, y) in es
  {
    if es != [] {
      FathersAreExtended(es[1..], c, y);
    }
  }

  lemma {:induction false} NeighboursAreFathers(es: seq<Edge>, all: seq<Edge>, c: Class)
    ensures PathSearch.Neighbours(c, NetOf(es, all)) == if FathersOf(es, c) == [] then [] else FathersOf(all, c)
  {
    if es != [] {
      NeighboursAreFathers(es[1..], all, c);
    }
  }

  function Net(es: seq<Edge>): PathSearch.Net {
    NetOf(es, es)
  }

  /** No more than n nested calls are needed to follow the facts from c. */
  predicate EndsIn(es: seq<Edge>, c: Class, n: nat)
    decreases n
  {
    n > 0 && forall e | e in es && e.child == c :: EndsIn(es, e.father, n - 1)
  }

  lemma {:induction false} EndsInIsBound(es: seq<Edge>, c: Class, n: nat)
    ensures EndsIn(es, c, n) <==> PathSearch.BoundsWalks(n, c, Net(es))
    decreases n
  {
    var net := Net(es);
    NeighboursAreFathers(es, es, c);
    forall e | e in es && e.child == c && n > 0
      ensures e.father in PathSearch.Neighbours(c, net)
      ensures EndsIn(es, e.father, n - 1) <==> PathSearch.BoundsWalks(n - 1, e.father, net)
    {
      EndsInIsBound(es, e.father, n - 1);
      FathersAreExtended(es, c, e.father);
    }
    if EndsIn(es, c, n) {
      forall w | PathSearch.IsWalk(w, c, net) ensures |w| <= n {
        if |w| > 1 {
          assert w[0 + 1] in PathSearch.Neighbours(w[0], net);
          FathersAreExtended(es, c, w[1]);
          assert Edge(c, w[1]).child == c;
          WalkOn(w, net);
        }
      }
    } else if n == 0 {
      assert PathSearch.IsWalk([c], c, net);
    } else {
      var e :| e in es && e.child == c && !EndsIn(es, e.father, n - 1);
      var w :| PathSearch.IsWalk(w, e.father, net) && |w| > n - 1;
      WalkFrom(c, w, net);
    }
  }

  lemma WalkOn(w: seq<Class>, net: PathSearch.Net)
    requires |w| > 1 && PathSearch.IsWalk(w, w[0], net)
    ensures PathSearch.IsWalk(w[1..], w[1], net)
  {
    forall i | 0 <= i < |w| - 2 ensures w[1..][i + 1] in PathSearch.Neighbours(w[1..][i], net) {
      assert w[(i + 1) + 1] in PathSearch.Neighbours(w[i + 1], net);
    }
  }

  lemma WalkFrom(c: Class, w: seq<Class>, net: PathSearch.Net)
    requires |w| > 0 && PathSearch.IsWalk(w, w[0], net) && w[0] in PathSearch.Neighbours(c, net)
    ensures PathSearch.IsWalk([c] + w, c, net)
  {
    forall i | 0 <= i < |w| ensures ([c] + w)[i + 1] in PathSearch.Neighbours(([c] + w)[i], net) {
      if i > 0 {
        assert w[(i - 1) + 1] in PathSearch.Neighbours(w[i - 1], net);
      }
    }
  }

  lemma {:induction false} InheritanceEndsIn(f: Facts, c: Class, n: nat)
    ensures ClassInheritance(f, c, n).Answers? <==> EndsIn(f.extensions, c, n)
    decreases n, 0
  {
    if n > 0 {
      FathersEndIn(f, f.extensions, c, n - 1);
    }
  }

  lemma {:induction false} FathersEndIn(f: Facts, es: seq<Edge>, c: Class, n: nat)
    ensures FathersInheritance(f, es, c, n).Answers? <==>
            forall e | e in es && e.child == c :: EndsIn(f.extensions, e.father, n)
    decreases n, |es| + 1
  {
    if es != [] {
      FathersEndIn(f, es[1..], c, n);
      InheritanceEndsIn(f, es[0].father, n);
    }
  }

  lemma {:induction false} DescendenceEndsIn(f: Facts, a: Class, n: nat)
    ensures ClassDescendence(f, a, n).Answers? <==> EndsIn(Swap(f.extensions), a, n)
    decreases n, 0
  {
    if n > 0 {
      ChildrenEndIn(f, f.extensions, a, n - 1);
      SwapEnds(f.extensions, Swap(f.extensions), a, n - 1);
    }
  }

  lemma SwapEnds(es: seq<Edge>, sw: seq<Edge>, a: Class, n: nat)
    requires sw == Swap(es)
    ensures (forall e | e in es && e.father == a :: EndsIn(sw, e.child, n)) <==>
            (forall e | e in sw && e.child == a :: EndsIn(sw, e.father, n))
  {
    forall e ensures e in sw <==> Edge(e.father, e.child) in es {
      SwapMember(es, e);
    }
    forall e | e in es ensures Edge(e.father, e.child) in sw {
      SwapMember(es, Edge(e.father, e.child));
    }
  }

  lemma {:induction false} ChildrenEndIn(f: Facts, es: seq<Edge>, a: Class, n: nat)
    ensures ChildrenDescendence(f, es, a, n).Answers? <==>
            forall e | e in es && e.father == a :: EndsIn(Swap(f.extensions), e.child, n)
    decreases n, |es| + 1
  {
    if es != [] {
      ChildrenEndIn(f, es[1..], a, n);
      DescendenceEndsIn(f, es[0].child, n);
    }
  }

  /** The rules end exactly when the facts lead from the class into no cycle, upward or downward. */
  lemma ChainsExistExactlyWithoutCycle(f: Facts, c: Class)
    ensures (exists up :: IsChain(f, c, up)) <==> PathSearch.LeadsIntoNoCycle(c, Net(f.extensions))
    ensures (exists down :: IsChainDown(f, c, down)) <==> PathSearch.LeadsIntoNoCycle(c, Net(Swap(f.extensions)))
  {
    UpEnds(f, c);
    DownEnds(f, c);
  }

  lemma UpEnds(f: Facts, c: Class)
    ensures (exists up :: IsChain(f, c, up)) <==> PathSearch.LeadsIntoNoCycle(c, Net(f.extensions))
  {
    var net := Net(f.extensions);
    PathSearch.BoundedExactlyWithoutCycle(c, net);
    if PathSearch.LeadsIntoNoCycle(c, net) {
      var n: nat :| PathSearch.BoundsWalks(n, c, net);
      EndsInIsBound(f.extensions, c, n);
      InheritanceEndsIn(f, c, n);
      assert IsChain(f, c, ClassInheritance(f, c, n).list);
    } else if up :| IsChain(f, c, up) {
      var n: nat :| ClassInheritance(f, c, n) == Answers(up);
      InheritanceEndsIn(f, c, n);
      EndsInIsBound(f.extensions, c, n);
    }
  }

  lemma DownEnds(f: Facts, a: Class)
    ensures (exists down :: IsChainDown(f, a, down)) <==> PathSearch.LeadsIntoNoCycle(a, Net(Swap(f.extensions)))
  {
    var net := Net(Swap(f.extensions));
    PathSearch.BoundedExactlyWithoutCycle(a, net);
    if PathSearch.LeadsIntoNoCycle(a, net) {
      var n: nat :| PathSearch.BoundsWalks(n, a, net);
      EndsInIsBound(Swap(f.extensions), a, n);
      DescendenceEndsIn(f, a, n);
      assert IsChainDown(f, a, ClassDescendence(f, a, n).list);
    } else if down :| IsChainDown(f, a, down) {
      var n: nat :| ClassDescendence(f, a, n) == Answers(down);
      DescendenceEndsIn(f, a, n);
      EndsInIsBound(Swap(f.extensions), a, n);
    }
  }

  // ---------- Whom the chains hold ----------

  /** A walk of one step or more leads from c up to a, and the two classes of its last step are declared. */
  ghost predicate IsInherited(f: Facts, c: Class, a: Class) {
    exists w :: PathSearch.Reaches(w, c, a, Net(f.extensions)) && |w| > 1 && w[|w| - 2] in f.classes && a in f.classes
  }

  /** A walk of one step or more leads from c up to a, and the two classes of its first step are declared. */
  ghost predicate IsDescended(f: Facts, c: Class, a: Class) {
    exists w :: PathSearch.Reaches(w, c, a, Net(f.extensions)) && |w| > 1 && c in f.classes && w[1] in f.classes
  }

  /** There is a path to count exactly if there is a walk. */
  lemma {:induction false} PathsAreWalks(es: seq<Edge>, c: Class, y: Class, n: nat)
    ensures Paths(es, c, y, n) > 0 <==> exists w :: PathSearch.Reaches(w, c, y, Net(es)) && |w| <= n
    decreases n, 1
  {
    if n > 0 {
      WaysAreWalks(es, c, y, n - 1);
      if c == y {
        assert PathSearch.Reaches([c], c, y, Net(es));
      }
    }
  }

  lemma {:induction false} WaysAreWalks(es: seq<Edge>, c: Class, y: Class, n: nat)
    ensures Ways(es, c, y, n) > 0 <==> exists w :: PathSearch.Reaches(w, c, y, Net(es)) && 1 < |w| <= n + 1
    decreases n, 2
  {
    var net := Net(es);
    SumPositive(es, PathsVia(es, c, y, n));
    NeighboursAreFathers(es, es, c);
    if e :| e in es && PathsVia(es, c, y, n)(e) > 0 {
      PathsAreWalks(es, e.father, y, n);
      FathersAreExtended(es, c, e.father);
      var w :| PathSearch.Reaches(w, e.father, y, net) && |w| <= n;
      WalkFrom(c, w, net);
      assert PathSearch.Reaches([c] + w, c, y, net);
    }
    if w :| PathSearch.Reaches(w, c, y, net) && 1 < |w| <= n + 1 {
      assert w[0 + 1] in PathSearch.Neighbours(w[0], net);
      FathersAreExtended(es, c, w[1]);
      WalkOn(w, net);
      assert PathSearch.Reaches(w[1..], w[1], y, net);
      PathsAreWalks(es, w[1], y, n);
      assert PathsVia(es, c, y, n)(Edge(c, w[1])) > 0;
    }
  }

  lemma WalkOneFurther(w: seq<Class>, a: Class, net: PathSearch.Net)
    requires |w| > 0 && PathSearch.IsWalk(w, w[0], net) && a in PathSearch.Neighbours(w[|w| - 1], net)
    ensures PathSearch.Reaches(w + [a], w[0], a, net)
  {
    var v := w + [a];
    forall i | 0 <= i < |v| - 1 ensures v[i + 1] in PathSearch.Neighbours(v[i], net) {
      if i < |w| - 1 {
        assert w[i + 1] in PathSearch.Neighbours(w[i], net);
      }
    }
  }

  lemma WalkButLast(w: seq<Class>, net: PathSearch.Net)
    requires |w| > 1 && PathSearch.IsWalk(w, w[0], net)
    ensures PathSearch.Reaches(w[..|w| - 1], w[0], w[|w| - 2], net)
    ensures w[|w| - 1] in PathSearch.Neighbours(w[|w| - 2], net)
  {
    var v := w[..|w| - 1];
    forall i | 0 <= i < |v| - 1 ensures v[i + 1] in PathSearch.Neighbours(v[i], net) {
      assert w[i + 1] in PathSearch.Neighbours(w[i], net);
    }
    assert w[(|w| - 2) + 1] in PathSearch.Neighbours(w[|w| - 2], net);
  }

  lemma FactsAreSteps(es: seq<Edge>, c: Class, y: Class)
    ensures y in PathSearch.Neighbours(c, Net(es)) <==> Edge(c, y) in es
  {
    NeighboursAreFathers(es, es, c);
    FathersAreExtended(es, c, y);
  }

  lemma PositiveProduct(m: nat, k: nat)
    ensures m * k > 0 <==> m > 0 && k > 0
  {
  }

  /** A last step of a way to a that the rules count. */
  predicate Counted(f: Facts, es: seq<Edge>, c: Class, a: Class, n: nat, g: Edge) {
    g in es && g.father == a && g.child in f.classes && Paths(es, c, g.child, n) > 0
  }

  lemma SomeStepIsCounted(f: Facts, es: seq<Edge>, c: Class, a: Class, n: nat)
    ensures Weight(f.classes, es, c, a, n) > 0 <==> a in f.classes && exists g :: Counted(f, es, c, a, n, g)
  {
    var last := LastHop(f.classes, es, c, a, n);
    WeightTestsTheLastStep(f.classes, es, c, a, n);
    PositiveProduct(Count(f.classes, a), Sum(es, last));
    CountMember(f.classes, a);
    SumPositive(es, last);
    forall g | g in es ensures last(g) > 0 <==> Counted(f, es, c, a, n, g) {
      CountMember(f.classes, g.child);
      PositiveProduct(Count(f.classes, g.child), Paths(es, c, g.child, n));
    }
  }

  /** The chain of c holds exactly the classes that c inherits from. */
  lemma ChainHoldsTheInherited(f: Facts, c: Class, up: seq<Class>, a: Class)
    requires IsChain(f, c, up)
    ensures a in up <==> IsInherited(f, c, a)
  {
    var n: nat :| ClassInheritance(f, c, n) == Answers(up);
    var es, net := f.extensions, Net(f.extensions);
    CountInheritance(f, c, a, n);
    CountMember(up, a);
    SomeStepIsCounted(f, es, c, a, n);
    if g :| Counted(f, es, c, a, n, g) {
      PathsAreWalks(es, c, g.child, n);
      var w :| PathSearch.Reaches(w, c, g.child, net) && |w| <= n;
      FactsAreSteps(es, g.child, a);
      WalkOneFurther(w, a, net);
      assert (w + [a])[|w + [a]| - 2] == g.child;
    }
    if w :| PathSearch.Reaches(w, c, a, net) && |w| > 1 && w[|w| - 2] in f.classes && a in f.classes {
      InheritanceEndsIn(f, c, n);
      EndsInIsBound(es, c, n);
      WalkButLast(w, net);
      PathsAreWalks(es, c, w[|w| - 2], n);
      FactsAreSteps(es, w[|w| - 2], a);
      assert Counted(f, es, c, a, n, Edge(w[|w| - 2], a));
    }
  }

  /** A walk from y up to a, however long, is among the paths that the downward rules follow from a. */
  lemma WalkIsFollowedDown(f: Facts, a: Class, n: nat, w: seq<Class>, y: Class)
    requires ClassDescendence(f, a, n).Answers? && PathSearch.Reaches(w, y, a, Net(f.extensions))
    ensures Paths(Swap(f.extensions), a, y, n) > 0
  {
    var es, sw := f.extensions, Swap(f.extensions);
    PathsAreWalks(es, y, a, |w|);
    PathsReverse(es, y, a, |w|);
    PathsAreWalks(sw, a, y, |w|);
    DescendenceEndsIn(f, a, n);
    EndsInIsBound(sw, a, n);
    PathsAreWalks(sw, a, y, n);
  }

  /** The downward chain of a holds exactly the classes that descend from a. */
  lemma ChainDownHoldsTheDescended(f: Facts, a: Class, down: seq<Class>, c: Class)
    requires IsChainDown(f, a, down)
    ensures c in down <==> IsDescended(f, c, a)
  {
    var n: nat :| ClassDescendence(f, a, n) == Answers(down);
    var es, sw, net := f.extensions, Swap(f.extensions), Net(f.extensions);
    CountDescendence(f, a, c, n);
    CountMember(down, c);
    SomeStepIsCounted(f, sw, a, c, n);
    if g :| Counted(f, sw, a, c, n, g) {
      SwapMember(es, g);
      PathsReverse(es, g.child, a, n);
      PathsAreWalks(es, g.child, a, n);
      var w :| PathSearch.Reaches(w, g.child, a, net) && |w| <= n;
      FactsAreSteps(es, c, g.child);
      WalkFrom(c, w, net);
      assert PathSearch.Reaches([c] + w, c, a, net) && ([c] + w)[1] == g.child;
    }
    if w :| PathSearch.Reaches(w, c, a, net) && |w| > 1 && c in f.classes && w[1] in f.classes {
      WalkOn(w, net);
      WalkIsFollowedDown(f, a, n, w[1..], w[1]);
      assert w[0 + 1] in PathSearch.Neighbours(w[0], net);
      FactsAreSteps(es, c, w[1]);
      SwapMember(es, Edge(w[1], c));
      assert Counted(f, sw, a, c, n, Edge(w[1], c));
    }
  }

  // ---------- Interfaces ----------

  /** All methods of a class in defining or refining facts. */
  function MethodsIn(facts: seq<(Class, Method)>, c: Class): seq<Method> {
    if facts == [] then []
    else (if facts[0].0 == c then [facts[0].1] else []) + MethodsIn(facts[1..], c)
  }

  /** class_methods(c, Method), all answers. */
  function ClassMethods(f: Facts, c: Class): seq<Method> {
    MethodsIn(f.defines, c) + MethodsIn(f.refinements, c)
  }

  function ChainMethods(f: Facts, chain: seq<Class>): seq<Method> {
    if chain == [] then [] else ClassMethods(f, chain[0]) + ChainMethods(f, chain[1..])
  }

  function Without<T(==)>(s: seq<T>, x: T): (r: seq<T>)
    ensures |r| <= |s|
  {
    if s == [] then [] else if s[0] == x then Without(s[1..], x) else [s[0]] + Without(s[1..], x)
  }

  /** list_to_set: the first of equal elements stays. */
  function ListToSet<T(==)>(s: seq<T>): seq<T>
    decreases |s|
  {
    if s == [] then [] else [s[0]] + ListToSet(Without(s[1..], s[0]))
  }

  /** interface(c, Interface), where the chain of c is up. */
  function Interface(f: Facts, c: Class, up: seq<Class>): seq<Method> {
    ListToSet(ClassMethods(f, c) + ChainMethods(f, up))
  }

  lemma {:induction false} WithoutMembers<T>(s: seq<T>, x: T, y: T)
    ensures y in Without(s, x) <==> y in s && y != x
  {
    if s != [] {
      WithoutMembers(s[1..], x, y);
    }
  }

  lemma {:induction false} ListToSetMembers<T>(s: seq<T>, y: T)
    ensures y in ListToSet(s) <==> y in s
    ensures Count(ListToSet(s), y) <= 1
    decreases |s|
  {
    if s != [] {
      ListToSetMembers(Without(s[1..], s[0]), y);
      WithoutMembers(s[1..], s[0], y);
      CountMember(ListToSet(Without(s[1..], s[0])), y);
    }
  }

  lemma {:induction false} InChainMethods(f: Facts, chain: seq<Class>, m: Method)
    ensures m in ChainMethods(f, chain) <==> exists a :: a in chain && m in ClassMethods(f, a)
  {
    if chain != [] {
      InChainMethods(f, chain[1..], m);
    }
  }

  // ---------- What the interfaces hold ----------

  predicate HasMethod(f: Facts, c: Class, m: Method) {
    (c, m) in f.defines || (c, m) in f.refinements
  }

  lemma {:induction false} InMethods(facts: seq<(Class, Method)>, c: Class, m: Method)
    ensures m in MethodsIn(facts, c) <==> (c, m) in facts
  {
    if facts != [] {
      InMethods(facts[1..], c, m);
    }
  }

  /** The interface lists each method of the class or of a class it inherits from, and each once. */
  lemma InterfaceListsEachMethodOnce(f: Facts, c: Class, up: seq<Class>, m: Method)
    requires IsChain(f, c, up)
    ensures Count(Interface(f, c, up), m) ==
            if HasMethod(f, c, m) || exists a :: IsInherited(f, c, a) && HasMethod(f, a, m) then 1 else 0
  {
    forall a ensures m in ClassMethods(f, a) <==> HasMethod(f, a, m) {
      InMethods(f.defines, a, m);
      InMethods(f.refinements, a, m);
    }
    forall a ensures a in up <==> IsInherited(f, c, a) {
      ChainHoldsTheInherited(f, c, up, a);
    }
    InChainMethods(f, up, m);
    var all := ClassMethods(f, c) + ChainMethods(f, up);
    ListToSetMembers(all, m);
    CountMember(ListToSet(all), m);
  }

  function First<T(==)>(s: seq<T>, x: T): nat {
    if s == [] || s[0] == x then 0 else 1 + First(s[1..], x)
  }

  lemma {:induction false} WithoutKeepsOrder<T>(s: seq<T>, x: T, y: T, z: T)
    requires y != x && z != x && z in s && First(Without(s, x), y) < First(Without(s, x), z)
    ensures First(s, y) < First(s, z)
  {
    if s[0] != y && s[0] != z {
      WithoutKeepsOrder(s[1..], x, y, z);
    }
  }

  /** The elements that stay keep the order of their first occurrences. */
  lemma {:induction false} ListToSetKeepsOrder<T>(s: seq<T>, i: nat, j: nat)
    requires i < j < |ListToSet(s)|
    ensures First(s, ListToSet(s)[i]) < First(s, ListToSet(s)[j])
    decreases |s|
  {
    var rest := Without(s[1..], s[0]);
    var y, z := ListToSet(s)[i], ListToSet(s)[j];
    ListToSetMembers(rest, z);
    assert z == ListToSet(rest)[j - 1];
    WithoutMembers(s[1..], s[0], z);
    if i > 0 {
      ListToSetKeepsOrder(rest, i - 1, j - 1);
      assert y == ListToSet(rest)[i - 1];
      ListToSetMembers(rest, y);
      WithoutMembers(s[1..], s[0], y);
      WithoutKeepsOrder(s[1..], s[0], y, z);
    }
  }

  lemma {:induction false} FirstInFront<T>(s: seq<T>, t: seq<T>, x: T)
    ensures First(s + t, x) < |s| <==> x in s
  {
    if s == [] {
    } else {
      assert (s + t)[1..] == s[1..] + t;
      FirstInFront(s[1..], t, x);
    }
  }

  /** In an interface the methods of the class itself come before those it only inherits, and all come in the order
      in which the rules first mention them. */
  lemma InterfaceKeepsOrder(f: Facts, c: Class, up: seq<Class>, i: nat, j: nat)
    requires i < j < |Interface(f, c, up)|
    ensures
      var all, methods := ClassMethods(f, c) + ChainMethods(f, up), Interface(f, c, up);
      && First(all, methods[i]) < First(all, methods[j])
      && (HasMethod(f, c, methods[j]) ==> HasMethod(f, c, methods[i]))
  {
    var own, methods := ClassMethods(f, c), Interface(f, c, up);
    ListToSetKeepsOrder(own + ChainMethods(f, up), i, j);
    forall m ensures m in own <==> HasMethod(f, c, m) {
      InMethods(f.defines, c, m);
      InMethods(f.refinements, c, m);
    }
    FirstInFront(own, ChainMethods(f, up), methods[i]);
    FirstInFront(own, ChainMethods(f, up), methods[j]);
  }

  /** provides_interface(c, i, list). */
  ghost predicate ProvidesInterface(f: Facts, c: Class, i: string, list: seq<Class>) {
    i in f.interfaces && (c, i) in f.implements && exists down :: IsChainDown(f, c, down) && list == [c] + down
  }

  /** An implementing class provides its interface for itself and for the classes that descend from it. */
  lemma ProvidersAreTheDescended(f: Facts, c: Class, i: string, list: seq<Class>, d: Class)
    requires ProvidesInterface(f, c, i, list)
    ensures d in list <==> d == c || IsDescended(f, d, c)
  {
    var down :| IsChainDown(f, c, down) && list == [c] + down;
    ChainDownHoldsTheDescended(f, c, down, d);
  }

  // ---------- Where everything is declared ----------

  /** Where every class of an extends fact is declared, both are the plain ancestors. */
  lemma AllDeclared(f: Facts, c: Class, a: Class)
    requires forall e | e in f.extensions :: e.child in f.classes && e.father in f.classes
    ensures IsInherited(f, c, a) <==> exists w :: PathSearch.Reaches(w, c, a, Net(f.extensions)) && |w| > 1
    ensures IsDescended(f, c, a) <==> exists w :: PathSearch.Reaches(w, c, a, Net(f.extensions)) && |w| > 1
  {
    var net := Net(f.extensions);
    if w :| PathSearch.Reaches(w, c, a, net) && |w| > 1 {
      WalkButLast(w, net);
      FactsAreSteps(f.extensions, w[|w| - 2], a);
      assert Edge(w[|w| - 2], a).child in f.classes && Edge(w[|w| - 2], a).father in f.classes;
      assert w[0 + 1] in PathSearch.Neighbours(w[0], net);
      FactsAreSteps(f.extensions, c, w[1]);
      assert Edge(c, w[1]).child in f.classes && Edge(c, w[1]).father in f.classes;
    }
  }
}
