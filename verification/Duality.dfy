/** When a class is in the chain of another as often as that one is in its downward chain. */
module Duality {
  import PathSearch
  import opened ExtendsFacts
  import opened Inheritance
  import opened Interfaces

  /** Between the two ends of two consecutive extends facts: the class in the middle is not declared, or the ends are
      declared equally often. */
  predicate IsBalanced(classes: seq<Class>, e: Edge, g: Edge) {
    Count(classes, e.father) == 0 || Count(classes, e.child) == Count(classes, g.father)
  }

  predicate AreConsecutive(es: seq<Edge>, e: Edge, g: Edge) {
    e in es && g in es && e.father == g.child
  }

  /** The rules end upward from c, and downward from c. */
  ghost predicate EndsUp(f: Facts, c: Class) {
    PathSearch.LeadsIntoNoCycle(c, Net(f.extensions))
  }

  ghost predicate EndsDown(f: Facts, a: Class) {
    PathSearch.LeadsIntoNoCycle(a, Net(Swap(f.extensions)))
  }

  /** Two consecutive facts are balanced wherever the rules end, upward from the child and downward from the father. */
  ghost predicate Balanced(f: Facts) {
    forall e, g | AreConsecutive(f.extensions, e, g) && EndsUp(f, e.child) && EndsDown(f, g.father) ::
      IsBalanced(f.classes, e, g)
  }

  ghost predicate Dual(f: Facts) {
    forall c, a, up, down | IsChain(f, c, up) && IsChainDown(f, a, down) :: Count(up, a) == Count(down, c)
  }

  // ---------- The weight of the downward chain, by first steps ----------

  /** The first steps of the ways from c to a: how often their two classes are declared, for each way on. */
  function FirstHop(classes: seq<Class>, es: seq<Edge>, c: Class, a: Class, n: nat): Edge -> nat {
    (e: Edge) =>
      if e.child == c then Count(classes, c) * Count(classes, e.father) * Paths(es, e.father, a, n) else 0
  }

  lemma DownTestsTheFirstStep(classes: seq<Class>, es: seq<Edge>, c: Class, a: Class, n: nat)
    ensures Weight(classes, Swap(es), a, c, n) == Sum(es, FirstHop(classes, es, c, a, n))
  {
    var sw, d := Swap(es), Count(classes, c);
    var last := LastHop(classes, sw, a, c, n);
    WeightTestsTheLastStep(classes, sw, a, c, n);
    SwapSum(es, last);
    SumTimes(es, d, Reversed(last));
    forall e | e in es ensures Times(d, Reversed(last))(e) == FirstHop(classes, es, c, a, n)(e) {
      PathsReverse(es, e.father, a, n);
      TimesAssociate(d, Count(classes, e.father), Paths(es, e.father, a, n));
    }
    SumSame(es, Times(d, Reversed(last)), FirstHop(classes, es, c, a, n));
    SumSame(es, Reversed(last), (e: Edge) => last(Edge(e.father, e.child)));
  }

  function Reversed(h: Edge -> nat): Edge -> nat {
    (e: Edge) => h(Edge(e.father, e.child))
  }

  lemma TimesAssociate(x: nat, y: nat, z: nat)
    ensures x * (y * z) == x * y * z
  {
  }

  // ---------- Balanced between two classes ----------

  /** Consecutive facts on the ways from c to a are balanced. */
  ghost predicate BalancedBetween(classes: seq<Class>, es: seq<Edge>, c: Class, a: Class, n: nat) {
    forall e, g | AreConsecutive(es, e, g) && Paths(es, c, e.child, n) > 0 && Paths(es, g.father, a, n) > 0 ::
      IsBalanced(classes, e, g)
  }

  lemma {:induction false} PathsGrow(es: seq<Edge>, c: Class, y: Class, m: nat, n: nat)
    requires m <= n && Paths(es, c, y, m) > 0
    ensures Paths(es, c, y, n) > 0
    decreases m
  {
    SumPositive(es, PathsVia(es, c, y, m - 1));
    SumPositive(es, PathsVia(es, c, y, n - 1));
    if e :| e in es && PathsVia(es, c, y, m - 1)(e) > 0 {
      PathsGrow(es, e.father, y, m - 1, n - 1);
      assert PathsVia(es, c, y, n - 1)(e) > 0;
    }
  }

  lemma StepThenPath(es: seq<Edge>, e: Edge, y: Class, n: nat)
    requires e in es && Paths(es, e.father, y, n) > 0
    ensures Paths(es, e.child, y, n + 1) > 0
  {
    SumPositive(es, PathsVia(es, e.child, y, n));
    assert PathsVia(es, e.child, y, n)(e) > 0;
  }

  lemma BalancedFurtherUp(classes: seq<Class>, es: seq<Edge>, e: Edge, a: Class, n: nat)
    requires e in es && BalancedBetween(classes, es, e.child, a, n + 1)
    ensures BalancedBetween(classes, es, e.father, a, n)
  {
    forall h, g | AreConsecutive(es, h, g) && Paths(es, e.father, h.child, n) > 0 && Paths(es, g.father, a, n) > 0
      ensures IsBalanced(classes, h, g)
    {
      StepThenPath(es, e, h.child, n);
      PathsGrow(es, g.father, a, n, n + 1);
    }
  }

  /** What the first steps from e.father weigh, if each of them balances with e. */
  lemma WeightMovesDown(classes: seq<Class>, es: seq<Edge>, e: Edge, a: Class, n: nat)
    requires forall g | AreConsecutive(es, e, g) && Paths(es, g.father, a, n) > 0 :: IsBalanced(classes, e, g)
    requires e in es
    ensures Sum(es, FirstHop(classes, es, e.father, a, n)) ==
            Count(classes, e.child) * Count(classes, e.father) * Ways(es, e.father, a, n)
  {
    var d := Count(classes, e.child) * Count(classes, e.father);
    var via := PathsVia(es, e.father, a, n);
    forall g | g in es ensures FirstHop(classes, es, e.father, a, n)(g) == Times(d, via)(g) {
      if g.child == e.father && Paths(es, g.father, a, n) > 0 {
        assert AreConsecutive(es, e, g);
        BalancedProducts(Count(classes, e.child), Count(classes, e.father), Count(classes, g.father));
      }
    }
    SumSame(es, FirstHop(classes, es, e.father, a, n), Times(d, via));
    SumTimes(es, d, via);
  }

  lemma BalancedProducts(x: nat, y: nat, z: nat)
    requires y == 0 || x == z
    ensures y * z == x * y
  {
  }

  /** Where the ways between two classes are balanced, first steps and last steps weigh the same. */
  lemma {:induction false} UpTestsTheFirstStep(classes: seq<Class>, es: seq<Edge>, c: Class, a: Class, n: nat)
    requires BalancedBetween(classes, es, c, a, n)
    ensures Weight(classes, es, c, a, n) == Sum(es, FirstHop(classes, es, c, a, n))
    decreases n, 0
  {
    var first := FirstHop(classes, es, c, a, n);
    if n == 0 {
      SumSame(es, first, Zero());
      SumZero(es);
    } else {
      var direct := Count(classes, c) * Count(classes, a);
      var via := WeightVia(classes, es, c, a, n - 1);
      forall e | e in es ensures first(e) == Plus(Times(direct, Is(Edge(c, a))), via)(e) {
        if e.child == c {
          OneStepUp(classes, es, e, a, n - 1);
        }
      }
      DirectAndFurther(es, first, direct, Edge(c, a), via);
      TimesAssociate(Count(classes, c), Count(classes, a), Count(es, Edge(c, a)));
    }
  }

  lemma {:induction false} OneStepUp(classes: seq<Class>, es: seq<Edge>, e: Edge, a: Class, n: nat)
    requires e in es && BalancedBetween(classes, es, e.child, a, n + 1)
    ensures Count(classes, e.child) * Count(classes, e.father) * Paths(es, e.father, a, n + 1) ==
            (if e.father == a then Count(classes, e.child) * Count(classes, a) else 0) +
            Weight(classes, es, e.father, a, n)
    decreases n, 1
  {
    BalancedFurtherUp(classes, es, e, a, n);
    UpTestsTheFirstStep(classes, es, e.father, a, n);
    forall g | AreConsecutive(es, e, g) && Paths(es, g.father, a, n) > 0 ensures IsBalanced(classes, e, g) {
      PathsGrow(es, g.father, a, n, n + 1);
    }
    WeightMovesDown(classes, es, e, a, n);
    TimesSum(Count(classes, e.child) * Count(classes, e.father), if e.father == a then 1 else 0,
             Ways(es, e.father, a, n));
  }

  lemma DirectAndFurther(es: seq<Edge>, h: Edge -> nat, d: nat, x: Edge, k: Edge -> nat)
    requires forall e | e in es :: h(e) == Plus(Times(d, Is(x)), k)(e)
    ensures Sum(es, h) == d * Count(es, x) + Sum(es, k)
  {
    SumSame(es, h, Plus(Times(d, Is(x)), k));
    SumAdd(es, Times(d, Is(x)), k);
    SumTimes(es, d, Is(x));
    CountIsSum(es, x);
  }

  // ---------- Where the rules end ----------

  lemma {:induction false} EndsLater(es: seq<Edge>, c: Class, k: nat, n: nat)
    requires k <= n && EndsIn(es, c, k)
    ensures EndsIn(es, c, n)
    decreases n
  {
    forall e | e in es && e.child == c ensures EndsIn(es, e.father, n - 1) {
      EndsLater(es, e.father, k - 1, n - 1);
    }
  }

  /** What can be reached from a class where the rules end is such a class. */
  lemma {:induction false} ReachedEnds(es: seq<Edge>, c: Class, y: Class, n: nat, calls: nat)
    requires EndsIn(es, c, calls) && Paths(es, c, y, n) > 0
    ensures EndsIn(es, y, calls)
    decreases n
  {
    SumPositive(es, PathsVia(es, c, y, n - 1));
    if e :| e in es && PathsVia(es, c, y, n - 1)(e) > 0 {
      EndsLater(es, e.father, calls - 1, calls);
      ReachedEnds(es, e.father, y, n - 1, calls);
    }
  }

  /** So many nested calls are enough wherever the rules end. */
  lemma EnoughCalls(es: seq<Edge>, c: Class, calls: nat)
    requires calls >= |Net(es)| + 1
    ensures EndsIn(es, c, calls) <==> PathSearch.LeadsIntoNoCycle(c, Net(es))
  {
    EndsInIsBound(es, c, calls);
    PathSearch.BoundedExactlyWithoutCycle(c, Net(es));
  }

  function Calls(f: Facts): nat {
    |Net(f.extensions)| + |Net(Swap(f.extensions))| + 2
  }

  lemma BalancedIsBetween(f: Facts, c: Class, a: Class, n: nat)
    requires Balanced(f) && EndsUp(f, c) && EndsDown(f, a)
    ensures BalancedBetween(f.classes, f.extensions, c, a, n)
  {
    var es, sw, calls := f.extensions, Swap(f.extensions), Calls(f);
    EnoughCalls(es, c, calls);
    EnoughCalls(sw, a, calls);
    forall e, g | AreConsecutive(es, e, g) && Paths(es, c, e.child, n) > 0 && Paths(es, g.father, a, n) > 0
      ensures IsBalanced(f.classes, e, g)
    {
      ReachedEnds(es, c, e.child, n, calls);
      EnoughCalls(es, e.child, calls);
      PathsReverse(es, g.father, a, n);
      ReachedEnds(sw, a, g.father, n, calls);
      EnoughCalls(sw, g.father, calls);
    }
  }

  /** Over balanced facts a is in the chain of c as often as c is in the downward chain of a. */
  lemma ChainsAreDual(f: Facts, c: Class, a: Class, up: seq<Class>, down: seq<Class>)
    requires Balanced(f) && IsChain(f, c, up) && IsChainDown(f, a, down)
    ensures Count(up, a) == Count(down, c)
  {
    var m: nat :| ClassInheritance(f, c, m) == Answers(up);
    var k: nat :| ClassDescendence(f, a, k) == Answers(down);
    var n := if m < k then k else m;
    MoreCallsUp(f, c, m, n);
    MoreCallsDown(f, a, k, n);
    CountInheritance(f, c, a, n);
    CountDescendence(f, a, c, n);
    ChainsExistExactlyWithoutCycle(f, c);
    ChainsExistExactlyWithoutCycle(f, a);
    BalancedIsBetween(f, c, a, n);
    UpTestsTheFirstStep(f.classes, f.extensions, c, a, n);
    DownTestsTheFirstStep(f.classes, f.extensions, c, a, n);
  }

  // ---------- Unbalanced facts break the duality ----------

  /** How many nested calls, up to so many, are needed from c. */
  function Depth(es: seq<Edge>, c: Class, calls: nat): (d: nat)
    ensures d <= calls + 1
    ensures forall k: nat | k <= calls && EndsIn(es, c, k) :: d <= k
    ensures d <= calls ==> EndsIn(es, c, d)
  {
    if calls == 0 then 1
    else
      var d := Depth(es, c, calls - 1);
      if d < calls then d else if EndsIn(es, c, calls) then calls else calls + 1
  }

  lemma DepthFalls(es: seq<Edge>, e: Edge, calls: nat)
    requires e in es && EndsIn(es, e.child, calls)
    ensures Depth(es, e.father, calls) < Depth(es, e.child, calls) && EndsIn(es, e.father, calls)
  {
    assert EndsIn(es, e.father, Depth(es, e.child, calls) - 1);
    EndsLater(es, e.father, calls - 1, calls);
  }

  lemma {:induction false} PathsFall(es: seq<Edge>, c: Class, y: Class, n: nat, calls: nat)
    requires EndsIn(es, c, calls) && Paths(es, c, y, n) > 0
    ensures c == y || Depth(es, y, calls) < Depth(es, c, calls)
    decreases n
  {
    SumPositive(es, PathsVia(es, c, y, n - 1));
    if e :| e in es && PathsVia(es, c, y, n - 1)(e) > 0 {
      DepthFalls(es, e, calls);
      PathsFall(es, e.father, y, n - 1, calls);
    }
  }

  lemma OnePathToItself(es: seq<Edge>, a: Class, n: nat, calls: nat)
    requires EndsIn(es, a, calls) && n > 0
    ensures Paths(es, a, a, n) == 1
  {
    var via := PathsVia(es, a, a, n - 1);
    forall e | e in es ensures via(e) == 0 {
      if via(e) > 0 {
        DepthFalls(es, e, calls);
        PathsFall(es, e.father, a, n - 1, calls);
      }
    }
    SumSame(es, via, Zero());
    SumZero(es);
  }

  /** What the first steps from e.father weigh, if each of them but the steps to a balances with e. */
  lemma WeightMovesDownButLast(classes: seq<Class>, es: seq<Edge>, e: Edge, a: Class, n: nat, calls: nat)
    requires EndsIn(es, e.child, calls) && n > 0 && e in es
    requires forall g | AreConsecutive(es, e, g) && g.father != a && Paths(es, g.father, a, n) > 0 ::
               IsBalanced(classes, e, g)
    ensures
      var x, y, z := Count(classes, e.child), Count(classes, e.father), Count(classes, a);
      Sum(es, FirstHop(classes, es, e.father, a, n)) + x * y * Count(es, Edge(e.father, a)) ==
      x * y * Ways(es, e.father, a, n) + y * z * Count(es, Edge(e.father, a))
  {
    var x, y, z := Count(classes, e.child), Count(classes, e.father), Count(classes, a);
    var first, via, last := FirstHop(classes, es, e.father, a, n), PathsVia(es, e.father, a, n), Is(Edge(e.father, a));
    DepthFalls(es, e, calls);
    forall g | g in es ensures Plus(first, Times(x * y, last))(g) == Plus(Times(x * y, via), Times(y * z, last))(g) {
      if g.child == e.father && g.father == a {
        DepthFalls(es, g, calls);
        OnePathToItself(es, a, n, calls);
      } else if g.child == e.father && Paths(es, g.father, a, n) > 0 {
        assert AreConsecutive(es, e, g);
        BalancedProducts(x, y, Count(classes, g.father));
      }
    }
    SumSame(es, Plus(first, Times(x * y, last)), Plus(Times(x * y, via), Times(y * z, last)));
    SumAdd(es, first, Times(x * y, last));
    SumAdd(es, Times(x * y, via), Times(y * z, last));
    SumTimes(es, x * y, last);
    SumTimes(es, x * y, via);
    SumTimes(es, y * z, last);
    CountIsSum(es, Edge(e.father, a));
  }

  function Span(es: seq<Edge>, c: Class, a: Class, calls: nat): int {
    Depth(es, c, calls) - Depth(es, a, calls)
  }

  /** Consecutive facts where so many nested calls are enough, upward from the child and downward from the father. */
  ghost predicate AreLive(es: seq<Edge>, e: Edge, g: Edge, calls: nat) {
    AreConsecutive(es, e, g) && EndsIn(es, e.child, calls) && EndsIn(Swap(es), g.father, calls)
  }

  /** Such facts that span less than from c to a are balanced. */
  ghost predicate BalancedWithin(classes: seq<Class>, es: seq<Edge>, c: Class, a: Class, calls: nat) {
    forall e, g | AreLive(es, e, g, calls) && Span(es, e.child, g.father, calls) < Span(es, c, a, calls) ::
      IsBalanced(classes, e, g)
  }

  /** The classes in the middle of two steps from c to a: how often declared, for each second step. */
  function Middle(classes: seq<Class>, es: seq<Edge>, c: Class, a: Class): Edge -> nat {
    (e: Edge) => if e.child == c then Count(classes, e.father) * Count(es, Edge(e.father, a)) else 0
  }

  lemma SpanIsLess(es: seq<Edge>, c: Class, a: Class, e: Edge, g: Edge, m: nat, n: nat, calls: nat)
    requires EndsIn(es, c, calls) && EndsIn(Swap(es), a, calls) && AreConsecutive(es, e, g)
    requires Paths(es, c, e.child, m) > 0 && Paths(es, g.father, a, n) > 0
    ensures AreLive(es, e, g, calls) && Span(es, e.child, g.father, calls) <= Span(es, c, a, calls)
    ensures g.father != a ==> Span(es, e.child, g.father, calls) < Span(es, c, a, calls)
  {
    ReachedEnds(es, c, e.child, m, calls);
    PathsFall(es, c, e.child, m, calls);
    DepthFalls(es, e, calls);
    DepthFalls(es, g, calls);
    PathsFall(es, g.father, a, n, calls);
    PathsReverse(es, g.father, a, n);
    ReachedEnds(Swap(es), a, g.father, n, calls);
  }

  lemma WithinIsBetween(classes: seq<Class>, es: seq<Edge>, e: Edge, a: Class, n: nat, calls: nat)
    requires e in es && EndsIn(es, e.child, calls) && EndsIn(Swap(es), a, calls)
    requires BalancedWithin(classes, es, e.child, a, calls)
    ensures BalancedBetween(classes, es, e.father, a, n)
    ensures forall g | AreConsecutive(es, e, g) && g.father != a && Paths(es, g.father, a, n) > 0 ::
              IsBalanced(classes, e, g)
  {
    DepthFalls(es, e, calls);
    forall h, g | AreConsecutive(es, h, g) && Paths(es, e.father, h.child, n) > 0 && Paths(es, g.father, a, n) > 0
      ensures IsBalanced(classes, h, g)
    {
      SpanIsLess(es, e.father, a, h, g, n, n, calls);
    }
    forall g | AreConsecutive(es, e, g) && g.father != a && Paths(es, g.father, a, n) > 0
      ensures IsBalanced(classes, e, g)
    {
      assert Paths(es, e.child, e.child, 1) > 0;
      SpanIsLess(es, e.child, a, e, g, 1, n, calls);
    }
  }

  /** One first step e of the ways up to a: what the two directions count over it differs by the ways of two steps. */
  lemma OneStepDiffers(classes: seq<Class>, es: seq<Edge>, e: Edge, a: Class, n: nat, calls: nat)
    requires n > 0 && e in es && EndsIn(es, e.child, calls) && EndsIn(Swap(es), a, calls)
    requires BalancedWithin(classes, es, e.child, a, calls)
    ensures
      var x, y, z := Count(classes, e.child), Count(classes, e.father), Count(classes, a);
      (if e.father == a then x * z else 0) + Weight(classes, es, e.father, a, n) +
        x * y * Count(es, Edge(e.father, a)) ==
      x * y * Paths(es, e.father, a, n + 1) + y * z * Count(es, Edge(e.father, a))
  {
    var x, y := Count(classes, e.child), Count(classes, e.father);
    WithinIsBetween(classes, es, e, a, n, calls);
    UpTestsTheFirstStep(classes, es, e.father, a, n);
    WeightMovesDownButLast(classes, es, e, a, n, calls);
    AddDirect(x, y, Count(classes, a), Count(es, Edge(e.father, a)), Ways(es, e.father, a, n),
              Weight(classes, es, e.father, a, n), if e.father == a then 1 else 0);
  }

  lemma AddDirect(x: nat, y: nat, z: nat, k: nat, ways: nat, weight: nat, direct: nat)
    requires weight + x * y * k == x * y * ways + y * z * k
    requires direct == 0 || (direct == 1 && y == z)
    ensures (if direct == 1 then x * z else 0) + weight + x * y * k == x * y * (direct + ways) + y * z * k
  {
    TimesSum(x * y, direct, ways);
  }

  lemma MiddleProducts(x: nat, y: nat, z: nat, k: nat)
    ensures x * (y * k) == x * y * k && z * (y * k) == y * z * k
  {
  }

  /** All first steps from c: the two directions differ by the ways of two steps, times the difference of the ends. */
  lemma DirectionsDiffer(classes: seq<Class>, es: seq<Edge>, c: Class, a: Class, n: nat, calls: nat)
    requires n > 0 && EndsIn(es, c, calls) && EndsIn(Swap(es), a, calls) && BalancedWithin(classes, es, c, a, calls)
    ensures
      var middle := Sum(es, Middle(classes, es, c, a));
      Weight(classes, es, c, a, n + 1) + Count(classes, c) * middle ==
      Weight(classes, Swap(es), a, c, n + 1) + Count(classes, a) * middle
  {
    var x, z := Count(classes, c), Count(classes, a);
    var first, middle := FirstHop(classes, es, c, a, n + 1), Middle(classes, es, c, a);
    var direct, via := Times(x * z, Is(Edge(c, a))), WeightVia(classes, es, c, a, n);
    forall e | e in es ensures Plus(Plus(direct, via), Times(x, middle))(e) == Plus(first, Times(z, middle))(e) {
      if e.child == c {
        OneStepDiffers(classes, es, e, a, n, calls);
        MiddleProducts(x, Count(classes, e.father), z, Count(es, Edge(e.father, a)));
      }
    }
    SumSame(es, Plus(Plus(direct, via), Times(x, middle)), Plus(first, Times(z, middle)));
    SumAdd(es, Plus(direct, via), Times(x, middle));
    SumAdd(es, direct, via);
    SumAdd(es, first, Times(z, middle));
    SumTimes(es, x * z, Is(Edge(c, a)));
    SumTimes(es, x, middle);
    SumTimes(es, z, middle);
    CountIsSum(es, Edge(c, a));
    TimesAssociate(x, z, Count(es, Edge(c, a)));
    DownTestsTheFirstStep(classes, es, c, a, n + 1);
  }

  lemma Cancel(x: nat, z: nat, k: nat)
    requires x * k == z * k && k > 0
    ensures x == z
  {
  }

  /** Both directions count the same from c to a, if the rules end there. */
  predicate DirectionsAgree(classes: seq<Class>, es: seq<Edge>, c: Class, a: Class, m: nat, calls: nat) {
    EndsIn(es, c, calls) && EndsIn(Swap(es), a, calls) ==>
      Weight(classes, es, c, a, m) == Weight(classes, Swap(es), a, c, m)
  }

  /** If both directions count the same wherever the rules end, consecutive facts there are balanced. */
  lemma {:induction false} EqualWeightsBalance(classes: seq<Class>, es: seq<Edge>, m: nat, calls: nat, e: Edge, g: Edge)
    requires m > 1 && AreLive(es, e, g, calls)
    requires forall c, a :: DirectionsAgree(classes, es, c, a, m, calls)
    ensures IsBalanced(classes, e, g)
    decreases Span(es, e.child, g.father, calls)
  {
    var c, a := e.child, g.father;
    DepthFalls(es, e, calls);
    DepthFalls(es, g, calls);
    forall h, k | AreLive(es, h, k, calls) && Span(es, h.child, k.father, calls) < Span(es, c, a, calls)
      ensures IsBalanced(classes, h, k)
    {
      EqualWeightsBalance(classes, es, m, calls, h, k);
    }
    DirectionsDiffer(classes, es, c, a, m - 1, calls);
    assert DirectionsAgree(classes, es, c, a, m, calls);
    if Count(classes, e.father) > 0 {
      var middle := Middle(classes, es, c, a);
      CountMember(es, g);
      PositiveProduct(Count(classes, e.father), Count(es, Edge(e.father, a)));
      SumPositive(es, middle);
      assert middle(e) > 0;
      Cancel(Count(classes, c), Count(classes, a), Sum(es, middle));
    }
  }

  // ---------- Exactly when ----------

  lemma DualAgrees(f: Facts, c: Class, a: Class)
    requires Dual(f)
    ensures DirectionsAgree(f.classes, f.extensions, c, a, Calls(f), Calls(f))
  {
    var m := Calls(f);
    if EndsIn(f.extensions, c, m) && EndsIn(Swap(f.extensions), a, m) {
      InheritanceEndsIn(f, c, m);
      DescendenceEndsIn(f, a, m);
      var up, down := ClassInheritance(f, c, m).list, ClassDescendence(f, a, m).list;
      assert IsChain(f, c, up) && IsChainDown(f, a, down);
      CountInheritance(f, c, a, m);
      CountDescendence(f, a, c, m);
    }
  }

  lemma DualIsBalanced(f: Facts)
    requires Dual(f)
    ensures Balanced(f)
  {
    var es, m := f.extensions, Calls(f);
    forall c, a ensures DirectionsAgree(f.classes, es, c, a, m, m) {
      DualAgrees(f, c, a);
    }
    forall e, g | AreConsecutive(es, e, g) && EndsUp(f, e.child) && EndsDown(f, g.father)
      ensures IsBalanced(f.classes, e, g)
    {
      EnoughCalls(es, e.child, m);
      EnoughCalls(Swap(es), g.father, m);
      EqualWeightsBalance(f.classes, es, m, m, e, g);
    }
  }

  /** The chains are dual exactly when, wherever one extends fact follows another and the rules end upward from the
      child of the first and downward from the father of the second, the class between them is not declared or the
      classes at their ends are declared equally often. */
  lemma DualExactlyWhenBalanced(f: Facts)
    ensures Dual(f) <==> Balanced(f)
  {
    if Balanced(f) {
      forall c, a, up, down | IsChain(f, c, up) && IsChainDown(f, a, down) ensures Count(up, a) == Count(down, c) {
        ChainsAreDual(f, c, a, up, down);
      }
    }
    if Dual(f) {
      DualIsBalanced(f);
    }
  }
}
