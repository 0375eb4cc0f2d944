/** The inheritance rules over class and extends facts: their answers in order and how often each comes. */
module Inheritance {
  import opened ExtendsFacts

  datatype Method = Method(access: string, result: string, name: string, parameters: seq<string>)

  /** The facts in the order of the file. */
  datatype Facts = Facts(
    classes: seq<Class>, extensions: seq<Edge>, interfaces: seq<string>, implements: seq<(Class, string)>,
    defines: seq<(Class, Method)>, refinements: seq<(Class, Method)>)

  /** The list of all answers, or Unfinished if more nested calls are needed than allowed. */
  datatype Answers<T> = Answers(list: seq<T>) | Unfinished

  function Concat<T>(a: Answers<T>, b: Answers<T>): Answers<T> {
    if a.Answers? && b.Answers? then Answers(a.list + b.list) else Unfinished
  }

  // ---------- The rules ----------

  /** class(Father), extends(Class, Father): for each class fact, once for each extends fact. */
  function Fathers(classes: seq<Class>, es: seq<Edge>, c: Class): seq<Class> {
    if classes == [] then []
    else Repeat(Count(es, Edge(c, classes[0])), [classes[0]]) + Fathers(classes[1..], es, c)
  }

  /** class_inheritance(c, Ancestor), all answers: the first rule, then for each father its ancestors. */
  function ClassInheritance(f: Facts, c: Class, calls: nat): Answers<Class>
    decreases calls, 0
  {
    if calls == 0 then Unfinished
    else
      Concat(Answers(Repeat(Count(f.classes, c), Fathers(f.classes, f.extensions, c))),
             FathersInheritance(f, f.extensions, c, calls - 1))
  }

  function FathersInheritance(f: Facts, es: seq<Edge>, c: Class, calls: nat): Answers<Class>
    decreases calls, |es| + 1
  {
    if es == [] then Answers([])
    else if es[0].child != c then FathersInheritance(f, es[1..], c, calls)
    else Concat(ClassInheritance(f, es[0].father, calls), FathersInheritance(f, es[1..], c, calls))
  }

  /** class(Child), class(Class), extends(Child, Class). */
  function Children(classes: seq<Class>, declared: nat, es: seq<Edge>, a: Class): seq<Class> {
    if classes == [] then []
    else
      Repeat(declared, Repeat(Count(es, Edge(classes[0], a)), [classes[0]])) +
      Children(classes[1..], declared, es, a)
  }

  /** class_descendence(Descendant, a), all answers: the first rule, then for each child its descendants. */
  function ClassDescendence(f: Facts, a: Class, calls: nat): Answers<Class>
    decreases calls, 0
  {
    if calls == 0 then Unfinished
    else
      Concat(Answers(Children(f.classes, Count(f.classes, a), f.extensions, a)),
             ChildrenDescendence(f, f.extensions, a, calls - 1))
  }

  function ChildrenDescendence(f: Facts, es: seq<Edge>, a: Class, calls: nat): Answers<Class>
    decreases calls, |es| + 1
  {
    if es == [] then Answers([])
    else if es[0].father != a then ChildrenDescendence(f, es[1..], a, calls)
    else Concat(ClassDescendence(f, es[0].child, calls), ChildrenDescendence(f, es[1..], a, calls))
  }

  // ---------- How often an answer comes ----------

  /** How often a comes among the ancestors of c, by the rules. */
  function Weight(classes: seq<Class>, es: seq<Edge>, c: Class, a: Class, n: nat): nat
    decreases n, 0
  {
    if n == 0 then 0
    else
      Count(classes, c) * (Count(classes, a) * Count(es, Edge(c, a))) +
      Sum(es, WeightVia(classes, es, c, a, n - 1))
  }

  function WeightVia(classes: seq<Class>, es: seq<Edge>, c: Class, a: Class, n: nat): Edge -> nat
    decreases n, 1
  {
    (e: Edge) => if e.child == c then Weight(classes, es, e.father, a, n) else 0
  }

  lemma {:induction false} CountFathers(classes: seq<Class>, es: seq<Edge>, c: Class, a: Class)
    ensures Count(Fathers(classes, es, c), a) == Count(classes, a) * Count(es, Edge(c, a))
  {
    if classes != [] {
      CountFathers(classes[1..], es, c, a);
      var n := Count(es, Edge(c, classes[0]));
      CountRepeatOne(n, classes[0], a);
      CountAppend(Repeat(n, [classes[0]]), Fathers(classes[1..], es, c), a);
      OneMoreTimes(Count(classes[1..], a), Count(es, Edge(c, a)));
    }
  }

  lemma {:induction false} CountChildren(classes: seq<Class>, declared: nat, es: seq<Edge>, a: Class, c: Class)
    ensures Count(Children(classes, declared, es, a), c) == Count(classes, c) * (declared * Count(es, Edge(c, a)))
  {
    if classes != [] {
      CountChildren(classes[1..], declared, es, a, c);
      var once := Repeat(Count(es, Edge(classes[0], a)), [classes[0]]);
      CountRepeatOne(Count(es, Edge(classes[0], a)), classes[0], c);
      CountRepeat(declared, once, c);
      CountAppend(Repeat(declared, once), Children(classes[1..], declared, es, a), c);
      OneMoreTimes(Count(classes[1..], c), declared * Count(es, Edge(c, a)));
    }
  }

  lemma {:induction false} CountInheritance(f: Facts, c: Class, a: Class, calls: nat)
    requires ClassInheritance(f, c, calls).Answers?
    ensures Count(ClassInheritance(f, c, calls).list, a) == Weight(f.classes, f.extensions, c, a, calls)
    decreases calls, 0
  {
    var direct := Fathers(f.classes, f.extensions, c);
    CountFathers(f.classes, f.extensions, c, a);
    CountRepeat(Count(f.classes, c), direct, a);
    CountFathersInheritance(f, f.extensions, c, a, calls - 1);
    CountAppend(Repeat(Count(f.classes, c), direct), FathersInheritance(f, f.extensions, c, calls - 1).list, a);
  }

  lemma {:induction false} CountFathersInheritance(f: Facts, es: seq<Edge>, c: Class, a: Class, calls: nat)
    requires FathersInheritance(f, es, c, calls).Answers?
    ensures Count(FathersInheritance(f, es, c, calls).list, a)
         == Sum(es, WeightVia(f.classes, f.extensions, c, a, calls))
    decreases calls, |es| + 1
  {
    if es != [] {
      CountFathersInheritance(f, es[1..], c, a, calls);
      if es[0].child == c {
        CountInheritance(f, es[0].father, a, calls);
        CountAppend(ClassInheritance(f, es[0].father, calls).list, FathersInheritance(f, es[1..], c, calls).list, a);
      }
    }
  }

  lemma {:induction false} CountDescendence(f: Facts, a: Class, c: Class, calls: nat)
    requires ClassDescendence(f, a, calls).Answers?
    ensures Count(ClassDescendence(f, a, calls).list, c) == Weight(f.classes, Swap(f.extensions), a, c, calls)
    decreases calls, 0
  {
    var es := f.extensions;
    CountChildren(f.classes, Count(f.classes, a), es, a, c);
    TimesInTurn(Count(f.classes, c), Count(f.classes, a), Count(es, Edge(c, a)));
    CountChildrenDescendence(f, es, a, c, calls - 1);
    CountAppend(Children(f.classes, Count(f.classes, a), es, a), ChildrenDescendence(f, es, a, calls - 1).list, c);
    SwapCount(es, c, a);
    SwapSum(es, WeightVia(f.classes, Swap(es), a, c, calls - 1));
    SumSame(es, WeightBack(f, a, c, calls - 1),
            (e: Edge) => WeightVia(f.classes, Swap(es), a, c, calls - 1)(Edge(e.father, e.child)));
  }

  function WeightBack(f: Facts, a: Class, c: Class, n: nat): Edge -> nat {
    (e: Edge) => if e.father == a then Weight(f.classes, Swap(f.extensions), e.child, c, n) else 0
  }

  lemma {:induction false} CountChildrenDescendence(f: Facts, es: seq<Edge>, a: Class, c: Class, calls: nat)
    requires ChildrenDescendence(f, es, a, calls).Answers?
    ensures Count(ChildrenDescendence(f, es, a, calls).list, c)
         == Sum(es, WeightBack(f, a, c, calls))
    decreases calls, |es| + 1
  {
    if es != [] {
      CountChildrenDescendence(f, es[1..], a, c, calls);
      if es[0].father == a {
        CountDescendence(f, es[0].child, c, calls);
        CountAppend(ClassDescendence(f, es[0].child, calls).list, ChildrenDescendence(f, es[1..], a, calls).list, c);
      }
    }
  }

  // ---------- Up and down ----------

  predicate AreDeclaredOnce(f: Facts) {
    forall e | e in f.extensions :: Count(f.classes, e.child) == 1 && Count(f.classes, e.father) == 1
  }

  /** Among classes declared once, an ancestor comes once for each way up. */
  lemma {:induction false} WeightCountsWays(f: Facts, es: seq<Edge>, c: Class, a: Class, n: nat)
    requires forall e | e in es :: Count(f.classes, e.child) == 1 && Count(f.classes, e.father) == 1
    ensures Weight(f.classes, es, c, a, n) == Ways(es, c, a, n)
    decreases n
  {
    if n == 0 {
      SumSame(es, PathsVia(es, c, a, 0), Zero());
      SumZero(es);
    } else {
      forall e | e in es
        ensures PathsVia(es, c, a, n)(e) == Is(Edge(c, a))(e) + WeightVia(f.classes, es, c, a, n - 1)(e)
      {
        WeightCountsWays(f, es, e.father, a, n - 1);
      }
      SumWithOne(es, PathsVia(es, c, a, n), Edge(c, a), WeightVia(f.classes, es, c, a, n - 1));
      CountMember(es, Edge(c, a));
    }
  }

  /** However many calls are allowed, once they are enough the answers are the same. */
  lemma {:induction false} MoreCallsUp(f: Facts, c: Class, m: nat, n: nat)
    requires m <= n && ClassInheritance(f, c, m).Answers?
    ensures ClassInheritance(f, c, n) == ClassInheritance(f, c, m)
    decreases m, 0
  {
    MoreCallsToFathers(f, f.extensions, c, m - 1, n - 1);
  }

  lemma {:induction false} MoreCallsToFathers(f: Facts, es: seq<Edge>, c: Class, m: nat, n: nat)
    requires m <= n && FathersInheritance(f, es, c, m).Answers?
    ensures FathersInheritance(f, es, c, n) == FathersInheritance(f, es, c, m)
    decreases m, |es| + 1
  {
    if es != [] {
      MoreCallsToFathers(f, es[1..], c, m, n);
      if es[0].child == c {
        MoreCallsUp(f, es[0].father, m, n);
      }
    }
  }

  lemma {:induction false} MoreCallsDown(f: Facts, a: Class, m: nat, n: nat)
    requires m <= n && ClassDescendence(f, a, m).Answers?
    ensures ClassDescendence(f, a, n) == ClassDescendence(f, a, m)
    decreases m, 0
  {
    MoreCallsToChildren(f, f.extensions, a, m - 1, n - 1);
  }

  lemma {:induction false} MoreCallsToChildren(f: Facts, es: seq<Edge>, a: Class, m: nat, n: nat)
    requires m <= n && ChildrenDescendence(f, es, a, m).Answers?
    ensures ChildrenDescendence(f, es, a, n) == ChildrenDescendence(f, es, a, m)
    decreases m, |es| + 1
  {
    if es != [] {
      MoreCallsToChildren(f, es[1..], a, m, n);
      if es[0].father == a {
        MoreCallsDown(f, es[0].child, m, n);
      }
    }
  }

  /** inheritance_chain(c, up) and inheritance_chain_down(a, down). */
  ghost predicate IsChain(f: Facts, c: Class, up: seq<Class>) {
    exists calls: nat :: ClassInheritance(f, c, calls) == Answers(up)
  }

  ghost predicate IsChainDown(f: Facts, a: Class, down: seq<Class>) {
    exists calls: nat :: ClassDescendence(f, a, calls) == Answers(down)
  }

  /** The ways up from c to a, one step or more, are so many. */
  ghost predicate AreWays(es: seq<Edge>, c: Class, a: Class, number: nat) {
    exists k: nat :: SettlesAt(es, c, a, number, k)
  }

  ghost predicate SettlesAt(es: seq<Edge>, c: Class, a: Class, number: nat, k: nat) {
    forall n: nat | n >= k :: Ways(es, c, a, n) == number
  }

  /** The chain of c has an ancestor once for each way up to it. */
  lemma ChainCountsWays(f: Facts, c: Class, up: seq<Class>, a: Class)
    requires AreDeclaredOnce(f) && IsChain(f, c, up)
    ensures AreWays(f.extensions, c, a, Count(up, a))
  {
    var m: nat :| ClassInheritance(f, c, m) == Answers(up);
    forall n: nat | n >= m ensures Ways(f.extensions, c, a, n) == Count(up, a) {
      MoreCallsUp(f, c, m, n);
      CountInheritance(f, c, a, n);
      WeightCountsWays(f, f.extensions, c, a, n);
    }
    assert SettlesAt(f.extensions, c, a, Count(up, a), m);
  }

  /** The downward chain of a has a descendant once for each way up from it. */
  lemma ChainDownCountsWays(f: Facts, a: Class, down: seq<Class>, c: Class)
    requires AreDeclaredOnce(f) && IsChainDown(f, a, down)
    ensures AreWays(f.extensions, c, a, Count(down, c))
  {
    var m: nat :| ClassDescendence(f, a, m) == Answers(down);
    var sw := Swap(f.extensions);
    forall e | e in sw ensures Count(f.classes, e.child) == 1 && Count(f.classes, e.father) == 1 {
      SwapMember(f.extensions, e);
    }
    forall n: nat | n >= m ensures Ways(f.extensions, c, a, n) == Count(down, c) {
      MoreCallsDown(f, a, m, n);
      CountDescendence(f, a, c, n);
      WeightCountsWays(f, sw, a, c, n);
      SwapTwice(f.extensions, c, a, n);
    }
    assert SettlesAt(f.extensions, c, a, Count(down, c), m);
  }

  // ---------- Classes that are not declared ----------

  /** The last steps of the ways to a: how often its child is declared, for each way to the child. */
  function LastHop(classes: seq<Class>, es: seq<Edge>, c: Class, a: Class, n: nat): Edge -> nat {
    (g: Edge) => if g.father == a then Count(classes, g.child) * Paths(es, c, g.child, n) else 0
  }

  /** The ways through the first step e and the last step g. */
  function Hops(classes: seq<Class>, es: seq<Edge>, c: Class, a: Class, n: nat): (Edge, Edge) -> nat {
    (e: Edge, g: Edge) =>
      if e.child == c && g.father == a then Count(classes, g.child) * Paths(es, e.father, g.child, n) else 0
  }

  /** Whatever is declared: only the classes of the last step up are tested, each as often as it is declared. */
  lemma {:induction false} WeightTestsTheLastStep(classes: seq<Class>, es: seq<Edge>, c: Class, a: Class, n: nat)
    ensures Weight(classes, es, c, a, n) == Count(classes, a) * Sum(es, LastHop(classes, es, c, a, n))
    decreases n
  {
    if n == 0 {
      SumSame(es, LastHop(classes, es, c, a, 0), Zero());
      SumZero(es);
    } else {
      var d, h := Count(classes, a), Hops(classes, es, c, a, n - 1);
      forall e | e in es ensures WeightVia(classes, es, c, a, n - 1)(e) == Times(d, RowSum(es, h))(e) {
        WeightTestsTheLastStep(classes, es, e.father, a, n - 1);
        HopsFrom(classes, es, c, a, n - 1, e);
      }
      SumSame(es, WeightVia(classes, es, c, a, n - 1), Times(d, RowSum(es, h)));
      SumTimes(es, d, RowSum(es, h));
      SumExchange(es, es, h);
      LastHopSplits(classes, es, c, a, n);
      TimesInTurn(Count(classes, c), d, Count(es, Edge(c, a)));
      TimesSum(d, Count(classes, c) * Count(es, Edge(c, a)), Sum(es, ColumnSum(es, h)));
    }
  }

  lemma HopsFrom(classes: seq<Class>, es: seq<Edge>, c: Class, a: Class, n: nat, e: Edge)
    ensures RowSum(es, Hops(classes, es, c, a, n))(e) ==
            if e.child == c then Sum(es, LastHop(classes, es, e.father, a, n)) else 0
  {
    var h := Hops(classes, es, c, a, n);
    SumSame(es, (g: Edge) => h(e, g), if e.child == c then LastHop(classes, es, e.father, a, n) else Zero());
    SumZero(es);
  }

  lemma HopsTo(classes: seq<Class>, es: seq<Edge>, c: Class, a: Class, n: nat, g: Edge)
    ensures ColumnSum(es, Hops(classes, es, c, a, n))(g) ==
            if g.father == a then Count(classes, g.child) * Sum(es, PathsVia(es, c, g.child, n)) else 0
  {
    var h, via := Hops(classes, es, c, a, n), PathsVia(es, c, g.child, n);
    SumSame(es, (e: Edge) => h(e, g), if g.father == a then Times(Count(classes, g.child), via) else Zero());
    SumTimes(es, Count(classes, g.child), via);
    SumZero(es);
  }

  lemma LastHopSplits(classes: seq<Class>, es: seq<Edge>, c: Class, a: Class, n: nat)
    requires n > 0
    ensures Sum(es, LastHop(classes, es, c, a, n)) ==
            Count(classes, c) * Count(es, Edge(c, a)) + Sum(es, ColumnSum(es, Hops(classes, es, c, a, n - 1)))
  {
    var columns, d := ColumnSum(es, Hops(classes, es, c, a, n - 1)), Count(classes, c);
    forall g | g in es
      ensures LastHop(classes, es, c, a, n)(g) == Plus(Times(d, Is(Edge(c, a))), columns)(g)
    {
      HopsTo(classes, es, c, a, n - 1, g);
      TimesSum(Count(classes, g.child), if c == g.child then 1 else 0, Sum(es, PathsVia(es, c, g.child, n - 1)));
    }
    SumSame(es, LastHop(classes, es, c, a, n), Plus(Times(d, Is(Edge(c, a))), columns));
    SumAdd(es, Times(d, Is(Edge(c, a))), columns);
    SumTimes(es, d, Is(Edge(c, a)));
    CountIsSum(es, Edge(c, a));
  }

  lemma Two<T>(a: T, b: T, x: T)
    ensures [a, b][1..] == [b] && [b][1..] == []
    ensures Count([a, b], x) == (if a == x then 1 else 0) + if b == x then 1 else 0
  {
    assert [a, b][1..] == [b] && [b][1..] == [];
    assert Count([b], x) == (if b == x then 1 else 0) + Count([], x);
  }

  /** Two facts: c extends y, which extends a, and a is not declared. */
  function TwoFacts(c: Class, y: Class, a: Class): Facts {
    Facts([c, y], [Edge(c, y), Edge(y, a)], [], [], [], [])
  }

  lemma UpTwoFacts(c: Class, y: Class, a: Class, x: Class, calls: nat)
    requires c != y && y != a && a != c && calls > 0
    ensures
      var f, r := TwoFacts(c, y, a), ClassInheritance(TwoFacts(c, y, a), x, calls);
      && (x == c ==> r == Concat(Answers([y]), ClassInheritance(f, y, calls - 1)))
      && (x == y ==> r == ClassInheritance(f, a, calls - 1))
      && (x == a ==> r == Answers([]))
  {
    var f, k := TwoFacts(c, y, a), calls - 1;
    var es := f.extensions;
    Two(c, y, x);
    forall z { Two(Edge(c, y), Edge(y, a), Edge(x, z)); }
    assert Fathers([y], es, x) == Repeat(Count(es, Edge(x, y)), [y]) + Fathers([], es, x);
    assert Fathers(f.classes, es, x) == Repeat(Count(es, Edge(x, c)), [c]) + Fathers([y], es, x);
    assert Repeat(1, [y]) == [y] + Repeat(0, [y]);
    assert Repeat(1, Fathers(f.classes, es, x)) == Fathers(f.classes, es, x) + Repeat(0, Fathers(f.classes, es, x));
    assert FathersInheritance(f, [], x, k) == Answers([]);
    assert FathersInheritance(f, [Edge(y, a)], x, k) == if x == y then ClassInheritance(f, a, k) else Answers([]);
  }

  lemma DownTwoFacts(c: Class, y: Class, a: Class, x: Class, calls: nat)
    requires c != y && y != a && a != c && calls > 0
    ensures
      var f, r := TwoFacts(c, y, a), ClassDescendence(TwoFacts(c, y, a), x, calls);
      && (x == a ==> r == ClassDescendence(f, y, calls - 1))
      && (x == y ==> r == Concat(Answers([c]), ClassDescendence(f, c, calls - 1)))
      && (x == c ==> r == Answers([]))
  {
    var f, k := TwoFacts(c, y, a), calls - 1;
    var es, n := f.extensions, Count(f.classes, x);
    Two(c, y, x);
    forall z { Two(Edge(c, y), Edge(y, a), Edge(z, x)); }
    assert Children([y], n, es, x) == Repeat(n, Repeat(Count(es, Edge(y, x)), [y])) + Children([], n, es, x);
    assert Children(f.classes, n, es, x) == Repeat(n, Repeat(Count(es, Edge(c, x)), [c])) + Children([y], n, es, x);
    assert Repeat(1, [c]) == [c] + Repeat(0, [c]);
    assert Repeat(1, Repeat(0, [c])) == [] && Repeat(1, Repeat(0, [y])) == [];
    assert Repeat(1, Repeat(1, [c])) == [c];
    assert ChildrenDescendence(f, [], x, k) == Answers([]);
    assert ChildrenDescendence(f, [Edge(y, a)], x, k) == if x == a then ClassDescendence(f, y, k) else Answers([]);
  }

  lemma UpChainOfTwoFacts(c: Class, y: Class, a: Class)
    requires c != y && y != a && a != c
    ensures ClassInheritance(TwoFacts(c, y, a), c, 3) == Answers([y])
  {
    UpTwoFacts(c, y, a, a, 1);
    UpTwoFacts(c, y, a, y, 2);
    UpTwoFacts(c, y, a, c, 3);
  }

  lemma DownChainOfTwoFacts(c: Class, y: Class, a: Class)
    requires c != y && y != a && a != c
    ensures ClassDescendence(TwoFacts(c, y, a), a, 3) == Answers([c])
  {
    DownTwoFacts(c, y, a, c, 1);
    DownTwoFacts(c, y, a, y, 2);
    DownTwoFacts(c, y, a, a, 3);
  }

  /** With the father of the last step undeclared, the two directions disagree. */
  lemma UndeclaredFathersBreakDuality(c: Class, y: Class, a: Class)
    requires c != y && y != a && a != c
    ensures IsChain(TwoFacts(c, y, a), c, [y]) && IsChainDown(TwoFacts(c, y, a), a, [c])
  {
    UpChainOfTwoFacts(c, y, a);
    DownChainOfTwoFacts(c, y, a);
  }
}
