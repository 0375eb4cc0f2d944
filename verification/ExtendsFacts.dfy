/** Extends facts, sums over them, and the paths they make. */
module ExtendsFacts {
  type Class = string

  /** An extends fact. */
  datatype Edge = Edge(child: Class, father: Class)

  function Count<T(==)>(s: seq<T>, x: T): nat {
    if s == [] then 0 else (if s[0] == x then 1 else 0) + Count(s[1..], x)
  }

  function Repeat<T>(n: nat, s: seq<T>): seq<T> {
    if n == 0 then [] else s + Repeat(n - 1, s)
  }

  lemma {:induction false} CountAppend<T>(s: seq<T>, t: seq<T>, x: T)
    ensures Count(s + t, x) == Count(s, x) + Count(t, x)
  {
    if s == [] {
      assert s + t == t;
    } else {
      CountAppend(s[1..], t, x);
      assert (s + t)[1..] == s[1..] + t;
    }
  }

  lemma {:induction false} CountRepeat<T>(n: nat, s: seq<T>, x: T)
    ensures Count(Repeat(n, s), x) == n * Count(s, x)
  {
    if n > 0 {
      CountRepeat(n - 1, s, x);
      CountAppend(s, Repeat(n - 1, s), x);
    }
  }

  lemma CountRepeatOne(n: nat, y: Class, x: Class)
    ensures Count(Repeat(n, [y]), x) == if y == x then n else 0
  {
    CountRepeat(n, [y], x);
    assert Count([y], x) == if y == x then 1 else 0;
  }

  lemma {:induction false} CountMember<T>(s: seq<T>, x: T)
    ensures Count(s, x) > 0 <==> x in s
  {
    if s != [] {
      CountMember(s[1..], x);
    }
  }

  lemma OneMoreTimes(m: nat, k: nat)
    ensures (1 + m) * k == k + m * k
  {}

  lemma TimesInTurn(x: nat, y: nat, z: nat)
    ensures x * (y * z) == y * (x * z)
  {}

  lemma TimesSum(d: nat, x: nat, y: nat)
    ensures d * (x + y) == d * x + d * y
  {}

  // ---------- Sums over facts ----------

  function Sum(es: seq<Edge>, h: Edge -> nat): nat {
    if es == [] then 0 else h(es[0]) + Sum(es[1..], h)
  }

  lemma {:induction false} SumSame(es: seq<Edge>, h: Edge -> nat, k: Edge -> nat)
    requires forall e | e in es :: h(e) == k(e)
    ensures Sum(es, h) == Sum(es, k)
  {
    if es != [] {
      SumSame(es[1..], h, k);
    }
  }

  lemma {:induction false} SumPositive(es: seq<Edge>, h: Edge -> nat)
    ensures Sum(es, h) > 0 <==> exists e :: e in es && h(e) > 0
  {
    if es != [] {
      SumPositive(es[1..], h);
    }
  }

  function Plus(h: Edge -> nat, k: Edge -> nat): Edge -> nat {
    (e: Edge) => h(e) + k(e)
  }

  function Times(m: nat, h: Edge -> nat): Edge -> nat {
    (e: Edge) => m * h(e)
  }

  function Zero(): Edge -> nat {
    (e: Edge) => 0
  }

  /** One for each fact that is x. */
  function Is(x: Edge): Edge -> nat {
    (e: Edge) => if e == x then 1 else 0
  }

  lemma {:induction false} SumAdd(es: seq<Edge>, h: Edge -> nat, k: Edge -> nat)
    ensures Sum(es, Plus(h, k)) == Sum(es, h) + Sum(es, k)
  {
    if es != [] {
      SumAdd(es[1..], h, k);
    }
  }

  lemma {:induction false} SumTimes(es: seq<Edge>, m: nat, h: Edge -> nat)
    ensures Sum(es, Times(m, h)) == m * Sum(es, h)
  {
    if es != [] {
      SumTimes(es[1..], m, h);
    }
  }

  lemma {:induction false} SumZero(es: seq<Edge>)
    ensures Sum(es, Zero()) == 0
  {
    if es != [] {
      SumZero(es[1..]);
    }
  }

  function RowSum(gs: seq<Edge>, h: (Edge, Edge) -> nat): Edge -> nat {
    (e: Edge) => Sum(gs, (g: Edge) => h(e, g))
  }

  function ColumnSum(es: seq<Edge>, h: (Edge, Edge) -> nat): Edge -> nat {
    (g: Edge) => Sum(es, (e: Edge) => h(e, g))
  }

  /** A table is summed by rows or by columns. */
  lemma {:induction false} SumExchange(es: seq<Edge>, gs: seq<Edge>, h: (Edge, Edge) -> nat)
    ensures Sum(es, RowSum(gs, h)) == Sum(gs, ColumnSum(es, h))
  {
    if es == [] {
      SumSame(gs, ColumnSum(es, h), Zero());
      SumZero(gs);
    } else {
      SumExchange(es[1..], gs, h);
      var first := (g: Edge) => h(es[0], g);
      SumAdd(gs, first, ColumnSum(es[1..], h));
      SumSame(gs, ColumnSum(es, h), Plus(first, ColumnSum(es[1..], h)));
    }
  }

  lemma {:induction false} CountIsSum(es: seq<Edge>, x: Edge)
    ensures Count(es, x) == Sum(es, Is(x))
  {
    if es != [] {
      CountIsSum(es[1..], x);
    }
  }

  lemma SumWithOne(es: seq<Edge>, h: Edge -> nat, x: Edge, k: Edge -> nat)
    requires forall e | e in es :: h(e) == Is(x)(e) + k(e)
    ensures Sum(es, h) == Count(es, x) + Sum(es, k)
  {
    SumSame(es, h, Plus(Is(x), k));
    SumAdd(es, Is(x), k);
    CountIsSum(es, x);
  }

  // ---------- Facts read backwards ----------

  function Swap(es: seq<Edge>): seq<Edge> {
    if es == [] then [] else [Edge(es[0].father, es[0].child)] + Swap(es[1..])
  }

  lemma {:induction false} SwapSum(es: seq<Edge>, h: Edge -> nat)
    ensures Sum(Swap(es), h) == Sum(es, (e: Edge) => h(Edge(e.father, e.child)))
  {
    if es != [] {
      SwapSum(es[1..], h);
    }
  }

  lemma {:induction false} SwapCount(es: seq<Edge>, c: Class, a: Class)
    ensures Count(Swap(es), Edge(a, c)) == Count(es, Edge(c, a))
  {
    if es != [] {
      SwapCount(es[1..], c, a);
    }
  }

  lemma {:induction false} SwapMember(es: seq<Edge>, e: Edge)
    ensures e in Swap(es) <==> Edge(e.father, e.child) in es
  {
    if es != [] {
      SwapMember(es[1..], e);
    }
  }

  // ---------- Paths ----------

  /** How many ways lead from c up to y through extends facts, passing at most n classes. */
  function Paths(es: seq<Edge>, c: Class, y: Class, n: nat): nat
    decreases n, 0
  {
    if n == 0 then 0 else (if c == y then 1 else 0) + Sum(es, PathsVia(es, c, y, n - 1))
  }

  function PathsVia(es: seq<Edge>, c: Class, y: Class, n: nat): Edge -> nat
    decreases n, 1
  {
    (e: Edge) => if e.child == c then Paths(es, e.father, y, n) else 0
  }

  /** The ways up from c to a, one step or more, through at most n + 1 classes. */
  function Ways(es: seq<Edge>, c: Class, a: Class, n: nat): nat {
    Sum(es, PathsVia(es, c, a, n))
  }

  /** The ways from y to a that start with e and end with g, g backwards. */
  function Crossing(sw: seq<Edge>, y: Class, a: Class, n: nat): (Edge, Edge) -> nat {
    (e: Edge, g: Edge) => if e.child == y && g.child == a then Paths(sw, g.father, e.father, n) else 0
  }

  /** Reading every fact backwards reverses the paths. */
  lemma {:induction false} PathsReverse(es: seq<Edge>, y: Class, a: Class, n: nat)
    ensures Paths(es, y, a, n) == Paths(Swap(es), a, y, n)
    decreases n
  {
    var sw := Swap(es);
    if n == 1 {
      SumSame(es, PathsVia(es, y, a, 0), Zero());
      SumSame(sw, PathsVia(sw, a, y, 0), Zero());
      SumZero(es);
      SumZero(sw);
    } else if n > 1 {
      var h := Crossing(sw, y, a, n - 2);
      forall e | e in es ensures PathsVia(es, y, a, n - 1)(e) == Is(Edge(y, a))(e) + RowSum(sw, h)(e) {
        PathsReverse(es, e.father, a, n - 1);
        FirstStep(es, y, a, n, e);
      }
      forall g | g in sw ensures PathsVia(sw, a, y, n - 1)(g) == Is(Edge(a, y))(g) + ColumnSum(es, h)(g) {
        PathsReverse(es, y, g.father, n - 1);
        forall e | e in es ensures Paths(es, e.father, g.father, n - 2) == Paths(sw, g.father, e.father, n - 2) {
          PathsReverse(es, e.father, g.father, n - 2);
        }
        LastStep(es, y, a, n, g);
      }
      SumWithOne(es, PathsVia(es, y, a, n - 1), Edge(y, a), RowSum(sw, h));
      SumWithOne(sw, PathsVia(sw, a, y, n - 1), Edge(a, y), ColumnSum(es, h));
      SumExchange(es, sw, h);
      SwapCount(es, y, a);
    }
  }

  lemma FirstStep(es: seq<Edge>, y: Class, a: Class, n: nat, e: Edge)
    requires n > 1 && Paths(es, e.father, a, n - 1) == Paths(Swap(es), a, e.father, n - 1)
    ensures PathsVia(es, y, a, n - 1)(e) == Is(Edge(y, a))(e) + RowSum(Swap(es), Crossing(Swap(es), y, a, n - 2))(e)
  {
    var sw, h := Swap(es), Crossing(Swap(es), y, a, n - 2);
    SumSame(sw, (g: Edge) => h(e, g), if e.child == y then PathsVia(sw, a, e.father, n - 2) else Zero());
    SumZero(sw);
  }

  lemma LastStep(es: seq<Edge>, y: Class, a: Class, n: nat, g: Edge)
    requires n > 1 && Paths(es, y, g.father, n - 1) == Paths(Swap(es), g.father, y, n - 1)
    requires forall e | e in es :: Paths(es, e.father, g.father, n - 2) == Paths(Swap(es), g.father, e.father, n - 2)
    ensures PathsVia(Swap(es), a, y, n - 1)(g) == Is(Edge(a, y))(g) + ColumnSum(es, Crossing(Swap(es), y, a, n - 2))(g)
  {
    var h := Crossing(Swap(es), y, a, n - 2);
    SumSame(es, (e: Edge) => h(e, g), if g.child == a then PathsVia(es, y, g.father, n - 2) else Zero());
    SumZero(es);
  }

  lemma SwapTwice(es: seq<Edge>, c: Class, a: Class, n: nat)
    ensures Ways(es, c, a, n) == Ways(Swap(es), a, c, n)
  {
    PathsReverse(es, c, a, n + 1);
  }
}
