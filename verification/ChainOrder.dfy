/** The order of the answers that the inheritance rules give, and of the methods in the interfaces built on them. */
module ChainOrder {
  import opened ExtendsFacts
  import opened Inheritance
  import opened Interfaces

  function Flat(lists: seq<seq<Class>>): seq<Class> {
    if lists == [] then [] else lists[0] + Flat(lists[1..])
  }

  predicate Rises(at: seq<nat>) {
    forall i, j | 0 <= i < j < |at| :: at[i] <= at[j]
  }

  predicate Increases(at: seq<nat>) {
    forall i, j | 0 <= i < j < |at| :: at[i] < at[j]
  }

  datatype Direction = Up | Down

  /** The extends facts that the second rule goes through, upward or downward. */
  predicate IsUsed(e: Edge, c: Class, d: Direction) {
    c == if d.Up? then e.child else e.father
  }

  /** What the second rule asks after such a fact. */
  function Further(f: Facts, e: Edge, d: Direction, calls: nat): Answers<Class> {
    if d.Up? then ClassInheritance(f, e.father, calls) else ClassDescendence(f, e.child, calls)
  }

  /** The positions of these facts, from the given one on. */
  function Positions(es: seq<Edge>, c: Class, d: Direction, from: nat): (at: seq<nat>)
    requires from <= |es|
    ensures Increases(at)
    ensures forall k | 0 <= k < |at| :: from <= at[k] < |es| && IsUsed(es[at[k]], c, d)
    ensures forall p | from <= p < |es| && IsUsed(es[p], c, d) :: p in at
    decreases |es| - from
  {
    if from == |es| then []
    else
      var later := Positions(es, c, d, from + 1);
      if IsUsed(es[from], c, d) then [from] + later else later
  }

  /** The answers that come through the facts at the positions, one after another. */
  function Through(f: Facts, at: seq<nat>, d: Direction, calls: nat): Answers<Class>
    requires forall k | 0 <= k < |at| :: at[k] < |f.extensions|
  {
    if at == [] then Answers([]) else Concat(Further(f, f.extensions[at[0]], d, calls), Through(f, at[1..], d, calls))
  }

  lemma {:induction false} ThroughEach(f: Facts, at: seq<nat>, d: Direction, calls: nat)
    returns (chains: seq<seq<Class>>)
    requires forall k | 0 <= k < |at| :: at[k] < |f.extensions|
    requires Through(f, at, d, calls).Answers?
    ensures Through(f, at, d, calls).list == Flat(chains) && |chains| == |at|
    ensures forall k | 0 <= k < |at| :: Further(f, f.extensions[at[k]], d, calls) == Answers(chains[k])
  {
    chains := [];
    if at != [] {
      var rest := ThroughEach(f, at[1..], d, calls);
      chains := [Further(f, f.extensions[at[0]], d, calls).list] + rest;
      assert chains[1..] == rest;
    }
  }

  // ---------- The first rule, then the fathers ----------

  /** The first rule goes through the class facts in order. */
  lemma {:induction false} FathersInClassOrder(classes: seq<Class>, es: seq<Edge>, c: Class) returns (at: seq<nat>)
    ensures |at| == |Fathers(classes, es, c)| && Rises(at)
    ensures forall i | 0 <= i < |at| :: at[i] < |classes| && classes[at[i]] == Fathers(classes, es, c)[i]
  {
    at := [];
    if classes != [] {
      var rest := FathersInClassOrder(classes[1..], es, c);
      var n := Count(es, Edge(c, classes[0]));
      RepeatOne(n, classes[0]);
      at := seq(n, _ => 0) + seq(|rest|, i requires 0 <= i < |rest| => rest[i] + 1);
    }
  }

  lemma {:induction false} RepeatOne(n: nat, x: Class)
    ensures |Repeat(n, [x])| == n && forall i | 0 <= i < n :: Repeat(n, [x])[i] == x
  {
    if n > 0 {
      RepeatOne(n - 1, x);
    }
  }

  /** The second rule goes through the extends facts of c in order. */
  lemma {:induction false} FathersInFactOrder(f: Facts, c: Class, calls: nat, from: nat)
    requires from <= |f.extensions|
    ensures FathersInheritance(f, f.extensions[from..], c, calls)
         == Through(f, Positions(f.extensions, c, Up, from), Up, calls)
    decreases |f.extensions| - from
  {
    if from < |f.extensions| {
      FathersInFactOrder(f, c, calls, from + 1);
      assert f.extensions[from..][1..] == f.extensions[from + 1..];
      var later := Positions(f.extensions, c, Up, from + 1);
      assert ([from] + later)[1..] == later;
    }
  }

  lemma FathersLast(f: Facts, c: Class, calls: nat)
    ensures ClassInheritance(f, c, calls + 1)
         == Concat(Answers(Repeat(Count(f.classes, c), Fathers(f.classes, f.extensions, c))),
                   Through(f, Positions(f.extensions, c, Up, 0), Up, calls))
  {
    FathersInFactOrder(f, c, calls, 0);
    assert f.extensions[0..] == f.extensions;
  }

  /** For any facts: the answers of the first rule come first, once more for each time that c is declared, and then, for
      each extends fact of c in order, the chain of its father. */
  lemma ChainInOrder(f: Facts, c: Class, up: seq<Class>)
    returns (direct: seq<Class>, at: seq<nat>, chains: seq<seq<Class>>)
    requires IsChain(f, c, up)
    ensures up == direct + Flat(chains) && direct == Repeat(Count(f.classes, c), Fathers(f.classes, f.extensions, c))
    ensures |chains| == |at| && Increases(at)
    ensures forall k | 0 <= k < |at| :: at[k] < |f.extensions| && f.extensions[at[k]].child == c
    ensures forall k | 0 <= k < |at| :: IsChain(f, f.extensions[at[k]].father, chains[k])
    ensures forall p | 0 <= p < |f.extensions| && f.extensions[p].child == c :: p in at
  {
    var n: nat :| ClassInheritance(f, c, n) == Answers(up);
    var calls := n - 1;
    FathersLast(f, c, calls);
    direct := Repeat(Count(f.classes, c), Fathers(f.classes, f.extensions, c));
    at := Positions(f.extensions, c, Up, 0);
    chains := ThroughEach(f, at, Up, calls);
    forall k | 0 <= k < |at| ensures IsChain(f, f.extensions[at[k]].father, chains[k]) {
      assert Further(f, f.extensions[at[k]], Up, calls) == Answers(chains[k]);
    }
  }

  // ---------- The first rule, then the children ----------

  lemma {:induction false} ChildrenInClassOrder(classes: seq<Class>, declared: nat, es: seq<Edge>, a: Class)
    returns (at: seq<nat>)
    ensures |at| == |Children(classes, declared, es, a)| && Rises(at)
    ensures forall i | 0 <= i < |at| :: at[i] < |classes| && classes[at[i]] == Children(classes, declared, es, a)[i]
  {
    at := [];
    if classes != [] {
      var rest := ChildrenInClassOrder(classes[1..], declared, es, a);
      var first := Repeat(declared, Repeat(Count(es, Edge(classes[0], a)), [classes[0]]));
      RepeatOne(Count(es, Edge(classes[0], a)), classes[0]);
      RepeatSame(declared, Repeat(Count(es, Edge(classes[0], a)), [classes[0]]), classes[0]);
      at := seq(|first|, _ => 0) + seq(|rest|, i requires 0 <= i < |rest| => rest[i] + 1);
    }
  }

  lemma {:induction false} RepeatSame(n: nat, s: seq<Class>, x: Class)
    requires forall i | 0 <= i < |s| :: s[i] == x
    ensures forall i | 0 <= i < |Repeat(n, s)| :: Repeat(n, s)[i] == x
  {
    if n > 0 {
      RepeatSame(n - 1, s, x);
    }
  }

  lemma {:induction false} ChildrenInFactOrder(f: Facts, a: Class, calls: nat, from: nat)
    requires from <= |f.extensions|
    ensures ChildrenDescendence(f, f.extensions[from..], a, calls)
         == Through(f, Positions(f.extensions, a, Down, from), Down, calls)
    decreases |f.extensions| - from
  {
    if from < |f.extensions| {
      ChildrenInFactOrder(f, a, calls, from + 1);
      assert f.extensions[from..][1..] == f.extensions[from + 1..];
      var later := Positions(f.extensions, a, Down, from + 1);
      assert ([from] + later)[1..] == later;
    }
  }

  lemma ChildrenLast(f: Facts, a: Class, calls: nat)
    ensures ClassDescendence(f, a, calls + 1)
         == Concat(Answers(Children(f.classes, Count(f.classes, a), f.extensions, a)),
                   Through(f, Positions(f.extensions, a, Down, 0), Down, calls))
  {
    ChildrenInFactOrder(f, a, calls, 0);
    assert f.extensions[0..] == f.extensions;
  }

  /** For any facts: the answers of the first rule come first, and then, for each extends fact of a in order, the
      downward chain of its child. */
  lemma ChainDownInOrder(f: Facts, a: Class, down: seq<Class>)
    returns (direct: seq<Class>, at: seq<nat>, chains: seq<seq<Class>>)
    requires IsChainDown(f, a, down)
    ensures down == direct + Flat(chains) && direct == Children(f.classes, Count(f.classes, a), f.extensions, a)
    ensures |chains| == |at| && Increases(at)
    ensures forall k | 0 <= k < |at| :: at[k] < |f.extensions| && f.extensions[at[k]].father == a
    ensures forall k | 0 <= k < |at| :: IsChainDown(f, f.extensions[at[k]].child, chains[k])
    ensures forall p | 0 <= p < |f.extensions| && f.extensions[p].father == a :: p in at
  {
    var n: nat :| ClassDescendence(f, a, n) == Answers(down);
    var calls := n - 1;
    ChildrenLast(f, a, calls);
    direct := Children(f.classes, Count(f.classes, a), f.extensions, a);
    at := Positions(f.extensions, a, Down, 0);
    chains := ThroughEach(f, at, Down, calls);
    forall k | 0 <= k < |at| ensures IsChainDown(f, f.extensions[at[k]].child, chains[k]) {
      assert Further(f, f.extensions[at[k]], Down, calls) == Answers(chains[k]);
    }
  }

  // ---------- Single inheritance: from father to father ----------

  /** No class extends twice. */
  predicate HasOneFather(es: seq<Edge>) {
    forall i, j | 0 <= i < j < |es| :: es[i].child != es[j].child
  }

  /** No class is extended twice. */
  predicate HasOneChild(es: seq<Edge>) {
    forall i, j | 0 <= i < j < |es| :: es[i].father != es[j].father
  }

  lemma {:induction false} OnlyFather(es: seq<Edge>, c: Class, y: Class)
    requires HasOneFather(es) && Edge(c, y) in es
    ensures forall x :: Count(es, Edge(c, x)) == if x == y then 1 else 0
  {
    if es[0].child == c {
      forall x ensures Count(es[1..], Edge(c, x)) == 0 {
        CountMember(es[1..], Edge(c, x));
      }
      NoFather(es[1..], c);
    } else {
      OnlyFather(es[1..], c, y);
    }
  }

  lemma {:induction false} NoFather(es: seq<Edge>, c: Class)
    requires forall e | e in es :: e.child != c
    ensures forall x :: Count(es, Edge(c, x)) == 0
  {
    if es != [] {
      NoFather(es[1..], c);
    }
  }

  lemma {:induction false} FathersOnce(classes: seq<Class>, es: seq<Edge>, c: Class, y: Class)
    requires Count(classes, y) <= 1 && forall x :: Count(es, Edge(c, x)) == if x == y then 1 else 0
    ensures Fathers(classes, es, c) == if y in classes then [y] else []
  {
    if classes != [] {
      CountMember(classes[1..], y);
      FathersOnce(classes[1..], es, c, y);
      assert Repeat(1, [y]) == [y] + Repeat(0, [y]);
    }
  }

  lemma {:induction false} FathersNone(classes: seq<Class>, es: seq<Edge>, c: Class)
    requires forall x :: Count(es, Edge(c, x)) == 0
    ensures Fathers(classes, es, c) == []
  {
    if classes != [] {
      FathersNone(classes[1..], es, c);
    }
  }

  ghost predicate ExtendsNone(es: seq<Edge>, c: Class) {
    forall y :: Edge(c, y) !in es
  }

  /** Each class extends the next, beginning with c, and the last extends none. */
  ghost predicate LeadsUp(es: seq<Edge>, c: Class, up: seq<Class>)
    decreases |up|
  {
    if up == [] then ExtendsNone(es, c) else Edge(c, up[0]) in es && LeadsUp(es, up[0], up[1..])
  }

  lemma {:induction false} IncreasesByOne(at: seq<nat>)
    requires Increases(at) && at != []
    ensures at[|at| - 1] >= at[0] + |at| - 1
  {
    if |at| > 1 {
      IncreasesByOne(at[1..]);
      assert at[0] < at[1];
    }
  }

  lemma OnlyPosition(at: seq<nat>, p: nat)
    requires Increases(at) && p in at && forall i | 0 <= i < |at| :: at[i] == p
    ensures at == [p]
  {
    IncreasesByOne(at);
  }

  lemma FatherThenChain(f: Facts, c: Class, up: seq<Class>, y: Class) returns (further: seq<Class>)
    requires AreDeclaredOnce(f) && HasOneFather(f.extensions) && IsChain(f, c, up) && Edge(c, y) in f.extensions
    ensures up == [y] + further && IsChain(f, y, further)
  {
    var es := f.extensions;
    var direct, at, chains := ChainInOrder(f, c, up);
    OnlyFather(es, c, y);
    var p :| 0 <= p < |es| && es[p] == Edge(c, y);
    OnlyPosition(at, p);
    assert Count(f.classes, Edge(c, y).child) == 1 && Count(f.classes, Edge(c, y).father) == 1;
    CountMember(f.classes, y);
    FathersOnce(f.classes, es, c, y);
    assert Repeat(1, [y]) == [y] + Repeat(0, [y]);
    assert Flat(chains) == chains[0] + Flat([]);
    further := chains[0];
  }

  lemma NoFatherNoChain(f: Facts, c: Class, up: seq<Class>)
    requires IsChain(f, c, up) && forall y :: Edge(c, y) !in f.extensions
    ensures up == []
  {
    var direct, at, chains := ChainInOrder(f, c, up);
    forall e | e in f.extensions ensures e.child != c {
      assert Edge(c, e.father) !in f.extensions;
    }
    NoFather(f.extensions, c);
    FathersNone(f.classes, f.extensions, c);
    NothingRepeated(Count(f.classes, c));
  }

  lemma {:induction false} NothingRepeated(n: nat)
    ensures Repeat<Class>(n, []) == []
  {
    if n > 0 {
      NothingRepeated(n - 1);
    }
  }

  /** With one father each, the chain goes from father to father, nearest first, to the class that extends none. */
  lemma {:induction false} ChainGoesUp(f: Facts, c: Class, up: seq<Class>)
    requires AreDeclaredOnce(f) && HasOneFather(f.extensions) && IsChain(f, c, up)
    ensures LeadsUp(f.extensions, c, up)
    decreases |up|
  {
    if y :| Edge(c, y) in f.extensions {
      var further := FatherThenChain(f, c, up, y);
      ChainGoesUp(f, y, further);
      assert up[1..] == further;
    } else {
      NoFatherNoChain(f, c, up);
    }
  }

  lemma {:induction false} LeadsUpStepByStep(es: seq<Edge>, c: Class, up: seq<Class>)
    requires LeadsUp(es, c, up)
    ensures up != [] ==> Edge(c, up[0]) in es
    ensures forall i | 0 <= i < |up| - 1 :: Edge(up[i], up[i + 1]) in es
    ensures ExtendsNone(es, if up == [] then c else up[|up| - 1])
    decreases |up|
  {
    if up != [] {
      LeadsUpStepByStep(es, up[0], up[1..]);
      forall i | 0 <= i < |up| - 1 ensures Edge(up[i], up[i + 1]) in es {
        if i > 0 {
          assert Edge(up[1..][i - 1], up[1..][(i - 1) + 1]) in es;
        }
      }
    }
  }

  /** The same, step by step. */
  lemma ChainStepByStep(f: Facts, c: Class, up: seq<Class>)
    requires AreDeclaredOnce(f) && HasOneFather(f.extensions) && IsChain(f, c, up)
    ensures up != [] ==> Edge(c, up[0]) in f.extensions
    ensures forall i | 0 <= i < |up| - 1 :: Edge(up[i], up[i + 1]) in f.extensions
    ensures ExtendsNone(f.extensions, if up == [] then c else up[|up| - 1])
  {
    ChainGoesUp(f, c, up);
    LeadsUpStepByStep(f.extensions, c, up);
  }

  // ---------- From child to child ----------

  lemma {:induction false} OnlyChild(es: seq<Edge>, a: Class, y: Class)
    requires HasOneChild(es) && Edge(y, a) in es
    ensures forall x :: Count(es, Edge(x, a)) == if x == y then 1 else 0
  {
    if es[0].father == a {
      forall x ensures Count(es[1..], Edge(x, a)) == 0 {
        CountMember(es[1..], Edge(x, a));
      }
      NoChild(es[1..], a);
    } else {
      OnlyChild(es[1..], a, y);
    }
  }

  lemma {:induction false} NoChild(es: seq<Edge>, a: Class)
    requires forall e | e in es :: e.father != a
    ensures forall x :: Count(es, Edge(x, a)) == 0
  {
    if es != [] {
      NoChild(es[1..], a);
    }
  }

  lemma {:induction false} ChildrenOnce(classes: seq<Class>, es: seq<Edge>, a: Class, y: Class)
    requires Count(classes, y) <= 1 && forall x :: Count(es, Edge(x, a)) == if x == y then 1 else 0
    ensures Children(classes, 1, es, a) == if y in classes then [y] else []
  {
    if classes != [] {
      CountMember(classes[1..], y);
      ChildrenOnce(classes[1..], es, a, y);
      assert Repeat(1, [y]) == [y] + Repeat(0, [y]);
      assert Repeat(1, Repeat(1, [y])) == Repeat(1, [y]) + Repeat(0, Repeat(1, [y]));
      NothingRepeated(1);
    }
  }

  lemma {:induction false} ChildrenNone(classes: seq<Class>, declared: nat, es: seq<Edge>, a: Class)
    requires forall x :: Count(es, Edge(x, a)) == 0
    ensures Children(classes, declared, es, a) == []
  {
    if classes != [] {
      ChildrenNone(classes[1..], declared, es, a);
      NothingRepeated(declared);
    }
  }

  ghost predicate IsExtendedByNone(es: seq<Edge>, a: Class) {
    forall y :: Edge(y, a) !in es
  }

  ghost predicate LeadsDown(es: seq<Edge>, a: Class, down: seq<Class>)
    decreases |down|
  {
    if down == [] then IsExtendedByNone(es, a) else Edge(down[0], a) in es && LeadsDown(es, down[0], down[1..])
  }

  lemma ChildThenChain(f: Facts, a: Class, down: seq<Class>, y: Class) returns (further: seq<Class>)
    requires AreDeclaredOnce(f) && HasOneChild(f.extensions) && IsChainDown(f, a, down) && Edge(y, a) in f.extensions
    ensures down == [y] + further && IsChainDown(f, y, further)
  {
    var es := f.extensions;
    var direct, at, chains := ChainDownInOrder(f, a, down);
    OnlyChild(es, a, y);
    var p :| 0 <= p < |es| && es[p] == Edge(y, a);
    OnlyPosition(at, p);
    assert Count(f.classes, Edge(y, a).child) == 1 && Count(f.classes, Edge(y, a).father) == 1;
    CountMember(f.classes, y);
    ChildrenOnce(f.classes, es, a, y);
    assert Flat(chains) == chains[0] + Flat([]);
    further := chains[0];
  }

  /** With one child each, the downward chain goes from child to child, nearest first. */
  lemma {:induction false} ChainGoesDown(f: Facts, a: Class, down: seq<Class>)
    requires AreDeclaredOnce(f) && HasOneChild(f.extensions) && IsChainDown(f, a, down)
    ensures LeadsDown(f.extensions, a, down)
    decreases |down|
  {
    if y :| Edge(y, a) in f.extensions {
      var further := ChildThenChain(f, a, down, y);
      ChainGoesDown(f, y, further);
      assert down[1..] == further;
    } else {
      var direct, at, chains := ChainDownInOrder(f, a, down);
      forall e | e in f.extensions ensures e.father != a {
        assert Edge(e.child, a) !in f.extensions;
      }
      NoChild(f.extensions, a);
      ChildrenNone(f.classes, Count(f.classes, a), f.extensions, a);
    }
  }

  lemma {:induction false} LeadsDownStepByStep(es: seq<Edge>, a: Class, down: seq<Class>)
    requires LeadsDown(es, a, down)
    ensures down != [] ==> Edge(down[0], a) in es
    ensures forall i | 0 <= i < |down| - 1 :: Edge(down[i + 1], down[i]) in es
    ensures IsExtendedByNone(es, if down == [] then a else down[|down| - 1])
    decreases |down|
  {
    if down != [] {
      LeadsDownStepByStep(es, down[0], down[1..]);
      forall i | 0 <= i < |down| - 1 ensures Edge(down[i + 1], down[i]) in es {
        if i > 0 {
          assert Edge(down[1..][(i - 1) + 1], down[1..][i - 1]) in es;
        }
      }
    }
  }

  lemma ChainDownStepByStep(f: Facts, a: Class, down: seq<Class>)
    requires AreDeclaredOnce(f) && HasOneChild(f.extensions) && IsChainDown(f, a, down)
    ensures down != [] ==> Edge(down[0], a) in f.extensions
    ensures forall i | 0 <= i < |down| - 1 :: Edge(down[i + 1], down[i]) in f.extensions
    ensures IsExtendedByNone(f.extensions, if down == [] then a else down[|down| - 1])
  {
    ChainGoesDown(f, a, down);
    LeadsDownStepByStep(f.extensions, a, down);
  }

  // ---------- The order of methods ----------

  /** The methods of a class in the order of the facts that give them, all of these and no others. */
  lemma {:induction false} MethodsInFactOrder(facts: seq<(Class, Method)>, c: Class, from: nat)
    returns (at: seq<nat>)
    requires from <= |facts|
    ensures |at| == |MethodsIn(facts[from..], c)| && Increases(at)
    ensures forall i | 0 <= i < |at| ::
              from <= at[i] < |facts| && facts[at[i]] == (c, MethodsIn(facts[from..], c)[i])
    ensures forall k | from <= k < |facts| && facts[k].0 == c :: k in at
    decreases |facts| - from
  {
    at := [];
    if from < |facts| {
      at := MethodsInFactOrder(facts, c, from + 1);
      assert facts[from..][1..] == facts[from + 1..];
      if facts[from].0 == c {
        at := [from] + at;
      }
    }
  }

  /** Defining facts come before refining ones. */
  lemma DefinedBeforeRefined(f: Facts, c: Class) returns (defined: seq<nat>, refined: seq<nat>)
    ensures |ClassMethods(f, c)| == |defined| + |refined| && Increases(defined) && Increases(refined)
    ensures forall i | 0 <= i < |defined| ::
              defined[i] < |f.defines| && f.defines[defined[i]] == (c, ClassMethods(f, c)[i])
    ensures forall i | 0 <= i < |refined| ::
              refined[i] < |f.refinements| && f.refinements[refined[i]] == (c, ClassMethods(f, c)[|defined| + i])
    ensures forall k | 0 <= k < |f.defines| && f.defines[k].0 == c :: k in defined
    ensures forall k | 0 <= k < |f.refinements| && f.refinements[k].0 == c :: k in refined
  {
    defined := MethodsInFactOrder(f.defines, c, 0);
    refined := MethodsInFactOrder(f.refinements, c, 0);
    assert f.defines[0..] == f.defines && f.refinements[0..] == f.refinements;
  }

  /** The first of the classes that has the method; |classes| if none has. */
  function Owner(f: Facts, classes: seq<Class>, m: Method): (k: nat)
    ensures k <= |classes|
    ensures k < |classes| ==> m in ClassMethods(f, classes[k])
    ensures forall i | 0 <= i < k :: m !in ClassMethods(f, classes[i])
  {
    if classes == [] || m in ClassMethods(f, classes[0]) then 0 else 1 + Owner(f, classes[1..], m)
  }

  lemma {:induction false} FirstPastFront<T>(s: seq<T>, t: seq<T>, x: T)
    ensures First(s + t, x) == if x in s then First(s, x) else |s| + First(t, x)
    ensures x in s ==> First(s, x) < |s|
  {
    if s == [] {
      assert s + t == t;
    } else {
      FirstPastFront(s[1..], t, x);
      assert (s + t)[1..] == s[1..] + t;
    }
  }

  /** Where a method is first mentioned: among the methods of its owner, after those of the classes before. */
  lemma {:induction false} FirstAtOwner(f: Facts, classes: seq<Class>, m: Method)
    requires Owner(f, classes, m) < |classes|
    ensures
      var k := Owner(f, classes, m);
      && First(ChainMethods(f, classes), m) ==
         |ChainMethods(f, classes[..k])| + First(ClassMethods(f, classes[k]), m)
      && First(ClassMethods(f, classes[k]), m) < |ClassMethods(f, classes[k])|
  {
    FirstPastFront(ClassMethods(f, classes[0]), ChainMethods(f, classes[1..]), m);
    if m in ClassMethods(f, classes[0]) {
      assert classes[..0] == [];
    } else {
      var k := Owner(f, classes[1..], m);
      FirstAtOwner(f, classes[1..], m);
      assert classes[..k + 1][0] == classes[0] && classes[..k + 1][1..] == classes[1..][..k];
    }
  }

  lemma {:induction false} ChainMethodsGrow(f: Facts, classes: seq<Class>, j: nat, k: nat)
    requires j < k <= |classes|
    ensures |ChainMethods(f, classes[..j])| + |ClassMethods(f, classes[j])| <= |ChainMethods(f, classes[..k])|
    decreases j
  {
    assert classes[..k][0] == classes[0] && classes[..k][1..] == classes[1..][..k - 1];
    if j == 0 {
      assert classes[..0] == [];
    } else {
      ChainMethodsGrow(f, classes[1..], j - 1, k - 1);
      assert classes[..j][0] == classes[0] && classes[..j][1..] == classes[1..][..j - 1];
    }
  }

  lemma {:induction false} MentionedHasOwner(f: Facts, classes: seq<Class>, m: Method)
    ensures m in ChainMethods(f, classes) <==> Owner(f, classes, m) < |classes|
  {
    if classes != [] {
      MentionedHasOwner(f, classes[1..], m);
    }
  }

  /** An interface lists the methods of the class, then those of each class along its chain that are new there; the
      methods that one class gives come in the order of its facts. */
  lemma InterfaceFollowsTheChain(f: Facts, c: Class, up: seq<Class>, i: nat, j: nat)
    requires i < j < |Interface(f, c, up)|
    ensures
      var classes, methods := [c] + up, Interface(f, c, up);
      var k, l := Owner(f, classes, methods[i]), Owner(f, classes, methods[j]);
      && k <= l < |classes|
      && (k == l ==> First(ClassMethods(f, classes[k]), methods[i]) < First(ClassMethods(f, classes[k]), methods[j]))
  {
    var classes, methods := [c] + up, Interface(f, c, up);
    var all := ClassMethods(f, c) + ChainMethods(f, up);
    assert classes[1..] == up;
    assert all == ChainMethods(f, classes);
    ListToSetMembers(all, methods[i]);
    ListToSetMembers(all, methods[j]);
    MentionedHasOwner(f, classes, methods[i]);
    MentionedHasOwner(f, classes, methods[j]);
    ListToSetKeepsOrder(all, i, j);
    FirstAtOwner(f, classes, methods[i]);
    FirstAtOwner(f, classes, methods[j]);
    var k, l := Owner(f, classes, methods[i]), Owner(f, classes, methods[j]);
    if l < k {
      ChainMethodsGrow(f, classes, l, k);
    }
  }

  // ---------- Providers ----------

  /** A list is provided exactly for a declared interface that the class implements, where the downward rules end; it
      begins with the class. */
  lemma ProvidesExactlyWhen(f: Facts, c: Class, i: string)
    ensures (exists list :: ProvidesInterface(f, c, i, list)) <==>
            i in f.interfaces && (c, i) in f.implements && exists down :: IsChainDown(f, c, down)
    ensures forall list | ProvidesInterface(f, c, i, list) :: list != [] && list[0] == c && IsChainDown(f, c, list[1..])
  {
    forall list | ProvidesInterface(f, c, i, list)
      ensures list != [] && list[0] == c && IsChainDown(f, c, list[1..])
    {
      var down :| IsChainDown(f, c, down) && list == [c] + down;
      assert list[1..] == down;
    }
    if i in f.interfaces && (c, i) in f.implements && exists down :: IsChainDown(f, c, down) {
      var down :| IsChainDown(f, c, down);
      assert ProvidesInterface(f, c, i, [c] + down);
    }
  }
}
