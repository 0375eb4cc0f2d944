/** The breadth-first search that keeps a queue of paths and no record of visited nodes. */
module PathSearch {

  type Symbol = string

  /** An entry (node neighbour ...) of the association list that represents the net. */
  datatype Entry = Entry(node: Symbol, neighbours: seq<Symbol>)
  type Net = seq<Entry>

  /** A path under construction, last node first. */
  type Path = p: seq<Symbol> | p != [] witness [""]

  /** Unfinished: the calls allowed were used up. NotFound: the queue ran empty. */
  datatype Outcome = Found(path: Path) | NotFound | Unfinished

  /** (cdr (assoc node net)): the neighbours in the first entry for the node, none without an entry. */
  function Neighbours(node: Symbol, net: Net): seq<Symbol> {
    if net == [] then []
    else if net[0].node == node then net[0].neighbours
    else Neighbours(node, net[1..])
  }

  /** The first entry for a node is the one that counts. */
  lemma {:induction false} FirstEntryCounts(net: Net, k: nat)
    requires k < |net| && forall j | 0 <= j < k :: net[j].node != net[k].node
    ensures Neighbours(net[k].node, net) == net[k].neighbours
  {
    if k > 0 {
      FirstEntryCounts(net[1..], k - 1);
    }
  }

  lemma {:induction false} NoEntryNoNeighbours(net: Net, node: Symbol)
    requires forall j | 0 <= j < |net| :: net[j].node != node
    ensures Neighbours(node, net) == []
  {
    if net != [] {
      NoEntryNoNeighbours(net[1..], node);
    }
  }

  function NewPaths(path: Path, node: Symbol, net: Net): (r: seq<Path>) {
    var ns := Neighbours(node, net);
    seq(|ns|, i requires 0 <= i < |ns| => [ns[i]] + path)
  }

  function Reverse(p: seq<Symbol>): (r: seq<Symbol>)
    ensures |r| == |p|
    ensures forall i | 0 <= i < |p| :: r[i] == p[|p| - 1 - i]
  {
    if p == [] then [] else Reverse(p[1..]) + [p[0]]
  }

  /** The search, for as many recursive calls as calls allows. */
  function Bfs(net: Net, goal: Symbol, queue: seq<Path>, calls: nat): Outcome
    decreases calls
  {
    if calls == 0 then Unfinished
    else if queue == [] then NotFound
    else
      var v := queue[0];
      if v[0] == goal then Found(Reverse(v))
      else Bfs(net, goal, queue[1..] + NewPaths(v, v[0], net), calls - 1)
  }

  function ShortestPath(start: Symbol, end: Symbol, net: Net, calls: nat): Outcome {
    Bfs(net, end, [[start]], calls)
  }

  // ---------- What is asked for ----------

  /** A walk: each node is a neighbour of the one before it. */
  ghost predicate IsWalk(w: seq<Symbol>, start: Symbol, net: Net) {
    |w| > 0 && w[0] == start && forall i | 0 <= i < |w| - 1 :: w[i + 1] in Neighbours(w[i], net)
  }

  ghost predicate Reaches(w: seq<Symbol>, start: Symbol, end: Symbol, net: Net) {
    IsWalk(w, start, net) && w[|w| - 1] == end
  }

  /** The first position of x in s. */
  function Rank(s: seq<Symbol>, x: Symbol): (r: nat)
    requires x in s
    ensures r < |s| && s[r] == x && x !in s[..r]
  {
    if s[0] == x then 0 else 1 + Rank(s[1..], x)
  }

  /** Where the walks v and w first part, v takes the neighbour that is listed earlier. */
  ghost predicate Precedes(v: seq<Symbol>, w: seq<Symbol>, net: Net) {
    exists t :: 0 < t < |v| && PartsAt(v, w, t, net)
  }

  ghost predicate PartsAt(v: seq<Symbol>, w: seq<Symbol>, t: nat, net: Net)
    requires 0 < t < |v|
  {
    && t < |w| && v[..t] == w[..t]
    && v[t] in Neighbours(v[t - 1], net) && w[t] in Neighbours(v[t - 1], net)
    && Rank(Neighbours(v[t - 1], net), v[t]) < Rank(Neighbours(v[t - 1], net), w[t])
  }

  /** The walk is the first, in the order of the neighbour lists, of the shortest walks to the end. */
  ghost predicate IsCanonical(v: seq<Symbol>, start: Symbol, end: Symbol, net: Net) {
    Reaches(v, start, end, net) &&
    forall w | Reaches(w, start, end, net) && w != v :: |v| < |w| || (|v| == |w| && Precedes(v, w, net))
  }

  // ---------- Levels of the walk tree ----------

  /** The paths that popping every path of ps appends to the queue. */
  function Extend(ps: seq<Path>, net: Net): seq<Path> {
    if ps == [] then [] else NewPaths(ps[0], ps[0][0], net) + Extend(ps[1..], net)
  }

  /** All walks of k steps, as paths, in queue order. */
  function Level(start: Symbol, net: Net, k: nat): seq<Path> {
    if k == 0 then [[start]] else Extend(Level(start, net, k - 1), net)
  }

  /** How many paths are popped before the first of level k. */
  function Pops(start: Symbol, net: Net, k: nat): nat {
    if k == 0 then 0 else Pops(start, net, k - 1) + |Level(start, net, k - 1)|
  }

  predicate Misses(ps: seq<Path>, goal: Symbol) {
    forall i | 0 <= i < |ps| :: ps[i][0] != goal
  }

  /** Popping a stretch of the queue that misses the goal leaves the rest, followed by the extensions of the stretch. */
  lemma {:induction false} PopStretch(net: Net, goal: Symbol, a: seq<Path>, b: seq<Path>, calls: nat)
    requires Misses(a, goal)
    ensures Bfs(net, goal, a + b, calls) ==
            if calls <= |a| then Unfinished else Bfs(net, goal, b + Extend(a, net), calls - |a|)
    decreases |a|
  {
    if a == [] {
      assert a + b == b && b + Extend(a, net) == b;
    } else if calls > 0 {
      var more := NewPaths(a[0], a[0][0], net);
      assert (a + b)[1..] + more == a[1..] + (b + more);
      assert b + Extend(a, net) == (b + more) + Extend(a[1..], net);
      assert Misses(a[1..], goal);
      PopStretch(net, goal, a[1..], b + more, calls - 1);
    }
  }

  /** A search that reaches level k without meeting the goal continues with level k as its queue. */
  lemma {:induction false} PopLevels(net: Net, start: Symbol, goal: Symbol, k: nat, calls: nat)
    requires forall j: nat | j < k :: Misses(Level(start, net, j), goal)
    ensures ShortestPath(start, goal, net, calls) ==
            if calls <= Pops(start, net, k) then Unfinished
            else Bfs(net, goal, Level(start, net, k), calls - Pops(start, net, k))
    decreases k
  {
    if k > 0 {
      var level := Level(start, net, k - 1);
      PopLevels(net, start, goal, k - 1, calls);
      if calls > Pops(start, net, k - 1) {
        PopStretch(net, goal, level, [], calls - Pops(start, net, k - 1));
      }
      assert level + [] == level && [] + Extend(level, net) == Extend(level, net);
    }
  }

  /** Where the search stops: at position i of level k, the first with a path to the goal,
      or at level k if that is the first empty one. */
  lemma StopAt(net: Net, start: Symbol, goal: Symbol, k: nat, i: nat, calls: nat)
    requires forall j: nat | j < k :: Misses(Level(start, net, j), goal)
    requires i <= |Level(start, net, k)| && Misses(Level(start, net, k)[..i], goal)
    requires if i == |Level(start, net, k)| then i == 0 else Level(start, net, k)[i][0] == goal
    ensures ShortestPath(start, goal, net, calls) ==
            if calls <= Pops(start, net, k) + i then Unfinished
            else if i < |Level(start, net, k)| then Found(Reverse(Level(start, net, k)[i]))
            else NotFound
  {
    var level, pops := Level(start, net, k), Pops(start, net, k);
    PopLevels(net, start, goal, k, calls);
    if calls > pops {
      assert level == level[..i] + level[i..];
      PopStretch(net, goal, level[..i], level[i..], calls - pops);
      if i < |level| {
        assert (level[i..] + Extend(level[..i], net))[0] == level[i];
      } else {
        assert level[i..] + Extend(level[..i], net) == [];
      }
    }
  }

  // ---------- Levels hold the walks, in order ----------

  /** A path is a walk read backwards. */
  ghost predicate IsPath(p: seq<Symbol>, start: Symbol, net: Net) {
    |p| > 0 &&
    if |p| == 1 then p[0] == start else p[0] in Neighbours(p[1], net) && IsPath(p[1..], start, net)
  }

  lemma {:induction false} PathIsWalk(p: seq<Symbol>, start: Symbol, net: Net)
    ensures IsPath(p, start, net) <==> IsWalk(Reverse(p), start, net)
  {
    if |p| > 1 {
      PathIsWalk(p[1..], start, net);
      var v, w := Reverse(p[1..]), Reverse(p);
      assert w == v + [p[0]] && v[|v| - 1] == p[1];
      if IsWalk(w, start, net) {
        assert w[|v| - 1 + 1] in Neighbours(w[|v| - 1], net);
        forall i | 0 <= i < |v| - 1 ensures v[i + 1] in Neighbours(v[i], net) {
          assert w[i + 1] in Neighbours(w[i], net);
        }
      }
    }
  }

  lemma ReverseTwice(p: seq<Symbol>)
    ensures Reverse(Reverse(p)) == p
  {
  }

  lemma {:induction false} ExtendMembers(ps: seq<Path>, net: Net, q: Path)
    ensures q in Extend(ps, net) <==> |q| > 1 && q[1..] in ps && q[0] in Neighbours(q[1], net)
  {
    if ps != [] {
      ExtendMembers(ps[1..], net, q);
      assert ps == [ps[0]] + ps[1..];
      var p, ns := ps[0], Neighbours(ps[0][0], net);
      var more := NewPaths(p, p[0], net);
      if q in more {
        var i :| 0 <= i < |more| && more[i] == q;
        assert q[1..] == p && q[0] == ns[i];
      }
      if |q| > 1 && q[1..] == p && q[0] in ns {
        var i :| 0 <= i < |ns| && ns[i] == q[0];
        assert more[i] == q;
      }
    }
  }

  /** Level k is exactly the walks of k steps. */
  lemma {:induction false} LevelMembers(start: Symbol, net: Net, k: nat, p: Path)
    ensures p in Level(start, net, k) <==> |p| == k + 1 && IsPath(p, start, net)
    decreases k
  {
    if k > 0 {
      ExtendMembers(Level(start, net, k - 1), net, p);
      if |p| > 1 {
        LevelMembers(start, net, k - 1, p[1..]);
      }
    } else if |p| == 1 {
      assert p == [p[0]];
    }
  }

  /** Precedes, on paths. */
  ghost predicate Earlier(p: seq<Symbol>, q: seq<Symbol>, net: Net) {
    |p| > 1 && |q| > 1 &&
    if p[1..] == q[1..] then
      p[0] in Neighbours(p[1], net) && q[0] in Neighbours(p[1], net) &&
      Rank(Neighbours(p[1], net), p[0]) < Rank(Neighbours(p[1], net), q[0])
    else Earlier(p[1..], q[1..], net)
  }

  lemma PartsEarly(v: seq<Symbol>, w: seq<Symbol>, t: nat, x: Symbol, y: Symbol, net: Net)
    requires 0 < t < |v| == |w| && PartsAt(v, w, t, net)
    ensures PartsAt(v + [x], w + [y], t, net)
  {
    assert (v + [x])[..t] == v[..t] && (w + [y])[..t] == w[..t];
  }

  lemma {:induction false} EarlierPrecedes(p: seq<Symbol>, q: seq<Symbol>, net: Net)
    requires Earlier(p, q, net) && |p| == |q|
    ensures Precedes(Reverse(p), Reverse(q), net)
  {
    var v, w := Reverse(p), Reverse(q);
    var v', w' := Reverse(p[1..]), Reverse(q[1..]);
    assert v == v' + [p[0]] && w == w' + [q[0]];
    if p[1..] == q[1..] {
      assert PartsAt(v, w, |p| - 1, net);
    } else {
      EarlierPrecedes(p[1..], q[1..], net);
      var t :| 0 < t < |v'| && PartsAt(v', w', t, net);
      PartsEarly(v', w', t, p[0], q[0], net);
    }
  }

  lemma PrecedesIsAsymmetric(v: seq<Symbol>, w: seq<Symbol>, net: Net)
    requires Precedes(v, w, net)
    ensures !Precedes(w, v, net)
  {
    var t :| 0 < t < |v| && PartsAt(v, w, t, net);
    assert v[t] != w[t];
    forall u | 0 < u < |w| ensures !PartsAt(w, v, u, net) {
      if t < u < |v| {
        assert w[..u][t] != v[..u][t];
      } else if u < t {
        assert w[..t][u] == v[..t][u];
      } else if u == t {
        assert v[..t][t - 1] == w[..t][t - 1];
      }
    }
  }

  /** Of two positions, the later one holds the same path, a path further on in the order,
      or a path that has been in the queue already. */
  ghost predicate InOrder(ps: seq<Path>, net: Net) {
    forall i, j | 0 <= i < j < |ps| :: Follows(ps, i, j, net)
  }

  ghost predicate Follows(ps: seq<Path>, i: nat, j: nat, net: Net)
    requires i < |ps| && j < |ps|
  {
    ps[i] == ps[j] || Earlier(ps[i], ps[j], net) || Seen(ps, i, ps[j])
  }

  ghost predicate Seen(ps: seq<Path>, i: nat, q: Path)
    requires i <= |ps|
  {
    exists a :: 0 <= a < i && ps[a] == q
  }

  /** The position in Extend(ps) of the extension of ps[b] by its o-th neighbour. */
  lemma {:induction false} Locate(ps: seq<Path>, net: Net, b: nat, o: nat)
    requires b < |ps| && o < |Neighbours(ps[b][0], net)|
    ensures var i := |Extend(ps[..b], net)| + o;
      i < |Extend(ps, net)| && Extend(ps, net)[i] == [Neighbours(ps[b][0], net)[o]] + ps[b]
    decreases b
  {
    if b == 0 {
      assert ps[..0] == [];
    } else {
      Locate(ps[1..], net, b - 1, o);
      assert ps[..b][0] == ps[0] && ps[..b][1..] == ps[1..][..b - 1];
    }
  }

  /** Every position of Extend(ps) is such a position. */
  lemma {:induction false} Located(ps: seq<Path>, net: Net, i: nat) returns (b: nat, o: nat)
    requires i < |Extend(ps, net)|
    ensures b < |ps| && o < |Neighbours(ps[b][0], net)| && i == |Extend(ps[..b], net)| + o
    decreases |ps|
  {
    var n := |Neighbours(ps[0][0], net)|;
    if i < n {
      b, o := 0, i;
      assert ps[..0] == [];
    } else {
      b, o := Located(ps[1..], net, i - n);
      b := b + 1;
      assert ps[..b][0] == ps[0] && ps[..b][1..] == ps[1..][..b - 1];
    }
  }

  lemma {:induction false} ExtendGrows(ps: seq<Path>, net: Net, b: nat, c: nat)
    requires b < c <= |ps|
    ensures |Extend(ps[..b], net)| + |Neighbours(ps[b][0], net)| <= |Extend(ps[..c], net)|
    decreases b
  {
    assert ps[..c][0] == ps[0] && ps[..c][1..] == ps[1..][..c - 1];
    if b == 0 {
      assert ps[..0] == [];
    } else {
      ExtendGrows(ps[1..], net, b - 1, c - 1);
      assert ps[..b][0] == ps[0] && ps[..b][1..] == ps[1..][..b - 1];
    }
  }

  lemma {:induction false} RankIsFirst(s: seq<Symbol>, i: nat)
    requires i < |s|
    ensures Rank(s, s[i]) <= i
    decreases i
  {
    if s[0] != s[i] {
      RankIsFirst(s[1..], i - 1);
    }
  }

  /** The position of the extension of ps[b] by its o-th neighbour. */
  function Place(ps: seq<Path>, net: Net, b: nat, o: nat): nat
    requires b < |ps|
  {
    |Extend(ps[..b], net)| + o
  }

  predicate Extends(ps: seq<Path>, net: Net, b: nat, o: nat) {
    b < |ps| && o < |Neighbours(ps[b][0], net)|
  }

  function Extension(ps: seq<Path>, net: Net, b: nat, o: nat): Path
    requires Extends(ps, net, b, o)
  {
    [Neighbours(ps[b][0], net)[o]] + ps[b]
  }

  lemma AtPlace(ps: seq<Path>, net: Net, b: nat, o: nat)
    requires Extends(ps, net, b, o)
    ensures Place(ps, net, b, o) < |Extend(ps, net)|
    ensures Extend(ps, net)[Place(ps, net, b, o)] == Extension(ps, net, b, o)
  {
    Locate(ps, net, b, o);
  }

  /** Of two extensions of one path, the one by the neighbour of lower rank is the earlier. */
  lemma RankDecides(p: Path, net: Net, o: nat, u: nat)
    requires o < u < |Neighbours(p[0], net)| && Rank(Neighbours(p[0], net), Neighbours(p[0], net)[u]) > o
    ensures Earlier([Neighbours(p[0], net)[o]] + p, [Neighbours(p[0], net)[u]] + p, net)
  {
    var ns := Neighbours(p[0], net);
    RankIsFirst(ns, o);
    assert ([ns[o]] + p)[1..] == p == ([ns[u]] + p)[1..];
  }

  lemma FollowsWithinPath(ps: seq<Path>, net: Net, b: nat, o: nat, c: nat, u: nat)
    requires Extends(ps, net, b, o) && Extends(ps, net, c, u) && ps[b] == ps[c]
    requires Place(ps, net, b, o) < |Extend(ps, net)| && Place(ps, net, c, u) < |Extend(ps, net)|
    ensures Follows(Extend(ps, net), Place(ps, net, b, o), Place(ps, net, c, u), net)
  {
    var r := Rank(Neighbours(ps[b][0], net), Neighbours(ps[b][0], net)[u]);
    AtPlace(ps, net, b, o);
    AtPlace(ps, net, c, u);
    AtPlace(ps, net, b, r);
    if r < o {
      SeenAt(Extend(ps, net), Place(ps, net, b, r), Place(ps, net, b, o), Extension(ps, net, c, u));
    } else if r > o {
      RankIsFirst(Neighbours(ps[b][0], net), u);
      RankDecides(ps[b], net, o, u);
    }
  }

  lemma SeenAt(ps: seq<Path>, a: nat, i: nat, q: Path)
    requires a < i <= |ps| && ps[a] == q
    ensures Seen(ps, i, q)
  {
  }

  lemma FollowsAcrossPaths(ps: seq<Path>, net: Net, b: nat, o: nat, c: nat, u: nat)
    requires Extends(ps, net, b, o) && Extends(ps, net, c, u) && ps[b] != ps[c] && Follows(ps, b, c, net)
    requires Place(ps, net, b, o) < |Extend(ps, net)| && Place(ps, net, c, u) < |Extend(ps, net)|
    ensures Follows(Extend(ps, net), Place(ps, net, b, o), Place(ps, net, c, u), net)
  {
    AtPlace(ps, net, b, o);
    AtPlace(ps, net, c, u);
    if Earlier(ps[b], ps[c], net) {
      EarlierExtends(ps[b], ps[c], net, o, u);
    } else {
      var a :| 0 <= a < b && ps[a] == ps[c];
      AtPlace(ps, net, a, u);
      ExtendGrows(ps, net, a, b);
      SeenAt(Extend(ps, net), Place(ps, net, a, u), Place(ps, net, b, o), Extension(ps, net, c, u));
    }
  }

  lemma EarlierExtends(p: Path, q: Path, net: Net, o: nat, u: nat)
    requires Earlier(p, q, net) && o < |Neighbours(p[0], net)| && u < |Neighbours(q[0], net)|
    ensures Earlier([Neighbours(p[0], net)[o]] + p, [Neighbours(q[0], net)[u]] + q, net)
  {
    assert ([Neighbours(p[0], net)[o]] + p)[1..] == p && ([Neighbours(q[0], net)[u]] + q)[1..] == q;
  }

  lemma ExtendFollows(ps: seq<Path>, net: Net, i: nat, j: nat)
    requires InOrder(ps, net) && i < j < |Extend(ps, net)|
    ensures Follows(Extend(ps, net), i, j, net)
  {
    var b, o := Located(ps, net, i);
    var c, u := Located(ps, net, j);
    if c < b {
      ExtendGrows(ps, net, c, b);
    }
    if ps[b] == ps[c] {
      FollowsWithinPath(ps, net, b, o, c, u);
    } else {
      assert Follows(ps, b, c, net);
      FollowsAcrossPaths(ps, net, b, o, c, u);
    }
  }

  /** Extending keeps the order. */
  lemma ExtendInOrder(ps: seq<Path>, net: Net)
    requires InOrder(ps, net)
    ensures InOrder(Extend(ps, net), net)
  {
    var es := Extend(ps, net);
    forall i, j | 0 <= i < j < |es| ensures Follows(es, i, j, net) {
      ExtendFollows(ps, net, i, j);
    }
  }

  lemma {:induction false} LevelInOrder(start: Symbol, net: Net, k: nat)
    ensures InOrder(Level(start, net, k), net)
    decreases k
  {
    if k > 0 {
      LevelInOrder(start, net, k - 1);
      ExtendInOrder(Level(start, net, k - 1), net);
    }
  }

  // ---------- What the search finds, and when it ends ----------

  ghost predicate CanReach(start: Symbol, end: Symbol, net: Net) {
    exists w :: Reaches(w, start, end, net)
  }

  /** No walk from the start comes to a node twice. */
  ghost predicate LeadsIntoNoCycle(start: Symbol, net: Net) {
    forall w | IsWalk(w, start, net) :: forall i, j | 0 <= i < j < |w| :: w[i] != w[j]
  }

  /** No walk from the start has more than k nodes, for some k. */
  ghost predicate HasBoundedWalks(start: Symbol, net: Net) {
    exists k: nat :: BoundsWalks(k, start, net)
  }

  ghost predicate BoundsWalks(k: nat, start: Symbol, net: Net) {
    forall w | IsWalk(w, start, net) :: |w| <= k
  }

  /** Position i of level k holds the first path of the whole search that gets to the goal. */
  ghost predicate IsFirst(start: Symbol, goal: Symbol, net: Net, k: nat, i: nat) {
    && (forall j: nat | j < k :: Misses(Level(start, net, j), goal))
    && i < |Level(start, net, k)|
    && Misses(Level(start, net, k)[..i], goal)
    && Level(start, net, k)[i][0] == goal
  }

  lemma WalkInLevel(w: seq<Symbol>, start: Symbol, net: Net)
    requires IsWalk(w, start, net)
    ensures Reverse(w) in Level(start, net, |w| - 1)
  {
    ReverseTwice(w);
    PathIsWalk(Reverse(w), start, net);
    LevelMembers(start, net, |w| - 1, Reverse(w));
  }

  lemma LevelIsWalk(start: Symbol, net: Net, k: nat, i: nat)
    requires i < |Level(start, net, k)|
    ensures IsWalk(Reverse(Level(start, net, k)[i]), start, net) && |Level(start, net, k)[i]| == k + 1
  {
    LevelMembers(start, net, k, Level(start, net, k)[i]);
    PathIsWalk(Level(start, net, k)[i], start, net);
  }

  lemma FirstLevel(start: Symbol, goal: Symbol, net: Net, k: nat, n: nat) returns (least: nat)
    requires k <= n && !Misses(Level(start, net, n), goal)
    requires forall j: nat | j < k :: Misses(Level(start, net, j), goal)
    ensures !Misses(Level(start, net, least), goal)
    ensures forall j: nat | j < least :: Misses(Level(start, net, j), goal)
    decreases n - k
  {
    least := k;
    if Misses(Level(start, net, k), goal) {
      least := FirstLevel(start, goal, net, k + 1, n);
    }
  }

  lemma {:induction false} FirstPlace(ps: seq<Path>, goal: Symbol) returns (i: nat)
    requires !Misses(ps, goal)
    ensures i < |ps| && ps[i][0] == goal && Misses(ps[..i], goal)
  {
    i := 0;
    if ps[0][0] != goal {
      i := FirstPlace(ps[1..], goal);
      i := i + 1;
      assert ps[..i] == [ps[0]] + ps[1..][..i - 1];
    }
  }

  /** If the end can be reached at all, some path of some level is the first to reach it. */
  lemma FirstExists(start: Symbol, end: Symbol, net: Net) returns (k: nat, i: nat)
    requires CanReach(start, end, net)
    ensures IsFirst(start, end, net, k, i)
  {
    var w :| Reaches(w, start, end, net);
    WalkInLevel(w, start, net);
    var level := Level(start, net, |w| - 1);
    var j :| 0 <= j < |level| && level[j] == Reverse(w);
    k := FirstLevel(start, end, net, 0, |w| - 1);
    i := FirstPlace(Level(start, net, k), end);
  }

  lemma FirstIsCanonical(start: Symbol, end: Symbol, net: Net, k: nat, i: nat)
    requires IsFirst(start, end, net, k, i)
    ensures IsCanonical(Reverse(Level(start, net, k)[i]), start, end, net)
  {
    var p := Level(start, net, k)[i];
    var v := Reverse(p);
    LevelIsWalk(start, net, k, i);
    forall w | Reaches(w, start, end, net) && w != v ensures |v| < |w| || (|v| == |w| && Precedes(v, w, net)) {
      FirstBeats(start, end, net, k, i, w);
    }
  }

  lemma FirstInOrder(level: seq<Path>, goal: Symbol, net: Net, i: nat, q: Path)
    requires i < |level| && Misses(level[..i], goal) && InOrder(level, net)
    requires q in level && q[0] == goal && q != level[i]
    ensures Earlier(level[i], q, net)
  {
    var j :| 0 <= j < |level| && level[j] == q;
    forall a | 0 <= a < i ensures level[a] != q {
      assert level[..i][a][0] != goal;
    }
    assert Follows(level, i, j, net);
  }

  lemma FirstBeats(start: Symbol, end: Symbol, net: Net, k: nat, i: nat, w: seq<Symbol>)
    requires IsFirst(start, end, net, k, i) && Reaches(w, start, end, net)
    requires w != Reverse(Level(start, net, k)[i])
    ensures k + 1 < |w| || (k + 1 == |w| && Precedes(Reverse(Level(start, net, k)[i]), w, net))
  {
    var q, level := Reverse(w), Level(start, net, |w| - 1);
    WalkInLevel(w, start, net);
    ReverseTwice(w);
    assert !Misses(level, end) by {
      var j :| 0 <= j < |level| && level[j] == q;
    }
    if k + 1 == |w| {
      LevelInOrder(start, net, k);
      LevelIsWalk(start, net, k, i);
      FirstInOrder(level, end, net, i, q);
      EarlierPrecedes(level[i], q, net);
    }
  }

  lemma {:induction false} PopsGrow(start: Symbol, net: Net, k: nat)
    requires forall j: nat | j < k :: Level(start, net, j) != []
    ensures Pops(start, net, k) >= k
    decreases k
  {
    if k > 0 {
      PopsGrow(start, net, k - 1);
    }
  }

  lemma FirstEmpty(start: Symbol, net: Net, k: nat, n: nat) returns (least: nat)
    requires k <= n && Level(start, net, n) == []
    requires forall j: nat | j < k :: Level(start, net, j) != []
    ensures Level(start, net, least) == [] && forall j: nat | j < least :: Level(start, net, j) != []
    decreases n - k
  {
    least := k;
    if Level(start, net, k) != [] {
      least := FirstEmpty(start, net, k + 1, n);
    }
  }

  lemma UnreachedLevelsMiss(start: Symbol, end: Symbol, net: Net, k: nat)
    requires !CanReach(start, end, net)
    ensures Misses(Level(start, net, k), end)
  {
    forall i | 0 <= i < |Level(start, net, k)| ensures Level(start, net, k)[i][0] != end {
      LevelIsWalk(start, net, k, i);
      assert !Reaches(Reverse(Level(start, net, k)[i]), start, end, net);
    }
  }

  lemma EmptyLevelBounds(start: Symbol, net: Net, k: nat)
    ensures Level(start, net, k) == [] <==> BoundsWalks(k, start, net)
  {
    if Level(start, net, k) == [] {
      forall w | IsWalk(w, start, net) ensures |w| <= k {
        if |w| > k {
          WalkInLevel(w[..k + 1], start, net);
        }
      }
    } else {
      LevelIsWalk(start, net, k, 0);
      assert IsWalk(Reverse(Level(start, net, k)[0]), start, net);
    }
  }

  /** A walk around a cycle goes on for as long as one likes. */
  lemma {:induction false} GoRound(w: seq<Symbol>, i: nat, j: nat, start: Symbol, net: Net, n: nat)
    returns (v: seq<Symbol>)
    requires IsWalk(w, start, net) && i < j < |w| && w[i] == w[j]
    ensures IsWalk(v, start, net) && |v| > n
    decreases n - j
  {
    if j >= n {
      v := w[..j + 1];
    } else {
      v := w[..j + 1] + w[i + 1..j + 1];
      forall t | 0 <= t < |v| - 1 ensures v[t + 1] in Neighbours(v[t], net) {
        var u := if t < j then t else t - j + i;
        assert v[t] == w[u] && v[t + 1] == w[u + 1];
      }
      v := GoRound(v, j, |v| - 1, start, net, n);
    }
  }

  function Nodes(net: Net): set<Symbol> {
    set e | e in net :: e.node
  }

  lemma {:induction false} FewNodes(net: Net)
    ensures |Nodes(net)| <= |net|
  {
    if net != [] {
      FewNodes(net[1..]);
      assert net == [net[0]] + net[1..];
      assert Nodes(net) == {net[0].node} + Nodes(net[1..]);
    }
  }

  lemma {:induction false} OnlyNodesHaveNeighbours(node: Symbol, net: Net)
    requires Neighbours(node, net) != []
    ensures node in Nodes(net)
  {
    if net[0].node != node {
      OnlyNodesHaveNeighbours(node, net[1..]);
      var e :| e in net[1..] && e.node == node;
      assert e in net;
    } else {
      assert net[0] in net;
    }
  }

  lemma {:induction false} DistinctInSet(w: seq<Symbol>, s: set<Symbol>)
    requires forall i | 0 <= i < |w| :: w[i] in s
    requires forall i, j | 0 <= i < j < |w| :: w[i] != w[j]
    ensures |w| <= |s|
  {
    if w != [] {
      DistinctInSet(w[1..], s - {w[0]});
    }
  }

  /** Bounded walks are what a start without a cycle ahead has: then |net| + 1 nodes are the most. */
  lemma BoundedExactlyWithoutCycle(start: Symbol, net: Net)
    ensures HasBoundedWalks(start, net) <==> LeadsIntoNoCycle(start, net)
    ensures LeadsIntoNoCycle(start, net) ==> BoundsWalks(|net| + 1, start, net)
  {
    if LeadsIntoNoCycle(start, net) {
      forall w | IsWalk(w, start, net) ensures |w| <= |net| + 1 {
        var v := w[..|w| - 1];
        forall i | 0 <= i < |v| ensures v[i] in Nodes(net) {
          assert w[i + 1] in Neighbours(w[i], net);
          OnlyNodesHaveNeighbours(w[i], net);
        }
        DistinctInSet(v, Nodes(net));
        FewNodes(net);
      }
      assert BoundsWalks(|net| + 1, start, net);
    } else {
      var w :| IsWalk(w, start, net) && exists i, j :: 0 <= i < j < |w| && w[i] == w[j];
      var i, j :| 0 <= i < j < |w| && w[i] == w[j];
      forall k: nat ensures !BoundsWalks(k, start, net) {
        var v := GoRound(w, i, j, start, net, k);
      }
    }
  }

  /** The search returns v exactly when v is the canonical shortest walk: sound, shortest, first in order, complete. */
  lemma FindsExactlyTheCanonicalWalk(start: Symbol, end: Symbol, net: Net, v: Path)
    ensures (exists calls: nat :: ShortestPath(start, end, net, calls) == Found(v)) <==> IsCanonical(v, start, end, net)
  {
    if CanReach(start, end, net) {
      var k, i := FirstExists(start, end, net);
      var p := Reverse(Level(start, net, k)[i]);
      FirstIsCanonical(start, end, net, k, i);
      StopAt(net, start, end, k, i, Pops(start, net, k) + i + 1);
      forall calls: nat ensures ShortestPath(start, end, net, calls) in {Unfinished, Found(p)} {
        StopAt(net, start, end, k, i, calls);
      }
      if IsCanonical(v, start, end, net) && v != p {
        PrecedesIsAsymmetric(v, p, net);
        assert false;
      }
    } else {
      forall calls: nat ensures ShortestPath(start, end, net, calls) != Found(v) {
        NeverFound(start, end, net, calls);
      }
    }
  }

  /** Without a walk to the end, calls run out unless the levels do. */
  lemma NeverFound(start: Symbol, end: Symbol, net: Net, calls: nat)
    requires !CanReach(start, end, net)
    ensures !ShortestPath(start, end, net, calls).Found?
    ensures ShortestPath(start, end, net, calls) == NotFound ==> HasBoundedWalks(start, net)
  {
    forall j: nat ensures Misses(Level(start, net, j), end) {
      UnreachedLevelsMiss(start, end, net, j);
    }
    if n: nat :| n < calls && Level(start, net, n) == [] {
      var k := FirstEmpty(start, net, 0, n);
      StopAt(net, start, end, k, 0, calls);
      EmptyLevelBounds(start, net, k);
    } else {
      PopsGrow(start, net, calls);
      PopLevels(net, start, end, calls, calls);
    }
  }

  /** The search ends, with enough calls, exactly when there is a walk to the end or no cycle ahead of the start;
      it ends empty-handed exactly when there is no such walk and no cycle. On any other net it runs for ever. */
  lemma EndsExactlyWhen(start: Symbol, end: Symbol, net: Net)
    ensures (exists calls: nat :: ShortestPath(start, end, net, calls) != Unfinished)
       <==> CanReach(start, end, net) || LeadsIntoNoCycle(start, net)
    ensures (exists calls: nat :: ShortestPath(start, end, net, calls) == NotFound)
       <==> !CanReach(start, end, net) && LeadsIntoNoCycle(start, net)
  {
    BoundedExactlyWithoutCycle(start, net);
    if CanReach(start, end, net) {
      var k, i := FirstExists(start, end, net);
      StopAt(net, start, end, k, i, Pops(start, net, k) + i + 1);
      forall calls: nat ensures ShortestPath(start, end, net, calls) != NotFound {
        StopAt(net, start, end, k, i, calls);
      }
    } else {
      forall calls: nat
        ensures !ShortestPath(start, end, net, calls).Found?
        ensures ShortestPath(start, end, net, calls) == NotFound ==> HasBoundedWalks(start, net)
      {
        NeverFound(start, end, net, calls);
      }
      if n: nat :| BoundsWalks(n, start, net) {
        EmptyLevelBounds(start, net, n);
        var k := FirstEmpty(start, net, 0, n);
        forall j: nat ensures Misses(Level(start, net, j), end) {
          UnreachedLevelsMiss(start, end, net, j);
        }
        StopAt(net, start, end, k, 0, Pops(start, net, k) + 1);
      }
    }
  }

  lemma {:induction false} WalksStay(w: seq<Symbol>, i: nat)
    requires IsWalk(w, "a", [Entry("a", ["a"])]) && i < |w|
    ensures w[i] == "a"
  {
    if i > 0 {
      WalksStay(w, i - 1);
      assert w[(i - 1) + 1] in Neighbours(w[i - 1], [Entry("a", ["a"])]);
    }
  }

  /** A search that never ends: from a node that is its own only neighbour to another. */
  lemma SearchForEver(calls: nat)
    ensures ShortestPath("a", "b", [Entry("a", ["a"])], calls) == Unfinished
  {
    var net := [Entry("a", ["a"])];
    if w :| Reaches(w, "a", "b", net) {
      WalksStay(w, |w| - 1);
    }
    var round := ["a", "a"];
    assert IsWalk(round, "a", net) && round[0] == round[1];
    EndsExactlyWhen("a", "b", net);
  }
}
