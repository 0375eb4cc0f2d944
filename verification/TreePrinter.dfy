/** print_tree on mutable dictionaries: the inserting loops and the recursive printer, proved against module Trie. */
module TreePrinter {
  import opened Trie

  /** A Python dictionary of dictionaries: its keys in insertion order and what is stored under each. */
  class Node {
    var keys: seq<string>
    var sub: map<string, Node>

    constructor ()
      ensures keys == [] && sub == map[]
    {
      keys, sub := [], map[];
    }
  }

  // ---------- Inserting one part after another ----------

  function Keys(d: Dict): seq<string> {
    if d.Empty? then [] else [d.key] + Keys(d.next)
  }

  /** The dictionary that q leads to. */
  function Under(d: Dict, q: seq<string>): Dict
    requires Holds(d, q)
    decreases |q|, d
  {
    if q == [] then d
    else if d.key == q[0] then Under(d.kids, q[1..])
    else Under(d.next, q)
  }

  lemma {:induction false} KeyInKeys(d: Dict, key: string)
    ensures key in Keys(d) <==> HasKey(d, key)
    ensures key in Keys(d) <==> Holds(d, [key])
    decreases d
  {
    if d.Entry? {
      KeyInKeys(d.next, key);
    }
  }

  lemma {:induction false} HeldOneFurther(d: Dict, q: seq<string>, key: string)
    requires Holds(d, q)
    ensures Holds(d, q + [key]) <==> key in Keys(Under(d, q))
    ensures Holds(d, q + [key]) <==> Holds(Under(d, q), [key])
    ensures Holds(d, q + [key]) ==> Under(d, q + [key]) == Under(Under(d, q), [key])
    decreases |q|, d
  {
    if q == [] {
      assert q + [key] == [key];
      KeyInKeys(d, key);
    } else {
      assert (q + [key])[1..] == q[1..] + [key];
      if d.key == q[0] {
        HeldOneFurther(d.kids, q[1..], key);
      } else {
        HeldOneFurther(d.next, q, key);
      }
    }
  }

  lemma {:induction false} InsertHeld(d: Dict, q: seq<string>)
    requires Holds(d, q)
    ensures Insert(d, q) == d
    decreases |q|, d
  {
    if q != [] {
      if d.key == q[0] {
        InsertHeld(d.kids, q[1..]);
      } else {
        InsertHeld(d.next, q);
      }
    }
  }

  lemma {:induction false} InsertFurther(d: Dict, q: seq<string>, key: string)
    ensures Insert(d, q + [key]) == Insert(Insert(d, q), q + [key])
    decreases |q|, d
  {
    if q == [] {
    } else {
      assert (q + [key])[1..] == q[1..] + [key];
      match d
      case Empty => InsertFurther(Empty, q[1..], key);
      case Entry(k, kids, next) =>
        InsertFurther(kids, q[1..], key);
        InsertFurther(next, q, key);
    }
  }

  lemma {:induction false} InsertNewKey(d: Dict, key: string)
    requires key !in Keys(d)
    ensures Keys(Insert(d, [key])) == Keys(d) + [key]
    ensures forall r | r != [] && Holds(d, r) :: Holds(Insert(d, [key]), r) && Under(Insert(d, [key]), r) == Under(d, r)
    ensures Holds(Insert(d, [key]), [key]) && Under(Insert(d, [key]), [key]) == Empty
    decreases d
  {
    match d
    case Empty =>
    case Entry(k, kids, next) =>
      InsertNewKey(next, key);
  }

  /** A new key under q: the dictionary at q gets it last, it leads to an empty one, and no other changes. */
  lemma {:induction false} InsertGrows(d: Dict, q: seq<string>, key: string, r: seq<string>)
    requires Holds(d, q) && !Holds(d, q + [key]) && Holds(d, r)
    ensures
      var e := Insert(d, q + [key]);
      && Holds(e, r) && Holds(e, q + [key]) && Under(e, q + [key]) == Empty
      && Keys(Under(e, r)) == Keys(Under(d, r)) + if r == q then [key] else []
    decreases |q|, d
  {
    HeldOneFurther(d, q, key);
    if q == [] {
      assert q + [key] == [key];
      InsertNewKey(d, key);
    } else {
      assert (q + [key])[1..] == q[1..] + [key];
      PrefixesAreHeld(d, q, [q[0]]);
      InsertKeys(d, q + [key]);
      if d.key == q[0] {
        InsertGrows(d.kids, q[1..], key, if r != [] && r[0] == q[0] then r[1..] else []);
        assert r != [] && r[0] == q[0] ==> (r == q <==> r[1..] == q[1..]);
      } else {
        InsertGrows(d.next, q, key, if r != [] && r[0] != d.key then r else []);
      }
    }
  }

  /** Under a key that is there, the keys stay. */
  lemma {:induction false} InsertKeys(d: Dict, p: seq<string>)
    requires p != [] && Holds(d, [p[0]])
    ensures Keys(Insert(d, p)) == Keys(d)
    decreases d
  {
    if d.key != p[0] {
      InsertKeys(d.next, p);
    }
  }

  // ---------- The dictionaries in memory ----------

  /** The dictionary that q leads to, in memory, is the one the tree has there. */
  ghost predicate MirrorsAt(at: map<seq<string>, Node>, d: Dict, q: seq<string>)
    requires q in at && Holds(d, q)
    reads at.Values
  {
    && at[q].keys == Keys(Under(d, q))
    && (forall key :: key in at[q].sub <==> key in at[q].keys)
    && (forall key | key in at[q].sub :: q + [key] in at && at[q].sub[key] == at[q + [key]])
  }

  /** The dictionaries in memory, found by the keys that lead to them, are those of the tree, none shared. */
  ghost predicate Mirrors(at: map<seq<string>, Node>, d: Dict)
    reads at.Values
  {
    && (forall q {:trigger q in at} :: q in at <==> Holds(d, q))
    && (forall q, r | q in at && r in at && q != r :: at[q] != at[r])
    && (forall q {:trigger MirrorsAt(at, d, q)} | q in at :: MirrorsAt(at, d, q))
  }

  lemma HeldAfterPut(d: Dict, q: seq<string>, part: string, r: seq<string>)
    requires Holds(d, q)
    ensures Holds(Insert(d, q + [part]), r) <==> Holds(d, r) || r == q + [part]
  {
    InsertHolds(d, q + [part], r);
    PrefixesAreHeld(d, q, r);
    assert r <= q + [part] <==> r <= q || r == q + [part];
  }

  lemma AllHeldAfterPut(held: set<seq<string>>, now: set<seq<string>>, d: Dict, q: seq<string>, part: string)
    requires Holds(d, q) && (forall r {:trigger r in held} :: r in held <==> Holds(d, r)) && now == held + {q + [part]}
    ensures forall r {:trigger r in now} :: r in now <==> Holds(Insert(d, q + [part]), r)
  {
    forall r ensures r in now <==> Holds(Insert(d, q + [part]), r) {
      HeldAfterPut(d, q, part, r);
    }
  }

  /** node[part] = {} where q leads to the node. */
  method Put(node: Node, part: string, ghost at: map<seq<string>, Node>, ghost d: Dict, ghost q: seq<string>)
    returns (ghost now: map<seq<string>, Node>)
    requires Mirrors(at, d) && q in at && at[q] == node && part !in node.sub
    modifies node
    ensures Mirrors(now, Insert(d, q + [part]))
    ensures now.Keys == at.Keys + {q + [part]} && (forall r | r in at :: now[r] == at[r])
    ensures part in node.sub && now[q + [part]] == node.sub[part] && fresh(node.sub[part])
  {
    HeldOneFurther(d, q, part);
    assert MirrorsAt(at, d, q);
    assert q + [part] !in at;
    var child := new Node();
    node.keys, node.sub := node.keys + [part], node.sub[part := child];
    now := at[q + [part] := child];
    assert forall r | r in at :: now[r] == at[r];
    AllHeldAfterPut(at.Keys, now.Keys, d, q, part);
    forall r | r in now ensures MirrorsAt(now, Insert(d, q + [part]), r) {
      if r == q + [part] {
        InsertGrows(d, q, part, q);
      } else {
        InsertGrows(d, q, part, r);
        assert old(MirrorsAt(at, d, r));
        assert r != q ==> now[r].keys == old(at[r].keys) && now[r].sub == old(at[r].sub);
        assert r == q ==> now[r].keys == old(at[r].keys) + [part];
      }
    }
  }

  lemma {:induction false} PrefixesAreHeld(d: Dict, q: seq<string>, r: seq<string>)
    requires Holds(d, q)
    ensures r <= q ==> Holds(d, r)
    decreases |q|, d
  {
    if r != [] && r <= q {
      if d.key == q[0] {
        PrefixesAreHeld(d.kids, q[1..], r[1..]);
      } else {
        PrefixesAreHeld(d.next, q, r);
      }
    }
  }

  // ---------- Printing ----------

  /** The dictionary without its first n entries. */
  function Later(d: Dict, n: nat): Dict
    requires n <= |Keys(d)|
  {
    if n == 0 then d else Later(d.next, n - 1)
  }

  lemma {:induction false} LaterEntry(d: Dict, n: nat)
    requires IsDict(d) && n < |Keys(d)|
    ensures Holds(d, [Keys(d)[n]])
    ensures Later(d, n) == Entry(Keys(d)[n], Under(d, [Keys(d)[n]]), Later(d, n + 1))
  {
    if n > 0 {
      LaterEntry(d.next, n - 1);
      KeyInKeys(d.next, Keys(d)[n]);
    }
  }

  lemma {:induction false} LaterEnds(d: Dict)
    ensures Later(d, |Keys(d)|) == Empty
  {
    if d.Entry? {
      LaterEnds(d.next);
    }
  }

  function Size(d: Dict): nat {
    if d.Empty? then 0 else 1 + Size(d.kids) + Size(d.next)
  }

  lemma {:induction false} UnderIsSmaller(d: Dict, q: seq<string>)
    requires Holds(d, q) && IsDict(d)
    ensures IsDict(Under(d, q)) && (q != [] ==> Size(Under(d, q)) < Size(d))
    decreases |q|, d
  {
    if q != [] {
      if d.key == q[0] {
        UnderIsSmaller(d.kids, q[1..]);
      } else {
        UnderIsSmaller(d.next, q);
      }
    }
  }

  /** The lines for the first n entries. */
  function Printed(d: Dict, n: nat, prefix: string): seq<string>
    requires IsDict(d) && n <= |Keys(d)|
  {
    if n == 0 then []
    else
      LaterEntry(d, n - 1);
      var key := Keys(d)[n - 1];
      Printed(d, n - 1, prefix) + [prefix + key + "/"] + Print(Under(d, [key]), prefix + "    ")
  }

  lemma {:induction false} PrintedThenLater(d: Dict, n: nat, prefix: string)
    requires IsDict(d) && n <= |Keys(d)|
    ensures Print(d, prefix) == Printed(d, n, prefix) + Print(Later(d, n), prefix)
  {
    if n > 0 {
      PrintedThenLater(d, n - 1, prefix);
      LaterEntry(d, n - 1);
    }
  }

  /** In memory a key leads where it leads in the tree. */
  lemma ChildIsMirrored(at: map<seq<string>, Node>, d: Dict, q: seq<string>, n: nat)
    requires Mirrors(at, d) && IsDict(d) && q in at && n < |at[q].keys|
    ensures
      var key := at[q].keys[n];
      && Keys(Under(d, q)) == at[q].keys
      && key in at[q].sub && q + [key] in at && at[q + [key]] == at[q].sub[key]
      && Holds(Under(d, q), [key]) && Under(d, q + [key]) == Under(Under(d, q), [key])
      && Size(Under(d, q + [key])) < Size(Under(d, q))
  {
    assert MirrorsAt(at, d, q);
    HeldOneFurther(d, q, at[q].keys[n]);
    UnderIsSmaller(d, q);
    UnderIsSmaller(Under(d, q), [at[q].keys[n]]);
  }

  lemma KeysAreMirrored(at: map<seq<string>, Node>, d: Dict, q: seq<string>)
    requires Mirrors(at, d) && IsDict(d) && q in at
    ensures Holds(d, q) && IsDict(Under(d, q)) && Keys(Under(d, q)) == at[q].keys
  {
    assert MirrorsAt(at, d, q);
    UnderIsSmaller(d, q);
  }

  /** Prints the dictionary at q: a line for each key, and the dictionary under it after the line. */
  method PrintNode(node: Node, prefix: string, ghost at: map<seq<string>, Node>, ghost d: Dict, ghost q: seq<string>)
    returns (lines: seq<string>)
    requires Mirrors(at, d) && IsDict(d) && q in at && at[q] == node
    ensures lines == Print(Under(d, q), prefix)
    decreases Size(Under(d, q))
  {
    lines := [];
    ghost var here := Under(d, q);
    KeysAreMirrored(at, d, q);
    for i := 0 to |node.keys|
      invariant Mirrors(at, d) && lines == Printed(here, i, prefix)
    {
      var key := node.keys[i];
      ChildIsMirrored(at, d, q, i);
      var below := PrintNode(node.sub[key], prefix + "    ", at, d, q + [key]);
      lines := lines + [prefix + key + "/"] + below;
    }
    PrintedThenLater(here, |node.keys|, prefix);
    LaterEnds(here);
  }

  // ---------- The whole program ----------

  lemma PartIsMirrored(at: map<seq<string>, Node>, d: Dict, q: seq<string>, part: string)
    requires Mirrors(at, d) && q in at && part in at[q].sub
    ensures q + [part] in at && at[q + [part]] == at[q].sub[part]
    ensures Insert(d, q + [part]) == d
  {
    assert MirrorsAt(at, d, q);
    InsertHeld(d, q + [part]);
  }

  /** if part not in node: node[part] = {}; node = node[part]. */
  method Descend(node: Node, part: string, ghost at: map<seq<string>, Node>, ghost d: Dict, ghost q: seq<string>)
    returns (child: Node, ghost now: map<seq<string>, Node>)
    requires Mirrors(at, d) && q in at && at[q] == node
    modifies node
    ensures Mirrors(now, Insert(d, q + [part]))
    ensures q + [part] in now && now[q + [part]] == child
    ensures forall r | r in at :: r in now && now[r] == at[r]
    ensures fresh(now.Values - at.Values)
  {
    now := at;
    if part !in node.sub {
      now := Put(node, part, at, d, q);
    } else {
      PartIsMirrored(at, d, q, part);
    }
    child := node.sub[part];
  }

  /** The inner loop: walk down the parts from the top, adding what is missing. */
  method Add(tree: Node, parts: seq<string>, ghost at: map<seq<string>, Node>, ghost d: Dict)
    returns (ghost now: map<seq<string>, Node>)
    requires Mirrors(at, d) && [] in at && at[[]] == tree
    modifies at.Values
    ensures Mirrors(now, Insert(d, parts))
    ensures [] in now && now[[]] == tree
    ensures fresh(now.Values - at.Values)
  {
    now := at;
    var node := tree;
    for i := 0 to |parts|
      invariant Mirrors(now, Insert(d, parts[..i]))
      invariant [] in now && now[[]] == tree
      invariant parts[..i] in now && now[parts[..i]] == node
      invariant fresh(now.Values - at.Values)
    {
      InsertFurther(d, parts[..i], parts[i]);
      assert parts[..i + 1] == parts[..i] + [parts[i]];
      node, now := Descend(node, parts[i], now, Insert(d, parts[..i]), parts[..i]);
    }
    assert parts[..|parts|] == parts;
  }

  /** print_tree: the lines are those of the printing of the tree built from the paths. */
  method PrintTreeOf(paths: seq<string>) returns (lines: seq<string>)
    ensures lines == PrintTree(paths)
  {
    var tree := new Node();
    ghost var at := map[[] := tree];
    for k := 0 to |paths|
      invariant [] in at && at[[]] == tree
      invariant Mirrors(at, Build(paths[..k]))
      invariant forall q | q in at :: fresh(at[q])
    {
      at := Add(tree, Split(Strip(paths[k])), at, Build(paths[..k]));
      assert paths[..k + 1][..k] == paths[..k];
    }
    assert paths[..|paths|] == paths;
    TreeHoldsThePrefixes(paths, []);
    lines := PrintNode(tree, "", at, Build(paths), []);
  }

  // ---------- The order of the keys ----------

  /** The first path that goes through q; |paths| if there is none. */
  function FirstMention(paths: seq<string>, q: seq<string>): (k: nat)
    ensures k <= |paths|
    ensures k < |paths| ==> q <= Split(Strip(paths[k]))
    ensures forall j | 0 <= j < k :: !(q <= Split(Strip(paths[j])))
  {
    if paths == [] then 0
    else
      var before, k := paths[..|paths| - 1], FirstMention(paths[..|paths| - 1], q);
      if k < |before| || q <= Split(Strip(paths[|paths| - 1])) then k else k + 1
  }

  /** Where parts leads through q, the key after q comes last unless it is there. */
  lemma {:induction false} InsertKeysAt(d: Dict, parts: seq<string>, q: seq<string>)
    requires Holds(d, q)
    ensures Holds(Insert(d, parts), q)
    ensures Keys(Under(Insert(d, parts), q)) == Keys(Under(d, q)) +
            if |q| < |parts| && q <= parts && parts[|q|] !in Keys(Under(d, q)) then [parts[|q|]] else []
    decreases |parts|, d
  {
    if q == [] {
      InsertFirstKey(d, parts);
    } else if parts != [] {
      assert q <= parts <==> q[0] == parts[0] && q[1..] <= parts[1..] by {
        if q[0] == parts[0] && q[1..] <= parts[1..] {
          assert q == [q[0]] + q[1..] && parts == [parts[0]] + parts[1..];
        }
      }
      if d.key != q[0] {
        if d.key != parts[0] {
          InsertKeysAt(d.next, parts, q);
        }
      } else if d.key == parts[0] {
        InsertKeysAt(d.kids, parts[1..], q[1..]);
      }
    }
  }

  lemma {:induction false} InsertFirstKey(d: Dict, parts: seq<string>)
    ensures Keys(Insert(d, parts)) == Keys(d) + if parts != [] && parts[0] !in Keys(d) then [parts[0]] else []
    decreases d
  {
    if parts != [] && d.Entry? && d.key != parts[0] {
      InsertFirstKey(d.next, parts);
    }
  }

  /** A dictionary that parts has made has at most the one key after q. */
  lemma {:induction false} InsertKeysNew(d: Dict, parts: seq<string>, q: seq<string>)
    requires !Holds(d, q) && Holds(Insert(d, parts), q)
    ensures |Keys(Under(Insert(d, parts), q))| <= 1
    decreases |parts|, d
  {
    if parts != [] {
      match d
      case Empty =>
        if |q| == 1 {
          InsertFirstKey(Empty, parts[1..]);
        } else {
          InsertKeysNew(Empty, parts[1..], q[1..]);
        }
      case Entry(key, kids, next) =>
        if key != q[0] {
          if key != parts[0] {
            InsertKeysNew(next, parts, q);
          }
        } else if key == parts[0] {
          InsertKeysNew(kids, parts[1..], q[1..]);
        }
    }
  }

  /** Held exactly if some path goes through. */
  lemma HeldIsMentioned(paths: seq<string>, q: seq<string>)
    requires q != []
    ensures Holds(Build(paths), q) <==> FirstMention(paths, q) < |paths|
  {
    TreeHoldsThePrefixes(paths, q);
  }

  lemma KeyIsMentioned(paths: seq<string>, q: seq<string>, key: string)
    requires Holds(Build(paths), q)
    ensures key in Keys(Under(Build(paths), q)) <==> FirstMention(paths, q + [key]) < |paths|
  {
    HeldOneFurther(Build(paths), q, key);
    HeldIsMentioned(paths, q + [key]);
  }

  lemma MentionedNext(paths: seq<string>, q: seq<string>)
    requires paths != []
    ensures
      var before := paths[..|paths| - 1];
      FirstMention(paths, q) ==
        if FirstMention(before, q) < |before| || q <= Split(Strip(paths[|paths| - 1])) then FirstMention(before, q)
        else |paths|
  {
  }

  /** In every dictionary the keys come in the order in which the paths first mention them. */
  lemma {:induction false} KeysInOrderOfFirstMention(paths: seq<string>, q: seq<string>, i: nat, j: nat)
    requires Holds(Build(paths), q) && i < j < |Keys(Under(Build(paths), q))|
    ensures
      var keys := Keys(Under(Build(paths), q));
      FirstMention(paths, q + [keys[i]]) < FirstMention(paths, q + [keys[j]]) < |paths|
  {
    if paths != [] {
      var before, parts := paths[..|paths| - 1], Split(Strip(paths[|paths| - 1]));
      var x, y := Keys(Under(Build(paths), q))[i], Keys(Under(Build(paths), q))[j];
      MentionedNext(paths, q + [x]);
      MentionedNext(paths, q + [y]);
      KeyIsMentioned(paths, q, y);
      if !Holds(Build(before), q) {
        InsertKeysNew(Build(before), parts, q);
      } else {
        InsertKeysAt(Build(before), parts, q);
        var known := Keys(Under(Build(before), q));
        assert x == known[i];
        KeyIsMentioned(before, q, x);
        KeyIsMentioned(before, q, y);
        if j < |known| {
          KeysInOrderOfFirstMention(before, q, i, j);
        }
      }
    }
  }

  // ---------- The order of the lines ----------

  /** x comes before y. */
  ghost predicate Before(keys: seq<string>, x: string, y: string) {
    exists i, j :: 0 <= i < j < |keys| && keys[i] == x && keys[j] == y
  }

  lemma BeforeInTail(key: string, keys: seq<string>, x: string, y: string)
    requires Before(keys, x, y)
    ensures Before([key] + keys, x, y)
  {
    var i, j :| 0 <= i < j < |keys| && keys[i] == x && keys[j] == y;
    assert ([key] + keys)[i + 1] == x && ([key] + keys)[j + 1] == y;
  }

  lemma BeforeFirst(key: string, keys: seq<string>, y: string)
    requires y in keys
    ensures Before([key] + keys, key, y)
  {
    var j :| 0 <= j < |keys| && keys[j] == y;
    assert ([key] + keys)[0] == key && ([key] + keys)[j + 1] == y;
  }

  /** Entries beside each other come in the order of their keys. */
  lemma {:induction false} SiblingsInKeyOrder(d: Dict, above: seq<string>, a: nat, b: nat, p: seq<string>,
                                             x: string, y: string)
    requires IsDict(d) && a < b < |Entries(d, above)|
    requires Entries(d, above)[a] == above + p + [x] && Entries(d, above)[b] == above + p + [y]
    ensures Holds(d, p) && Before(Keys(Under(d, p)), x, y)
    decreases d
  {
    match d
    case Entry(key, kids, next) =>
      var es, inner := Entries(d, above), above + [key];
      var n := |Entries(kids, inner)|;
      if a == 0 {
        assert |above + p + [x]| == |above| + 1 && (above + p + [x])[|above|] == key;
        assert p == [];
        if b <= n {
          EntriesLeadOn(kids, inner, b - 1);
        } else {
          EntryHasKey(next, above, b - 1 - n);
          assert es[b][|above|] == y;
          KeyInKeys(next, y);
          BeforeFirst(key, Keys(next), y);
        }
      } else if a <= n {
        EntriesLeadOn(kids, inner, a - 1);
        assert (above + p + [x])[|above|] == key && |p| > 0;
        assert p[0] == key;
        assert above + p + [y] == inner + p[1..] + [y] && above + p + [x] == inner + p[1..] + [x];
        AtKey(d, above, b);
        assert (above + p + [y])[|above|] == key;
        SiblingsInKeyOrder(kids, inner, a - 1, b - 1, p[1..], x, y);
      } else {
        SiblingsInKeyOrder(next, above, a - 1 - n, b - 1 - n, p, x, y);
        if p == [] {
          BeforeInTail(key, Keys(next), x, y);
        } else {
          HeldHasKey(next, p);
        }
      }
  }

  lemma HeldHasKey(d: Dict, p: seq<string>)
    requires p != [] && Holds(d, p)
    ensures HasKey(d, p[0])
  {
    if !HasKey(d, p[0]) {
      NotHeldWithoutKey(d, p);
    }
  }

  /** The lines below a line are those that follow it, up to the next that is not below it. */
  lemma {:induction false} LinesBelowFollow(d: Dict, above: seq<string>, a: nat, b: nat, c: nat)
    requires IsDict(d) && a < |Entries(d, above)| && b < |Entries(d, above)| && c < |Entries(d, above)|
    ensures Entries(d, above)[a] < Entries(d, above)[b] ==> a < b
    ensures a <= c <= b && Entries(d, above)[a] <= Entries(d, above)[b] ==> Entries(d, above)[a] <= Entries(d, above)[c]
    decreases d
  {
    match d
    case Entry(key, kids, next) =>
      var es, inner := Entries(d, above), above + [key];
      var n := |Entries(kids, inner)|;
      AtKey(d, above, a);
      AtKey(d, above, b);
      AtKey(d, above, c);
      if 0 < a <= n && 0 < b <= n {
        LinesBelowFollow(kids, inner, a - 1, b - 1, if 0 < c <= n then c - 1 else a - 1);
      } else if a > n && b > n {
        LinesBelowFollow(next, above, a - 1 - n, b - 1 - n, if c > n then c - 1 - n else a - 1 - n);
      }
  }

  /** Where an entry stands: the first, below it, or after these. */
  lemma AtKey(d: Dict, above: seq<string>, i: nat)
    requires IsDict(d) && d.Entry? && i < |Entries(d, above)|
    ensures
      var q, inner := Entries(d, above)[i], above + [d.key];
      var n := |Entries(d.kids, inner)|;
      if i == 0 then q == inner
      else if i <= n then inner < q
      else above < q && |q| > |above| && q[|above|] != d.key
  {
    var inner := above + [d.key];
    var n := |Entries(d.kids, inner)|;
    if 0 < i <= n {
      EntriesLeadOn(d.kids, inner, i - 1);
    } else if i > n {
      EntriesLeadOn(d.next, above, i - 1 - n);
      EntryHasKey(d.next, above, i - 1 - n);
    }
  }

  lemma EntriesInKeyOrder(d: Dict, a: nat, b: nat, q: seq<string>, r: seq<string>)
    requires IsDict(d) && a < b < |Entries(d, [])| && q != [] && r != []
    requires Entries(d, [])[a] == q && Entries(d, [])[b] == r
    ensures !(r <= q)
    ensures q[..|q| - 1] == r[..|r| - 1] ==>
              Holds(d, q[..|q| - 1]) && Before(Keys(Under(d, q[..|q| - 1])), q[|q| - 1], r[|r| - 1])
  {
    LinesBelowFollow(d, [], b, a, a);
    EntriesAreDistinct(d, [], a, b);
    if q[..|q| - 1] == r[..|r| - 1] {
      var p, x, y := q[..|q| - 1], q[|q| - 1], r[|r| - 1];
      assert [] + p + [x] == q && [] + p + [y] == r;
      SiblingsInKeyOrder(d, [], a, b, p, x, y);
    }
  }

  lemma BeforeIsMentionedFirst(paths: seq<string>, p: seq<string>, x: string, y: string)
    requires Holds(Build(paths), p) && Before(Keys(Under(Build(paths), p)), x, y)
    ensures FirstMention(paths, p + [x]) < FirstMention(paths, p + [y])
  {
    var keys := Keys(Under(Build(paths), p));
    var i, j :| 0 <= i < j < |keys| && keys[i] == x && keys[j] == y;
    KeysInOrderOfFirstMention(paths, p, i, j);
  }

  /** The printing of a list of paths: the line of q comes before the lines below it, and lines on the same level below
      the same line come in the order in which the paths first mention them. */
  lemma LinesInOrderOfFirstMention(paths: seq<string>, a: nat, b: nat, q: seq<string>, r: seq<string>)
    requires a < b < |Entries(Build(paths), [])| && q != [] && r != []
    requires Entries(Build(paths), [])[a] == q && Entries(Build(paths), [])[b] == r
    ensures !(r <= q)
    ensures q[..|q| - 1] == r[..|r| - 1] ==> FirstMention(paths, q) < FirstMention(paths, r)
  {
    TreeHoldsThePrefixes(paths, []);
    EntriesInKeyOrder(Build(paths), a, b, q, r);
    if q[..|q| - 1] == r[..|r| - 1] {
      LastPart(q);
      LastPart(r);
      BeforeIsMentionedFirst(paths, q[..|q| - 1], q[|q| - 1], r[|r| - 1]);
    }
  }

  lemma LastPart(q: seq<string>)
    requires q != []
    ensures q[..|q| - 1] + [q[|q| - 1]] == q
  {
  }
}
