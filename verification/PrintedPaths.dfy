/** When the lines that print_tree prints for a list of paths determine the tree it has built. */
module PrintedPaths {
  import opened Trie

  predicate StartsWithSpace(text: string) {
    text != [] && IsSpace(text[0])
  }

  predicate EndsWithSpace(text: string) {
    text != [] && IsSpace(text[|text| - 1])
  }

  /** Every part of every path is one of ks. */
  ghost predicate PartsFrom(paths: seq<string>, ks: iset<string>) {
    forall k | 0 <= k < |paths| :: forall part | part in Split(Strip(paths[k])) :: part in ks
  }

  /** With u in front and b at the end, paths can be made of u, b and the indented b that print alike. */
  ghost predicate Misleads(ks: iset<string>, u: string, b: string, n: nat) {
    && n > 0 && u in ks && b in ks && Indented(b, n) in ks
    && '/' !in u && '/' !in b && !StartsWithSpace(u) && !EndsWithSpace(b)
  }

  ghost predicate CanMislead(ks: iset<string>) {
    exists u, b, n :: Misleads(ks, u, b, n)
  }

  /** Lists of paths with parts from ks that print the same lines build the same tree. */
  ghost predicate PrintingDetermines(ks: iset<string>) {
    forall paths, others | PartsFrom(paths, ks) && PartsFrom(others, ks) && PrintTree(paths) == PrintTree(others) ::
      Build(paths) == Build(others)
  }

  // ---------- What the trees of paths have in common ----------

  lemma {:induction false} StripEdges(text: string)
    ensures !StartsWithSpace(Strip(text)) && !EndsWithSpace(Strip(text))
    decreases |text|
  {
    if StartsWithSpace(text) {
      StripEdges(text[1..]);
    } else if EndsWithSpace(text) {
      StripEdges(text[..|text| - 1]);
    }
  }

  lemma {:induction false} SplitEdges(text: string)
    ensures StartsWithSpace(Split(text)[0]) ==> StartsWithSpace(text)
    ensures EndsWithSpace(Split(text)[|Split(text)| - 1]) ==> EndsWithSpace(text)
  {
    if text != [] {
      var rest := Split(text[1..]);
      SplitEdges(text[1..]);
      if text[0] != '/' && |rest| == 1 && rest[0] != [] {
        assert ([text[0]] + rest[0])[|rest[0]|] == rest[0][|rest[0]| - 1];
      }
    }
  }

  lemma {:induction false} InsertHasKeysFrom(d: Dict, parts: seq<string>, ks: iset<string>)
    requires KeysFrom(d, ks) && forall part | part in parts :: part in ks
    ensures KeysFrom(Insert(d, parts), ks)
    decreases |parts|, d
  {
    if parts != [] {
      match d
      case Empty => InsertHasKeysFrom(Empty, parts[1..], ks);
      case Entry(key, kids, next) =>
        InsertHasKeysFrom(kids, parts[1..], ks);
        InsertHasKeysFrom(next, parts, ks);
    }
  }

  ghost function WithoutSlash(ks: iset<string>): iset<string> {
    iset key | key in ks && '/' !in key
  }

  lemma {:induction false} BuildHasKeysFrom(paths: seq<string>, ks: iset<string>)
    requires PartsFrom(paths, ks)
    ensures KeysFrom(Build(paths), WithoutSlash(ks))
  {
    if paths != [] {
      var before, last := paths[..|paths| - 1], paths[|paths| - 1];
      BuildHasKeysFrom(before, ks);
      SplitJoins(Strip(last));
      InsertHasKeysFrom(Build(before), Split(Strip(last)), WithoutSlash(ks));
    }
  }

  /** No entry without entries below it has a key that ends with white space. */
  predicate LeavesEnd(d: Dict) {
    d.Entry? ==> (d.kids == Empty ==> !EndsWithSpace(d.key)) && LeavesEnd(d.kids) && LeavesEnd(d.next)
  }

  lemma {:induction false} InsertKeepsLeaves(d: Dict, parts: seq<string>)
    requires LeavesEnd(d) && (parts != [] ==> !EndsWithSpace(parts[|parts| - 1]))
    ensures LeavesEnd(Insert(d, parts))
    decreases |parts|, d
  {
    if parts != [] {
      match d
      case Empty => InsertKeepsLeaves(Empty, parts[1..]);
      case Entry(key, kids, next) =>
        InsertKeepsLeaves(kids, parts[1..]);
        InsertKeepsLeaves(next, parts);
    }
  }

  lemma {:induction false} BuildHasLeaves(paths: seq<string>)
    ensures LeavesEnd(Build(paths))
  {
    if paths != [] {
      var before, last := paths[..|paths| - 1], paths[|paths| - 1];
      BuildHasLeaves(before);
      StripEdges(last);
      SplitEdges(Strip(last));
      InsertKeepsLeaves(Build(before), Split(Strip(last)));
    }
  }

  /** After an item whose key ends with white space comes one a level further down. */
  predicate GoDeeper(items: seq<Item>) {
    forall i | 0 <= i < |items| && EndsWithSpace(items[i].key) ::
      i + 1 < |items| && items[i + 1].level == items[i].level + 1
  }

  lemma {:induction false} ItemsGoDeeper(d: Dict, level: nat)
    requires LeavesEnd(d)
    ensures GoDeeper(Items(d, level))
    decreases d
  {
    match d
    case Empty =>
    case Entry(key, kids, next) =>
      var items, a, b := Items(d, level), Items(kids, level + 1), Items(next, level);
      ItemsGoDeeper(kids, level + 1);
      ItemsGoDeeper(next, level);
      forall i | 0 <= i < |items| && EndsWithSpace(items[i].key)
        ensures i + 1 < |items| && items[i + 1].level == items[i].level + 1
      {
        if 0 < i <= |a| {
          assert items[i] == a[i - 1];
        } else if i > |a| {
          assert items[i] == b[i - 1 - |a|];
        }
      }
  }

  // ---------- Nothing misleads: the lines determine the tree ----------

  /** Every key that is, indented, another key ends with white space. */
  ghost predicate OnlySpaceEnds(ks: iset<string>) {
    forall b, n: nat | n > 0 && b in ks && Indented(b, n) in ks :: EndsWithSpace(b)
  }

  lemma IndentedEnds(b: string, n: nat)
    requires EndsWithSpace(b)
    ensures EndsWithSpace(Indented(b, n))
  {
  }

  lemma OneFurtherLeft(x: Item, y: Item, ks: iset<string>)
    requires Shown(x) == Shown(y) && x.key in ks && y.key in ks && y.level < x.level && OnlySpaceEnds(ks)
    ensures EndsWithSpace(x.key) && EndsWithSpace(y.key)
  {
    ShownAlike(x, y);
    IndentedEnds(x.key, x.level - y.level);
  }

  lemma SameLevelSameItem(x: Item, y: Item)
    requires Shown(x) == Shown(y) && x.level == y.level
    ensures x == y
  {
    ShownAlike(x, y);
    assert Indented(x.key, 0) == x.key;
  }

  lemma {:induction false} SameFrom(ds: seq<Item>, es: seq<Item>, ks: iset<string>, i: nat)
    requires |ds| == |es| && i < |ds| && GoDeeper(ds) && GoDeeper(es) && OnlySpaceEnds(ks)
    requires forall j | 0 <= j < |ds| :: Shown(ds[j]) == Shown(es[j]) && ds[j].key in ks && es[j].key in ks
    ensures ds[i] == es[i]
    decreases |ds| - i
  {
    var x, y := ds[i], es[i];
    assert Shown(ds[i]) == Shown(es[i]);
    if x.level == y.level {
      SameLevelSameItem(x, y);
    } else {
      if y.level < x.level {
        OneFurtherLeft(x, y, ks);
      } else {
        OneFurtherLeft(y, x, ks);
      }
      SameFrom(ds, es, ks, i + 1);
    }
  }

  lemma SameLinesSameTree(d: Dict, e: Dict, ks: iset<string>)
    requires KeysFrom(d, ks) && KeysFrom(e, ks) && LeavesEnd(d) && LeavesEnd(e) && OnlySpaceEnds(ks)
    requires Print(d, "") == Print(e, "")
    ensures d == e
  {
    var ds, es := Items(d, 0), Items(e, 0);
    assert Spaces(0) == "";
    PrintShowsItems(d, 0);
    PrintShowsItems(e, 0);
    ItemsHaveKeysFrom(d, ks, 0);
    ItemsHaveKeysFrom(e, ks, 0);
    ItemsGoDeeper(d, 0);
    ItemsGoDeeper(e, 0);
    forall j | 0 <= j < |ds| ensures Shown(ds[j]) == Shown(es[j]) {
      assert Print(d, "")[j] == Print(e, "")[j];
    }
    forall i | 0 <= i < |ds| ensures ds[i] == es[i] {
      SameFrom(ds, es, ks, i);
    }
    SameItems(d, e);
  }

  /** The first part of a path can stand in front. */
  lemma FirstPartStands(path: string)
    ensures !StartsWithSpace(Split(Strip(path))[0]) && '/' !in Split(Strip(path))[0]
  {
    StripEdges(path);
    SplitEdges(Strip(path));
    SplitJoins(Strip(path));
  }

  lemma NothingMisleads(paths: seq<string>, others: seq<string>, ks: iset<string>)
    requires PartsFrom(paths, ks) && PartsFrom(others, ks) && !CanMislead(ks)
    requires PrintTree(paths) == PrintTree(others)
    ensures Build(paths) == Build(others)
  {
    var clean := WithoutSlash(ks);
    BuildHasKeysFrom(paths, ks);
    BuildHasKeysFrom(others, ks);
    BuildHasLeaves(paths);
    BuildHasLeaves(others);
    if paths != [] || others != [] {
      var path := if paths != [] then paths[0] else others[0];
      var u := Split(Strip(path))[0];
      FirstPartStands(path);
      forall b, n: nat | n > 0 && b in clean && Indented(b, n) in clean ensures EndsWithSpace(b) {
        assert !Misleads(ks, u, b, n);
      }
      SameLinesSameTree(Build(paths), Build(others), clean);
    }
  }

  // ---------- Something misleads: two lists of paths that print alike ----------

  lemma {:induction false} SplitAtSlash(part: string, rest: string)
    requires '/' !in part
    ensures Split(part) == [part]
    ensures Split(part + "/" + rest) == [part] + Split(rest)
  {
    if part == [] {
      assert "" + "/" + rest == "/" + rest;
      assert ("/" + rest)[1..] == rest;
    } else {
      SplitAtSlash(part[1..], rest);
      assert part == [part[0]] + part[1..];
      assert (part + "/" + rest)[1..] == part[1..] + "/" + rest;
    }
  }

  lemma {:induction false} SplitOfJoin(parts: seq<string>)
    requires parts != [] && forall part | part in parts :: '/' !in part
    ensures Split(Join(parts)) == parts
  {
    if |parts| == 1 {
      SplitAtSlash(parts[0], "");
    } else {
      SplitOfJoin(parts[1..]);
      SplitAtSlash(parts[0], Join(parts[1..]));
    }
  }

  lemma {:induction false} JoinEdges(parts: seq<string>)
    requires |parts| > 1 && !StartsWithSpace(parts[0]) && !EndsWithSpace(parts[|parts| - 1])
    ensures !StartsWithSpace(Join(parts)) && !EndsWithSpace(Join(parts))
  {
    var rest := Join(parts[1..]);
    assert Join(parts) == parts[0] + "/" + rest;
    if |parts| > 2 {
      JoinEndsLike(parts[1..]);
    }
  }

  lemma {:induction false} JoinEndsLike(parts: seq<string>)
    requires parts != [] && !EndsWithSpace(parts[|parts| - 1])
    ensures !EndsWithSpace(Join(parts))
  {
    if |parts| > 1 {
      JoinEndsLike(parts[1..]);
    }
  }

  /** A path that has just these parts. */
  lemma PathOf(parts: seq<string>)
    requires |parts| > 1 && !StartsWithSpace(parts[0]) && !EndsWithSpace(parts[|parts| - 1])
    requires forall part | part in parts :: '/' !in part
    ensures Split(Strip(Join(parts))) == parts
  {
    JoinEdges(parts);
    SplitOfJoin(parts);
  }

  function Copies(b: string, n: nat): (parts: seq<string>)
    ensures |parts| == n && forall part | part in parts :: part == b
  {
    seq(n, _ => b)
  }

  lemma {:induction false} InsertCopies(b: string, n: nat)
    ensures Insert(Empty, Copies(b, n)) == Tower(b, n)
  {
    if n > 0 {
      InsertCopies(b, n - 1);
      assert Copies(b, n)[1..] == Copies(b, n - 1);
    }
  }

  lemma BuildTwo(first: seq<string>, second: seq<string>)
    requires first != [] && second != []
    requires Split(Strip(Join(first))) == first && Split(Strip(Join(second))) == second
    ensures Build([Join(first), Join(second)]) == Insert(Insert(Empty, first), second)
  {
    var paths := [Join(first), Join(second)];
    assert paths[..1] == [Join(first)] && [Join(first)][..0] == [];
    assert Build([]) == Empty;
    assert Build([Join(first)]) == Insert(Build([]), first);
  }

  function Leaf(key: string): Dict {
    Entry(key, Empty, Empty)
  }

  /** s with b below it, inserted under a tower, comes after it. */
  lemma InsertAfterTower(b: string, n: nat, s: string, below: seq<string>)
    requires n > 0 && s != b
    ensures Insert(Tower(b, n), [s] + below) == Entry(b, Tower(b, n - 1), Entry(s, Insert(Empty, below), Empty))
  {
    assert ([s] + below)[1..] == below;
  }

  /** Under u: a tower of n + 1, with s and b beside its second entry. */
  lemma DeepTree(u: string, b: string, n: nat, s: string)
    requires n > 0 && s != b
    ensures Insert(Insert(Empty, [u] + Copies(b, n + 1)), [u, b, s, b]) ==
            Entry(u, Entry(b, Entry(b, Tower(b, n - 1), Entry(s, Leaf(b), Empty)), Empty), Empty)
  {
    InsertCopies(b, n + 1);
    InsertAfterTower(b, n, s, [b]);
    assert ([u] + Copies(b, n + 1))[1..] == Copies(b, n + 1);
    assert [u, b, s, b][1..] == [b, s, b] && [b, s, b][1..] == [s, b] == [s] + [b];
    assert Insert(Empty, [b]) == Leaf(b) by {
      assert [b][1..] == [];
    }
    assert Insert(Tower(b, n + 1), [b, s, b]) == Entry(b, Insert(Tower(b, n), [s, b]), Empty);
  }

  /** Under u: a tower of n, and s, s and b below each other beside its first entry. */
  lemma ShallowTree(u: string, b: string, n: nat, s: string)
    requires n > 0 && s != b
    ensures Insert(Insert(Empty, [u] + Copies(b, n)), [u, s, s, b]) ==
            Entry(u, Entry(b, Tower(b, n - 1), Entry(s, Entry(s, Leaf(b), Empty), Empty)), Empty)
  {
    InsertCopies(b, n);
    InsertAfterTower(b, n, s, [s, b]);
    assert ([u] + Copies(b, n))[1..] == Copies(b, n);
    assert [u, s, s, b][1..] == [s, s, b] == [s] + [s, b];
    assert [s, b][1..] == [b] && [b][1..] == [];
    assert Insert(Empty, [b]) == Leaf(b);
    assert Insert(Empty, [s, b]) == Entry(s, Leaf(b), Empty);
  }

  lemma TreesPrintAlike(u: string, b: string, n: nat)
    requires n > 0
    ensures
      var s := Indented(b, n);
      var d := Entry(u, Entry(b, Entry(b, Tower(b, n - 1), Entry(s, Leaf(b), Empty)), Empty), Empty);
      var e := Entry(u, Entry(b, Tower(b, n - 1), Entry(s, Entry(s, Leaf(b), Empty), Empty)), Empty);
      d != e && Print(d, "") == Print(e, "")
  {
    var s, p1, p2 := Indented(b, n), "    ", Spaces(8);
    var tail := Print(Entry(s, Leaf(b), Empty), p2);
    var low := Print(Tower(b, n - 1), p2);
    assert "" + "    " == p1 && p1 + "    " == p2;
    assert Print(Entry(b, Tower(b, n - 1), Entry(s, Leaf(b), Empty)), p2)
        == [p2 + b + "/"] + Print(Tower(b, n - 1), p2 + "    ") + tail;
    assert Print(Tower(b, n), p2) == [p2 + b + "/"] + Print(Tower(b, n - 1), p2 + "    ") + [];
    TowerGrows(b, n - 1, 2);
    assert Indented(b, 2 + (n - 1)) == p1 + s;
    assert Print(Entry(s, Entry(s, Leaf(b), Empty), Empty), p1) == [p1 + s + "/"] + tail + [];
    assert Print(Tower(b, n), p2) + tail == low + ([p1 + s + "/"] + tail);
    var x := Entry(b, Entry(b, Tower(b, n - 1), Entry(s, Leaf(b), Empty)), Empty);
    var y := Entry(b, Tower(b, n - 1), Entry(s, Entry(s, Leaf(b), Empty), Empty));
    assert Print(x, p1) == [p1 + b + "/"] + (Print(Tower(b, n), p2) + tail) + [];
    assert Print(y, p1) == [p1 + b + "/"] + low + ([p1 + s + "/"] + tail);
    assert Print(x, p1) == Print(y, p1);
    PrintBelow(u, x);
    PrintBelow(u, y);
  }

  lemma PrintBelow(u: string, d: Dict)
    ensures Print(Entry(u, d, Empty), "") == ["" + u + "/"] + Print(d, "    ")
  {
    assert "" + "    " == "    ";
    assert Print(Entry(u, d, Empty), "") == ["" + u + "/"] + Print(d, "" + "    ") + [];
  }

  /** The two lists of paths. */
  function DeepPaths(u: string, b: string, n: nat): seq<string> {
    [Join([u] + Copies(b, n + 1)), Join([u, b, Indented(b, n), b])]
  }

  function ShallowPaths(u: string, b: string, n: nat): seq<string>
    requires n > 0
  {
    [Join([u] + Copies(b, n)), Join([u, Indented(b, n), Indented(b, n), b])]
  }

  lemma DeepPathsBuild(ks: iset<string>, u: string, b: string, n: nat)
    requires Misleads(ks, u, b, n)
    ensures PartsFrom(DeepPaths(u, b, n), ks)
    ensures Build(DeepPaths(u, b, n)) ==
            Entry(u, Entry(b, Entry(b, Tower(b, n - 1), Entry(Indented(b, n), Leaf(b), Empty)), Empty), Empty)
  {
    var s, first := Indented(b, n), [u] + Copies(b, n + 1);
    var second := [u, b, s, b];
    PathOf(first);
    PathOf(second);
    BuildTwo(first, second);
    DeepTree(u, b, n, s);
    forall k | 0 <= k < 2 ensures forall part | part in Split(Strip(DeepPaths(u, b, n)[k])) :: part in ks {
      assert DeepPaths(u, b, n)[k] == if k == 0 then Join(first) else Join(second);
    }
  }

  lemma ShallowPathsBuild(ks: iset<string>, u: string, b: string, n: nat)
    requires Misleads(ks, u, b, n)
    ensures PartsFrom(ShallowPaths(u, b, n), ks)
    ensures
      var s := Indented(b, n);
      Build(ShallowPaths(u, b, n)) ==
      Entry(u, Entry(b, Tower(b, n - 1), Entry(s, Entry(s, Leaf(b), Empty), Empty)), Empty)
  {
    var s, first := Indented(b, n), [u] + Copies(b, n);
    var second := [u, s, s, b];
    PathOf(first);
    PathOf(second);
    BuildTwo(first, second);
    ShallowTree(u, b, n, s);
    forall k | 0 <= k < 2 ensures forall part | part in Split(Strip(ShallowPaths(u, b, n)[k])) :: part in ks {
      assert ShallowPaths(u, b, n)[k] == if k == 0 then Join(first) else Join(second);
    }
  }

  lemma PathsMislead(ks: iset<string>, u: string, b: string, n: nat)
    requires Misleads(ks, u, b, n)
    ensures !PrintingDetermines(ks)
  {
    DeepPathsBuild(ks, u, b, n);
    ShallowPathsBuild(ks, u, b, n);
    TreesPrintAlike(u, b, n);
  }

  // ---------- Exactly when ----------

  /** For paths with parts from ks the printed lines determine the tree exactly if no part that does not end with white
      space is, indented, another part, or else no part can stand in front of a path. */
  lemma PrintingDeterminesExactlyWhen(ks: iset<string>)
    ensures PrintingDetermines(ks) <==> !CanMislead(ks)
  {
    if CanMislead(ks) {
      var u, b, n :| Misleads(ks, u, b, n);
      PathsMislead(ks, u, b, n);
    } else {
      forall paths, others | PartsFrom(paths, ks) && PartsFrom(others, ks) && PrintTree(paths) == PrintTree(others)
        ensures Build(paths) == Build(others)
      {
        NothingMisleads(paths, others, ks);
      }
    }
  }

  predicate IsPlain(part: string) {
    !("    " <= part)
  }

  /** Paths none of whose parts starts with four spaces. */
  predicate ArePlain(paths: seq<string>) {
    forall k | 0 <= k < |paths| :: forall part | part in Split(Strip(paths[k])) :: IsPlain(part)
  }

  /** The lines determine the tree for paths none of whose parts starts with four spaces. */
  lemma PrintingDeterminesTheTree(paths: seq<string>, others: seq<string>)
    requires ArePlain(paths) && ArePlain(others) && PrintTree(paths) == PrintTree(others)
    ensures Build(paths) == Build(others)
  {
    var ks := iset part | IsPlain(part);
    forall u, b, n: nat ensures !Misleads(ks, u, b, n) {
      if n > 0 {
        assert Spaces(4 * n)[..4] == "    ";
        assert "    " <= Indented(b, n);
      }
    }
    PrintingDeterminesExactlyWhen(ks);
  }

  // ---------- Two small lists of paths ----------

  lemma PrintLeaf(key: string, prefix: string)
    ensures Print(Leaf(key), prefix) == [prefix + key + "/"]
  {
    assert Print(Leaf(key), prefix) == [prefix + key + "/"] + [] + [];
  }

  /** Two lists of paths, the first without leading spaces, that print the same lines and build different trees. */
  lemma SpacesCanMislead()
    ensures PrintTree(["a/b/c"]) == PrintTree(["a/b", "a/    c"])
    ensures Build(["a/b/c"]) != Build(["a/b", "a/    c"])
    ensures ArePlain(["a/b/c"])
  {
    DeepBuild();
    ShallowBuild();
    var d, e := Entry("b", Leaf("c"), Empty), Entry("b", Empty, Leaf("    c"));
    PrintLeaf("c", "    " + "    ");
    PrintLeaf("    c", "    ");
    assert ("    " + "    ") + "c" + "/" == "    " + "    c" + "/";
    assert Print(d, "    ") == ["    " + "b" + "/"] + Print(Leaf("c"), "    " + "    ") + [];
    assert Print(e, "    ") == ["    " + "b" + "/"] + [] + Print(Leaf("    c"), "    ");
    PrintBelow("a", d);
    PrintBelow("a", e);
  }

  lemma JoinTwo(x: string, y: string)
    ensures Join([x, y]) == x + "/" + y
  {
    assert [x, y][1..] == [y];
  }

  lemma DeepParts()
    ensures Split(Strip("a/b/c")) == ["a", "b", "c"]
  {
    var parts := ["a", "b", "c"];
    assert parts[1..] == ["b", "c"];
    JoinTwo("b", "c");
    assert Join(parts) == "a" + "/" + Join(["b", "c"]) == "a/b/c";
    PathOf(parts);
  }

  lemma DeepBuild()
    ensures Build(["a/b/c"]) == Entry("a", Entry("b", Leaf("c"), Empty), Empty)
    ensures ArePlain(["a/b/c"])
  {
    DeepParts();
    var parts := ["a", "b", "c"];
    assert parts[1..] == ["b"] + ["c"] && (["b"] + ["c"])[1..] == ["c"] && ["c"][1..] == [];
    assert ["a/b/c"][..0] == [];
    assert Build(["a/b/c"]) == Insert(Build([]), parts) == Insert(Empty, parts);
    assert Insert(Empty, parts[1..]) == Entry("b", Insert(Empty, ["c"]), Empty);
    assert IsPlain("a") && IsPlain("b") && IsPlain("c");
  }

  lemma ShallowBuild()
    ensures Build(["a/b", "a/    c"]) == Entry("a", Entry("b", Empty, Leaf("    c")), Empty)
  {
    var y, z := ["a", "b"], ["a", "    c"];
    assert y[1..] == ["b"] && z[1..] == ["    c"] && ["b"][1..] == [] && ["    c"][1..] == [];
    JoinTwo("a", "b");
    JoinTwo("a", "    c");
    assert "a" + "/" + "b" == "a/b" && "a" + "/" + "    c" == "a/    c";
    PathOf(y);
    PathOf(z);
    BuildTwo(y, z);
    assert Insert(Empty, ["b"]) == Leaf("b") && Insert(Empty, ["    c"]) == Leaf("    c");
    assert Insert(Empty, y) == Entry("a", Leaf("b"), Empty);
    assert Insert(Leaf("b"), ["    c"]) == Entry("b", Empty, Leaf("    c"));
  }
}
