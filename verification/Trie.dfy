/** The tree of nested dictionaries that url_to_tree builds from paths, and its indented printing. Each call of print
    is one line; that it is one line of text too rests on parts without a newline, and lines of standard input have
    none. */
module Trie {

  /** A dictionary of dictionaries in insertion order: a key, its own dictionary, and the later entries. */
  datatype Dict = Empty | Entry(key: string, kids: Dict, next: Dict)

  /** text.split('/'). */
  function Split(text: string): (parts: seq<string>)
    ensures parts != []
  {
    if text == [] then [""]
    else
      var rest := Split(text[1..]);
      if text[0] == '/' then [""] + rest else [[text[0]] + rest[0]] + rest[1..]
  }

  function Join(parts: seq<string>): string
    requires parts != []
  {
    if |parts| == 1 then parts[0] else parts[0] + "/" + Join(parts[1..])
  }

  predicate IsSpace(c: char) {
    c == ' ' || '\t' <= c <= '\r' || '\U{1c}' <= c <= '\U{1f}' || c == '\U{85}' || c == '\U{a0}'
  }

  /** text.strip(), for the white space of Latin-1. */
  function Strip(text: string): string {
    if text != [] && IsSpace(text[0]) then Strip(text[1..])
    else if text != [] && IsSpace(text[|text| - 1]) then Strip(text[..|text| - 1])
    else text
  }

  /** The white space of Latin-1. */
  lemma WhiteSpace(c: char)
    ensures IsSpace(c) <==>
      c in {' ', '\t', '\n', '\U{b}', '\U{c}', '\r', '\U{1c}', '\U{1d}', '\U{1e}', '\U{1f}', '\U{85}', '\U{a0}'}
  {
  }

  /** Stripping takes away the white space at both edges, all of it and nothing else. */
  lemma {:induction false} StripTakesTheEdges(text: string) returns (i: nat, j: nat)
    ensures i <= j <= |text| && Strip(text) == text[i..j]
    ensures forall k | 0 <= k < i || j <= k < |text| :: IsSpace(text[k])
    ensures i < j ==> !IsSpace(text[i]) && !IsSpace(text[j - 1])
    decreases |text|
  {
    if text != [] && IsSpace(text[0]) {
      i, j := StripTakesTheEdges(text[1..]);
      i, j := i + 1, j + 1;
      assert text[1..][i - 1..j - 1] == text[i..j];
      assert forall k | 0 <= k < |text| - 1 :: text[1..][k] == text[k + 1];
      assert forall k | j <= k < |text| :: text[k] == text[1..][k - 1];
      assert forall k | 1 <= k < i :: text[k] == text[1..][k - 1];
    } else if text != [] && IsSpace(text[|text| - 1]) {
      i, j := StripTakesTheEdges(text[..|text| - 1]);
      assert text[..|text| - 1][i..j] == text[i..j];
      assert forall k | 0 <= k < |text| - 1 :: text[..|text| - 1][k] == text[k];
    } else {
      i, j := 0, |text|;
      assert text[0..|text|] == text;
    }
  }

  /** Walk down the parts, adding an empty dictionary under each that is missing. */
  function Insert(d: Dict, parts: seq<string>): Dict
    decreases |parts|, d
  {
    if parts == [] then d
    else
      match d
      case Empty => Entry(parts[0], Insert(Empty, parts[1..]), Empty)
      case Entry(key, kids, next) =>
        if key == parts[0] then Entry(key, Insert(kids, parts[1..]), next)
        else Entry(key, kids, Insert(next, parts))
  }

  function Build(paths: seq<string>): Dict {
    if paths == [] then Empty
    else Insert(Build(paths[..|paths| - 1]), Split(Strip(paths[|paths| - 1])))
  }

  function Spaces(n: nat): (s: string)
    ensures |s| == n && forall i | 0 <= i < n :: s[i] == ' '
  {
    seq(n, _ => ' ')
  }

  /** print_node: one line for each key, its dictionary below it, four more spaces in. */
  function Print(d: Dict, prefix: string): seq<string> {
    match d
    case Empty => []
    case Entry(key, kids, next) => [prefix + key + "/"] + Print(kids, prefix + "    ") + Print(next, prefix)
  }

  function PrintTree(paths: seq<string>): seq<string> {
    Print(Build(paths), "")
  }

  // ---------- What the tree holds ----------

  /** A sequence of parts leads down the dictionaries. */
  predicate Holds(d: Dict, q: seq<string>)
    decreases |q|, d
  {
    q == [] ||
    match d
    case Empty => false
    case Entry(key, kids, next) => if key == q[0] then Holds(kids, q[1..]) else Holds(next, q)
  }

  predicate HasKey(d: Dict, key: string) {
    d.Entry? && (d.key == key || HasKey(d.next, key))
  }

  /** No dictionary has a key twice. */
  predicate IsDict(d: Dict) {
    d.Entry? ==> !HasKey(d.next, d.key) && IsDict(d.kids) && IsDict(d.next)
  }

  lemma {:induction false} InsertKeepsKeys(d: Dict, parts: seq<string>, key: string)
    ensures HasKey(Insert(d, parts), key) <==> HasKey(d, key) || (parts != [] && parts[0] == key)
    decreases d
  {
    if parts != [] && d.Entry? {
      InsertKeepsKeys(d.next, parts, key);
    }
  }

  lemma {:induction false} InsertKeepsDict(d: Dict, parts: seq<string>)
    requires IsDict(d)
    ensures IsDict(Insert(d, parts))
    decreases |parts|, d
  {
    if parts != [] {
      match d
      case Empty => InsertKeepsDict(Empty, parts[1..]);
      case Entry(key, kids, next) =>
        InsertKeepsDict(kids, parts[1..]);
        InsertKeepsDict(next, parts);
        InsertKeepsKeys(next, parts, key);
    }
  }

  lemma {:induction false} InsertHolds(d: Dict, parts: seq<string>, q: seq<string>)
    ensures Holds(Insert(d, parts), q) <==> Holds(d, q) || q <= parts
    decreases |parts|, d
  {
    if parts != [] && q != [] {
      assert q <= parts <==> q[0] == parts[0] && q[1..] <= parts[1..] by {
        if q[0] == parts[0] && q[1..] <= parts[1..] {
          assert q == [q[0]] + q[1..] && parts == [parts[0]] + parts[1..];
        }
      }
      match d
      case Empty => InsertHolds(Empty, parts[1..], q[1..]);
      case Entry(key, kids, next) =>
        InsertHolds(kids, parts[1..], q[1..]);
        InsertHolds(next, parts, q);
    }
  }

  /** The tree has no duplicate keys and holds exactly the prefixes of the split paths. */
  lemma {:induction false} TreeHoldsThePrefixes(paths: seq<string>, q: seq<string>)
    ensures IsDict(Build(paths))
    ensures Holds(Build(paths), q) <==> q == [] || exists k :: 0 <= k < |paths| && q <= Split(Strip(paths[k]))
  {
    if paths != [] {
      var before, last := paths[..|paths| - 1], paths[|paths| - 1];
      TreeHoldsThePrefixes(before, q);
      InsertKeepsDict(Build(before), Split(Strip(last)));
      InsertHolds(Build(before), Split(Strip(last)), q);
    }
  }

  lemma JoinAfterSlash(parts: seq<string>)
    requires parts != []
    ensures Join([""] + parts) == "/" + Join(parts)
  {
    var all := [""] + parts;
    assert all[0] == "" && all[1..] == parts;
    assert "" + "/" + Join(parts) == "/" + Join(parts);
  }

  lemma FourConcatenated(a: string, b: string, c: string, d: string)
    ensures (a + b) + c + d == a + (b + c + d)
  {
  }

  lemma JoinLonger(c: char, parts: seq<string>)
    requires parts != []
    ensures Join([[c] + parts[0]] + parts[1..]) == [c] + Join(parts)
  {
    var longer := [[c] + parts[0]] + parts[1..];
    assert longer[0] == [c] + parts[0] && longer[1..] == parts[1..];
    if |parts| > 1 {
      FourConcatenated([c], parts[0], "/", Join(parts[1..]));
    }
  }

  /** Splitting loses nothing, and no part contains a slash. */
  lemma {:induction false} SplitJoins(text: string)
    ensures Join(Split(text)) == text
    ensures forall k | 0 <= k < |Split(text)| :: '/' !in Split(text)[k]
  {
    if text != [] {
      SplitJoins(text[1..]);
      JoinLonger(text[0], Split(text[1..]));
      JoinAfterSlash(Split(text[1..]));
      assert text == [text[0]] + text[1..];
    }
  }

  // ---------- What is printed ----------

  /** The key sequences that lead to the entries, in preorder. */
  function Entries(d: Dict, above: seq<string>): seq<seq<string>> {
    match d
    case Empty => []
    case Entry(key, kids, next) => [above + [key]] + Entries(kids, above + [key]) + Entries(next, above)
  }

  /** The line for an entry: four spaces for each level above it, its key, a slash. */
  function Line(q: seq<string>): string
    requires q != []
  {
    Spaces(4 * (|q| - 1)) + q[|q| - 1] + "/"
  }

  lemma {:induction false} EntriesLeadOn(d: Dict, above: seq<string>, i: nat)
    requires i < |Entries(d, above)|
    ensures above < Entries(d, above)[i]
    decreases d
  {
    match d
    case Entry(key, kids, next) =>
      var a, b := Entries(kids, above + [key]), Entries(next, above);
      if 0 < i <= |a| {
        EntriesLeadOn(kids, above + [key], i - 1);
      } else if i > |a| {
        EntriesLeadOn(next, above, i - 1 - |a|);
      }
  }

  /** The printing has one line for each entry, in preorder. */
  lemma {:induction false} PrintsEveryEntry(d: Dict, above: seq<string>)
    ensures |Print(d, Spaces(4 * |above|))| == |Entries(d, above)|
    ensures forall i | 0 <= i < |Entries(d, above)| ::
      Entries(d, above)[i] != [] && Print(d, Spaces(4 * |above|))[i] == Line(Entries(d, above)[i])
    decreases d
  {
    match d
    case Empty =>
    case Entry(key, kids, next) =>
      assert Spaces(4 * |above|) + "    " == Spaces(4 * |above + [key]|);
      PrintsEveryEntry(kids, above + [key]);
      PrintsEveryEntry(next, above);
  }

  /** An entry for each key sequence the tree holds. */
  lemma {:induction false} EntriesAreHeld(d: Dict, above: seq<string>, q: seq<string>)
    requires IsDict(d) && q != []
    ensures above + q in Entries(d, above) <==> Holds(d, q)
    decreases d
  {
    match d
    case Empty =>
    case Entry(key, kids, next) =>
      var a, b := Entries(kids, above + [key]), Entries(next, above);
      assert above + q in Entries(d, above) <==> above + q == above + [key] || above + q in a || above + q in b;
      EntriesAreHeld(next, above, q);
      assert (above + q)[|above|] == q[0];
      forall i | 0 <= i < |a| ensures above < a[i] && a[i][|above|] == key {
        EntriesLeadOn(kids, above + [key], i);
      }
      if q[0] == key {
        assert above + q == (above + [key]) + q[1..];
        if q[1..] != [] {
          EntriesAreHeld(kids, above + [key], q[1..]);
        } else {
          assert q == [key];
        }
        NotHeldWithoutKey(next, q);
      }
  }

  lemma {:induction false} NotHeldWithoutKey(d: Dict, q: seq<string>)
    requires q != [] && !HasKey(d, q[0])
    ensures !Holds(d, q)
    decreases d
  {
    if d.Entry? {
      NotHeldWithoutKey(d.next, q);
    }
  }

  /** No key sequence has two entries. */
  lemma {:induction false} EntriesAreDistinct(d: Dict, above: seq<string>, i: nat, j: nat)
    requires IsDict(d) && i < j < |Entries(d, above)|
    ensures Entries(d, above)[i] != Entries(d, above)[j]
    decreases d
  {
    match d
    case Entry(key, kids, next) =>
      var es, a, b := Entries(d, above), Entries(kids, above + [key]), Entries(next, above);
      if 0 < i && j <= |a| {
        EntriesAreDistinct(kids, above + [key], i - 1, j - 1);
      } else if i > |a| {
        EntriesAreDistinct(next, above, i - 1 - |a|, j - 1 - |a|);
      } else {
        if i > 0 {
          EntriesLeadOn(kids, above + [key], i - 1);
        }
        assert es[i][|above|] == key;
        if j > |a| {
          EntryHasKey(next, above, j - 1 - |a|);
        } else {
          EntriesLeadOn(kids, above + [key], j - 1);
        }
      }
  }

  lemma {:induction false} EntryHasKey(d: Dict, above: seq<string>, i: nat)
    requires i < |Entries(d, above)|
    ensures |Entries(d, above)[i]| > |above| && HasKey(d, Entries(d, above)[i][|above|])
    decreases d
  {
    match d
    case Entry(key, kids, next) =>
      var a := Entries(kids, above + [key]);
      EntriesLeadOn(d, above, i);
      if 0 < i <= |a| {
        EntriesLeadOn(kids, above + [key], i - 1);
      } else if i > |a| {
        EntryHasKey(next, above, i - 1 - |a|);
      }
  }

  /** The printed tree has exactly one line for each distinct nonempty prefix of the split paths, in preorder. */
  lemma PrintsOneLineForEachPrefix(paths: seq<string>)
    ensures
      var es := Entries(Build(paths), []);
      && |PrintTree(paths)| == |es|
      && (forall i | 0 <= i < |es| :: es[i] != [] && PrintTree(paths)[i] == Line(es[i]))
      && (forall i, j | 0 <= i < j < |es| :: es[i] != es[j])
      && (forall q :: q in es <==> q != [] && exists k :: 0 <= k < |paths| && q <= Split(Strip(paths[k])))
  {
    var d := Build(paths);
    var es := Entries(d, []);
    assert Spaces(0) == "";
    PrintsEveryEntry(d, []);
    TreeHoldsThePrefixes(paths, []);
    forall i, j | 0 <= i < j < |es| ensures es[i] != es[j] {
      EntriesAreDistinct(d, [], i, j);
    }
    forall q ensures q in es <==> q != [] && exists k :: 0 <= k < |paths| && q <= Split(Strip(paths[k])) {
      if q != [] {
        TreeHoldsThePrefixes(paths, q);
        EntriesAreHeld(d, [], q);
        assert [] + q == q;
      }
    }
  }

  // ---------- Levels and keys determine a tree ----------

  /** The level of an entry and its key. */
  datatype Item = Item(level: nat, key: string)

  function Items(d: Dict, level: nat): seq<Item> {
    match d
    case Empty => []
    case Entry(key, kids, next) => [Item(level, key)] + Items(kids, level + 1) + Items(next, level)
  }

  /** The dictionary at a level that the items begin with, and the items after it. */
  function Read(items: seq<Item>, level: nat): (r: (Dict, seq<Item>))
    ensures |r.1| <= |items|
    decreases |items|
  {
    if items == [] || items[0].level != level then (Empty, items)
    else
      var (kids, afterKids) := Read(items[1..], level + 1);
      var (next, afterNext) := Read(afterKids, level);
      (Entry(items[0].key, kids, next), afterNext)
  }

  lemma ReadEntry(items: seq<Item>, key: string, kids: Dict, later: seq<Item>, next: Dict, rest: seq<Item>, level: nat)
    requires items != [] && items[0] == Item(level, key)
    requires Read(items[1..], level + 1) == (kids, later) && Read(later, level) == (next, rest)
    ensures Read(items, level) == (Entry(key, kids, next), rest)
  {
  }

  lemma {:induction false} ReadItems(d: Dict, level: nat, rest: seq<Item>)
    requires rest != [] ==> rest[0].level < level
    ensures Read(Items(d, level) + rest, level) == (d, rest)
    decreases d
  {
    match d
    case Empty => assert Items(d, level) + rest == rest;
    case Entry(key, kids, next) =>
      var items, later := Items(d, level) + rest, Items(next, level) + rest;
      assert items[1..] == Items(kids, level + 1) + later;
      assert later != [] ==> later[0].level <= level;
      ReadItems(kids, level + 1, later);
      ReadItems(next, level, rest);
      ReadEntry(items, key, kids, later, next, rest, level);
  }

  lemma SameItems(d: Dict, e: Dict)
    requires Items(d, 0) == Items(e, 0)
    ensures d == e
  {
    ReadItems(d, 0, []);
    ReadItems(e, 0, []);
    assert Items(d, 0) + [] == Items(d, 0) && Items(e, 0) + [] == Items(e, 0);
  }

  // ---------- Which lines leave a choice of level ----------

  /** A key n levels further to the left looks like the key after four spaces for each. */
  function Indented(key: string, n: nat): string {
    Spaces(4 * n) + key
  }

  function Shown(item: Item): string {
    Indented(item.key, item.level) + "/"
  }

  lemma {:induction false} PrintShowsItems(d: Dict, level: nat)
    ensures |Print(d, Spaces(4 * level))| == |Items(d, level)|
    ensures forall i | 0 <= i < |Items(d, level)| :: Print(d, Spaces(4 * level))[i] == Shown(Items(d, level)[i])
    decreases d
  {
    match d
    case Empty =>
    case Entry(key, kids, next) =>
      assert Spaces(4 * level) + "    " == Spaces(4 * (level + 1));
      PrintShowsItems(kids, level + 1);
      PrintShowsItems(next, level);
  }

  /** Every key is one of ks. */
  ghost predicate KeysFrom(d: Dict, ks: iset<string>) {
    d.Entry? ==> d.key in ks && KeysFrom(d.kids, ks) && KeysFrom(d.next, ks)
  }

  lemma {:induction false} ItemsHaveKeysFrom(d: Dict, ks: iset<string>, level: nat)
    requires KeysFrom(d, ks)
    ensures forall i | 0 <= i < |Items(d, level)| :: Items(d, level)[i].key in ks
    decreases d
  {
    if d.Entry? {
      ItemsHaveKeysFrom(d.kids, ks, level + 1);
      ItemsHaveKeysFrom(d.next, ks, level);
    }
  }

  /** Of two items shown alike the one further left has the key of the other, indented. */
  lemma ShownAlike(x: Item, y: Item)
    requires Shown(x) == Shown(y) && y.level <= x.level
    ensures y.key == Indented(x.key, x.level - y.level)
  {
    var s, t := Spaces(4 * x.level) + x.key, Spaces(4 * y.level) + y.key;
    assert Shown(x)[..|Shown(x)| - 1] == s && Shown(y)[..|Shown(y)| - 1] == t;
    assert s[4 * y.level..] == Indented(x.key, x.level - y.level);
    assert t[4 * y.level..] == y.key;
  }

  /** Some key is, indented, another key. */
  ghost predicate HasIndented(ks: iset<string>) {
    exists b, n: nat :: n > 0 && b in ks && Indented(b, n) in ks
  }

  /** Without such keys two trees print different lines unless they are the same, order included. */
  lemma TreesPrintDifferently(d: Dict, e: Dict, ks: iset<string>)
    requires KeysFrom(d, ks) && KeysFrom(e, ks) && !HasIndented(ks) && Print(d, "") == Print(e, "")
    ensures d == e
  {
    var ds, es := Items(d, 0), Items(e, 0);
    assert Spaces(0) == "";
    PrintShowsItems(d, 0);
    PrintShowsItems(e, 0);
    ItemsHaveKeysFrom(d, ks, 0);
    ItemsHaveKeysFrom(e, ks, 0);
    forall i | 0 <= i < |ds| ensures ds[i] == es[i] {
      assert Shown(ds[i]) == Shown(es[i]);
      SameWithoutIndented(ds[i], es[i], ks);
    }
    SameItems(d, e);
  }

  lemma SameWithoutIndented(x: Item, y: Item, ks: iset<string>)
    requires Shown(x) == Shown(y) && x.key in ks && y.key in ks && !HasIndented(ks)
    ensures x == y
  {
    if y.level <= x.level {
      ShownAlike(x, y);
      assert Indented(x.key, 0) == x.key;
    } else {
      ShownAlike(y, x);
    }
  }

  /** n entries with the same key, each below the one before. */
  function Tower(b: string, n: nat): Dict {
    if n == 0 then Empty else Entry(b, Tower(b, n - 1), Empty)
  }

  lemma {:induction false} TowerGrows(b: string, n: nat, level: nat)
    ensures Print(Tower(b, n + 1), Spaces(4 * level)) ==
            Print(Tower(b, n), Spaces(4 * level)) + [Indented(b, level + n) + "/"]
    decreases n
  {
    assert Spaces(4 * level) + "    " == Spaces(4 * (level + 1));
    if n == 0 {
      assert Tower(b, 1) == Entry(b, Tower(b, 0), Empty);
    } else {
      TowerGrows(b, n - 1, level + 1);
    }
  }

  lemma {:induction false} TowerIsDict(b: string, n: nat, ks: iset<string>)
    requires b in ks
    ensures IsDict(Tower(b, n)) && KeysFrom(Tower(b, n), ks)
  {
    if n > 0 {
      TowerIsDict(b, n - 1, ks);
    }
  }

  /** A tower of n + 1 entries prints like one of n followed by the indented key. */
  lemma TowersLookAlike(b: string, n: nat, ks: iset<string>)
    requires n > 0 && b in ks && Indented(b, n) in ks
    ensures
      var d, e := Tower(b, n + 1), Entry(b, Tower(b, n - 1), Entry(Indented(b, n), Empty, Empty));
      && IsDict(d) && IsDict(e) && KeysFrom(d, ks) && KeysFrom(e, ks) && d != e && Print(d, "") == Print(e, "")
  {
    TowerIsDict(b, n + 1, ks);
    TowerIsDict(b, n - 1, ks);
    TowerGrows(b, n, 0);
    assert Spaces(0) == "";
    var last := Entry(Indented(b, n), Empty, Empty);
    assert |Indented(b, n)| > |b|;
    assert Print(last, "") == ["" + Indented(b, n) + "/"];
    assert "" + Indented(b, n) + "/" == Indented(b, 0 + n) + "/";
    assert Print(Tower(b, n), "") == ["" + b + "/"] + Print(Tower(b, n - 1), "" + "    ") + [];
  }

  /** The lines determine the tree, among the dictionaries with keys of ks, exactly if no key is, indented, another. */
  lemma DictsPrintDifferentlyExactlyWhen(ks: iset<string>)
    ensures
      (forall d, e | IsDict(d) && IsDict(e) && KeysFrom(d, ks) && KeysFrom(e, ks) && Print(d, "") == Print(e, "") ::
         d == e)
      <==> !HasIndented(ks)
  {
    if HasIndented(ks) {
      var b, n: nat :| n > 0 && b in ks && Indented(b, n) in ks;
      TowersLookAlike(b, n, ks);
    } else {
      forall d, e | KeysFrom(d, ks) && KeysFrom(e, ks) && Print(d, "") == Print(e, "") ensures d == e {
        TreesPrintDifferently(d, e, ks);
      }
    }
  }
}
