/** What the merge program is meant to compute, stated on lists of words. */
module MergeSpec {
  import opened LittleMan

  /** The number a word stands for in ten's complement. */
  function Signed(w: Word): int {
    if w < 500 then w else w - 1000
  }

  /** The machine's test: subtract, then BRP. */
  predicate NotLess(a: Word, b: Word) {
    (a - b) % 1000 < 500
  }

  /** The merge under the machine's test; the second list goes first on ties. */
  function WordMerge(a: seq<Word>, b: seq<Word>): seq<Word> {
    if a == [] then b
    else if b == [] then a
    else if NotLess(a[0], b[0]) then [b[0]] + WordMerge(a, b[1..])
    else [a[0]] + WordMerge(a[1..], b)
  }

  /** The merge the author has in mind, on the numbers the words stand for. */
  function TrueMerge(a: seq<Word>, b: seq<Word>): seq<Word> {
    if a == [] then b
    else if b == [] then a
    else if Signed(b[0]) <= Signed(a[0]) then [b[0]] + TrueMerge(a, b[1..])
    else [a[0]] + TrueMerge(a[1..], b)
  }

  /** The difference of two words has a ten's complement representation. */
  predicate Fits(a: Word, b: Word) {
    -500 <= Signed(a) - Signed(b) < 500
  }

  /** Every pair of list heads that merging brings together can be subtracted without overflow. */
  predicate HeadsFit(a: seq<Word>, b: seq<Word>) {
    a == [] || b == [] ||
    (Fits(a[0], b[0]) &&
     if Signed(b[0]) <= Signed(a[0]) then HeadsFit(a, b[1..]) else HeadsFit(a[1..], b))
  }

  ghost predicate Sorted(s: seq<Word>) {
    forall i, j | 0 <= i < j < |s| :: Signed(s[i]) <= Signed(s[j])
  }

  /** The machine's test is the signed comparison on exactly the pairs that fit. */
  lemma NotLessIsSigned(a: Word, b: Word)
    ensures Fits(a, b) <==> (NotLess(a, b) <==> Signed(b) <= Signed(a))
  {
    var d := a - b;
    assert d % 1000 == if d < 0 then d + 1000 else d;
  }

  /** A sum or a difference is that of the numbers the words stand for, if it lies in [-500, 499], and else it is out by
      1000. */
  lemma ArithmeticIsSigned(s: State, a: nat)
    requires s.Valid() && s.status == Running && a < 100 && s.mem[s.pc] in {100 + a, 200 + a}
    ensures
      var x, y := Signed(s.acc), Signed(s.mem[a]);
      var exact := if s.mem[s.pc] == 100 + a then x + y else x - y;
      Signed(Step(s).acc) ==
        if exact < -500 then exact + 1000 else if exact < 500 then exact else exact - 1000
  {
    assert Operation(s.mem[s.pc]) == if s.mem[s.pc] == 100 + a then 1 else 2;
  }

  /** Nothing is lost, duplicated or invented, whatever the comparisons say. */
  lemma {:induction false} MergeIsPermutation(a: seq<Word>, b: seq<Word>)
    ensures multiset(WordMerge(a, b)) == multiset(a) + multiset(b)
  {
    if a != [] && b != [] {
      if NotLess(a[0], b[0]) {
        MergeIsPermutation(a, b[1..]);
        assert b == [b[0]] + b[1..];
      } else {
        MergeIsPermutation(a[1..], b);
        assert a == [a[0]] + a[1..];
      }
    }
  }

  /** The program's merge is the intended one on exactly the lists whose compared heads fit. */
  lemma {:induction false} MergeIsTrueExactlyWhenHeadsFit(a: seq<Word>, b: seq<Word>)
    ensures WordMerge(a, b) == TrueMerge(a, b) <==> HeadsFit(a, b)
  {
    if a != [] && b != [] {
      NotLessIsSigned(a[0], b[0]);
      if Signed(b[0]) <= Signed(a[0]) {
        MergeIsTrueExactlyWhenHeadsFit(a, b[1..]);
        assert TrueMerge(a, b)[1..] == TrueMerge(a, b[1..]);
        if NotLess(a[0], b[0]) {
          assert WordMerge(a, b)[1..] == WordMerge(a, b[1..]);
        } else {
          assert WordMerge(a, b)[0] != TrueMerge(a, b)[0];
        }
      } else {
        MergeIsTrueExactlyWhenHeadsFit(a[1..], b);
        assert TrueMerge(a, b)[1..] == TrueMerge(a[1..], b);
        if NotLess(a[0], b[0]) {
          assert WordMerge(a, b)[0] != TrueMerge(a, b)[0];
        } else {
          assert WordMerge(a, b)[1..] == WordMerge(a[1..], b);
        }
      }
    }
  }

  lemma MergeElements(a: seq<Word>, b: seq<Word>, x: Word)
    ensures x in WordMerge(a, b) <==> x in a || x in b
  {
    MergeIsPermutation(a, b);
    assert x in WordMerge(a, b) <==> x in multiset(WordMerge(a, b));
    assert x in multiset(a) + multiset(b) <==> x in a || x in b;
  }

  lemma SortedTail(s: seq<Word>)
    requires s != []
    ensures Sorted(s) <==> Sorted(s[1..]) && forall x | x in s[1..] :: Signed(s[0]) <= Signed(x)
  {
    if Sorted(s) {
      assert forall x | x in s[1..] :: exists j :: 0 < j < |s| && s[j] == x;
    }
    if Sorted(s[1..]) && forall x | x in s[1..] :: Signed(s[0]) <= Signed(x) {
      forall i, j | 0 <= i < j < |s| ensures Signed(s[i]) <= Signed(s[j]) {
        assert s[j] == s[1..][j - 1];
        if i > 0 {
          assert s[i] == s[1..][i - 1];
        }
      }
    }
  }

  lemma LeastIsFirst(s: seq<Word>, v: Word)
    requires s != [] && Sorted(s)
    ensures (forall x | x in s :: Signed(v) <= Signed(x)) <==> Signed(v) <= Signed(s[0])
  {
    SortedTail(s);
    assert s == [s[0]] + s[1..];
  }

  /** A word put before a merge keeps it ordered exactly when neither list has a smaller one. */
  lemma SortedBehind(v: Word, a: seq<Word>, b: seq<Word>)
    ensures Sorted([v] + WordMerge(a, b)) <==>
            && Sorted(WordMerge(a, b))
            && (forall x | x in a :: Signed(v) <= Signed(x)) && (forall x | x in b :: Signed(v) <= Signed(x))
  {
    var w := [v] + WordMerge(a, b);
    assert w[1..] == WordMerge(a, b);
    SortedTail(w);
    forall x ensures x in w[1..] <==> x in a || x in b {
      MergeElements(a, b, x);
    }
  }

  /** Two ordered lists come out as one ordered list on exactly the lists whose compared heads fit. */
  lemma {:induction false} MergeIsSortedExactlyWhenHeadsFit(a: seq<Word>, b: seq<Word>)
    requires Sorted(a) && Sorted(b)
    ensures Sorted(WordMerge(a, b)) <==> HeadsFit(a, b)
  {
    if a != [] && b != [] {
      NotLessIsSigned(a[0], b[0]);
      SortedTail(a);
      SortedTail(b);
      if NotLess(a[0], b[0]) {
        MergeIsSortedExactlyWhenHeadsFit(a, b[1..]);
        SortedBehind(b[0], a, b[1..]);
        LeastIsFirst(a, b[0]);
      } else {
        MergeIsSortedExactlyWhenHeadsFit(a[1..], b);
        SortedBehind(a[0], a[1..], b);
        LeastIsFirst(b, a[0]);
      }
    }
  }

  /** A condition on the elements alone that is enough: every cross-list difference fits. */
  lemma {:induction false} CrossDifferencesFit(a: seq<Word>, b: seq<Word>)
    requires forall x, y | x in a && y in b :: Fits(x, y)
    ensures HeadsFit(a, b)
  {
    if a != [] && b != [] {
      if Signed(b[0]) <= Signed(a[0]) {
        CrossDifferencesFit(a, b[1..]);
      } else {
        CrossDifferencesFit(a[1..], b);
      }
    }
  }

  /** Two lists that come out in the wrong order: 499 and -500. */
  lemma WrongOrder()
    ensures Sorted([499]) && Sorted([500]) && Signed(500) == -500
    ensures WordMerge([499], [500]) == [499, 500] && !Sorted(WordMerge([499], [500]))
  {
    assert (499 - 500) % 1000 == 999;
    assert [499][1..] == [];
    assert WordMerge([], [500]) == [500];
    var w := WordMerge([499], [500]);
    assert Signed(w[0]) > Signed(w[1]);
  }
}
