/** The theorems about every run of the merge program. */
module MergeRuns {
  import opened LittleMan
  import opened MergeSpec
  import opened MergeProgram
  import opened MergeCycles

  /** What holds in every state of every run on l1 and l2. */
  predicate Inv(s: State, l1: seq<Word>, l2: seq<Word>)
    requires s.Valid()
  {
    CodeIntact(s.mem) && NonZero(l1) && NonZero(l2) &&
    match s.status
    case Running =>
      (Placed(s, l1, l2) && Due(s, l1, l2)) || (Restarted(s, l1, l2) && s.outbox <= WordMerge(l1, l2))
    case Halted => Finishing(s, l1, l2) && s.outbox == WordMerge(l1, l2)
    case Waiting => |l1| + |l2| > 18 && s.outbox <= WordMerge(l1, l2)
    case Faulted => |l1| + |l2| > 18 && s.outbox <= WordMerge(l1, l2)
  }

  /** What has gone out, followed by the merge of what has not, is the merge. */
  predicate Due(s: State, l1: seq<Word>, l2: seq<Word>)
    requires s.Valid()
  {
    s.outbox + WordMerge(Left1(s, l1), Left2(s, l1, l2)) == WordMerge(l1, l2)
  }

  // ---------- The loaded machine ----------

  lemma CellAt(c: nat)
    requires c < 100
    ensures c < 21 ==> Cells()[c] == ReadingPart()[c]
    ensures 21 <= c < 48 ==> Cells()[c] == ComparingPart()[c - 21]
    ensures 48 <= c < 70 ==> Cells()[c] == ShowingPart()[c - 48]
    ensures 70 <= c < 74 ==> Cells()[c] == FIN_AND_CONSTANTS[c - 70]
    ensures 74 <= c ==> Cells()[c] == 0
  {
  }

  lemma LoadedReading()
    ensures ReadingCode(Cells()) && Cells()[4] == 380 && Cells()[16] == 380
  {
    forall c | 0 <= c < 21 ensures Cells()[c] == ReadingPart()[c] {
      CellAt(c);
    }
  }

  lemma LoadedComparing()
    ensures ComparingCode(Cells()) && Cells()[28] == 575 && Cells()[30] == 574
  {
    forall c | 21 <= c < 48 ensures Cells()[c] == ComparingPart()[c - 21] {
      CellAt(c);
    }
  }

  lemma LoadedShowing()
    ensures ShowingCode(Cells()) && Cells()[52] == 577 && Cells()[63] == 576
  {
    forall c | 48 <= c < 70 ensures Cells()[c] == ShowingPart()[c - 48] {
      CellAt(c);
    }
  }

  lemma LoadInv(l1: seq<Word>, l2: seq<Word>)
    requires NonZero(l1) && NonZero(l2)
    ensures Inv(Load(l1, l2), l1, l2)
  {
    LoadedCode();
    StartsInPlace(Load(l1, l2), l1, l2);
  }

  lemma StartsInPlace(s: State, l1: seq<Word>, l2: seq<Word>)
    requires s.Valid() && CodeIntact(s.mem) && s == Load(l1, l2)
    requires s.mem[4] == s.mem[16] == 380 && s.mem[28] == 575 && s.mem[30] == 574
    requires s.mem[52] == 577 && s.mem[63] == 576
    ensures Placed(s, l1, l2) && Due(s, l1, l2)
  {
  }

  lemma LoadedCode()
    ensures CodeIntact(Cells())
    ensures Cells()[4] == Cells()[16] == 380 && Cells()[28] == 575 && Cells()[30] == 574
    ensures Cells()[52] == 577 && Cells()[63] == 576
  {
    LoadedReading();
    LoadedComparing();
    LoadedShowing();
    CellAt(70);
    CellAt(71);
    CellAt(72);
    CellAt(73);
  }

  // ---------- One cycle ----------

  lemma MoveHead1(out: seq<Word>, a: seq<Word>, b: seq<Word>)
    requires a != [] && (b == [] || !NotLess(a[0], b[0]))
    ensures (out + [a[0]]) + WordMerge(a[1..], b) == out + WordMerge(a, b)
  {
    assert a == [a[0]] + a[1..];
    assert WordMerge(a, b) == [a[0]] + WordMerge(a[1..], b);
  }

  lemma MoveHead2(out: seq<Word>, a: seq<Word>, b: seq<Word>)
    requires b != [] && (a == [] || NotLess(a[0], b[0]))
    ensures (out + [b[0]]) + WordMerge(a, b[1..]) == out + WordMerge(a, b)
  {
    assert b == [b[0]] + b[1..];
    assert WordMerge(a, b) == [b[0]] + WordMerge(a, b[1..]);
  }

  lemma CycleDue(s: State, t: State, l1: seq<Word>, l2: seq<Word>)
    requires s.Valid() && t.Valid() && Due(s, l1, l2)
    requires Silent(s, t, l1, l2) || Shows1(s, t, l1, l2) || Shows2(s, t, l1, l2)
    ensures Due(t, l1, l2)
  {
    if Shows1(s, t, l1, l2) {
      MoveHead1(s.outbox, Left1(s, l1), Left2(s, l1, l2));
    } else if Shows2(s, t, l1, l2) {
      MoveHead2(s.outbox, Left1(s, l1), Left2(s, l1, l2));
    }
  }

  lemma AllIsOut(s: State, l1: seq<Word>, l2: seq<Word>)
    requires s.Valid() && Due(s, l1, l2) && Left1(s, l1) == Left2(s, l1, l2) == []
    ensures s.outbox == WordMerge(l1, l2)
  {
  }

  lemma GoesInv(s: State, t: State, l1: seq<Word>, l2: seq<Word>)
    requires s.Valid() && t.Valid() && NonZero(l1) && NonZero(l2) && CodeIntact(t.mem)
    requires Due(s, l1, l2) && s.outbox <= WordMerge(l1, l2) && Goes(s, t, l1, l2)
    ensures Inv(t, l1, l2)
  {
    match t.status
    case Running =>
      if Silent(s, t, l1, l2) || Shows1(s, t, l1, l2) || Shows2(s, t, l1, l2) {
        CycleDue(s, t, l1, l2);
      }
    case Halted => AllIsOut(s, l1, l2);
    case _ =>
  }

  lemma CycleInv(s: State, l1: seq<Word>, l2: seq<Word>)
    requires s.Valid() && Inv(s, l1, l2)
    ensures Inv(Step(s), l1, l2)
    ensures s.status == Running ==> CyclesLeft(Step(s), l1, l2) < CyclesLeft(s, l1, l2)
  {
    if s.status == Running {
      CycleKeepsCode(s, l1, l2);
      if Restarted(s, l1, l2) {
        CycleRestarted(s, l1, l2);
      } else {
        GoesPlaced(s, l1, l2);
        GoesInv(s, Step(s), l1, l2);
      }
    }
  }

  // ---------- Runs ----------

  lemma {:induction false} RunInv(s: State, k: nat, l1: seq<Word>, l2: seq<Word>)
    requires s.Valid() && Inv(s, l1, l2)
    ensures Inv(Run(s, k), l1, l2)
    ensures Run(s, k).status == Running ==> k + CyclesLeft(Run(s, k), l1, l2) <= CyclesLeft(s, l1, l2)
    decreases k
  {
    if k > 0 {
      RunInv(s, k - 1, l1, l2);
      CycleInv(Run(s, k - 1), l1, l2);
    }
  }

  lemma RunStops(s: State, k: nat, l1: seq<Word>, l2: seq<Word>)
    requires s.Valid() && Inv(s, l1, l2) && CyclesLeft(s, l1, l2) <= k
    ensures Run(s, k).status != Running
  {
    RunInv(s, k, l1, l2);
    CycleInv(Run(s, k), l1, l2);
  }

  /** A bound on the cycles of a whole run, linear in the number of elements. */
  function Cycles(l1: seq<Word>, l2: seq<Word>): nat {
    21 * (|l1| + |l2|) + 48
  }

  /** After Cycles(l1, l2) cycles every run is over: it has halted with the merge in the out-box
      if both lists and their zeros fit in the array, and has gone wrong otherwise,
      with a beginning of the merge in the out-box. */
  lemma RunEnds(l1: seq<Word>, l2: seq<Word>)
    requires NonZero(l1) && NonZero(l2)
    ensures
      var t := Run(Load(l1, l2), Cycles(l1, l2));
      if |l1| + |l2| <= 18 then t.status == Halted && t.outbox == WordMerge(l1, l2)
      else (t.status == Waiting || t.status == Faulted) && t.outbox <= WordMerge(l1, l2)
  {
    LoadInv(l1, l2);
    RunInv(Load(l1, l2), Cycles(l1, l2), l1, l2);
    RunStops(Load(l1, l2), Cycles(l1, l2), l1, l2);
  }

  /** The program halts on exactly the inputs of at most 18 elements, and whenever it halts it has shown the merge. */
  lemma HaltsExactlyWhenListsFit(l1: seq<Word>, l2: seq<Word>)
    requires NonZero(l1) && NonZero(l2)
    ensures (exists k: nat :: Run(Load(l1, l2), k).status == Halted) <==> |l1| + |l2| <= 18
    ensures forall k: nat :: Run(Load(l1, l2), k).status == Halted ==> Run(Load(l1, l2), k).outbox == WordMerge(l1, l2)
  {
    RunEnds(l1, l2);
    forall k: nat ensures Inv(Run(Load(l1, l2), k), l1, l2) {
      LoadInv(l1, l2);
      RunInv(Load(l1, l2), k, l1, l2);
    }
  }

  /** Two ordered lists that fit come out as one ordered list exactly when no compared pair overflows a subtraction. */
  lemma SortsExactlyWhenHeadsFit(l1: seq<Word>, l2: seq<Word>)
    requires NonZero(l1) && NonZero(l2) && Sorted(l1) && Sorted(l2) && |l1| + |l2| <= 18
    ensures
      var out := Run(Load(l1, l2), Cycles(l1, l2)).outbox;
      && multiset(out) == multiset(l1) + multiset(l2)
      && (Sorted(out) <==> HeadsFit(l1, l2))
      && (out == TrueMerge(l1, l2) <==> HeadsFit(l1, l2))
  {
    RunEnds(l1, l2);
    MergeIsPermutation(l1, l2);
    MergeIsSortedExactlyWhenHeadsFit(l1, l2);
    MergeIsTrueExactlyWhenHeadsFit(l1, l2);
  }

  /** The program shows 499 before -500. */
  lemma ShowsWrongOrder()
    ensures Run(Load([499], [500]), Cycles([499], [500])).outbox == [499, 500]
  {
    RunEnds([499], [500]);
    WrongOrder();
  }

  // ---------- Self-modification ----------

  /** The six rewritten instructions keep their operations, and a rewritten address lies in the array. */
  predicate InArray(m: seq<Word>)
    requires |m| == 100
  {
    && Sto(ARRAY) <= m[VALUE_AT_OF_LIST1] < Sto(99)
    && Sto(ARRAY) <= m[VALUE_AT_OF_LIST2] <= Sto(99)
    && (m[SET_L2_FOR_COMPARE] == Lda(NB2) || Lda(ARRAY) <= m[SET_L2_FOR_COMPARE] <= Lda(99))
    && (m[SET_L1_FOR_COMPARE] == Lda(NB1) || Lda(ARRAY) <= m[SET_L1_FOR_COMPARE] <= Lda(99))
    && (m[SHOW_REST_LIST2] == Lda(IDX_L2) || Lda(ARRAY) <= m[SHOW_REST_LIST2] <= Lda(99))
    && (m[SHOW_REST_LIST1] == Lda(IDX_L1) || Lda(ARRAY) <= m[SHOW_REST_LIST1] <= Lda(99))
  }

  lemma AddressesWhileReading(s: State, l1: seq<Word>, l2: seq<Word>)
    requires s.Valid() && Placed(s, l1, l2) && s.pc <= 27 && |l1| + |l2| <= 18
    ensures InArray(s.mem)
  {
  }

  lemma AddressesWhileComparing(s: State, l1: seq<Word>, l2: seq<Word>)
    requires s.Valid() && Placed(s, l1, l2) && 28 <= s.pc <= 47 && |l1| + |l2| <= 18
    ensures InArray(s.mem)
  {
  }

  lemma AddressesWhileDraining(s: State, l1: seq<Word>, l2: seq<Word>)
    requires s.Valid() && Placed(s, l1, l2) && 48 <= s.pc && |l1| + |l2| <= 18
    ensures InArray(s.mem)
  {
  }

  lemma ReadingIsLoaded(m: seq<Word>)
    requires |m| == 100 && ReadingCode(m)
    ensures forall c | 0 <= c < 21 && !Patched(c) :: m[c] == Cells()[c]
  {
    LoadedReading();
  }

  lemma ComparingIsLoaded(m: seq<Word>)
    requires |m| == 100 && ComparingCode(m)
    ensures forall c | 21 <= c < 48 && !Patched(c) :: m[c] == Cells()[c]
  {
    LoadedComparing();
  }

  lemma ShowingIsLoaded(m: seq<Word>)
    requires |m| == 100 && ShowingCode(m)
    ensures forall c | 48 <= c < 70 && !Patched(c) :: m[c] == Cells()[c]
  {
    LoadedShowing();
  }

  lemma ConstantsAreLoaded(m: seq<Word>)
    requires |m| == 100 && Constants(m)
    ensures forall c | 70 <= c < NB1 :: m[c] == Cells()[c]
  {
    forall c | 70 <= c < NB1 ensures m[c] == Cells()[c] {
      CellAt(c);
    }
  }

  /** In every state of every run that fits, the program has changed only where it means to, and in no other way. */
  lemma OnlyAddressesChange(l1: seq<Word>, l2: seq<Word>, k: nat)
    requires NonZero(l1) && NonZero(l2) && |l1| + |l2| <= 18
    ensures
      var m := Run(Load(l1, l2), k).mem;
      (forall c | 0 <= c < NB1 && !Patched(c) :: m[c] == Cells()[c]) && InArray(m)
  {
    LoadInv(l1, l2);
    RunInv(Load(l1, l2), k, l1, l2);
    var s := Run(Load(l1, l2), k);
    ReadingIsLoaded(s.mem);
    ComparingIsLoaded(s.mem);
    ShowingIsLoaded(s.mem);
    ConstantsAreLoaded(s.mem);
    if s.pc <= 27 {
      AddressesWhileReading(s, l1, l2);
    } else if s.pc <= 47 {
      AddressesWhileComparing(s, l1, l2);
    } else {
      AddressesWhileDraining(s, l1, l2);
    }
  }

  lemma PlacedInPlace(s: State, l1: seq<Word>, l2: seq<Word>)
    requires s.Valid() && Placed(s, l1, l2) && s.pc >= INIT_COMPARE
    ensures InPlace(s, l1, l2)
  {
  }

  lemma StoredIsInput(m: seq<Word>, l1: seq<Word>, l2: seq<Word>)
    requires |m| == 100 && |l1| + |l2| <= 18 && Stored(m, l1 + [0] + l2, |l1| + 1 + |l2|)
    ensures m[ARRAY..ARRAY + |l1| + |l2| + 2] == Input(l1, l2)
  {
  }

  /** Once reading is over the array holds both lists with their zeros, and s2array points at the second. */
  lemma ListsAreInPlace(l1: seq<Word>, l2: seq<Word>, k: nat)
    requires NonZero(l1) && NonZero(l2) && |l1| + |l2| <= 18
    requires Run(Load(l1, l2), k).pc >= INIT_COMPARE
    ensures
      var s := Run(Load(l1, l2), k);
      && s.mem[ARRAY..ARRAY + |l1| + |l2| + 2] == Input(l1, l2)
      && s.mem[SARRAY] == Sto(ARRAY) && s.mem[S2ARRAY] as int == ARRAY + |l1| + 1
      && s.inbox == []
  {
    LoadInv(l1, l2);
    RunInv(Load(l1, l2), k, l1, l2);
    PlacedInPlace(Run(Load(l1, l2), k), l1, l2);
    StoredIsInput(Run(Load(l1, l2), k).mem, l1, l2);
  }

  /** Loading the program into a computer and letting it run until it stops. */
  method Simulate(l1: seq<Word>, l2: seq<Word>) returns (out: seq<Word>, status: Status)
    requires NonZero(l1) && NonZero(l2)
    ensures status != Running
    ensures status == Halted <==> |l1| + |l2| <= 18
    ensures if status == Halted then out == WordMerge(l1, l2) else out <= WordMerge(l1, l2)
  {
    LoadInv(l1, l2);
    var c := new Computer(Cells(), Input(l1, l2));
    while c.status == Running
      invariant c.Valid() && fresh(c) && fresh(c.mem)
      invariant Inv(c.View(), l1, l2)
      decreases CyclesLeft(c.View(), l1, l2)
    {
      CycleInv(c.View(), l1, l2);
      c.Cycle();
    }
    out, status := c.outbox, c.status;
  }
}
