/** Each cycle of the merge program, from the assertion at one cell to the assertion at the next. */
module MergeCycles {
  import opened LittleMan
  import opened MergeProgram

  /** A running state between two cycles of a run on the lists l1 and l2. */
  predicate Ready(s: State, l1: seq<Word>, l2: seq<Word>)
    requires s.Valid()
  {
    s.status == Running && Constants(s.mem) && NonZero(l1) && NonZero(l2)
  }

  lemma InputAt(l1: seq<Word>, l2: seq<Word>, k: nat)
    requires k < |Input(l1, l2)|
    ensures Input(l1, l2)[k..] != [] && Input(l1, l2)[k..][1..] == Input(l1, l2)[k + 1..]
    ensures Input(l1, l2)[k..][0] == if k <= |l1| then At(l1, k) else At(l2, k - |l1| - 1)
  {
  }

  lemma CycleStarting(s: State, l1: seq<Word>, l2: seq<Word>)
    requires s.Valid() && Ready(s, l1, l2) && ReadingCode(s.mem)
    requires Starting(s, l1, l2)
    ensures Starting(Step(s), l1, l2) || Reading1(Step(s), l1, l2)
    ensures Silent(s, Step(s), l1, l2)
    ensures CyclesLeft(Step(s), l1, l2) < CyclesLeft(s, l1, l2)
  {
  }

  lemma CycleInput1(s: State, l1: seq<Word>, l2: seq<Word>)
    requires s.Valid() && Ready(s, l1, l2) && ReadingCode(s.mem)
    requires Reading1(s, l1, l2) && s.pc <= 3
    ensures if s.pc == 3 && Stored1(s) == |l1| then Separating(Step(s), l1, l2) else Reading1(Step(s), l1, l2)
    ensures Silent(s, Step(s), l1, l2)
    ensures CyclesLeft(Step(s), l1, l2) < CyclesLeft(s, l1, l2)
  {
    if s.pc == 2 {
      InputAt(l1, l2, Stored1(s));
    }
  }

  lemma CycleStore1(s: State, l1: seq<Word>, l2: seq<Word>)
    requires s.Valid() && Ready(s, l1, l2) && ReadingCode(s.mem)
    requires Reading1(s, l1, l2) && s.pc == 4
    ensures if Stored1(s) < 20 then Reading1(Step(s), l1, l2) && Silent(s, Step(s), l1, l2)
            else Step(s).status == Faulted && |l1| > 20 && Step(s).outbox == s.outbox
    ensures CyclesLeft(Step(s), l1, l2) < CyclesLeft(s, l1, l2)
  {
    if Stored1(s) < 20 {
      assert Step(s) == s.(pc := 5, mem := s.mem[80 + Stored1(s) := s.acc]);
    }
  }

  lemma CycleNext1(s: State, l1: seq<Word>, l2: seq<Word>)
    requires s.Valid() && Ready(s, l1, l2) && ReadingCode(s.mem)
    requires Reading1(s, l1, l2) && s.pc in {5, 6}
    ensures Reading1(Step(s), l1, l2)
    ensures Silent(s, Step(s), l1, l2)
    ensures CyclesLeft(Step(s), l1, l2) < CyclesLeft(s, l1, l2)
  {
  }

  lemma CycleRepeat1(s: State, l1: seq<Word>, l2: seq<Word>)
    requires s.Valid() && Ready(s, l1, l2) && ReadingCode(s.mem)
    requires Reading1(s, l1, l2) && s.pc in {7, 8}
    ensures Reading1(Step(s), l1, l2)
    ensures Silent(s, Step(s), l1, l2)
    ensures CyclesLeft(Step(s), l1, l2) < CyclesLeft(s, l1, l2)
  {
  }

  lemma CycleSeparating(s: State, l1: seq<Word>, l2: seq<Word>)
    requires s.Valid() && Ready(s, l1, l2) && ReadingCode(s.mem)
    requires Separating(s, l1, l2) && s.pc <= 10
    ensures Separating(Step(s), l1, l2)
    ensures Silent(s, Step(s), l1, l2)
    ensures CyclesLeft(Step(s), l1, l2) < CyclesLeft(s, l1, l2)
  {
  }

  lemma CycleStoring2(s: State, l1: seq<Word>, l2: seq<Word>)
    requires s.Valid() && Ready(s, l1, l2) && ReadingCode(s.mem)
    requires Separating(s, l1, l2) && s.pc == 11
    ensures Separating(Step(s), l1, l2)
    ensures Silent(s, Step(s), l1, l2)
    ensures CyclesLeft(Step(s), l1, l2) < CyclesLeft(s, l1, l2)
  {
  }

  lemma CycleMarking(s: State, l1: seq<Word>, l2: seq<Word>)
    requires s.Valid() && Ready(s, l1, l2) && ReadingCode(s.mem)
    requires Separating(s, l1, l2) && 12 <= s.pc
    ensures Separating(Step(s), l1, l2) || Reading2(Step(s), l1, l2)
    ensures Silent(s, Step(s), l1, l2)
    ensures CyclesLeft(Step(s), l1, l2) < CyclesLeft(s, l1, l2)
  {
  }

  lemma CycleInput2(s: State, l1: seq<Word>, l2: seq<Word>)
    requires s.Valid() && Ready(s, l1, l2) && ReadingCode(s.mem)
    requires Reading2(s, l1, l2) && s.pc <= 15
    ensures if s.pc == 15 && Stored2(s, l1) == |l2| then Preparing(Step(s), l1, l2) else Reading2(Step(s), l1, l2)
    ensures Silent(s, Step(s), l1, l2)
    ensures CyclesLeft(Step(s), l1, l2) < CyclesLeft(s, l1, l2)
  {
    if s.pc == 14 {
      InputAt(l1, l2, |l1| + 1 + Stored2(s, l1));
    }
  }

  lemma CycleStore2(s: State, l1: seq<Word>, l2: seq<Word>)
    requires s.Valid() && Ready(s, l1, l2) && ReadingCode(s.mem)
    requires Reading2(s, l1, l2) && s.pc == 16
    ensures if |l1| + Stored2(s, l1) < 19 then Reading2(Step(s), l1, l2) && Silent(s, Step(s), l1, l2)
            else Step(s).status == Faulted && |l1| + |l2| > 19 && Step(s).outbox == s.outbox
    ensures CyclesLeft(Step(s), l1, l2) < CyclesLeft(s, l1, l2)
  {
    if |l1| + Stored2(s, l1) < 19 {
      assert Step(s) == s.(pc := 17, mem := s.mem[81 + |l1| + Stored2(s, l1) := s.acc]);
    }
  }

  lemma CycleNext2(s: State, l1: seq<Word>, l2: seq<Word>)
    requires s.Valid() && Ready(s, l1, l2) && ReadingCode(s.mem)
    requires Reading2(s, l1, l2) && s.pc in {17, 18}
    ensures Reading2(Step(s), l1, l2)
    ensures Silent(s, Step(s), l1, l2)
    ensures CyclesLeft(Step(s), l1, l2) < CyclesLeft(s, l1, l2)
  {
  }

  lemma CycleRepeat2(s: State, l1: seq<Word>, l2: seq<Word>)
    requires s.Valid() && Ready(s, l1, l2) && ReadingCode(s.mem)
    requires Reading2(s, l1, l2) && s.pc in {19, 20}
    ensures Reading2(Step(s), l1, l2)
    ensures Silent(s, Step(s), l1, l2)
    ensures CyclesLeft(Step(s), l1, l2) < CyclesLeft(s, l1, l2)
  {
  }

  lemma CycleSetting1(s: State, l1: seq<Word>, l2: seq<Word>)
    requires s.Valid() && Ready(s, l1, l2) && ComparingCode(s.mem)
    requires Preparing(s, l1, l2) && s.pc <= 22
    ensures Preparing(Step(s), l1, l2)
    ensures Silent(s, Step(s), l1, l2)
    ensures CyclesLeft(Step(s), l1, l2) < CyclesLeft(s, l1, l2)
  {
  }

  lemma CycleStoringSet1(s: State, l1: seq<Word>, l2: seq<Word>)
    requires s.Valid() && Ready(s, l1, l2) && ComparingCode(s.mem)
    requires Preparing(s, l1, l2) && s.pc in {23, 24}
    ensures Preparing(Step(s), l1, l2)
    ensures Silent(s, Step(s), l1, l2)
    ensures CyclesLeft(Step(s), l1, l2) < CyclesLeft(s, l1, l2)
  {
  }

  lemma CycleSetting2(s: State, l1: seq<Word>, l2: seq<Word>)
    requires s.Valid() && Ready(s, l1, l2) && ComparingCode(s.mem)
    requires Preparing(s, l1, l2) && s.pc in {25, 26}
    ensures Preparing(Step(s), l1, l2)
    ensures Silent(s, Step(s), l1, l2)
    ensures CyclesLeft(Step(s), l1, l2) < CyclesLeft(s, l1, l2)
  {
  }

  lemma CycleStoringSet2(s: State, l1: seq<Word>, l2: seq<Word>)
    requires s.Valid() && Ready(s, l1, l2) && ComparingCode(s.mem)
    requires Preparing(s, l1, l2) && s.pc == 27
    ensures Comparing(Step(s), l1, l2)
    ensures Silent(s, Step(s), l1, l2)
    ensures CyclesLeft(Step(s), l1, l2) < CyclesLeft(s, l1, l2)
  {
  }

  lemma CycleLoading2(s: State, l1: seq<Word>, l2: seq<Word>)
    requires s.Valid() && Ready(s, l1, l2) && ComparingCode(s.mem)
    requires Comparing(s, l1, l2) && s.pc in {28, 29}
    ensures if s.pc == 28 && s.mem[28] >= 600 then Restarted(Step(s), l1, l2)
            else Comparing(Step(s), l1, l2) && Silent(s, Step(s), l1, l2)
    ensures Step(s).outbox == s.outbox && Step(s).status == Running
    ensures CyclesLeft(Step(s), l1, l2) < CyclesLeft(s, l1, l2)
  {
  }

  lemma CycleFetching1(s: State, l1: seq<Word>, l2: seq<Word>)
    requires s.Valid() && Ready(s, l1, l2) && ComparingCode(s.mem)
    requires Comparing(s, l1, l2) && s.pc == 30
    ensures Comparing(Step(s), l1, l2)
    ensures Silent(s, Step(s), l1, l2)
    ensures CyclesLeft(Step(s), l1, l2) < CyclesLeft(s, l1, l2)
  {
  }

  lemma CycleKeeping1(s: State, l1: seq<Word>, l2: seq<Word>)
    requires s.Valid() && Ready(s, l1, l2) && ComparingCode(s.mem)
    requires Comparing(s, l1, l2) && s.pc in {31, 32}
    ensures Comparing(Step(s), l1, l2)
    ensures Silent(s, Step(s), l1, l2)
    ensures CyclesLeft(Step(s), l1, l2) < CyclesLeft(s, l1, l2)
  {
  }

  lemma CycleComparing(s: State, l1: seq<Word>, l2: seq<Word>)
    requires s.Valid() && Ready(s, l1, l2) && ComparingCode(s.mem)
    requires Comparing(s, l1, l2) && s.pc == 33
    ensures Comparing(Step(s), l1, l2)
    ensures Silent(s, Step(s), l1, l2)
    ensures CyclesLeft(Step(s), l1, l2) < CyclesLeft(s, l1, l2)
  {
  }

  lemma CycleEnding1(s: State, l1: seq<Word>, l2: seq<Word>)
    requires s.Valid() && Ready(s, l1, l2) && ComparingCode(s.mem)
    requires Comparing(s, l1, l2) && s.pc in {34, 35}
    ensures if s.pc == 35 && Out1(s) == |l1| then Draining2(Step(s), l1, l2) else Comparing(Step(s), l1, l2)
    ensures Silent(s, Step(s), l1, l2)
    ensures CyclesLeft(Step(s), l1, l2) < CyclesLeft(s, l1, l2)
  {
  }

  lemma CycleEnding2(s: State, l1: seq<Word>, l2: seq<Word>)
    requires s.Valid() && Ready(s, l1, l2) && ComparingCode(s.mem)
    requires Comparing(s, l1, l2) && s.pc in {41, 42}
    ensures if s.pc == 42 && Out2(s, l1) == |l2| then Draining1(Step(s), l1, l2) else Comparing(Step(s), l1, l2)
    ensures Silent(s, Step(s), l1, l2)
    ensures CyclesLeft(Step(s), l1, l2) < CyclesLeft(s, l1, l2)
  {
  }

  lemma CycleShowing1(s: State, l1: seq<Word>, l2: seq<Word>)
    requires s.Valid() && Ready(s, l1, l2) && ComparingCode(s.mem)
    requires Comparing(s, l1, l2) && s.pc == 36
    ensures Comparing(Step(s), l1, l2)
    ensures Shows1(s, Step(s), l1, l2)
    ensures CyclesLeft(Step(s), l1, l2) < CyclesLeft(s, l1, l2)
  {
  }

  lemma CycleShowing2(s: State, l1: seq<Word>, l2: seq<Word>)
    requires s.Valid() && Ready(s, l1, l2) && ComparingCode(s.mem)
    requires Comparing(s, l1, l2) && s.pc == 43
    ensures Comparing(Step(s), l1, l2)
    ensures Shows2(s, Step(s), l1, l2)
    ensures CyclesLeft(Step(s), l1, l2) < CyclesLeft(s, l1, l2)
  {
  }

  lemma CycleAdvancing1(s: State, l1: seq<Word>, l2: seq<Word>)
    requires s.Valid() && Ready(s, l1, l2) && ComparingCode(s.mem)
    requires Comparing(s, l1, l2) && s.pc in {37, 38}
    ensures Comparing(Step(s), l1, l2)
    ensures Silent(s, Step(s), l1, l2)
    ensures CyclesLeft(Step(s), l1, l2) < CyclesLeft(s, l1, l2)
  {
  }

  lemma CycleTurning1(s: State, l1: seq<Word>, l2: seq<Word>)
    requires s.Valid() && Ready(s, l1, l2) && ComparingCode(s.mem)
    requires Comparing(s, l1, l2) && s.pc in {39, 40}
    ensures Comparing(Step(s), l1, l2)
    ensures Silent(s, Step(s), l1, l2)
    ensures CyclesLeft(Step(s), l1, l2) < CyclesLeft(s, l1, l2)
  {
  }

  lemma CycleAdvancing2(s: State, l1: seq<Word>, l2: seq<Word>)
    requires s.Valid() && Ready(s, l1, l2) && ComparingCode(s.mem)
    requires Comparing(s, l1, l2) && s.pc in {44, 45}
    ensures Comparing(Step(s), l1, l2)
    ensures Silent(s, Step(s), l1, l2)
    ensures CyclesLeft(Step(s), l1, l2) < CyclesLeft(s, l1, l2)
  {
  }

  lemma CycleTurning2(s: State, l1: seq<Word>, l2: seq<Word>)
    requires s.Valid() && Ready(s, l1, l2) && ComparingCode(s.mem)
    requires Comparing(s, l1, l2) && s.pc in {46, 47}
    ensures Comparing(Step(s), l1, l2)
    ensures Silent(s, Step(s), l1, l2)
    ensures CyclesLeft(Step(s), l1, l2) < CyclesLeft(s, l1, l2)
  {
  }

  lemma CycleLeaving2(s: State, l1: seq<Word>, l2: seq<Word>)
    requires s.Valid() && Ready(s, l1, l2) && ShowingCode(s.mem)
    requires Draining2(s, l1, l2) && s.pc in {48, 49}
    ensures Draining2(Step(s), l1, l2) || Finishing(Step(s), l1, l2)
    ensures Silent(s, Step(s), l1, l2)
    ensures CyclesLeft(Step(s), l1, l2) < CyclesLeft(s, l1, l2)
  {
  }

  lemma CycleStoringRest2(s: State, l1: seq<Word>, l2: seq<Word>)
    requires s.Valid() && Ready(s, l1, l2) && ShowingCode(s.mem)
    requires Draining2(s, l1, l2) && s.pc in {50, 51}
    ensures Draining2(Step(s), l1, l2)
    ensures Silent(s, Step(s), l1, l2)
    ensures CyclesLeft(Step(s), l1, l2) < CyclesLeft(s, l1, l2)
  {
  }

  lemma CycleDraining2(s: State, l1: seq<Word>, l2: seq<Word>)
    requires s.Valid() && Ready(s, l1, l2) && ShowingCode(s.mem)
    requires Draining2(s, l1, l2) && s.pc == 52
    ensures if s.mem[52] >= 600 then Restarted(Step(s), l1, l2)
            else Draining2(Step(s), l1, l2) && Silent(s, Step(s), l1, l2)
    ensures Step(s).outbox == s.outbox && Step(s).status == Running
    ensures CyclesLeft(Step(s), l1, l2) < CyclesLeft(s, l1, l2)
  {
  }

  lemma CycleRest2(s: State, l1: seq<Word>, l2: seq<Word>)
    requires s.Valid() && Ready(s, l1, l2) && ShowingCode(s.mem)
    requires Draining2(s, l1, l2) && s.pc == 53
    ensures Draining2(Step(s), l1, l2) || Finishing(Step(s), l1, l2)
    ensures Silent(s, Step(s), l1, l2)
    ensures CyclesLeft(Step(s), l1, l2) < CyclesLeft(s, l1, l2)
  {
  }

  lemma CycleShowingRest2(s: State, l1: seq<Word>, l2: seq<Word>)
    requires s.Valid() && Ready(s, l1, l2) && ShowingCode(s.mem)
    requires Draining2(s, l1, l2) && s.pc == 54
    ensures Draining2(Step(s), l1, l2)
    ensures Shows2(s, Step(s), l1, l2)
    ensures CyclesLeft(Step(s), l1, l2) < CyclesLeft(s, l1, l2)
  {
  }

  lemma CycleNextRest2(s: State, l1: seq<Word>, l2: seq<Word>)
    requires s.Valid() && Ready(s, l1, l2) && ShowingCode(s.mem)
    requires Draining2(s, l1, l2) && s.pc in {55, 56}
    ensures Draining2(Step(s), l1, l2)
    ensures Silent(s, Step(s), l1, l2)
    ensures CyclesLeft(Step(s), l1, l2) < CyclesLeft(s, l1, l2)
  {
  }

  lemma CycleRepeatRest2(s: State, l1: seq<Word>, l2: seq<Word>)
    requires s.Valid() && Ready(s, l1, l2) && ShowingCode(s.mem)
    requires Draining2(s, l1, l2) && s.pc in {57, 58}
    ensures Draining2(Step(s), l1, l2)
    ensures Silent(s, Step(s), l1, l2)
    ensures CyclesLeft(Step(s), l1, l2) < CyclesLeft(s, l1, l2)
  {
  }

  lemma CycleLeaving1(s: State, l1: seq<Word>, l2: seq<Word>)
    requires s.Valid() && Ready(s, l1, l2) && ShowingCode(s.mem)
    requires Draining1(s, l1, l2) && s.pc in {59, 60}
    ensures Draining1(Step(s), l1, l2) || Finishing(Step(s), l1, l2)
    ensures Silent(s, Step(s), l1, l2)
    ensures CyclesLeft(Step(s), l1, l2) < CyclesLeft(s, l1, l2)
  {
  }

  lemma CycleStoringRest1(s: State, l1: seq<Word>, l2: seq<Word>)
    requires s.Valid() && Ready(s, l1, l2) && ShowingCode(s.mem)
    requires Draining1(s, l1, l2) && s.pc in {61, 62}
    ensures Draining1(Step(s), l1, l2)
    ensures Silent(s, Step(s), l1, l2)
    ensures CyclesLeft(Step(s), l1, l2) < CyclesLeft(s, l1, l2)
  {
  }

  lemma CycleRest1(s: State, l1: seq<Word>, l2: seq<Word>)
    requires s.Valid() && Ready(s, l1, l2) && ShowingCode(s.mem)
    requires Draining1(s, l1, l2) && s.pc in {63, 64}
    ensures Draining1(Step(s), l1, l2) || Finishing(Step(s), l1, l2)
    ensures Silent(s, Step(s), l1, l2)
    ensures CyclesLeft(Step(s), l1, l2) < CyclesLeft(s, l1, l2)
  {
  }

  lemma CycleShowingRest1(s: State, l1: seq<Word>, l2: seq<Word>)
    requires s.Valid() && Ready(s, l1, l2) && ShowingCode(s.mem)
    requires Draining1(s, l1, l2) && s.pc == 65
    ensures Draining1(Step(s), l1, l2)
    ensures Shows1(s, Step(s), l1, l2)
    ensures CyclesLeft(Step(s), l1, l2) < CyclesLeft(s, l1, l2)
  {
  }

  lemma CycleNextRest1(s: State, l1: seq<Word>, l2: seq<Word>)
    requires s.Valid() && Ready(s, l1, l2) && ShowingCode(s.mem)
    requires Draining1(s, l1, l2) && s.pc in {66, 67}
    ensures Draining1(Step(s), l1, l2)
    ensures Silent(s, Step(s), l1, l2)
    ensures CyclesLeft(Step(s), l1, l2) < CyclesLeft(s, l1, l2)
  {
  }

  lemma CycleRepeatRest1(s: State, l1: seq<Word>, l2: seq<Word>)
    requires s.Valid() && Ready(s, l1, l2) && ShowingCode(s.mem)
    requires Draining1(s, l1, l2) && s.pc in {68, 69}
    ensures Draining1(Step(s), l1, l2)
    ensures Silent(s, Step(s), l1, l2)
    ensures CyclesLeft(Step(s), l1, l2) < CyclesLeft(s, l1, l2)
  {
  }

  lemma CycleRestarted(s: State, l1: seq<Word>, l2: seq<Word>)
    requires s.Valid() && Ready(s, l1, l2) && ReadingCode(s.mem)
    requires Restarted(s, l1, l2)
    ensures Restarted(Step(s), l1, l2) && Step(s).outbox == s.outbox
    ensures Step(s).status == if s.pc == 2 then Waiting else Running
    ensures CyclesLeft(Step(s), l1, l2) < CyclesLeft(s, l1, l2)
  {
    assert s.pc == 0 || s.pc == 1 || s.pc == 2;
  }

  // ---------- Whole cycles ----------

  /** Only instructions the program means to rewrite, and data cells, are ever written. */
  lemma KeepsCode(m: seq<Word>, a: nat, v: Word)
    requires |m| == 100 && CodeIntact(m) && (Patched(a) || NB1 <= a < 100)
    ensures CodeIntact(m[a := v])
  {
  }

  /** Where the STO under the program counter writes. */
  lemma StoreTarget(s: State, l1: seq<Word>, l2: seq<Word>)
    requires s.Valid() && Ready(s, l1, l2) && CodeIntact(s.mem) && (Placed(s, l1, l2) || Restarted(s, l1, l2))
    requires s.mem[s.pc] / 100 == 3
    ensures Patched(s.mem[s.pc] % 100) || NB1 <= s.mem[s.pc] % 100
  {
  }

  lemma CycleKeepsCode(s: State, l1: seq<Word>, l2: seq<Word>)
    requires s.Valid() && Ready(s, l1, l2) && CodeIntact(s.mem) && (Placed(s, l1, l2) || Restarted(s, l1, l2))
    ensures CodeIntact(Step(s).mem)
  {
    if s.mem[s.pc] / 100 == 3 {
      StoreTarget(s, l1, l2);
      KeepsCode(s.mem, s.mem[s.pc] % 100, s.acc);
    }
  }

  /** From an assertion, in step with the merge, to the next one, or to the end of the run. */
  predicate Goes(s: State, t: State, l1: seq<Word>, l2: seq<Word>)
    requires s.Valid() && t.Valid()
  {
    CyclesLeft(t, l1, l2) < CyclesLeft(s, l1, l2) &&
    match t.status
    case Running =>
      (Placed(t, l1, l2) && (Silent(s, t, l1, l2) || Shows1(s, t, l1, l2) || Shows2(s, t, l1, l2))) ||
      (Restarted(t, l1, l2) && t.outbox == s.outbox)
    case Halted => Finishing(t, l1, l2) && t.outbox == s.outbox && Left1(s, l1) == Left2(s, l1, l2) == []
    case Waiting => false
    case Faulted => |l1| + |l2| > 19 && t.outbox == s.outbox
  }

  lemma GoesReading1(s: State, l1: seq<Word>, l2: seq<Word>)
    requires s.Valid() && Ready(s, l1, l2) && CodeIntact(s.mem) && Reading1(s, l1, l2)
    ensures Goes(s, Step(s), l1, l2)
  {
    if s.pc <= 3 {
      CycleInput1(s, l1, l2);
    } else if s.pc == 4 {
      CycleStore1(s, l1, l2);
    } else if s.pc <= 6 {
      CycleNext1(s, l1, l2);
    } else {
      CycleRepeat1(s, l1, l2);
    }
  }

  lemma GoesSeparating(s: State, l1: seq<Word>, l2: seq<Word>)
    requires s.Valid() && Ready(s, l1, l2) && CodeIntact(s.mem) && Separating(s, l1, l2)
    ensures Goes(s, Step(s), l1, l2)
  {
    if s.pc <= 10 {
      CycleSeparating(s, l1, l2);
    } else if s.pc == 11 {
      CycleStoring2(s, l1, l2);
    } else {
      CycleMarking(s, l1, l2);
    }
  }

  lemma GoesReading2(s: State, l1: seq<Word>, l2: seq<Word>)
    requires s.Valid() && Ready(s, l1, l2) && CodeIntact(s.mem) && Reading2(s, l1, l2)
    ensures Goes(s, Step(s), l1, l2)
  {
    if s.pc <= 15 {
      CycleInput2(s, l1, l2);
    } else if s.pc == 16 {
      CycleStore2(s, l1, l2);
    } else if s.pc <= 18 {
      CycleNext2(s, l1, l2);
    } else {
      CycleRepeat2(s, l1, l2);
    }
  }

  lemma GoesPreparing(s: State, l1: seq<Word>, l2: seq<Word>)
    requires s.Valid() && Ready(s, l1, l2) && CodeIntact(s.mem) && Preparing(s, l1, l2)
    ensures Goes(s, Step(s), l1, l2)
  {
    if s.pc <= 22 {
      CycleSetting1(s, l1, l2);
    } else if s.pc <= 24 {
      CycleStoringSet1(s, l1, l2);
    } else if s.pc <= 26 {
      CycleSetting2(s, l1, l2);
    } else {
      CycleStoringSet2(s, l1, l2);
    }
  }

  lemma GoesComparing(s: State, l1: seq<Word>, l2: seq<Word>)
    requires s.Valid() && Ready(s, l1, l2) && CodeIntact(s.mem) && Comparing(s, l1, l2) && s.pc <= 35
    ensures Goes(s, Step(s), l1, l2)
  {
    if s.pc <= 29 {
      CycleLoading2(s, l1, l2);
    } else if s.pc == 30 {
      CycleFetching1(s, l1, l2);
    } else if s.pc <= 32 {
      CycleKeeping1(s, l1, l2);
    } else if s.pc == 33 {
      CycleComparing(s, l1, l2);
    } else {
      CycleEnding1(s, l1, l2);
    }
  }

  lemma GoesShowing1(s: State, l1: seq<Word>, l2: seq<Word>)
    requires s.Valid() && Ready(s, l1, l2) && CodeIntact(s.mem) && Comparing(s, l1, l2) && 36 <= s.pc <= 40
    ensures Goes(s, Step(s), l1, l2)
  {
    if s.pc == 36 {
      CycleShowing1(s, l1, l2);
    } else if s.pc <= 38 {
      CycleAdvancing1(s, l1, l2);
    } else {
      CycleTurning1(s, l1, l2);
    }
  }

  lemma GoesShowing2(s: State, l1: seq<Word>, l2: seq<Word>)
    requires s.Valid() && Ready(s, l1, l2) && CodeIntact(s.mem) && Comparing(s, l1, l2) && 41 <= s.pc
    ensures Goes(s, Step(s), l1, l2)
  {
    if s.pc <= 42 {
      CycleEnding2(s, l1, l2);
    } else if s.pc == 43 {
      CycleShowing2(s, l1, l2);
    } else if s.pc <= 45 {
      CycleAdvancing2(s, l1, l2);
    } else {
      CycleTurning2(s, l1, l2);
    }
  }

  lemma GoesDraining2(s: State, l1: seq<Word>, l2: seq<Word>)
    requires s.Valid() && Ready(s, l1, l2) && CodeIntact(s.mem) && Draining2(s, l1, l2)
    ensures Goes(s, Step(s), l1, l2)
  {
    if s.pc <= 49 {
      CycleLeaving2(s, l1, l2);
    } else if s.pc <= 51 {
      CycleStoringRest2(s, l1, l2);
    } else if s.pc == 52 {
      CycleDraining2(s, l1, l2);
    } else if s.pc == 53 {
      CycleRest2(s, l1, l2);
    } else if s.pc == 54 {
      CycleShowingRest2(s, l1, l2);
    } else if s.pc <= 56 {
      CycleNextRest2(s, l1, l2);
    } else {
      CycleRepeatRest2(s, l1, l2);
    }
  }

  lemma GoesDraining1(s: State, l1: seq<Word>, l2: seq<Word>)
    requires s.Valid() && Ready(s, l1, l2) && CodeIntact(s.mem) && Draining1(s, l1, l2)
    ensures Goes(s, Step(s), l1, l2)
  {
    if s.pc <= 60 {
      CycleLeaving1(s, l1, l2);
    } else if s.pc <= 62 {
      CycleStoringRest1(s, l1, l2);
    } else if s.pc <= 64 {
      CycleRest1(s, l1, l2);
    } else if s.pc == 65 {
      CycleShowingRest1(s, l1, l2);
    } else if s.pc <= 67 {
      CycleNextRest1(s, l1, l2);
    } else {
      CycleRepeatRest1(s, l1, l2);
    }
  }

  lemma GoesPlaced(s: State, l1: seq<Word>, l2: seq<Word>)
    requires s.Valid() && Ready(s, l1, l2) && CodeIntact(s.mem) && Placed(s, l1, l2)
    ensures Goes(s, Step(s), l1, l2)
  {
    if s.pc <= 1 {
      CycleStarting(s, l1, l2);
    } else if s.pc <= 8 {
      GoesReading1(s, l1, l2);
    } else if s.pc <= 13 {
      GoesSeparating(s, l1, l2);
    } else if s.pc <= 20 {
      GoesReading2(s, l1, l2);
    } else if s.pc <= 27 {
      GoesPreparing(s, l1, l2);
    } else if s.pc <= 35 {
      GoesComparing(s, l1, l2);
    } else if s.pc <= 40 {
      GoesShowing1(s, l1, l2);
    } else if s.pc <= 47 {
      GoesShowing2(s, l1, l2);
    } else if s.pc <= 58 {
      GoesDraining2(s, l1, l2);
    } else if s.pc <= 69 {
      GoesDraining1(s, l1, l2);
    }
  }
}
