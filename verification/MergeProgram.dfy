/** The self-modifying merge: its listing, the assertion that holds at each of its cells,
    and the theorems about every run of it. */
module MergeProgram {
  import opened LittleMan
  import opened MergeSpec

  // Labels, as the assembler places them.
  const INPUT_LIST1: nat := 2
  const VALUE_AT_OF_LIST1: nat := 4
  const SEPARATE_LISTS_BY_ZERO: nat := 9
  const INPUT_LIST2: nat := 14
  const VALUE_AT_OF_LIST2: nat := 16
  const INIT_COMPARE: nat := 21
  const SET_L2_FOR_COMPARE: nat := 28
  const SET_L1_FOR_COMPARE: nat := 30
  const NB2_IS_SMALLER: nat := 41
  const ARRANGE_COMPARE: nat := 47
  const ARRANGE_SHOW_LIST2_REST: nat := 48
  const SHOW_REST_LIST2: nat := 52
  const ARRANGE_SHOW_REST_LIST1: nat := 59
  const SHOW_REST_LIST1: nat := 63
  const FIN: nat := 70
  const ONE: nat := 71
  const ST: nat := 72
  const LD: nat := 73
  const NB1: nat := 74
  const NB2: nat := 75
  const IDX_L1: nat := 76
  const IDX_L2: nat := 77
  const SARRAY: nat := 78
  const S2ARRAY: nat := 79
  const ARRAY: nat := 80

  // The assembled program, label by label.

  const INIT_CODE: seq<Word> := [Lda(VALUE_AT_OF_LIST1), Sto(SARRAY)]
  const INPUT_LIST1_CODE: seq<Word> := [
    IN, Brz(SEPARATE_LISTS_BY_ZERO),
    Sto(ARRAY), Lda(VALUE_AT_OF_LIST1), Add(ONE), Sto(VALUE_AT_OF_LIST1), Br(INPUT_LIST1)]
  const SEPARATE_LISTS_CODE: seq<Word> := [
    Lda(VALUE_AT_OF_LIST1), Add(ONE), Sto(VALUE_AT_OF_LIST2), Sub(ST), Sto(S2ARRAY)]
  const INPUT_LIST2_CODE: seq<Word> := [
    IN, Brz(INIT_COMPARE),
    Sto(ARRAY), Lda(VALUE_AT_OF_LIST2), Add(ONE), Sto(VALUE_AT_OF_LIST2), Br(INPUT_LIST2)]
  const INIT_COMPARE_CODE: seq<Word> := [
    Lda(SARRAY), Sub(ST), Add(LD), Sto(SET_L1_FOR_COMPARE),
    Lda(S2ARRAY), Add(LD), Sto(SET_L2_FOR_COMPARE)]
  const START_COMPARE_CODE: seq<Word> := [Lda(NB2), Sto(NB2), Lda(NB1), Sto(NB1), Sub(NB2), Brp(NB2_IS_SMALLER)]
  const NB1_IS_SMALLER_CODE: seq<Word> := [
    Lda(NB1), Brz(ARRANGE_SHOW_LIST2_REST), OUT,
    Lda(SET_L1_FOR_COMPARE), Add(ONE), Sto(SET_L1_FOR_COMPARE), Br(ARRANGE_COMPARE)]
  const NB2_IS_SMALLER_CODE: seq<Word> := [
    Lda(NB2), Brz(ARRANGE_SHOW_REST_LIST1), OUT,
    Lda(SET_L2_FOR_COMPARE), Add(ONE), Sto(SET_L2_FOR_COMPARE),
    Br(SET_L2_FOR_COMPARE)]
  const ARRANGE_SHOW_LIST2_CODE: seq<Word> := [
    Lda(NB2), Brz(FIN), Lda(SET_L2_FOR_COMPARE), Sto(SHOW_REST_LIST2)]
  const SHOW_REST_LIST2_CODE: seq<Word> := [
    Lda(IDX_L2), Brz(FIN), OUT, Lda(SHOW_REST_LIST2), Add(ONE), Sto(SHOW_REST_LIST2), Br(SHOW_REST_LIST2)]
  const ARRANGE_SHOW_LIST1_CODE: seq<Word> := [
    Lda(NB1), Brz(FIN), Lda(SET_L1_FOR_COMPARE), Sto(SHOW_REST_LIST1)]
  const SHOW_REST_LIST1_CODE: seq<Word> := [
    Lda(IDX_L1), Brz(FIN), OUT, Lda(SHOW_REST_LIST1), Add(ONE), Sto(SHOW_REST_LIST1), Br(SHOW_REST_LIST1)]
  const FIN_AND_CONSTANTS: seq<Word> := [HLT, 1, 300, 500]

  function ReadingPart(): seq<Word> {
    INIT_CODE + INPUT_LIST1_CODE + SEPARATE_LISTS_CODE + INPUT_LIST2_CODE
  }

  function ComparingPart(): seq<Word> {
    INIT_COMPARE_CODE + START_COMPARE_CODE + NB1_IS_SMALLER_CODE + NB2_IS_SMALLER_CODE
  }

  function ShowingPart(): seq<Word> {
    ARRANGE_SHOW_LIST2_CODE + SHOW_REST_LIST2_CODE + ARRANGE_SHOW_LIST1_CODE + SHOW_REST_LIST1_CODE
  }

  /** The loaded cells: the program, then variables and array, which start at 0. */
  function Cells(): (m: seq<Word>)
    ensures |m| == 100
  {
    ReadingPart() + ComparingPart() + ShowingPart() + FIN_AND_CONSTANTS + seq(26, _ => 0)
  }

  function Input(l1: seq<Word>, l2: seq<Word>): seq<Word> {
    l1 + [0] + l2 + [0]
  }

  /** The loaded machine with two zero-terminated lists in its in-box. */
  function Load(l1: seq<Word>, l2: seq<Word>): (s: State)
    ensures s.Valid()
  {
    State(Cells(), 0, 0, Input(l1, l2), [], Running)
  }

  /** The six instructions the program rewrites. */
  predicate Patched(c: nat) {
    c == VALUE_AT_OF_LIST1 || c == VALUE_AT_OF_LIST2 || c == SET_L2_FOR_COMPARE ||
    c == SET_L1_FOR_COMPARE || c == SHOW_REST_LIST2 || c == SHOW_REST_LIST1
  }

  /** Lists of nonzero words: a zero ends a list. */
  predicate NonZero(l: seq<Word>) {
    forall k | 0 <= k < |l| :: l[k] != 0
  }

  /** Position k of a zero-terminated list: its zero at the end. */
  function At(l: seq<Word>, k: nat): Word
    requires k <= |l|
  {
    if k == |l| then 0 else l[k]
  }

  // ---------- The assertion at each cell ----------

  predicate ReadingCode(m: seq<Word>)
    requires |m| == 100
  {
    && m[0] == 504 && m[1] == 378 && m[2] == 901 && m[3] == 709
    && m[5] == 504 && m[6] == 171 && m[7] == 304 && m[8] == 602
    && m[9] == 504 && m[10] == 171 && m[11] == 316 && m[12] == 272 && m[13] == 379
    && m[14] == 901 && m[15] == 721 && m[17] == 516 && m[18] == 171 && m[19] == 316 && m[20] == 614
  }

  predicate ComparingCode(m: seq<Word>)
    requires |m| == 100
  {
    && m[21] == 578 && m[22] == 272 && m[23] == 173 && m[24] == 330
    && m[25] == 579 && m[26] == 173 && m[27] == 328
    && m[29] == 375 && m[31] == 374 && m[32] == 275 && m[33] == 841
    && m[34] == 574 && m[35] == 748 && m[36] == 902
    && m[37] == 530 && m[38] == 171 && m[39] == 330 && m[40] == 647
    && m[41] == 575 && m[42] == 759 && m[43] == 902
    && m[44] == 528 && m[45] == 171 && m[46] == 328 && m[47] == 628
  }

  predicate ShowingCode(m: seq<Word>)
    requires |m| == 100
  {
    && m[48] == 575 && m[49] == 770 && m[50] == 528 && m[51] == 352
    && m[53] == 770 && m[54] == 902 && m[55] == 552 && m[56] == 171 && m[57] == 352 && m[58] == 652
    && m[59] == 574 && m[60] == 770 && m[61] == 530 && m[62] == 363
    && m[64] == 770 && m[65] == 902 && m[66] == 563 && m[67] == 171 && m[68] == 363 && m[69] == 663
  }

  predicate Constants(m: seq<Word>)
    requires |m| == 100
  {
    m[70] == 0 && m[71] == 1 && m[72] == 300 && m[73] == 500
  }

  /** The cells that no instruction writes hold the program. */
  predicate CodeIntact(m: seq<Word>)
    requires |m| == 100
  {
    ReadingCode(m) && ComparingCode(m) && ShowingCode(m) && Constants(m)
  }

  /** The array region holds the first t words of all, then zeros. */
  predicate Stored(m: seq<Word>, all: seq<Word>, t: nat)
    requires |m| == 100 && t <= |all|
  {
    forall c | 80 <= c < 100 :: m[c] == if c - 80 < t then all[c - 80] else 0
  }

  predicate Starting(s: State, l1: seq<Word>, l2: seq<Word>)
    requires s.Valid()
  {
    && s.pc <= 1
    && (s.pc == 1 ==> s.acc == 380)
    && s.mem[4] == 380 && s.mem[16] == 380 && s.mem[28] == 575 && s.mem[30] == 574
    && s.mem[52] == 577 && s.mem[63] == 576
    && Stored(s.mem, l1 + [0] + l2, 0)
    && s.inbox == Input(l1, l2)
  }

  /** How many words of the first list have been stored. */
  function Stored1(s: State): int
    requires s.Valid()
  {
    (s.mem[4] as int) - 380 + if 5 <= s.pc <= 7 then 1 else 0
  }

  predicate Reading1(s: State, l1: seq<Word>, l2: seq<Word>)
    requires s.Valid()
  {
    var i := Stored1(s);
    && 2 <= s.pc <= 8
    && 0 <= i <= |l1| && i <= 20
    && (5 <= s.pc <= 7 ==> i > 0)
    && (s.pc == 6 ==> s.acc == 379 + i)
    && (s.pc == 7 ==> s.acc == 380 + i)
    && s.mem[16] == 380 && s.mem[28] == 575 && s.mem[30] == 574 && s.mem[52] == 577 && s.mem[63] == 576
    && s.mem[78] == 380
    && Stored(s.mem, l1 + [0] + l2, i)
    && (if s.pc == 3 || s.pc == 4 then
          s.acc == At(l1, i) && (s.pc == 4 ==> i < |l1|) && s.inbox == Input(l1, l2)[i + 1..]
        else s.inbox == Input(l1, l2)[i..])
  }

  predicate Separating(s: State, l1: seq<Word>, l2: seq<Word>)
    requires s.Valid()
  {
    var n := |l1|;
    && 9 <= s.pc <= 13
    && n <= 20
    && s.mem[4] == 380 + n
    && (s.pc == 10 ==> s.acc == 380 + n)
    && (s.pc == 11 || s.pc == 12 ==> s.acc == 381 + n)
    && (s.pc == 13 ==> s.acc == 81 + n)
    && s.mem[16] == (if s.pc <= 11 then 380 else 381 + n)
    && s.mem[28] == 575 && s.mem[30] == 574 && s.mem[52] == 577 && s.mem[63] == 576
    && s.mem[78] == 380
    && Stored(s.mem, l1 + [0] + l2, n + 1)
    && s.inbox == Input(l1, l2)[n + 1..]
  }

  /** How many words of the second list have been stored. */
  function Stored2(s: State, l1: seq<Word>): int
    requires s.Valid()
  {
    (s.mem[16] as int) - 381 - |l1| + if 17 <= s.pc <= 19 then 1 else 0
  }

  predicate Reading2(s: State, l1: seq<Word>, l2: seq<Word>)
    requires s.Valid()
  {
    var n := |l1|;
    var j := Stored2(s, l1);
    && 14 <= s.pc <= 20
    && n <= 20
    && 0 <= j <= |l2| && (n + j <= 19 || j == 0)
    && (17 <= s.pc <= 19 ==> j > 0)
    && (s.pc == 18 ==> s.acc == 380 + n + j)
    && (s.pc == 19 ==> s.acc == 381 + n + j)
    && s.mem[4] == 380 + n
    && s.mem[28] == 575 && s.mem[30] == 574 && s.mem[52] == 577 && s.mem[63] == 576
    && s.mem[78] == 380 && s.mem[79] == 81 + n
    && Stored(s.mem, l1 + [0] + l2, n + 1 + j)
    && (if s.pc == 15 || s.pc == 16 then
          s.acc == At(l2, j) && (s.pc == 16 ==> j < |l2|) && s.inbox == Input(l1, l2)[n + j + 2..]
        else s.inbox == Input(l1, l2)[n + j + 1..])
  }

  /** Both lists are in place; the pointers of the input phase stay where they ended. */
  predicate InPlace(s: State, l1: seq<Word>, l2: seq<Word>)
    requires s.Valid()
  {
    var n, m := |l1|, |l2|;
    && (n + m <= 19 || (n == 20 && m == 0))
    && s.mem[4] == 380 + n && s.mem[16] == 381 + n + m
    && s.mem[78] == 380 && s.mem[79] == 81 + n
    && Stored(s.mem, l1 + [0] + l2, n + 1 + m)
    && s.inbox == []
  }

  predicate Preparing(s: State, l1: seq<Word>, l2: seq<Word>)
    requires s.Valid()
  {
    var n := |l1|;
    && 21 <= s.pc <= 27
    && InPlace(s, l1, l2)
    && (s.pc == 22 ==> s.acc == 380)
    && (s.pc == 23 ==> s.acc == 80)
    && (s.pc == 24 ==> s.acc == 580)
    && (s.pc == 26 ==> s.acc == 81 + n)
    && (s.pc == 27 ==> s.acc == 581 + n)
    && s.mem[30] == (if s.pc <= 24 then 574 else 580)
    && s.mem[28] == 575 && s.mem[52] == 577 && s.mem[63] == 576
  }

  /** How many words of the first list have gone out during the comparisons. */
  function Out1(s: State): int
    requires s.Valid()
  {
    (s.mem[30] as int) - 580 + if 37 <= s.pc <= 39 then 1 else 0
  }

  /** How many words of the second list have gone out during the comparisons. */
  function Out2(s: State, l1: seq<Word>): int
    requires s.Valid()
  {
    (s.mem[28] as int) - 581 - |l1| + if 44 <= s.pc <= 46 then 1 else 0
  }

  predicate Comparing(s: State, l1: seq<Word>, l2: seq<Word>)
    requires s.Valid()
  {
    var n, m := |l1|, |l2|;
    var i, j := Out1(s), Out2(s, l1);
    && 28 <= s.pc <= 47
    && InPlace(s, l1, l2)
    && s.mem[52] == 577 && s.mem[63] == 576
    && 0 <= i <= n && 0 <= j <= m
    && (29 <= s.pc <= 36 || 41 <= s.pc <= 43 ==> j < m || n + m <= 18)
    && (s.pc == 29 ==> s.acc == At(l2, j))
    && (30 <= s.pc <= 36 || 41 <= s.pc <= 43 ==> s.mem[75] == At(l2, j))
    && (s.pc == 31 ==> s.acc == At(l1, i))
    && (32 <= s.pc <= 36 || 41 <= s.pc <= 43 ==> s.mem[74] == At(l1, i))
    && (s.pc == 32 ==> s.acc == At(l1, i))
    && (s.pc == 33 ==> s.acc == (At(l1, i) - At(l2, j)) % 1000)
    && (34 <= s.pc <= 36 ==> !NotLess(At(l1, i), At(l2, j)))
    && (s.pc == 35 ==> s.acc == At(l1, i))
    && (s.pc == 36 ==> i < n && s.acc == l1[i])
    && (37 <= s.pc <= 39 ==> i > 0)
    && (s.pc == 38 ==> s.acc == 579 + i)
    && (s.pc == 39 ==> s.acc == 580 + i)
    && (41 <= s.pc <= 43 ==> NotLess(At(l1, i), At(l2, j)))
    && (s.pc == 42 ==> s.acc == At(l2, j))
    && (s.pc == 43 ==> j < m && s.acc == l2[j])
    && (44 <= s.pc <= 46 ==> j > 0)
    && (s.pc == 45 ==> s.acc == 580 + n + j)
    && (s.pc == 46 ==> s.acc == 581 + n + j)
  }

  /** The next word of the second list that the drain loop shows. */
  function Rest2(s: State, l1: seq<Word>): int
    requires s.Valid()
  {
    if s.pc <= 51 then (s.mem[28] as int) - 581 - |l1|
    else (s.mem[52] as int) - 581 - |l1| + if 55 <= s.pc <= 57 then 1 else 0
  }

  predicate Draining2(s: State, l1: seq<Word>, l2: seq<Word>)
    requires s.Valid()
  {
    var n, m := |l1|, |l2|;
    var j := Rest2(s, l1);
    && 48 <= s.pc <= 58
    && InPlace(s, l1, l2)
    && 580 <= s.mem[30] <= 580 + n && 581 + n <= s.mem[28] <= 581 + n + m
    && (s.pc <= 51 ==> s.mem[52] == 577)
    && s.mem[63] == 576
    && 0 <= j <= m
    && (s.pc <= 49 ==> (j < m || n + m <= 18) && s.mem[75] == At(l2, j))
    && (s.pc == 49 ==> s.acc == At(l2, j))
    && (50 <= s.pc <= 51 ==> j < m)
    && (s.pc == 51 ==> s.acc == 581 + n + j)
    && (53 <= s.pc <= 54 ==> (j < m || n + m <= 18) && s.acc == At(l2, j))
    && (s.pc == 54 ==> j < m)
    && (55 <= s.pc <= 57 ==> j > 0)
    && (s.pc == 56 ==> s.acc == 580 + n + j)
    && (s.pc == 57 ==> s.acc == 581 + n + j)
  }

  /** The next word of the first list that the drain loop shows. */
  function Rest1(s: State): int
    requires s.Valid()
  {
    if s.pc <= 62 then (s.mem[30] as int) - 580
    else (s.mem[63] as int) - 580 + if 66 <= s.pc <= 68 then 1 else 0
  }

  predicate Draining1(s: State, l1: seq<Word>, l2: seq<Word>)
    requires s.Valid()
  {
    var n, m := |l1|, |l2|;
    var i := Rest1(s);
    && 59 <= s.pc <= 69
    && n + m <= 18
    && InPlace(s, l1, l2)
    && 580 <= s.mem[30] <= 580 + n && 581 + n <= s.mem[28] <= 581 + n + m
    && (s.pc <= 62 ==> s.mem[63] == 576)
    && s.mem[52] == 577
    && 0 <= i <= n
    && (s.pc <= 60 ==> s.mem[74] == At(l1, i))
    && (s.pc == 60 ==> s.acc == At(l1, i))
    && (61 <= s.pc <= 62 ==> i < n)
    && (s.pc == 62 ==> s.acc == 580 + i)
    && (64 <= s.pc <= 65 ==> s.acc == At(l1, i))
    && (s.pc == 65 ==> i < n)
    && (66 <= s.pc <= 68 ==> i > 0)
    && (s.pc == 67 ==> s.acc == 579 + i)
    && (s.pc == 68 ==> s.acc == 580 + i)
  }

  predicate Finishing(s: State, l1: seq<Word>, l2: seq<Word>)
    requires s.Valid()
  {
    var n, m := |l1|, |l2|;
    && s.pc == FIN
    && n + m <= 18
    && InPlace(s, l1, l2)
    && 580 <= s.mem[30] <= 580 + n && 581 + n <= s.mem[28] <= 581 + n + m
    && (s.mem[52] == 577 || 581 + n <= s.mem[52] <= 581 + n + m)
    && (s.mem[63] == 576 || 580 <= s.mem[63] <= 580 + n)
  }

  /** The second pointer has run past cell 99 and has become a BR: the program starts over on an empty in-box. */
  predicate Restarted(s: State, l1: seq<Word>, l2: seq<Word>)
    requires s.Valid()
  {
    s.pc <= 2 && s.inbox == [] && |l1| + |l2| >= 19
  }

  /** The assertion at the program counter of a running machine. */
  predicate Placed(s: State, l1: seq<Word>, l2: seq<Word>)
    requires s.Valid()
  {
    if s.pc <= 1 then Starting(s, l1, l2)
    else if s.pc <= 8 then Reading1(s, l1, l2)
    else if s.pc <= 13 then Separating(s, l1, l2)
    else if s.pc <= 20 then Reading2(s, l1, l2)
    else if s.pc <= 27 then Preparing(s, l1, l2)
    else if s.pc <= 47 then Comparing(s, l1, l2)
    else if s.pc <= 58 then Draining2(s, l1, l2)
    else if s.pc <= 69 then Draining1(s, l1, l2)
    else Finishing(s, l1, l2)
  }

  function Drop(l: seq<Word>, k: int): seq<Word> {
    if 0 <= k <= |l| then l[k..] else []
  }

  /** What has still to go out of the first list. */
  function Left1(s: State, l1: seq<Word>): seq<Word>
    requires s.Valid()
  {
    if s.pc <= 27 then l1
    else if s.pc <= 47 then Drop(l1, Out1(s))
    else if 59 <= s.pc <= 69 then Drop(l1, Rest1(s))
    else []
  }

  /** What has still to go out of the second list. */
  function Left2(s: State, l1: seq<Word>, l2: seq<Word>): seq<Word>
    requires s.Valid()
  {
    if s.pc <= 27 then l2
    else if s.pc <= 47 then Drop(l2, Out2(s, l1))
    else if s.pc <= 58 then Drop(l2, Rest2(s, l1))
    else []
  }

  /** A cycle that shows nothing and leaves both remainders as they were. */
  predicate Silent(s: State, t: State, l1: seq<Word>, l2: seq<Word>)
    requires s.Valid() && t.Valid()
  {
    t.status == s.status && t.outbox == s.outbox && Left1(t, l1) == Left1(s, l1) && Left2(t, l1, l2) == Left2(s, l1, l2)
  }

  /** A cycle that moves the head of the first remainder to the out-box, as the merge would. */
  predicate Shows1(s: State, t: State, l1: seq<Word>, l2: seq<Word>)
    requires s.Valid() && t.Valid()
  {
    var a, b := Left1(s, l1), Left2(s, l1, l2);
    t.status == s.status && a != [] && t.outbox == s.outbox + [a[0]] &&
    Left1(t, l1) == a[1..] && Left2(t, l1, l2) == b &&
    (b == [] || !NotLess(a[0], b[0]))
  }

  /** A cycle that moves the head of the second remainder to the out-box, as the merge would. */
  predicate Shows2(s: State, t: State, l1: seq<Word>, l2: seq<Word>)
    requires s.Valid() && t.Valid()
  {
    var a, b := Left1(s, l1), Left2(s, l1, l2);
    t.status == s.status && b != [] && t.outbox == s.outbox + [b[0]] &&
    Left1(t, l1) == a && Left2(t, l1, l2) == b[1..] &&
    (a == [] || NotLess(a[0], b[0]))
  }

  /** A bound on the cycles left; it falls in every cycle of a running machine. */
  function CyclesLeft(s: State, l1: seq<Word>, l2: seq<Word>): nat
    requires s.Valid()
  {
    var n, m := |l1|, |l2|;
    var left := 14 * (|Left1(s, l1)| + |Left2(s, l1, l2)|);
    if s.status != Running then 0
    else if Restarted(s, l1, l2) then 3 - s.pc
    else if s.pc <= 1 then left + 7 * (n + m) + 48 - s.pc
    else if s.pc <= 8 then left + 7 * |Drop(l1, Stored1(s))| + 7 * m + (if s.pc <= 4 then 48 - s.pc else 55 - s.pc)
    else if s.pc <= 13 then left + 7 * m + 53 - s.pc
    else if s.pc <= 20 then left + 7 * |Drop(l2, Stored2(s, l1))| + (if s.pc <= 16 then 46 - s.pc else 53 - s.pc)
    else if s.pc <= 27 then left + 51 - s.pc
    else if s.pc <= 36 then left + 50 - s.pc
    else if s.pc <= 40 then left + 64 - s.pc
    else if s.pc <= 43 then left + 57 - s.pc
    else if s.pc <= 46 then left + 71 - s.pc
    else if s.pc == 47 then left + 23
    else if s.pc <= 51 then left + 61 - s.pc
    else if s.pc <= 54 then left + 60 - s.pc
    else if s.pc <= 58 then left + 67 - s.pc
    else if s.pc <= 62 then left + 72 - s.pc
    else if s.pc <= 65 then left + 71 - s.pc
    else if s.pc <= 69 then left + 78 - s.pc
    else 1
  }
}
