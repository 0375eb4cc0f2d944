/** The Little Man Computer: one hundred three-digit cells, an accumulator, an in-box and an out-box.
    Numbers are ten's complement, so 999 stands for -1 and BRP branches on an accumulator below 500. */
module LittleMan {

  /** The contents of one cell. */
  type Word = w: int | 0 <= w < 1000

  /** Waiting is an IN with an empty in-box; Faulted is a code that names no instruction. */
  datatype Status = Running | Halted | Waiting | Faulted

  datatype State = State(mem: seq<Word>, pc: nat, acc: Word, inbox: seq<Word>, outbox: seq<Word>, status: Status) {
    predicate Valid() {
      |mem| == 100 && pc < 100
    }
  }

  const IN: Word := 901
  const OUT: Word := 902
  const HLT: Word := 0

  function Add(a: nat): Word requires a < 100 { 100 + a }
  function Sub(a: nat): Word requires a < 100 { 200 + a }
  function Sto(a: nat): Word requires a < 100 { 300 + a }
  function Lda(a: nat): Word requires a < 100 { 500 + a }
  function Br(a: nat): Word requires a < 100 { 600 + a }
  function Brz(a: nat): Word requires a < 100 { 700 + a }
  function Brp(a: nat): Word requires a < 100 { 800 + a }

  /** The first digit of a code. The other two are the address. */
  function Operation(code: Word): (d: nat)
    ensures d == code / 100 && code - 100 * d == code % 100
  {
    if code < 100 then 0 else if code < 200 then 1 else if code < 300 then 2 else if code < 400 then 3
    else if code < 500 then 4 else if code < 600 then 5 else if code < 700 then 6 else if code < 800 then 7
    else if code < 900 then 8 else 9
  }

  /** The remainder by 1000 of a sum or a difference of two words. */
  function Wrapped(x: int): Word
    requires -1000 < x < 2000
  {
    if x < 0 then x + 1000 else if x < 1000 then x else x - 1000
  }

  function Following(pc: nat): nat {
    if pc == 99 then 0 else pc + 1
  }

  /** One fetch-execute cycle. A machine that is not running stays as it is. */
  function Step(s: State): (r: State)
    requires s.Valid()
    ensures r.Valid()
  {
    if s.status != Running then s else
    var code := s.mem[s.pc];
    var a := code - 100 * Operation(code);
    var next := s.(pc := Following(s.pc));
    match Operation(code)
    case 0 => s.(status := Halted)
    case 1 => next.(acc := Wrapped(s.acc + s.mem[a]))
    case 2 => next.(acc := Wrapped(s.acc - s.mem[a]))
    case 3 => next.(mem := s.mem[a := s.acc])
    case 5 => next.(acc := s.mem[a])
    case 6 => s.(pc := a)
    case 7 => if s.acc == 0 then s.(pc := a) else next
    case 8 => if s.acc < 500 then s.(pc := a) else next
    case 9 =>
      if code == IN then
        if s.inbox == [] then s.(status := Waiting) else next.(acc := s.inbox[0], inbox := s.inbox[1..])
      else if code == OUT then next.(outbox := s.outbox + [s.acc])
      else s.(status := Faulted)
    case _ => s.(status := Faulted)
  }

  /** The state after k cycles. */
  function Run(s: State, k: nat): (r: State)
    requires s.Valid()
    ensures r.Valid()
    decreases k
  {
    if k == 0 then s else Step(Run(s, k - 1))
  }

  /** The machine itself: its cells are overwritten in place, program cells included. */
  class Computer {
    var mem: array<Word>
    var pc: nat
    var acc: Word
    var inbox: seq<Word>
    var outbox: seq<Word>
    var status: Status

    ghost predicate Valid()
      reads this
    {
      mem.Length == 100 && pc < 100
    }

    ghost function View(): (s: State)
      reads this, mem
      requires Valid()
      ensures s.Valid()
    {
      State(mem[..], pc, acc, inbox, outbox, status)
    }

    constructor (cells: seq<Word>, input: seq<Word>)
      requires |cells| == 100
      ensures Valid() && fresh(mem)
      ensures View() == State(cells, 0, 0, input, [], Running)
    {
      mem := new Word[100](i requires 0 <= i < 100 => cells[i]);
      pc, acc, inbox, outbox, status := 0, 0, input, [], Running;
    }

    method Cycle()
      requires Valid()
      modifies this, mem
      ensures Valid() && mem == old(mem)
      ensures View() == Step(old(View()))
    {
      if status == Running {
        var code := mem[pc];
        var a := code % 100;
        match code / 100 {
          case 0 => status := Halted;
          case 1 => acc, pc := (acc + mem[a]) % 1000, (pc + 1) % 100;
          case 2 => acc, pc := (acc - mem[a]) % 1000, (pc + 1) % 100;
          case 3 => mem[a], pc := acc, (pc + 1) % 100;
          case 5 => acc, pc := mem[a], (pc + 1) % 100;
          case 6 => pc := a;
          case 7 => pc := if acc == 0 then a else (pc + 1) % 100;
          case 8 => pc := if acc < 500 then a else (pc + 1) % 100;
          case 9 =>
            if code == IN {
              if inbox == [] {
                status := Waiting;
              } else {
                acc, inbox, pc := inbox[0], inbox[1..], (pc + 1) % 100;
              }
            } else if code == OUT {
              outbox, pc := outbox + [acc], (pc + 1) % 100;
            } else {
              status := Faulted;
            }
          case _ => status := Faulted;
        }
      }
    }
  }
}
