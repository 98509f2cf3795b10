/**
 The three hook stubs of pkg/trampoline/trampoline.asm, one instruction per
 address in program order, one table per label (the source line is noted beside
 each instruction). Jump targets are addresses.
 */
module Stubs {
  import opened Words
  import opened StateStruct
  import opened Machine

  const CODE_SIZE := 137
  const CLOCK_GETTIME_PC := 0
  const GETTIMEOFDAY_PC := 46
  const TIME_PC := 98

  function Code(pc: nat): (i: Instr)
    requires pc < CODE_SIZE
  {
    if pc < GETTIMEOFDAY_PC then ClockGettimeCode(pc)
    else if pc < TIME_PC then GettimeofdayCode(pc)
    else TimeCode(pc)
  }

  function ClockGettimeCode(pc: nat): Instr
  {
    if pc < 9 then GettimeEntry(pc)
    else if pc < 15 then GettimeAsk(pc)
    else if pc < 21 then GettimeAdd(pc)
    else if pc < 27 then GettimeCarry(pc)
    else if pc < 33 then GettimeBorrow(pc)
    else if pc < 38 then GettimeFreeze(pc)
    else if pc < 44 then GettimeReal(pc)
    else GettimeDone(pc)
  }

  // clock_gettime_entry
  function GettimeEntry(pc: nat): Instr
  {
    match pc
    case 0 => CmpLow32(RDI, CLOCK_REALTIME)         // line 36
    case 1 => Je(4)                                 // line 37
    case 2 => CmpLow32(RDI, CLOCK_REALTIME_COARSE)  // line 38
    case 3 => Jne(38)                               // line 39
    case 4 => LeaState(R11)                         // line 42
    case 5 => TestStateBit(R11, OFF_MASK, 0)        // line 43
    case 6 => Je(38)                                // line 44
    case 7 => TestStateBit(R11, OFF_MASK, 1)        // line 45
    case _ => Jne(33)                               // line 46
  }

  // clock_gettime, advancing mode
  function GettimeAsk(pc: nat): Instr
  {
    match pc
    case 9 => Push(RDI)                             // line 49
    case 10 => Push(RSI)                             // line 50
    case 11 => MovImm(RAX, SYS_CLOCK_GETTIME)        // line 51
    case 12 => Syscall                               // line 52
    case 13 => Pop(RSI)                              // line 53
    case _ => Pop(RDI)                              // line 54
  }

  function GettimeAdd(pc: nat): Instr
  {
    match pc
    case 15 => LeaState(R11)                         // line 57
    case 16 => Load(R8, R11, OFF_SEC)                // line 58
    case 17 => Load(R9, R11, OFF_NSEC)               // line 59
    case 18 => AddTo(RSI, 0, R8)                     // line 61
    case 19 => AddTo(RSI, 8, R9)                     // line 62
    case _ => Load(RAX, RSI, 8)                     // line 66
  }

  function GettimeCarry(pc: nat): Instr
  {
    match pc
    case 21 => CmpImm(RAX, 1000000000)               // line 67
    case 22 => Jl(27)                                // line 68
    case 23 => SubImm(RAX, 1000000000)               // line 69
    case 24 => Store(RSI, 8, RAX)                    // line 70
    case 25 => Inc(RSI)                              // line 71
    case _ => Jmp(44)                               // line 72
  }

  // .check_negative
  function GettimeBorrow(pc: nat): Instr
  {
    match pc
    case 27 => CmpImm(RAX, 0)                        // line 75
    case 28 => Jge(44)                               // line 76
    case 29 => AddImm(RAX, 1000000000)               // line 77
    case 30 => Store(RSI, 8, RAX)                    // line 78
    case 31 => Dec(RSI)                              // line 79
    case _ => Jmp(44)                               // line 80
  }

  // .freeze
  function GettimeFreeze(pc: nat): Instr
  {
    match pc
    case 33 => Load(R8, R11, OFF_SEC)                // line 84
    case 34 => Load(R9, R11, OFF_NSEC)               // line 85
    case 35 => Store(RSI, 0, R8)                     // line 86
    case 36 => Store(RSI, 8, R9)                     // line 87
    case _ => Jmp(44)                               // line 88
  }

  // .real_syscall
  function GettimeReal(pc: nat): Instr
  {
    match pc
    case 38 => Push(RDI)                             // line 91
    case 39 => Push(RSI)                             // line 92
    case 40 => MovImm(RAX, SYS_CLOCK_GETTIME)        // line 93
    case 41 => Syscall                               // line 94
    case 42 => Pop(RSI)                              // line 95
    case _ => Pop(RDI)                              // line 96
  }

  // .done
  function GettimeDone(pc: nat): Instr
  {
    match pc
    case 44 => Zero32(RAX)                           // line 99
    case _ => Ret                                   // line 100
  }

  function GettimeofdayCode(pc: nat): Instr
  {
    if pc < 51 then TodEntry(pc)
    else if pc < 57 then TodAsk(pc)
    else if pc < 67 then TodAdd(pc)
    else if pc < 74 then TodCarry(pc)
    else if pc < 80 then TodBorrow(pc)
    else if pc < 90 then TodFreeze(pc)
    else if pc < 96 then TodReal(pc)
    else TodDone(pc)
  }

  // gettimeofday_entry
  function TodEntry(pc: nat): Instr
  {
    match pc
    case 46 => LeaState(R11)                         // line 111
    case 47 => TestStateBit(R11, OFF_MASK, 0)        // line 112
    case 48 => Je(90)                                // line 113
    case 49 => TestStateBit(R11, OFF_MASK, 1)        // line 114
    case _ => Jne(80)                               // line 115
  }

  function TodAsk(pc: nat): Instr
  {
    match pc
    case 51 => Push(RDI)                             // line 117
    case 52 => Push(RSI)                             // line 118
    case 53 => MovImm(RAX, SYS_GETTIMEOFDAY)         // line 119
    case 54 => Syscall                               // line 120
    case 55 => Pop(RSI)                              // line 121
    case _ => Pop(RDI)                              // line 122
  }

  function TodAdd(pc: nat): Instr
  {
    match pc
    case 57 => TestSelf(RDI)                         // line 124
    case 58 => Je(96)                                // line 125
    case 59 => LeaState(R11)                         // line 127
    case 60 => Load(R8, R11, OFF_SEC)                // line 128
    case 61 => Load(RAX, R11, OFF_NSEC)              // line 129
    case 62 => Cqo                                   // line 130
    case 63 => MovImm(RCX, 1000)                     // line 131
    case 64 => Idiv(RCX)                             // line 132
    case 65 => AddTo(RDI, 0, R8)                     // line 134
    case _ => AddTo(RDI, 8, RAX)                    // line 135
  }

  function TodCarry(pc: nat): Instr
  {
    match pc
    case 67 => Load(RAX, RDI, 8)                     // line 137
    case 68 => CmpImm(RAX, 1000000)                  // line 138
    case 69 => Jl(74)                                // line 139
    case 70 => SubImm(RAX, 1000000)                  // line 140
    case 71 => Store(RDI, 8, RAX)                    // line 141
    case 72 => Inc(RDI)                              // line 142
    case _ => Jmp(96)                               // line 143
  }

  // .check_negative
  function TodBorrow(pc: nat): Instr
  {
    match pc
    case 74 => CmpImm(RAX, 0)                        // line 146
    case 75 => Jge(96)                               // line 147
    case 76 => AddImm(RAX, 1000000)                  // line 148
    case 77 => Store(RDI, 8, RAX)                    // line 149
    case 78 => Dec(RDI)                              // line 150
    case _ => Jmp(96)                               // line 151
  }

  // .freeze
  function TodFreeze(pc: nat): Instr
  {
    match pc
    case 80 => TestSelf(RDI)                         // line 154
    case 81 => Je(96)                                // line 155
    case 82 => Load(R8, R11, OFF_SEC)                // line 156
    case 83 => Load(RAX, R11, OFF_NSEC)              // line 157
    case 84 => Cqo                                   // line 158
    case 85 => MovImm(RCX, 1000)                     // line 159
    case 86 => Idiv(RCX)                             // line 160
    case 87 => Store(RDI, 0, R8)                     // line 161
    case 88 => Store(RDI, 8, RAX)                    // line 162
    case _ => Jmp(96)                               // line 163
  }

  // .real_syscall
  function TodReal(pc: nat): Instr
  {
    match pc
    case 90 => Push(RDI)                             // line 166
    case 91 => Push(RSI)                             // line 167
    case 92 => MovImm(RAX, SYS_GETTIMEOFDAY)         // line 168
    case 93 => Syscall                               // line 169
    case 94 => Pop(RSI)                              // line 170
    case _ => Pop(RDI)                              // line 171
  }

  // .done
  function TodDone(pc: nat): Instr
  {
    match pc
    case 96 => Zero32(RAX)                           // line 174
    case _ => Ret                                   // line 175
  }

  function TimeCode(pc: nat): Instr
  {
    if pc < 103 then TimeEntry(pc)
    else if pc < 109 then TimeAsk(pc)
    else if pc < 114 then TimeAdd(pc)
    else if pc < 119 then TimeCarry(pc)
    else if pc < 122 then TimeBorrow(pc)
    else if pc < 129 then TimeResult(pc)
    else if pc < 134 then TimeFreeze(pc)
    else TimeReal(pc)
  }

  // time_entry
  function TimeEntry(pc: nat): Instr
  {
    match pc
    case 98 => LeaState(R11)                         // line 192
    case 99 => TestStateBit(R11, OFF_MASK, 0)        // line 193
    case 100 => Je(134)                               // line 194
    case 101 => TestStateBit(R11, OFF_MASK, 1)        // line 195
    case _ => Jne(129)                              // line 196
  }

  function TimeAsk(pc: nat): Instr
  {
    match pc
    case 103 => Push(RDI)                             // line 199
    case 104 => SubImm(RSP, 16)                       // line 200
    case 105 => Zero32(RDI)                           // line 201
    case 106 => MovReg(RSI, RSP)                      // line 202
    case 107 => MovImm(RAX, SYS_CLOCK_GETTIME)        // line 203
    case _ => Syscall                               // line 204
  }

  function TimeAdd(pc: nat): Instr
  {
    match pc
    case 109 => LeaState(R11)                         // line 206
    case 110 => Load(R8, R11, OFF_SEC)                // line 207
    case 111 => Load(R9, R11, OFF_NSEC)               // line 208
    case 112 => AddTo(RSP, 0, R8)                     // line 209
    case _ => AddTo(RSP, 8, R9)                     // line 210
  }

  function TimeCarry(pc: nat): Instr
  {
    match pc
    case 114 => Load(RAX, RSP, 8)                     // line 213
    case 115 => CmpImm(RAX, 1000000000)               // line 214
    case 116 => Jl(119)                               // line 215
    case 117 => Inc(RSP)                              // line 216
    case _ => Jmp(122)                              // line 217
  }

  // .check_negative
  function TimeBorrow(pc: nat): Instr
  {
    match pc
    case 119 => CmpImm(RAX, 0)                        // line 220
    case 120 => Jge(122)                              // line 221
    case _ => Dec(RSP)                              // line 222
  }

  // .load_result
  function TimeResult(pc: nat): Instr
  {
    match pc
    case 122 => Load(RAX, RSP, 0)                     // line 225
    case 123 => AddImm(RSP, 16)                       // line 226
    case 124 => Pop(RDI)                              // line 227
    case 125 => TestSelf(RDI)                         // line 228
    case 126 => Je(136)                               // line 229
    case 127 => Store(RDI, 0, RAX)                    // line 230
    case _ => Jmp(136)                              // line 231
  }

  // .freeze
  function TimeFreeze(pc: nat): Instr
  {
    match pc
    case 129 => Load(RAX, R11, OFF_SEC)               // line 234
    case 130 => TestSelf(RDI)                         // line 235
    case 131 => Je(136)                               // line 236
    case 132 => Store(RDI, 0, RAX)                    // line 237
    case _ => Jmp(136)                              // line 238
  }

  // .real_time, .done
  function TimeReal(pc: nat): Instr
  {
    match pc
    case 134 => MovImm(RAX, SYS_TIME)                 // line 241
    case 135 => Syscall                               // line 242
    case _ => Ret                                   // line 245
  }

  /** Every jump goes forward, inside the table, and only a ret or a jump can end it. */
  lemma ForwardOnly(pc: nat)
    requires pc < CODE_SIZE
    ensures IsJump(Code(pc)) ==> pc < Code(pc).target < CODE_SIZE
    ensures pc + 1 < CODE_SIZE || Code(pc).Ret?
  {
  }

  function Exec(w: World, c: Core): (o: Outcome)
    requires c.pc < CODE_SIZE
  {
    Step(w, c, Code(c.pc))
  }

  lemma Forward(w: World, c: Core)
    requires c.pc < CODE_SIZE
    ensures Exec(w, c).Next? ==> c.pc < Exec(w, c).core.pc < CODE_SIZE
  {
    hide Code, Step;
    ForwardOnly(c.pc);
  }

  /** Run from c until the stub returns. No stub loops, so every run ends. */
  function Run(w: World, c: Core): (o: Outcome)
    requires c.pc < CODE_SIZE
    ensures !o.Next?
    decreases CODE_SIZE - c.pc
  {
    Forward(w, c);
    var o := Exec(w, c);
    if o.Next? then Run(w, o.core) else o
  }

  lemma RunStep(w: World, c: Core)
    requires c.pc < CODE_SIZE
    ensures Exec(w, c).Next? ==> Exec(w, c).core.pc < CODE_SIZE && Run(w, c) == Run(w, Exec(w, c).core)
    ensures !Exec(w, c).Next? ==> Run(w, c) == Exec(w, c)
  {
    Forward(w, c);
  }

  /** A processor that executes stub code in place until the stub returns. */
  class Processor {
    var core: Core

    constructor (c: Core)
      ensures core == c
    {
      core := c;
    }

    method Call(w: World) returns (back: bool, to: Int64)
      requires core.pc < CODE_SIZE
      modifies this
      ensures back <==> Run(w, old(core)).Returned?
      ensures back ==> core == Run(w, old(core)).core && to == Run(w, old(core)).to
    {
      var o := Next(core);
      while o.Next?
        invariant o.Next? ==> core == o.core && core.pc < CODE_SIZE && Run(w, core) == Run(w, old(core))
        invariant o.Returned? ==> core == o.core
        invariant !o.Next? ==> o == Run(w, old(core))
        decreases o.Next?, CODE_SIZE - core.pc
      {
        RunStep(w, core);
        o := Exec(w, core);
        Forward(w, core);
        if !o.Fault? {
          core := o.core;
        }
      }
      back := o.Returned?;
      to := if back then o.to else 0;
    }
  }
}
