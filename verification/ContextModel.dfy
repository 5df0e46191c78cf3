// The context switch of process/switchto.asm on byte memory, and the first stack
// of a process as setup_kernel_process (process/process.c) builds it.

module ContextModel {
  import opened Words
  import opened Memory

  datatype Regs = Regs(edi: u32, esi: u32, ebp: u32, ebx: u32, edx: u32, ecx: u32, eax: u32,
                       gs: u32, fs: u32, ds: u32, es: u32, eip: u32, cs: u32, eflags: u32, esp: u32)

  const FRAME_SIZE := 60 // fifteen words

  datatype Machine = Machine(mem: Bytes, regs: Regs, current: u32)

  // ----- The stack -----

  // Pushing the words of ws one after the other, from stack pointer sp on.
  function PushAll(m: Bytes, sp: int, ws: seq<u32>): Bytes
    requires 4 * |ws| <= sp <= WORD_SIZE
  {
    if ws == [] then m else Put32(PushAll(m, sp, ws[..|ws| - 1]), sp - 4 * |ws|, ws[|ws| - 1])
  }

  lemma {:induction false} PushAllReads(m: Bytes, sp: int, ws: seq<u32>, k: nat)
    requires 4 * |ws| <= sp <= WORD_SIZE && k < |ws|
    ensures Load32(PushAll(m, sp, ws), sp - 4 * (k + 1)) == ws[k]
  {
    var n := |ws| - 1;
    hide Put32, Load32;
    if k < n {
      PushAllReads(m, sp, ws[..n], k);
      PutSpares(PushAll(m, sp, ws[..n]), sp - 4 * |ws|, ws[n], sp - 4 * (k + 1));
    }
  }

  lemma {:induction false} PushAllSpares(m: Bytes, sp: int, ws: seq<u32>, lo: int, hi: int)
    requires 4 * |ws| <= sp <= WORD_SIZE && (hi <= sp - 4 * |ws| || sp <= lo)
    ensures Same(m, PushAll(m, sp, ws), lo, hi)
  {
    if ws == [] {
    } else {
      PushAllSpares(m, sp, ws[..|ws| - 1], lo, hi);
    }
  }

  lemma PushMore(m: Bytes, sp: int, ws: seq<u32>, w: u32)
    requires 4 * |ws| + 4 <= sp <= WORD_SIZE
    ensures PushAll(m, sp, ws + [w]) == Put32(PushAll(m, sp, ws), sp - 4 * |ws| - 4, w)
  {
    assert (ws + [w])[..|ws|] == ws;
  }

  // ----- Frames -----

  // The fifteen words switchTo pushes, in order; `sp` is the value pushad stores
  // for esp.
  function FrameWords(r: Regs, sp: u32): seq<u32> {
    [r.eflags, r.cs, r.eip, r.es, r.ds, r.fs, r.gs] + [r.eax, r.ecx, r.edx, r.ebx, sp, r.ebp, r.esi, r.edi]
  }

  // What popad, the four pops and iret load from a frame.
  function Frame(m: Bytes, a: int): Regs
    requires 0 <= a <= WORD_SIZE - FRAME_SIZE - 4
  {
    Regs(Load32(m, a), Load32(m, a + 4), Load32(m, a + 8), Load32(m, a + 16), Load32(m, a + 20), Load32(m, a + 24),
         Load32(m, a + 28), Load32(m, a + 32), Load32(m, a + 36), Load32(m, a + 40), Load32(m, a + 44),
         Load32(m, a + 48), Load32(m, a + 52), Load32(m, a + 56), a + FRAME_SIZE)
  }

  lemma FrameSame(m: Bytes, n: Bytes, a: int)
    requires 0 <= a <= WORD_SIZE - FRAME_SIZE - 4 && Same(m, n, a, a + FRAME_SIZE)
    ensures Frame(n, a) == Frame(m, a)
  {
    hide Load32;
    LoadFrame(m, n, a);
    LoadFrame(m, n, a + 4);
    LoadFrame(m, n, a + 8);
    LoadFrame(m, n, a + 16);
    LoadFrame(m, n, a + 20);
    LoadFrame(m, n, a + 24);
    LoadFrame(m, n, a + 28);
    LoadFrame(m, n, a + 32);
    LoadFrame(m, n, a + 36);
    LoadFrame(m, n, a + 40);
    LoadFrame(m, n, a + 44);
    LoadFrame(m, n, a + 48);
    LoadFrame(m, n, a + 52);
    LoadFrame(m, n, a + 56);
  }

  // What was pushed from sp on is what a frame there restores, the stack pointer
  // included: the order of the pops mirrors that of the pushes.
  lemma FrameRestores(m: Bytes, r: Regs, sp: int, w: u32)
    requires FRAME_SIZE <= sp <= WORD_SIZE - 4
    ensures Frame(PushAll(m, sp, FrameWords(r, w)), sp - FRAME_SIZE) == r.(esp := sp)
  {
    var ws := FrameWords(r, w);
    hide PushAll, Load32;
    PushAllReads(m, sp, ws, 0);
    PushAllReads(m, sp, ws, 1);
    PushAllReads(m, sp, ws, 2);
    PushAllReads(m, sp, ws, 3);
    PushAllReads(m, sp, ws, 4);
    PushAllReads(m, sp, ws, 5);
    PushAllReads(m, sp, ws, 6);
    PushAllReads(m, sp, ws, 7);
    PushAllReads(m, sp, ws, 8);
    PushAllReads(m, sp, ws, 9);
    PushAllReads(m, sp, ws, 10);
    PushAllReads(m, sp, ws, 12);
    PushAllReads(m, sp, ws, 13);
    PushAllReads(m, sp, ws, 14);
  }

  // ----- switchTo -----

  // The registers as the call of switchTo would have left them on returning: eip
  // is the return address, esp points at the argument, and eax is lost.
  function Returned(s: Machine): Regs
    requires s.regs.esp <= WORD_SIZE - 8
  {
    var ret := Load32(s.mem, s.regs.esp);
    s.regs.(eax := ret, eip := ret, esp := s.regs.esp + 4)
  }

  predicate CanSwitch(s: Machine) {
    FRAME_SIZE <= s.regs.esp + 4 <= WORD_SIZE - 4 && s.current <= WORD_SIZE - 4
  }

  // Memory after the frame of the current process is saved.
  function Saved(s: Machine): Bytes
    requires CanSwitch(s)
  {
    var r := Returned(s);
    var m := PushAll(s.mem, r.esp, FrameWords(r, r.esp - 28));
    if s.current == 0 then m else Put32(m, s.current, r.esp - FRAME_SIZE)
  }

  // The process to switch to, read from the stack, has a frame to pop.
  predicate CanResume(s: Machine)
    requires CanSwitch(s)
  {
    var next := Load32(Saved(s), s.regs.esp + 4);
    next <= WORD_SIZE - 4 && Load32(Saved(s), next) <= WORD_SIZE - FRAME_SIZE - 4
  }

  function SwitchTo(s: Machine): Machine
    requires CanSwitch(s) && CanResume(s)
  {
    var m := Saved(s);
    var next := Load32(m, s.regs.esp + 4);
    Machine(m, Frame(m, Load32(m, next)), next)
  }

  // ----- setup_kernel_process -----

  const KERNEL_CODE := 0x10
  const KERNEL_DATA := 0x08
  const INITIAL_EFLAGS := 0x202
  const STACK_SIZE := 0x1000

  // The registers a new process starts with.
  function Initial(proc: u32, top: u32): Regs {
    Regs(8, 8, 0, 0, 0, 0, 0, KERNEL_DATA, KERNEL_DATA, KERNEL_DATA, KERNEL_DATA,
         proc, KERNEL_CODE, INITIAL_EFLAGS, top)
  }

  // The stack is filled down from `top`; the record p starts with the saved esp
  // and ss.
  function Setup(m: Bytes, p: u32, top: u32, proc: u32): Bytes
    requires p <= WORD_SIZE - 8 && FRAME_SIZE <= top <= WORD_SIZE - 4
  {
    var filled := PushAll(Put32(m, top, p), top, FrameWords(Initial(proc, top), 0));
    Put32(Put32(filled, p, top - FRAME_SIZE), p + 4, KERNEL_DATA)
  }

  // The first switch to a new process enters `proc` in kernel mode, with interrupts
  // enabled and its own record on top of the stack.
  lemma SetupFrame(m: Bytes, p: u32, top: u32, proc: u32)
    requires p <= WORD_SIZE - 8 && FRAME_SIZE <= top <= WORD_SIZE - 4
    requires p + 8 <= top - FRAME_SIZE || top + 4 <= p
    ensures var n := Setup(m, p, top, proc);
            && Load32(n, p) == top - FRAME_SIZE && Load32(n, top) == p
            && Frame(n, top - FRAME_SIZE) == Initial(proc, top)
  {
    hide PushAll, Load32, Frame;
    var n := Setup(m, p, top, proc);
    var m1 := Put32(m, top, p);
    var ws := FrameWords(Initial(proc, top), 0);
    var m2 := PushAll(m1, top, ws);
    var m3 := Put32(m2, p, top - FRAME_SIZE);
    FrameRestores(m1, Initial(proc, top), top, 0);
    PushAllSpares(m1, top, ws, top, top + 4);
    LoadFrame(m1, m2, top);
    assert Same(m2, n, top - FRAME_SIZE, top + 4);
    FrameSame(m2, n, top - FRAME_SIZE);
    LoadFrame(m2, n, top);
    PutSpares(m3, p + 4, KERNEL_DATA, p);
  }

  lemma SetupSpares(m: Bytes, p: u32, top: u32, proc: u32, lo: int, hi: int)
    requires p <= WORD_SIZE - 8 && FRAME_SIZE <= top <= WORD_SIZE - 4
    requires (hi <= p || p + 8 <= lo) && (hi <= top - FRAME_SIZE || top + 4 <= lo)
    ensures Same(m, Setup(m, p, top, proc), lo, hi)
  {
    hide PushAll, Load32;
    PushAllSpares(Put32(m, top, p), top, FrameWords(Initial(proc, top), 0), lo, hi);
  }

  // The stack is a block of 4096 bytes, and `top` its last byte: the topmost word
  // puts the three upper bytes of the record's address behind the block.
  lemma TopWordSpills(m: Bytes, p: u32, stack: u32, proc: u32)
    requires p <= WORD_SIZE - 8 && 0 < stack <= WORD_SIZE - STACK_SIZE - 4
    requires p + 8 <= stack || stack + STACK_SIZE + 3 <= p
    ensures var n := Setup(m, p, stack + STACK_SIZE - 1, proc); var end := stack + STACK_SIZE;
            n[end] == p / 0x100 % 0x100 && n[end + 1] == p / 0x1_0000 % 0x100 && n[end + 2] == p / 0x100_0000
  {
    var top := stack + STACK_SIZE - 1;
    var m1 := Put32(m, top, p);
    var ws := FrameWords(Initial(proc, top), 0);
    PushAllSpares(m1, top, ws, top, top + 4);
    assert Same(m1, Setup(m, p, top, proc), top, top + 4);
    hide Load32, PushAll;
    assert m1[top + 1] == p / 0x100 % 0x100 && m1[top + 2] == p / 0x1_0000 % 0x100 && m1[top + 3] == p / 0x100_0000;
  }

  // ----- Many processes, one register file -----

  // A process's record and the stretch of memory its stack keeps to.
  datatype Task = Task(record: int, lo: int, hi: int)

  ghost predicate Placed(t: Task) {
    0 < t.record <= WORD_SIZE - 8 && 0 <= t.lo && t.lo + FRAME_SIZE + 4 <= t.hi <= WORD_SIZE
    && (t.record + 8 <= t.lo || t.hi <= t.record)
  }

  // Neither record nor stack of one overlaps record or stack of the other.
  ghost predicate Separate(t: Task, u: Task) {
    && (t.record + 8 <= u.record || u.record + 8 <= t.record)
    && (t.record + 8 <= u.lo || u.hi <= t.record)
    && (u.record + 8 <= t.lo || t.hi <= u.record)
    && (t.hi <= u.lo || u.hi <= t.lo)
  }

  // The places of all processes, by process number.
  ghost predicate Layout(ts: map<nat, Task>) {
    && (forall i | i in ts :: Placed(ts[i]))
    && (forall i, j | i in ts && j in ts && i != j :: Separate(ts[i], ts[j]))
  }

  // A suspended process has a whole frame, with an argument above it, on its own stack.
  ghost predicate Suspended(m: Bytes, t: Task)
    requires Placed(t)
  {
    t.lo <= Load32(m, t.record) && Load32(m, t.record) + FRAME_SIZE + 4 <= t.hi
  }

  function ContextOf(m: Bytes, t: Task): Regs
    requires Placed(t) && Suspended(m, t)
  {
    Frame(m, Load32(m, t.record))
  }

  // Memory that keeps t's esp and frame keeps its context.
  ghost predicate Undisturbed(m: Bytes, n: Bytes, t: Task)
    requires Placed(t) && Suspended(m, t)
  {
    Same(m, n, t.record, t.record + 4) && Same(m, n, Load32(m, t.record), Load32(m, t.record) + FRAME_SIZE)
  }

  lemma ContextKept(m: Bytes, n: Bytes, t: Task)
    requires Placed(t) && Suspended(m, t) && Undisturbed(m, n, t)
    ensures Suspended(n, t) && ContextOf(n, t) == ContextOf(m, t)
  {
    LoadFrame(m, n, t.record);
    FrameSame(m, n, Load32(m, t.record));
  }

  // The current process calls switchTo from its own stack.
  ghost predicate OnStack(s: Machine, t: Task) {
    s.current == t.record && t.lo + FRAME_SIZE <= s.regs.esp + 4 && s.regs.esp + 8 <= t.hi
  }

  lemma SavedFrame(s: Machine, t: Task)
    requires Placed(t) && OnStack(s, t)
    ensures CanSwitch(s) && Suspended(Saved(s), t) && ContextOf(Saved(s), t) == Returned(s)
    ensures Load32(Saved(s), s.regs.esp + 4) == Load32(s.mem, s.regs.esp + 4)
  {
    hide PushAll, Load32, Frame;
    var r := Returned(s);
    var ws := FrameWords(r, r.esp - 28);
    var m := PushAll(s.mem, r.esp, ws);
    FrameRestores(s.mem, r, r.esp, r.esp - 28);
    FrameSame(m, Saved(s), r.esp - FRAME_SIZE);
    PushAllSpares(s.mem, r.esp, ws, r.esp, r.esp + 4);
    LoadFrame(s.mem, m, r.esp);
    PutSpares(m, s.current, r.esp - FRAME_SIZE, r.esp);
  }

  // Which bytes a call of switchTo writes: the frame it saves and the record's esp.
  lemma SavedWithin(s: Machine, lo: int, hi: int)
    requires CanSwitch(s) && (hi <= s.regs.esp + 4 - FRAME_SIZE || s.regs.esp + 4 <= lo)
    requires s.current == 0 || hi <= s.current || s.current + 4 <= lo
    ensures Same(s.mem, Saved(s), lo, hi)
  {
    hide PushAll, Load32;
    var r := Returned(s);
    PushAllSpares(s.mem, r.esp, FrameWords(r, r.esp - 28), lo, hi);
  }

  lemma SavedSpares(s: Machine, t: Task, u: Task)
    requires Placed(t) && Placed(u) && Separate(t, u) && OnStack(s, t) && CanSwitch(s)
    ensures Same(s.mem, Saved(s), u.record, u.record + 4) && Same(s.mem, Saved(s), u.lo, u.hi)
  {
    hide Saved;
    SavedWithin(s, u.record, u.record + 4);
    SavedWithin(s, u.lo, u.hi);
  }

  // ----- Word by word -----

  // What the first switch to a new process finds on its stack and in its record,
  // and so where iret goes: to proc, in kernel code, with interrupts enabled.
  lemma SetupWords(m: Bytes, p: u32, top: u32, proc: u32)
    requires p <= WORD_SIZE - 8 && FRAME_SIZE <= top <= WORD_SIZE - 4
    requires p + 8 <= top - FRAME_SIZE || top + 4 <= p
    ensures var n := Setup(m, p, top, proc); var f := Frame(n, top - 60);
            && Load32(n, p) == top - 60 && Load32(n, p + 4) == 0x08 && Load32(n, top) == p
            && Load32(n, top - 4) == f.eflags == 0x202 && Load32(n, top - 8) == f.cs == 0x10
            && Load32(n, top - 12) == f.eip == proc
            && f.es == f.ds == f.fs == f.gs == 0x08 && f.esp == top
            && f.eax == f.ecx == f.edx == f.ebx == f.ebp == 0 && f.esi == f.edi == 8
  {
    SetupFrame(m, p, top, proc);
    hide Setup, Load32;
    SecondWord(m, p, top, proc);
  }

  lemma SecondWord(m: Bytes, p: u32, top: u32, proc: u32)
    requires p <= WORD_SIZE - 8 && FRAME_SIZE <= top <= WORD_SIZE - 4
    ensures Load32(Setup(m, p, top, proc), p + 4) == 0x08
  {
    hide PushAll, Load32;
  }

  // What a call of switchTo leaves below the argument: flags, code segment and
  // return address for iret, the segment registers, and the block of pushad.
  lemma SavedWords(s: Machine)
    requires CanSwitch(s) && (s.current + 4 <= s.regs.esp - 56 || s.regs.esp + 4 <= s.current || s.current == 0)
    ensures var n, a, r := Saved(s), s.regs.esp + 4, s.regs;
            && Load32(n, a - 4) == r.eflags && Load32(n, a - 8) == r.cs
            && Load32(n, a - 12) == Load32(s.mem, r.esp) == Load32(n, a - 32)
            && Load32(n, a - 16) == r.es && Load32(n, a - 20) == r.ds
            && Load32(n, a - 24) == r.fs && Load32(n, a - 28) == r.gs
            && Load32(n, a - 36) == r.ecx && Load32(n, a - 40) == r.edx && Load32(n, a - 44) == r.ebx
            && Load32(n, a - 48) == a - 28 && Load32(n, a - 52) == r.ebp
            && Load32(n, a - 56) == r.esi && Load32(n, a - 60) == r.edi
            && (s.current != 0 ==> Load32(n, s.current) == a - 60)
  {
    hide Saved, Load32;
    SavedWord(s, 0);
    SavedWord(s, 1);
    SavedWord(s, 2);
    SavedWord(s, 3);
    SavedWord(s, 4);
    SavedWord(s, 5);
    SavedWord(s, 6);
    SavedWord(s, 7);
    SavedWord(s, 8);
    SavedWord(s, 9);
    SavedWord(s, 10);
    SavedWord(s, 11);
    SavedWord(s, 12);
    SavedWord(s, 13);
    SavedWord(s, 14);
    if s.current != 0 {
      SavedEsp(s);
    }
  }

  lemma SavedEsp(s: Machine)
    requires CanSwitch(s) && s.current != 0
    ensures Load32(Saved(s), s.current) == s.regs.esp + 4 - 60
  {
    hide PushAll, Load32;
  }

  lemma SavedWord(s: Machine, k: nat)
    requires CanSwitch(s) && (s.current + 4 <= s.regs.esp - 56 || s.regs.esp + 4 <= s.current || s.current == 0)
    requires k < 15
    ensures Load32(Saved(s), s.regs.esp + 4 - 4 * (k + 1)) == FrameWords(Returned(s), Returned(s).esp - 28)[k]
  {
    hide PushAll, Load32;
    var r := Returned(s);
    var ws := FrameWords(r, r.esp - 28);
    PushAllReads(s.mem, r.esp, ws, k);
    if s.current != 0 {
      PutSpares(PushAll(s.mem, r.esp, ws), s.current, r.esp - 60, r.esp - 4 * (k + 1));
    }
  }

  // What it loads, from the record named by its argument.
  lemma LoadedWords(s: Machine)
    requires CanSwitch(s) && CanResume(s)
    ensures var n, r := Saved(s), SwitchTo(s).regs;
            && SwitchTo(s).mem == n && SwitchTo(s).current == Load32(n, s.regs.esp + 4)
            && r.esp == Load32(n, SwitchTo(s).current) + 60
            && r.eflags == Load32(n, r.esp - 4) && r.cs == Load32(n, r.esp - 8) && r.eip == Load32(n, r.esp - 12)
            && r.es == Load32(n, r.esp - 16) && r.ds == Load32(n, r.esp - 20)
            && r.fs == Load32(n, r.esp - 24) && r.gs == Load32(n, r.esp - 28)
            && r.eax == Load32(n, r.esp - 32) && r.ecx == Load32(n, r.esp - 36) && r.edx == Load32(n, r.esp - 40)
            && r.ebx == Load32(n, r.esp - 44) && r.ebp == Load32(n, r.esp - 52)
            && r.esi == Load32(n, r.esp - 56) && r.edi == Load32(n, r.esp - 60)
  {
    hide Saved, Load32;
  }

  // A call that returns: eip is the word under the stack pointer, which eax holds
  // too, the stack pointer is back at the argument, and nothing else changes.
  lemma ReturnedSays(s: Machine)
    requires s.regs.esp <= WORD_SIZE - 8
    ensures var r := Returned(s);
            && r.eip == r.eax == Load32(s.mem, s.regs.esp) && r.esp == s.regs.esp + 4
            && r == s.regs.(eax := r.eax, eip := r.eip, esp := r.esp)
  {
  }
}
