// process/switchto.asm instruction by instruction: pushes and pops on stack
// memory, the registers, and k_proclist.current.

module ContextSwitches {
  import opened Words
  import opened Memory
  import M = ContextModel

  lemma NothingPushed(m: Bytes, sp: int)
    requires 0 <= sp <= WORD_SIZE
    ensures M.PushAll(m, sp, []) == m
  {
  }

  class Cpu {
    const mem: array<u8>
    var regs: M.Regs
    var current: u32

    constructor (mem: array<u8>, regs: M.Regs)
      ensures this.mem == mem && this.regs == regs && current == 0
    {
      this.mem, this.regs, current := mem, regs, 0;
    }

    ghost predicate Valid()
    {
      mem.Length == WORD_SIZE
    }

    ghost function State(): M.Machine
      requires Valid()
      reads this, mem
    {
      M.Machine(mem[..], regs, current)
    }

    method Push(w: u32)
      requires Valid() && regs.esp >= 4
      modifies this`regs, mem
      ensures regs == old(regs).(esp := old(regs.esp) - 4)
      ensures mem[..] == Put32(old(mem[..]), old(regs.esp) - 4, w)
    {
      regs := regs.(esp := regs.esp - 4);
      Store32(mem, regs.esp, w);
    }

    method Pop() returns (w: u32)
      requires Valid() && regs.esp <= WORD_SIZE - 8
      modifies this`regs
      ensures w == Load32(mem[..], old(regs.esp)) && regs == old(regs).(esp := old(regs.esp) + 4)
    {
      w := Read32(mem, regs.esp);
      regs := regs.(esp := regs.esp + 4);
    }

    // A push after the pushes of ws.
    method PushNext(w: u32, ghost m: Bytes, ghost sp: int, ghost ws: seq<u32>)
      requires Valid() && 4 * |ws| + 4 <= sp <= WORD_SIZE && regs.esp == sp - 4 * |ws|
      requires mem[..] == M.PushAll(m, sp, ws)
      modifies this`regs, mem
      ensures regs == old(regs).(esp := old(regs.esp) - 4)
      ensures mem[..] == M.PushAll(m, sp, ws + [w])
    {
      hide Put32, M.PushAll;
      M.PushMore(m, sp, ws, w);
      Push(w);
    }

    method PushSegments(ghost m: Bytes, ghost sp: int, ghost ws: seq<u32>)
      requires Valid() && 4 * |ws| + 16 <= sp <= WORD_SIZE && regs.esp == sp - 4 * |ws|
      requires mem[..] == M.PushAll(m, sp, ws)
      modifies this`regs, mem
      ensures regs == old(regs).(esp := old(regs.esp) - 16)
      ensures var r := old(regs); mem[..] == M.PushAll(m, sp, ws + [r.es, r.ds, r.fs, r.gs])
    {
      hide M.PushAll;
      var r := regs;
      PushNext(r.es, m, sp, ws);
      PushNext(r.ds, m, sp, ws + [r.es]);
      assert ws + [r.es] + [r.ds] == ws + [r.es, r.ds];
      PushNext(r.fs, m, sp, ws + [r.es, r.ds]);
      assert ws + [r.es, r.ds] + [r.fs] == ws + [r.es, r.ds, r.fs];
      PushNext(r.gs, m, sp, ws + [r.es, r.ds, r.fs]);
      assert ws + [r.es, r.ds, r.fs] + [r.gs] == ws + [r.es, r.ds, r.fs, r.gs];
    }

    // The eight general registers, esp as it was before the first push.
    method Pushad(ghost m: Bytes, ghost sp: int, ghost ws: seq<u32>)
      requires Valid() && 4 * |ws| + 32 <= sp <= WORD_SIZE && regs.esp == sp - 4 * |ws|
      requires mem[..] == M.PushAll(m, sp, ws)
      modifies this`regs, mem
      ensures regs == old(regs).(esp := old(regs.esp) - 32)
      ensures var r := old(regs);
              mem[..] == M.PushAll(m, sp, ws + [r.eax, r.ecx, r.edx, r.ebx, r.esp, r.ebp, r.esi, r.edi])
    {
      hide M.PushAll;
      var r := regs;
      PushNext(r.eax, m, sp, ws);
      PushNext(r.ecx, m, sp, ws + [r.eax]);
      assert ws + [r.eax] + [r.ecx] == ws + [r.eax, r.ecx];
      PushNext(r.edx, m, sp, ws + [r.eax, r.ecx]);
      assert ws + [r.eax, r.ecx] + [r.edx] == ws + [r.eax, r.ecx, r.edx];
      PushNext(r.ebx, m, sp, ws + [r.eax, r.ecx, r.edx]);
      ghost var half := ws + [r.eax, r.ecx, r.edx, r.ebx];
      assert ws + [r.eax, r.ecx, r.edx] + [r.ebx] == half;
      PushNext(r.esp, m, sp, half);
      PushNext(r.ebp, m, sp, half + [r.esp]);
      assert half + [r.esp] + [r.ebp] == half + [r.esp, r.ebp];
      PushNext(r.esi, m, sp, half + [r.esp, r.ebp]);
      assert half + [r.esp, r.ebp] + [r.esi] == half + [r.esp, r.ebp, r.esi];
      PushNext(r.edi, m, sp, half + [r.esp, r.ebp, r.esi]);
      assert half + [r.esp, r.ebp, r.esi] + [r.edi] ==
             ws + [r.eax, r.ecx, r.edx, r.ebx, r.esp, r.ebp, r.esi, r.edi];
    }

    // The same registers back; the stored esp is skipped.
    method Popad()
      requires Valid() && regs.esp <= WORD_SIZE - 36
      modifies this`regs
      ensures var a := old(regs.esp); var m := mem[..];
              regs == old(regs).(edi := Load32(m, a), esi := Load32(m, a + 4), ebp := Load32(m, a + 8),
                                 ebx := Load32(m, a + 16), edx := Load32(m, a + 20), ecx := Load32(m, a + 24),
                                 eax := Load32(m, a + 28), esp := a + 32)
    {
      hide Load32;
      var w := Pop();
      regs := regs.(edi := w);
      w := Pop();
      regs := regs.(esi := w);
      w := Pop();
      regs := regs.(ebp := w);
      w := Pop();
      w := Pop();
      regs := regs.(ebx := w);
      w := Pop();
      regs := regs.(edx := w);
      w := Pop();
      regs := regs.(ecx := w);
      w := Pop();
      regs := regs.(eax := w);
    }

    // From popad to iret.
    method Resume()
      requires Valid() && regs.esp <= WORD_SIZE - M.FRAME_SIZE - 4
      modifies this`regs
      ensures regs == M.Frame(mem[..], old(regs.esp))
    {
      hide Load32;
      Popad();
      var w := Pop();
      regs := regs.(gs := w);
      w := Pop();
      regs := regs.(fs := w);
      w := Pop();
      regs := regs.(ds := w);
      w := Pop();
      regs := regs.(es := w);
      w := Pop();
      regs := regs.(eip := w);
      w := Pop();
      regs := regs.(cs := w);
      w := Pop();
      regs := regs.(eflags := w);
    }

    // From the first instruction to pushad.
    method Suspend()
      requires Valid() && M.CanSwitch(State())
      modifies this`regs, mem
      ensures var s := old(State()); var r := M.Returned(s);
              && regs == s.regs.(eax := r.eax, esp := r.esp - M.FRAME_SIZE)
              && mem[..] == M.PushAll(s.mem, r.esp, M.FrameWords(r, r.esp - 28))
    {
      hide M.PushAll, Load32;
      ghost var r := M.Returned(State());
      var w := Pop();
      regs := regs.(eax := w);
      ghost var m, sp: int := mem[..], regs.esp;
      NothingPushed(m, sp);
      PushNext(regs.eflags, m, sp, []);
      assert [] + [r.eflags] == [r.eflags];
      PushNext(regs.cs, m, sp, [r.eflags]);
      assert [r.eflags] + [r.cs] == [r.eflags, r.cs];
      PushNext(regs.eax, m, sp, [r.eflags, r.cs]);
      assert [r.eflags, r.cs] + [r.eip] == [r.eflags, r.cs, r.eip];
      PushSegments(m, sp, [r.eflags, r.cs, r.eip]);
      assert [r.eflags, r.cs, r.eip] + [r.es, r.ds, r.fs, r.gs] == [r.eflags, r.cs, r.eip, r.es, r.ds, r.fs, r.gs];
      Pushad(m, sp, [r.eflags, r.cs, r.eip, r.es, r.ds, r.fs, r.gs]);
    }

    method SwitchTo()
      requires Valid() && M.CanSwitch(State()) && M.CanResume(State())
      modifies this, mem
      ensures State() == M.SwitchTo(old(State()))
    {
      hide M.PushAll, Load32, M.Frame;
      Suspend();
      regs := regs.(eax := current);
      if regs.eax != 0 {
        Store32(mem, regs.eax, regs.esp);
      }
      var w := Read32(mem, regs.esp + M.FRAME_SIZE);
      regs := regs.(eax := w);
      current := regs.eax;
      w := Read32(mem, regs.eax);
      regs := regs.(esp := w);
      Resume();
    }
  }

  // One store below the stores of ws: procstack is decremented first.
  method StoreNext(mem: array<u8>, procstack: u32, w: u32, ghost m: Bytes, ghost top: int, ghost ws: seq<u32>)
    returns (below: u32)
    requires mem.Length == WORD_SIZE && 4 * |ws| + 4 <= top <= WORD_SIZE && procstack == top - 4 * |ws|
    requires mem[..] == M.PushAll(m, top, ws)
    modifies mem
    ensures below == procstack - 4 && mem[..] == M.PushAll(m, top, ws + [w])
  {
    hide Put32, M.PushAll;
    M.PushMore(m, top, ws, w);
    below := procstack - 4;
    Store32(mem, below, w);
  }

  // Four stores in a row.
  method StoreFour(mem: array<u8>, procstack: u32, a: u32, b: u32, c: u32, d: u32,
                   ghost m: Bytes, ghost top: int, ghost ws: seq<u32>) returns (below: u32)
    requires mem.Length == WORD_SIZE && 4 * |ws| + 16 <= top <= WORD_SIZE && procstack == top - 4 * |ws|
    requires mem[..] == M.PushAll(m, top, ws)
    modifies mem
    ensures below == procstack - 16 && mem[..] == M.PushAll(m, top, ws + [a, b, c, d])
  {
    hide M.PushAll;
    below := StoreNext(mem, procstack, a, m, top, ws);
    below := StoreNext(mem, below, b, m, top, ws + [a]);
    assert ws + [a] + [b] == ws + [a, b];
    below := StoreNext(mem, below, c, m, top, ws + [a, b]);
    assert ws + [a, b] + [c] == ws + [a, b, c];
    below := StoreNext(mem, below, d, m, top, ws + [a, b, c]);
    assert ws + [a, b, c] + [d] == ws + [a, b, c, d];
  }

  // The record's esp is the top of the new stack.
  method SetupKernelProcess(mem: array<u8>, p: u32, proc: u32)
    requires mem.Length == WORD_SIZE && p <= WORD_SIZE - 8
    requires M.FRAME_SIZE <= Load32(mem[..], p) <= WORD_SIZE - 4
    modifies mem
    ensures mem[..] == M.Setup(old(mem[..]), p, Load32(old(mem[..]), p), proc)
  {
    hide M.PushAll, Load32;
    var top := Read32(mem, p);
    Store32(mem, top, p);
    ghost var m, r := mem[..], M.Initial(proc, top);
    NothingPushed(m, top);
    var procstack := StoreNext(mem, top, M.INITIAL_EFLAGS, m, top, []);
    assert [] + [r.eflags] == [r.eflags];
    procstack := StoreNext(mem, procstack, M.KERNEL_CODE, m, top, [r.eflags]);
    assert [r.eflags] + [r.cs] == [r.eflags, r.cs];
    procstack := StoreNext(mem, procstack, proc, m, top, [r.eflags, r.cs]);
    ghost var ws := [r.eflags, r.cs, r.eip];
    assert [r.eflags, r.cs] + [r.eip] == ws;
    procstack := StoreFour(mem, procstack, M.KERNEL_DATA, M.KERNEL_DATA, M.KERNEL_DATA, M.KERNEL_DATA, m, top, ws);
    ws := ws + [r.es, r.ds, r.fs, r.gs];
    procstack := StoreFour(mem, procstack, 0, 0, 0, 0, m, top, ws);
    ws := ws + [r.eax, r.ecx, r.edx, r.ebx];
    procstack := StoreFour(mem, procstack, 0, 0, 0x08, 0x08, m, top, ws);
    ws := ws + [0, r.ebp, r.esi, r.edi];
    assert ws == M.FrameWords(r, 0);
    Store32(mem, p, procstack);
    Store32(mem, p + 4, M.KERNEL_DATA);
  }
}
