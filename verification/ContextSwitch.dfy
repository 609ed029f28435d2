/**
 The TSM driver's context switch: a CoVH trap is saved to a scratch context, the handler turns it
 into a call of the TSM, a return to the caller or an error, and the context it names is resumed.
 */
module ContextSwitch {

  import opened Bits
  import opened Memory
  import opened Pmp

  /** Size of a saved context: 43 words. */
  const SIZE: nat := 344

  /** The supervisor registers that entry saves and exit restores. */
  datatype Csrs = Csrs(sstatus: nat, stvec: nat, sip: nat, scounteren: nat, sscratch: nat, satp: nat)

  type Registers = s: seq<nat> | |s| == 32 witness seq(32, i => 0)

  datatype Context = Context(regs: Registers, csrs: Csrs, senvcfg: nat, scontext: nat, mepc: nat,
                             interrupted: nat, callerCtx: nat)

  /** What runs on the hart. */
  datatype CpuState = CpuState(regs: Registers, csrs: Csrs, mepc: nat)

  /** Register x0 reads zero. */
  type Cpu = c: CpuState | c.regs[0] == 0 witness CpuState(seq(32, i => 0), Csrs(0, 0, 0, 0, 0, 0), 0)

  datatype Domain = Domain(trustMap: nat, regions: seq<Region>, contextAddr: nat, hasTsm: bool)

  datatype State = State(contexts: map<nat, Context>, domains: seq<Domain>)

  /** Where contexts are kept below the scratch context. */
  function TsmAt(base: nat): nat
    requires base > 3 * SIZE
  {
    base - SIZE
  }

  function CallerAt(base: nat): nat
    requires base > 3 * SIZE
  {
    base - 2 * SIZE
  }

  const CALLER: nat := 2
  const TSM: nat := 1
  const TSM_ENTRY: nat := 0x8800_0000

  // ----- register a6: domain in bits 26 to 31, function in the low half-word

  function DstOf(a6: nat): nat {
    a6 / 0x400_0000 % 64
  }

  function FidOf(a6: nat): nat {
    a6 % 0x1_0000
  }

  function PackA6(domain: nat, a6: nat): nat {
    BitOr(domain * 0x400_0000, FidOf(a6))
  }

  lemma PackA6Parts(domain: nat, a6: nat)
    requires domain < 64
    ensures PackA6(domain, a6) == domain * 0x400_0000 + FidOf(a6)
    ensures DstOf(PackA6(domain, a6)) == domain && FidOf(PackA6(domain, a6)) == FidOf(a6)
  {
    DomainBit();
    OrDisjoint(domain, FidOf(a6), 26);
    hide BitOr, Pow2;
    var fid := FidOf(a6);
    assert PackA6(domain, a6) == domain * 0x400_0000 + fid;
    Unpack(domain, fid);
  }

  lemma DomainBit()
    ensures Pow2(26) == 0x400_0000
  {
    Pow2Small();
    Pow2Add(10, 10);
    Pow2Add(20, 6);
    assert Pow2(6) == 64;
  }

  lemma Unpack(domain: nat, fid: nat)
    requires domain < 64 && fid < 0x1_0000
    ensures DstOf(domain * 0x400_0000 + fid) == domain && FidOf(domain * 0x400_0000 + fid) == fid
  {
    assert domain * 0x400_0000 == domain * 0x400 * 0x1_0000;
  }

  // ----- the handler

  /** What the handler is given from outside: the firmware's answer and the region records it keeps. */
  datatype Env = Env(switched: bool, regions: Option<seq<Region>>)

  datatype Outcome = Stop | Resume(next: State, at: nat)

  predicate IsTrusted(d: Domain, src: nat) {
    d.trustMap / Pow2(src) % 2 == 1
  }

  /** The scratch context, holding an error code and stepping over the trapping instruction. */
  function ErrorIn(c: Context): Context {
    c.(regs := c.regs[10 := SPACE - 1][11 := 0], mepc := c.mepc + 4)
  }

  function ReturnError(s: State, at: nat): Outcome
    requires at in s.contexts
  {
    if s.contexts[at].mepc + 4 >= SPACE then Stop
    else Resume(s.(contexts := s.contexts[at := ErrorIn(s.contexts[at])]), at)
  }

  /** `to` with the registers of `from` between 10 and `i`; the eight arguments are 10 to 17. */
  function Copied(to: Registers, from: Registers, i: nat): Registers
    requires 10 <= i <= 18
  {
    to[..10] + from[10..i] + to[i..]
  }

  function Called(callee: Context, caller: Context, callerAt: nat): Context {
    callee.(regs := Copied(callee.regs, caller.regs, 18)[16 := PackA6(CALLER, caller.regs[16])],
            callerCtx := callerAt)
  }

  function TrailingZeros(n: nat): nat
    requires n > 0
  {
    if n % 2 == 1 then 0 else 1 + TrailingZeros(n / 2)
  }

  predicate IsPowerOfTwo(n: nat)
    requires n > 0
  {
    n == 1 || (n % 2 == 0 && IsPowerOfTwo(n / 2))
  }

  function NextPowerOfTwo(n: nat): (r: nat)
    ensures r > 0
  {
    if n <= 1 then 1 else 2 * NextPowerOfTwo((n + 1) / 2)
  }

  /** Order of the region that is opened for a TSM information record of `size` bytes. */
  function InfoOrder(size: nat): nat
    requires size > 0
  {
    var order := if IsPowerOfTwo(size) then TrailingZeros(size) else TrailingZeros(NextPowerOfTwo(size));
    if order < 3 then 3 else order
  }

  /** Regions of the TSM's domain after the preparation of a call; nothing when the handler stops. */
  function Prepared(d: Domain, fid: nat, a0: nat, a1: nat, env: Env): Option<seq<Region>> {
    if fid == 0 then
      if a0 % PAGE_SIZE != 0 || |d.regions| >= 8 || a1 == 0 || NextPowerOfTwo(a1) >= SPACE then None
      else Some(d.regions + [Region(a0, InfoOrder(a1))])
    else if fid == 1 || fid == 2 then env.regions
    else Some(d.regions)
  }

  function TeeCall(base: nat, s: State, dst: nat, fid: nat, env: Env): Outcome
    requires base > 3 * SIZE && base in s.contexts && dst < |s.domains|
  {
    var d, scratch := s.domains[dst], s.contexts[base];
    var saved := s.contexts[CallerAt(base) := scratch];
    if d.contextAddr !in saved then Stop
    else
      var regions := Prepared(d, fid, scratch.regs[10], scratch.regs[11], env);
      if regions.None? || !env.switched || !Programmable(regions.value) then Stop
      else
        var callee := Called(saved[d.contextAddr], scratch, CallerAt(base));
        Resume(State(saved[d.contextAddr := callee], s.domains[dst := d.(regions := regions.value)]), d.contextAddr)
  }

  function Returned(caller: Context, scratch: Context): Context {
    caller.(regs := caller.regs[10 := scratch.regs[10]][11 := scratch.regs[11]][16 := PackA6(TSM, scratch.regs[16])],
            mepc := caller.mepc + 4)
  }

  function TeeRet(base: nat, s: State, dst: nat, env: Env): Outcome
    requires base in s.contexts && dst < |s.domains|
  {
    var d := s.domains[dst];
    if d.contextAddr !in s.contexts || s.contexts[d.contextAddr].mepc + 4 >= SPACE then Stop
    else if !env.switched || !Programmable(d.regions) then Stop
    else
      var caller := Returned(s.contexts[d.contextAddr], s.contexts[base]);
      Resume(s.(contexts := s.contexts[d.contextAddr := caller]), d.contextAddr)
  }

  function Handle(base: nat, s: State, a6: nat, env: Env): Outcome
    requires base > 3 * SIZE && base in s.contexts
  {
    var dst, fid := DstOf(a6), FidOf(a6);
    if dst >= |s.domains| then ReturnError(s, base)
    else if s.domains[dst].hasTsm then
      if !IsTrusted(s.domains[dst], CALLER) then ReturnError(s, base) else TeeCall(base, s, dst, fid, env)
    else TeeRet(base, s, dst, env)
  }

  // ----- entry and exit

  function Saved(s: State, base: nat, cpu: Cpu): State
    requires base in s.contexts
  {
    var c := s.contexts[base];
    s.(contexts := s.contexts[base := c.(regs := cpu.regs, csrs := cpu.csrs, mepc := cpu.mepc)])
  }

  /** Loading x0 has no effect. */
  function Loaded(c: Context): Cpu {
    CpuState(c.regs[0 := 0], c.csrs, c.mepc)
  }

  datatype Step = Halt | Run(next: State, cpu: Cpu)

  /** One CoVH trap, from the registers that trap to the registers that run next. */
  function Trap(base: nat, s: State, cpu: Cpu, env: Env): Step
    requires base > 3 * SIZE && base in s.contexts
  {
    var o := Handle(base, Saved(s, base, cpu), cpu.regs[16], env);
    if o.Stop? || o.at !in o.next.contexts then Halt else Run(o.next, Loaded(o.next.contexts[o.at]))
  }

  // ----- what the driver sets up and keeps

  /** The TSM's context as it was prepared at boot, apart from argument registers and return address. */
  predicate Fresh(c: Context) {
    c.csrs == Csrs(0, 0, 0, 0, 0, 0) && c.mepc == TSM_ENTRY
    && forall i | 0 <= i < 32 && !(10 <= i < 18) :: c.regs[i] == 0
  }

  predicate Inv(base: nat, s: State)
    requires base > 3 * SIZE
  {
    && s.contexts.Keys == {base, TsmAt(base), CallerAt(base)}
    && |s.domains| == 3
    && s.domains[0] == Domain(0, [Region(0, 64)], 0, false)
    && s.domains[1] == Domain(5, s.domains[1].regions, TsmAt(base), true)
    && s.domains[2] == Domain(2, [Region(0x8A00_0000, 24)], CallerAt(base), false)
    && Fresh(s.contexts[TsmAt(base)])
  }

  /** The driver's state after initialization, whatever the other contexts hold. */
  function Booted(base: nat, scratch: Context, caller: Context): State
    requires base > 3 * SIZE
  {
    var zero := Context(seq(32, i => 0), Csrs(0, 0, 0, 0, 0, 0), 0, 0, TSM_ENTRY, 0, 0);
    State(map[base := scratch, TsmAt(base) := zero, CallerAt(base) := caller],
          [Domain(0, [Region(0, 64)], 0, false),
           Domain(5, [Region(0x8800_0000, 26), Region(0x1000_0000, 12)], TsmAt(base), true),
           Domain(2, [Region(0x8A00_0000, 24)], CallerAt(base), false)])
  }

  lemma BootedInv(base: nat, scratch: Context, caller: Context)
    requires base > 3 * SIZE
    ensures Inv(base, Booted(base, scratch, caller))
  {
  }

  /** The region is as its entry decodes: aligned, and open to everything. */
  predicate Exact(r: Region) {
    OrderOk(r.order) && Decodes(EntryFor(r).addr, r.base, Pow2(r.order)) && GrantsAll(EntryFor(r).config)
  }

  /** The booted lists are programmed exactly as they are written, and the TSM starts inside its own memory. */
  lemma BootedRegions(base: nat, scratch: Context, caller: Context)
    requires base > 3 * SIZE
    ensures var s := Booted(base, scratch, caller);
            && (forall r | r in s.domains[TSM].regions + s.domains[CALLER].regions :: Exact(r))
            && |s.domains[TSM].regions| == 2 && var own := s.domains[TSM].regions[0];
               own.base <= s.contexts[TsmAt(base)].mepc < own.base + Pow2(own.order)
  {
    BootedSizes();
    hide Pow2, Decodes, GrantsAll, EntryFor;
    AlignedExact(Region(0x8800_0000, 26));
    AlignedExact(Region(0x1000_0000, 12));
    AlignedExact(Region(0x8A00_0000, 24));
  }

  lemma AlignedExact(r: Region)
    requires OrderOk(r.order) && r.base % Pow2(r.order) == 0
    ensures Exact(r)
  {
    EntryOpens(r);
  }

  lemma BootedSizes()
    ensures Pow2(26) == 0x400_0000 && Pow2(24) == 0x100_0000 && Pow2(12) == 0x1000
  {
    DomainBit();
    Pow2Small();
    Pow2Add(12, 12);
  }

  /** What a trap does in any state the driver can be in, by the domain it names. */
  lemma TrapCases(base: nat, s: State, cpu: Cpu, env: Env)
    requires base > 3 * SIZE && Inv(base, s) && Trap(base, s, cpu, env).Run?
    ensures var t, dst, fid := Trap(base, s, cpu, env), DstOf(cpu.regs[16]), FidOf(cpu.regs[16]);
            var now := Saved(s, base, cpu).contexts;
            if dst == 1 then
              var saved := now[CallerAt(base) := now[base]];
              var callee := Called(saved[TsmAt(base)], now[base], CallerAt(base));
              t.next.contexts == saved[TsmAt(base) := callee] && t.cpu == Loaded(callee)
              && var regions := Prepared(s.domains[1], fid, cpu.regs[10], cpu.regs[11], env);
                 regions.Some? && t.next.domains == s.domains[1 := s.domains[1].(regions := regions.value)]
                 && Programmable(regions.value)
            else if dst == 2 then
              var caller := Returned(now[CallerAt(base)], now[base]);
              t.next == State(now[CallerAt(base) := caller], s.domains) && t.cpu == Loaded(caller)
            else
              dst != 0 && t.next == State(now[base := ErrorIn(now[base])], s.domains) && t.cpu == Loaded(ErrorIn(now[base]))
  {
    hide Called, Returned, ErrorIn, Prepared, DstOf, FidOf, Fresh;
    assert IsTrusted(s.domains[1], CALLER) by {
      assert Pow2(2) == 4;
    }
    if DstOf(cpu.regs[16]) == 0 {
      assert !Programmable(s.domains[0].regions) by {
        assert Region(0, 64) in s.domains[0].regions;
      }
    }
  }

  // ----- which traps are carried out

  predicate OrdersFit(regions: seq<Region>) {
    forall i | 0 <= i < |regions| :: 3 <= regions[i].order <= 33
  }

  /**
   A call can be prepared: an information call for a page-aligned record of at most 2^33 bytes with a free entry,
   a call that moves pages when the list it leaves can be programmed, any other call when the list as it is can be.
   */
  predicate CallFits(regions: seq<Region>, fid: nat, a0: nat, a1: nat, moved: Option<seq<Region>>) {
    if fid == 0 then a0 % 4096 == 0 && 0 < a1 <= 0x2_0000_0000 && |regions| <= 7 && OrdersFit(regions)
    else if fid == 1 || fid == 2 then moved.Some? && |moved.value| <= 8 && OrdersFit(moved.value)
    else |regions| <= 8 && OrdersFit(regions)
  }

  /** A trap is carried out: by the domain in bits 26 to 31 of a6 and the function in its low half-word. */
  predicate CarriedOut(base: nat, s: State, cpu: Cpu, env: Env)
    requires base > 3 * SIZE && CallerAt(base) in s.contexts && |s.domains| == 3
  {
    var a6 := cpu.regs[16];
    var dst, fid := a6 / 0x400_0000 % 64, a6 % 0x1_0000;
    if dst == 0 then false
    else if dst == 1 then env.switched && CallFits(s.domains[1].regions, fid, cpu.regs[10], cpu.regs[11], env.regions)
    else if dst == 2 then env.switched && s.contexts[CallerAt(base)].mepc + 4 < SPACE
    else cpu.mepc + 4 < SPACE
  }

  lemma ProgrammableIs(regions: seq<Region>)
    ensures Programmable(regions) <==> |regions| <= 8 && OrdersFit(regions)
  {
    if OrdersFit(regions) {
      forall r | r in regions ensures OrderOk(r.order) {
        var i :| 0 <= i < |regions| && regions[i] == r;
      }
    }
    if Programmable(regions) {
      forall i | 0 <= i < |regions| ensures 3 <= regions[i].order <= 33 {
        assert regions[i] in regions;
      }
    }
  }

  lemma Pow33()
    ensures Pow2(33) == 0x2_0000_0000
  {
    Pow2Small();
    Pow2Add(10, 10);
    Pow2Add(20, 10);
    Pow2Add(30, 3);
  }

  lemma InfoOrderFits(size: nat)
    requires size > 0
    ensures OrderOk(InfoOrder(size)) <==> size <= 0x2_0000_0000
    ensures size <= 0x2_0000_0000 ==> NextPowerOfTwo(size) < SPACE
  {
    hide Pow2, InfoOrder, NextPowerOfTwo;
    InfoOrderExact(size);
    NextPowerIs(size);
    Pow33();
    var k := InfoOrder(size);
    if k <= 33 {
      Pow2Monotone(k, 33);
    } else {
      Pow2Monotone(33, k - 1);
    }
    if size == 1 {
      NextOfOne();
    }
  }

  lemma NextOfOne()
    ensures NextPowerOfTwo(1) == 1
  {
  }

  lemma AppendFits(regions: seq<Region>, r: Region)
    ensures OrdersFit(regions + [r]) <==> OrdersFit(regions) && 3 <= r.order <= 33
  {
    var all := regions + [r];
    if OrdersFit(all) {
      assert all[|regions|] == r;
      assert forall i | 0 <= i < |regions| :: all[i] == regions[i];
    }
  }

  /** Which calls are prepared, and with which list. */
  lemma PreparedExact(d: Domain, fid: nat, a0: nat, a1: nat, env: Env)
    ensures var p := Prepared(d, fid, a0, a1, env);
            p.Some? && Programmable(p.value) <==> CallFits(d.regions, fid, a0, a1, env.regions)
  {
    var p := Prepared(d, fid, a0, a1, env);
    hide InfoOrder, NextPowerOfTwo, OrdersFit, Programmable;
    if p.Some? {
      ProgrammableIs(p.value);
    }
    if fid == 0 && a1 > 0 {
      InfoOrderFits(a1);
      AppendFits(d.regions, Region(a0, InfoOrder(a1)));
    }
  }

  /** From every state the driver can be in: exactly which traps are carried out. */
  lemma TrapExact(base: nat, s: State, cpu: Cpu, env: Env)
    requires base > 3 * SIZE && Inv(base, s)
    ensures Trap(base, s, cpu, env).Run? <==> CarriedOut(base, s, cpu, env)
  {
    hide Called, Returned, ErrorIn, Fresh;
    var dst, fid := DstOf(cpu.regs[16]), FidOf(cpu.regs[16]);
    if dst == 1 {
      CallExact(base, s, cpu, env);
    } else {
      assert Programmable(s.domains[2].regions);
      hide CallFits, Programmable, IsTrusted, Prepared;
    }
  }

  lemma CallExact(base: nat, s: State, cpu: Cpu, env: Env)
    requires base > 3 * SIZE && Inv(base, s) && DstOf(cpu.regs[16]) == 1
    ensures Trap(base, s, cpu, env).Run? <==> CarriedOut(base, s, cpu, env)
  {
    PreparedExact(s.domains[1], FidOf(cpu.regs[16]), cpu.regs[10], cpu.regs[11], env);
    assert IsTrusted(s.domains[1], CALLER) by {
      assert Pow2(2) == 4;
    }
    hide Called, Prepared, Fresh, CallFits, Programmable, IsTrusted;
  }

  /** An error resumes the caller behind the trap with -1 in a0 and 0 in a1 and changes nothing else. */
  lemma ErrorResumes(base: nat, s: State, cpu: Cpu, env: Env)
    requires base > 3 * SIZE && Inv(base, s) && cpu.regs[16] / 0x400_0000 % 64 >= 3 && cpu.mepc + 4 < SPACE
    ensures var t := Trap(base, s, cpu, env);
            && t.Run? && t.next.domains == s.domains
            && t.cpu == CpuState(cpu.regs[10 := 0xffff_ffff_ffff_ffff][11 := 0], cpu.csrs, cpu.mepc + 4)
            && t.next.contexts.Keys == s.contexts.Keys
            && (forall at | at in s.contexts && at != base :: t.next.contexts[at] == s.contexts[at])
  {
    TrapExact(base, s, cpu, env);
    TrapCases(base, s, cpu, env);
    hide Trap, Prepared, Fresh, Called, Returned, CarriedOut;
    var t := Trap(base, s, cpu, env);
    assert t.cpu.regs == cpu.regs[10 := 0xffff_ffff_ffff_ffff][11 := 0];
  }

  /** The list of the TSM after a call that is carried out. */
  lemma CallRegions(base: nat, s: State, cpu: Cpu, env: Env)
    requires base > 3 * SIZE && Inv(base, s) && Trap(base, s, cpu, env).Run? && DstOf(cpu.regs[16]) == TSM
    ensures var before, domains := s.domains[TSM].regions, Trap(base, s, cpu, env).next.domains;
            var fid := FidOf(cpu.regs[16]);
            && |domains| == 3
            && (fid == 1 || fid == 2 ==> env.regions == Some(domains[TSM].regions))
            && (fid > 2 ==> domains[TSM].regions == before)
            && (fid == 0 ==> domains[TSM].regions == before + [Region(cpu.regs[10], InfoOrder(cpu.regs[11]))] && cpu.regs[11] > 0)
  {
    TrapCases(base, s, cpu, env);
    hide Trap, Fresh, Called, Returned, InfoOrder;
  }

  /** Kept by every trap, whatever the registers and the environment. */
  lemma InvStep(base: nat, s: State, cpu: Cpu, env: Env)
    requires base > 3 * SIZE && Inv(base, s) && Trap(base, s, cpu, env).Run?
    ensures Inv(base, Trap(base, s, cpu, env).next)
  {
    TrapCases(base, s, cpu, env);
    hide Trap, Prepared, PackA6;
  }

  /** A TSM that has just been called: boot registers, the caller's arguments, and who called. */
  function Entered(cpu: Cpu): Cpu {
    CpuState(seq<nat>(32, i requires 0 <= i < 32 => EnteredAt(cpu, i)), Csrs(0, 0, 0, 0, 0, 0), TSM_ENTRY)
  }

  function EnteredAt(cpu: Cpu, i: nat): nat
    requires i < 32
  {
    if i == 16 then PackA6(CALLER, cpu.regs[16]) else if 10 <= i < 18 then cpu.regs[i] else 0
  }

  lemma EnteredFrom(callee: Context, caller: Context, callerAt: nat, cpu: Cpu)
    requires Fresh(callee) && caller.regs == cpu.regs
    ensures Loaded(Called(callee, caller, callerAt)) == Entered(cpu)
  {
    hide PackA6;
    var regs := Loaded(Called(callee, caller, callerAt)).regs;
    forall i | 0 <= i < 32
      ensures regs[i] == Entered(cpu).regs[i]
    {
      CopiedAt(callee.regs, caller.regs, 18, i);
    }
  }

  lemma CallerNoted(callee: Context, caller: Context, callerAt: nat)
    ensures Called(callee, caller, callerAt).callerCtx == callerAt
  {
  }

  lemma CopiedAt(to: Registers, from: Registers, n: nat, i: nat)
    requires 10 <= n <= 18 && i < 32
    ensures Copied(to, from, n)[i] == if 10 <= i < n then from[i] else to[i]
  {
  }

  /** Every call enters the TSM afresh, and leaves it the place of its caller. */
  lemma CallEnters(base: nat, s: State, cpu: Cpu, env: Env)
    requires base > 3 * SIZE && Inv(base, s) && Trap(base, s, cpu, env).Run? && DstOf(cpu.regs[16]) == TSM
    ensures Trap(base, s, cpu, env).cpu == Entered(cpu)
    ensures var now := Trap(base, s, cpu, env).next.contexts;
            TsmAt(base) in now && now[TsmAt(base)].callerCtx == CallerAt(base)
  {
    TrapCases(base, s, cpu, env);
    CallerNoted(s.contexts[TsmAt(base)], Saved(s, base, cpu).contexts[base], CallerAt(base));
    hide Trap, Prepared, PackA6, Called, Fresh, Loaded, Entered;
    var now := Saved(s, base, cpu).contexts;
    EnteredFrom(s.contexts[TsmAt(base)], now[base], CallerAt(base), cpu);
  }

  // ----- runs

  /** A trap: the registers that trapped, the environment it met, the registers resumed. */
  datatype Event = Event(cpu: Cpu, env: Env, after: Cpu)

  predicate Calls(e: Event) {
    DstOf(e.cpu.regs[16]) == TSM
  }

  predicate Returns(e: Event) {
    DstOf(e.cpu.regs[16]) == CALLER
  }

  predicate StepOk(base: nat, s: State, e: Event, next: State)
    requires base > 3 * SIZE
  {
    base in s.contexts && Trap(base, s, e.cpu, e.env) == Run(next, e.after)
  }

  predicate IsRun(base: nat, states: seq<State>, events: seq<Event>)
    requires base > 3 * SIZE
  {
    && |states| == |events| + 1 && Inv(base, states[0])
    && forall i | 0 <= i < |events| :: StepOk(base, states[i], events[i], states[i + 1])
  }

  lemma {:induction false} RunInv(base: nat, states: seq<State>, events: seq<Event>, i: nat)
    requires base > 3 * SIZE && IsRun(base, states, events) && i <= |events|
    ensures Inv(base, states[i])
  {
    if i > 0 {
      RunInv(base, states, events, i - 1);
      hide Inv, Trap;
      assert StepOk(base, states[i - 1], events[i - 1], states[i]);
      InvStep(base, states[i - 1], events[i - 1].cpu, events[i - 1].env);
    }
  }

  /** Returns among the events after `k`, up to and including `j`. */
  function ReturnsIn(events: seq<Event>, k: nat, j: nat): nat
    requires k <= j < |events|
  {
    if j == k then 0 else ReturnsIn(events, k, j - 1) + (if Returns(events[j]) then 1 else 0)
  }

  /** No call among the events after `k`, up to and including `j`. */
  predicate NoCallIn(events: seq<Event>, k: nat, j: nat)
    requires k <= j < |events|
  {
    forall m | k < m <= j :: !Calls(events[m])
  }

  /** `c` holds the registers `cpu`, stepped over `n` returns, apart from a0, a1 and a6. */
  predicate Holding(c: Context, cpu: Cpu, n: nat) {
    && c.csrs == cpu.csrs && c.mepc == cpu.mepc + 4 * n
    && forall i | 0 <= i < 32 && i != 10 && i != 11 && i != 16 :: c.regs[i] == cpu.regs[i]
  }

  /** The caller's registers, resumed after `n` returns of which the last one is `result`. */
  function Back(cpu: Cpu, result: Cpu, n: nat): Cpu {
    CpuState(cpu.regs[10 := result.regs[10]][11 := result.regs[11]][16 := PackA6(TSM, result.regs[16])],
             cpu.csrs, cpu.mepc + 4 * n)
  }

  lemma CallSaves(base: nat, s: State, e: Event, next: State)
    requires base > 3 * SIZE && Inv(base, s) && StepOk(base, s, e, next) && Calls(e)
    ensures CallerAt(base) in next.contexts && Holding(next.contexts[CallerAt(base)], e.cpu, 0)
  {
    TrapCases(base, s, e.cpu, e.env);
    hide Trap, Prepared, PackA6;
  }

  lemma OtherKeeps(base: nat, s: State, e: Event, next: State, cpu: Cpu, n: nat)
    requires base > 3 * SIZE && Inv(base, s) && StepOk(base, s, e, next) && !Calls(e)
    requires Holding(s.contexts[CallerAt(base)], cpu, n)
    ensures CallerAt(base) in next.contexts
    ensures Holding(next.contexts[CallerAt(base)], cpu, if Returns(e) then n + 1 else n)
    ensures Returns(e) ==> e.after == Back(cpu, e.cpu, n + 1)
  {
    TrapCases(base, s, e.cpu, e.env);
    hide Trap, Prepared, PackA6;
    if Returns(e) {
      assert e.after.regs == Back(cpu, e.cpu, n + 1).regs;
    }
  }

  lemma {:induction false} CallerKept(base: nat, states: seq<State>, events: seq<Event>, k: nat, j: nat)
    requires base > 3 * SIZE && IsRun(base, states, events) && k <= j < |events|
    requires Calls(events[k]) && NoCallIn(events, k, j)
    ensures CallerAt(base) in states[j + 1].contexts
    ensures Holding(states[j + 1].contexts[CallerAt(base)], events[k].cpu, ReturnsIn(events, k, j))
    decreases j
  {
    hide Inv, Trap, Holding, DstOf;
    RunInv(base, states, events, j);
    assert StepOk(base, states[j], events[j], states[j + 1]);
    if j == k {
      CallSaves(base, states[j], events[j], states[j + 1]);
    } else {
      CallerKept(base, states, events, k, j - 1);
      OtherKeeps(base, states[j], events[j], states[j + 1], events[k].cpu, ReturnsIn(events, k, j - 1));
    }
  }

  /**
   Over every run: a return resumes the latest call with all its registers, except that a0 and a1
   carry the result, a6 names the TSM and the function, and the program counter has moved on.
   */
  lemma ReturnResumesCall(base: nat, states: seq<State>, events: seq<Event>, k: nat, j: nat)
    requires base > 3 * SIZE && IsRun(base, states, events) && k < j < |events|
    requires Calls(events[k]) && NoCallIn(events, k, j) && Returns(events[j])
    ensures events[j].after == Back(events[k].cpu, events[j].cpu, ReturnsIn(events, k, j))
  {
    hide Inv, Trap, Holding, Back;
    RunInv(base, states, events, j);
    CallerKept(base, states, events, k, j - 1);
    assert StepOk(base, states[j], events[j], states[j + 1]);
    OtherKeeps(base, states[j], events[j], states[j + 1], events[k].cpu, ReturnsIn(events, k, j - 1));
  }

  /** Over every run: each call, at any point, starts the TSM from its boot registers. */
  lemma EveryCallEnters(base: nat, states: seq<State>, events: seq<Event>, k: nat)
    requires base > 3 * SIZE && IsRun(base, states, events) && k < |events| && Calls(events[k])
    ensures events[k].after == Entered(events[k].cpu)
  {
    hide Inv, Trap, Entered;
    RunInv(base, states, events, k);
    assert StepOk(base, states[k], events[k], states[k + 1]);
    CallEnters(base, states[k], events[k].cpu, events[k].env);
  }

  /** A TSM that answers with the a6 it was called with returns to its caller. */
  lemma AnsweredCall(base: nat, states: seq<State>, events: seq<Event>, k: nat)
    requires base > 3 * SIZE && IsRun(base, states, events) && k + 1 < |events|
    requires Calls(events[k]) && events[k + 1].cpu.regs[16] == events[k].after.regs[16]
    ensures var cpu, result, after := events[k].cpu, events[k + 1].cpu, events[k + 1].after;
            && after.regs[10] == result.regs[10] && after.regs[11] == result.regs[11]
            && after.regs[16] == TSM * 0x400_0000 + FidOf(cpu.regs[16])
            && (forall i | 0 <= i < 32 && i != 10 && i != 11 && i != 16 :: after.regs[i] == cpu.regs[i])
            && after.csrs == cpu.csrs && after.mepc == cpu.mepc + 4
  {
    EveryCallEnters(base, states, events, k);
    var a6 := events[k].cpu.regs[16];
    assert events[k].after.regs[16] == PackA6(CALLER, a6);
    PackA6Parts(CALLER, a6);
    PackA6Parts(TSM, PackA6(CALLER, a6));
    hide IsRun, PackA6, FidOf, DstOf;
    assert ReturnsIn(events, k, k + 1) == 1;
    ReturnResumesCall(base, states, events, k, k + 1);
  }

  // ----- regions opened for the information record

  lemma {:induction false} PowerIs(n: nat)
    requires n > 0 && IsPowerOfTwo(n)
    ensures n == Pow2(TrailingZeros(n))
  {
    if n != 1 {
      PowerIs(n / 2);
    }
  }

  lemma {:induction false} NextPowerIs(n: nat)
    ensures var r := NextPowerOfTwo(n); n <= r && (n > 1 ==> r < 2 * n) && r == Pow2(TrailingZeros(r))
  {
    if n > 1 {
      var k := (n + 1) / 2;
      NextPowerIs(k);
      var h := NextPowerOfTwo(k);
      assert NextPowerOfTwo(n) == 2 * h;
      hide NextPowerOfTwo;
      DoubleZeros(h);
    }
  }

  lemma DoubleZeros(h: nat)
    requires h > 0
    ensures TrailingZeros(2 * h) == 1 + TrailingZeros(h) && Pow2(1 + TrailingZeros(h)) == 2 * Pow2(TrailingZeros(h))
  {
    assert 2 * h / 2 == h;
  }

  /** The smallest order, from 3 up, whose block holds `size` bytes. */
  lemma InfoOrderExact(size: nat)
    requires size > 0
    ensures InfoOrder(size) >= 3 && Pow2(InfoOrder(size)) >= size
    ensures InfoOrder(size) > 3 ==> Pow2(InfoOrder(size) - 1) < size
  {
    Pow2Small();
    if IsPowerOfTwo(size) {
      PowerIs(size);
      SmallOrder(TrailingZeros(size));
    } else {
      NextPowerIs(size);
      SmallOrder(TrailingZeros(NextPowerOfTwo(size)));
    }
  }

  lemma SmallOrder(k: nat)
    ensures k < 3 ==> Pow2(k) <= 8
    ensures k > 0 ==> Pow2(k) == 2 * Pow2(k - 1)
  {
    assert Pow2(2) == 4;
  }

  /** A page is enough for the record: the entry opened for it is exactly the block at its address. */
  lemma InfoRegionExact(a0: nat, a1: nat)
    requires a0 % PAGE_SIZE == 0 && 0 < a1 <= PAGE_SIZE
    ensures var r := Region(a0, InfoOrder(a1));
            OrderOk(r.order) && Decodes(PmpAddr(r), a0, Pow2(r.order)) && a0 + a1 <= a0 + Pow2(r.order)
  {
    InfoOrderExact(a1);
    var k := InfoOrder(a1);
    Pow2Small();
    if k > 12 {
      Pow2Monotone(12, k - 1);
    }
    AlignedBelow(a0, k);
    EntryExact(Region(a0, k));
  }

  lemma {:induction false} Pow2Monotone(i: nat, j: nat)
    requires i <= j
    ensures Pow2(i) <= Pow2(j)
  {
    if i < j {
      Pow2Monotone(i, j - 1);
    }
  }

  lemma AlignedBelow(a: nat, k: nat)
    requires a % 4096 == 0 && k <= 12
    ensures a % Pow2(k) == 0
  {
    var q, m, p := a / 4096, Pow2(k), Pow2(12 - k);
    Pow2Add(k, 12 - k);
    Pow2Small();
    hide Pow2;
    assert a == 4096 * q;
    Multiple(a, m, p, q);
  }

  lemma Multiple(a: nat, m: nat, p: nat, q: nat)
    requires m > 0 && a == (m * p) * q
    ensures a % m == 0
  {
    var t := p * q;
    assert a == m * t;
    DivUnique(a, m, t, 0);
  }

  predicate AsksInfo(e: Event) {
    Calls(e) && FidOf(e.cpu.regs[16]) == 0
  }

  /** Calls that leave the region records to code outside this model. */
  predicate MovesPages(e: Event) {
    Calls(e) && (FidOf(e.cpu.regs[16]) == 1 || FidOf(e.cpu.regs[16]) == 2)
  }

  function InfoCalls(events: seq<Event>): nat {
    if events == [] then 0
    else InfoCalls(events[..|events| - 1]) + (if AsksInfo(events[|events| - 1]) then 1 else 0)
  }

  lemma RegionsStep(base: nat, s: State, e: Event, next: State)
    requires base > 3 * SIZE && Inv(base, s) && StepOk(base, s, e, next) && !MovesPages(e)
    ensures |next.domains| == 3
    ensures |next.domains[1].regions| == |s.domains[1].regions| + (if AsksInfo(e) then 1 else 0)
    ensures Calls(e) ==> |next.domains[1].regions| <= 8
  {
    TrapCases(base, s, e.cpu, e.env);
    hide Trap, Fresh, Called, Returned, InfoOrder, PackA6, Saved;
  }

  lemma {:induction false} RegionsGrow(base: nat, states: seq<State>, events: seq<Event>, j: nat)
    requires base > 3 * SIZE && IsRun(base, states, events) && j <= |events|
    requires forall e | e in events :: !MovesPages(e)
    ensures |states[j].domains| == 3 && |states[0].domains| == 3
    ensures |states[j].domains[1].regions| == |states[0].domains[1].regions| + InfoCalls(events[..j])
    ensures j > 0 && Calls(events[j - 1]) ==> |states[j].domains[1].regions| <= 8
  {
    RunInv(base, states, events, j);
    if j > 0 {
      hide Trap, Fresh, AsksInfo, MovesPages, Calls;
      RunInv(base, states, events, j - 1);
      RegionsGrow(base, states, events, j - 1);
      var e := events[j - 1];
      assert StepOk(base, states[j - 1], e, states[j]);
      assert events[..j][..j - 1] == events[..j - 1] && e in events;
      RegionsStep(base, states[j - 1], e, states[j]);
    }
  }

  /** The region opened for an information call is never closed: a run holds at most six of them. */
  lemma {:induction false} InfoCallsBounded(base: nat, states: seq<State>, events: seq<Event>, scratch: Context, caller: Context)
    requires base > 3 * SIZE && IsRun(base, states, events) && states[0] == Booted(base, scratch, caller)
    requires forall e | e in events :: !MovesPages(e)
    ensures InfoCalls(events) <= 6
  {
    if events != [] {
      var n := |events| - 1;
      assert IsRun(base, states[..n + 1], events[..n]);
      InfoCallsBounded(base, states[..n + 1], events[..n], scratch, caller);
      if AsksInfo(events[n]) {
        RegionsGrow(base, states, events, n + 1);
        assert events[..n + 1] == events;
      }
    }
  }

  // ----- register file of the physical memory protection

  /** Entries after a trap that resumes: an error leaves them, anything else programs the target's list. */
  function EntriesAfter(s: State, a6: nat, next: State, p: Entries): Entries {
    var dst := DstOf(a6);
    if dst >= |s.domains| || (s.domains[dst].hasTsm && !IsTrusted(s.domains[dst], CALLER)) then p
    else if dst >= |next.domains| || !Programmable(next.domains[dst].regions) then p
    else Programmed(p, next.domains[dst].regions)
  }

  /** A run with the entries the hart has in each state. */
  predicate IsPmpRun(base: nat, states: seq<State>, events: seq<Event>, pmps: seq<Entries>)
    requires base > 3 * SIZE
  {
    && IsRun(base, states, events) && |pmps| == |states|
    && forall i | 0 <= i < |events| :: pmps[i + 1] == EntriesAfter(states[i], events[i].cpu.regs[16], states[i + 1], pmps[i])
  }

  const CALLER_REGION: Region := Region(0x8A00_0000, 24)

  lemma CallEntries(base: nat, s: State, e: Event, next: State, p: Entries)
    requires base > 3 * SIZE && Inv(base, s) && StepOk(base, s, e, next) && Calls(e)
    ensures |next.domains| == 3 && Programmable(next.domains[TSM].regions)
    ensures EntriesAfter(s, e.cpu.regs[16], next, p) == Programmed(p, next.domains[TSM].regions)
  {
    TrapCases(base, s, e.cpu, e.env);
    assert IsTrusted(s.domains[TSM], CALLER) by {
      assert Pow2(2) == 4;
    }
    hide Trap, Prepared, PackA6, Fresh, Called, Returned, Saved, Programmable, Programmed;
  }

  /** A return programs one region, an error none: the entries from 1 on stay. */
  lemma OtherEntries(base: nat, s: State, e: Event, next: State, p: Entries)
    requires base > 3 * SIZE && Inv(base, s) && StepOk(base, s, e, next) && !Calls(e)
    ensures EntriesAfter(s, e.cpu.regs[16], next, p)[1..] == p[1..]
    ensures Returns(e) ==> EntriesAfter(s, e.cpu.regs[16], next, p)[0] == EntryFor(CALLER_REGION)
  {
    TrapCases(base, s, e.cpu, e.env);
    hide Trap, Prepared, PackA6, Fresh, Called, Returned, Saved, PmpAddr;
  }

  /**
   An information call that is carried out adds one region to the TSM's list: the smallest block, from 8 bytes up,
   that holds a1 bytes, at a0. Its entry allows everything there, and is exactly that block when a0 is a multiple
   of its size, as it always is for a record of at most a page.
   */
  lemma InfoCallOpens(base: nat, s: State, cpu: Cpu, env: Env, p: Entries)
    requires base > 3 * SIZE && Inv(base, s) && Trap(base, s, cpu, env).Run?
    requires DstOf(cpu.regs[16]) == TSM && FidOf(cpu.regs[16]) == 0
    ensures var before, next := s.domains[TSM].regions, Trap(base, s, cpu, env).next;
            && |next.domains| == 3 && |next.domains[TSM].regions| == |before| + 1 <= 8
            && next.domains[TSM].regions[..|before|] == before
            && var r, e := next.domains[TSM].regions[|before|], EntriesAfter(s, cpu.regs[16], next, p)[|before|];
               && r.base == cpu.regs[10] && 0 < cpu.regs[11] <= Pow2(r.order)
               && (r.order > 3 ==> Pow2(r.order - 1) < cpu.regs[11])
               && Opens(e, r) && (cpu.regs[11] <= PAGE_SIZE ==> Decodes(e.addr, r.base, Pow2(r.order)))
  {
    var t := Trap(base, s, cpu, env);
    var e := Event(cpu, env, t.cpu);
    CallEntries(base, s, e, t.next, p);
    CallRegions(base, s, cpu, env);
    InfoOrderExact(cpu.regs[11]);
    var r := Region(cpu.regs[10], InfoOrder(cpu.regs[11]));
    assert t.next.domains[TSM].regions[|s.domains[TSM].regions|] == r;
    assert r in t.next.domains[TSM].regions;
    EntryOpens(r);
    if cpu.regs[11] <= PAGE_SIZE {
      InfoAligned(base, s, cpu, env);
      InfoRegionExact(cpu.regs[10], cpu.regs[11]);
    }
    hide Trap, InfoOrder, Opens, EntriesAfter, Decodes, Pow2, Inv;
  }

  lemma InfoAligned(base: nat, s: State, cpu: Cpu, env: Env)
    requires base > 3 * SIZE && Inv(base, s) && Trap(base, s, cpu, env).Run?
    requires DstOf(cpu.regs[16]) == TSM && FidOf(cpu.regs[16]) == 0
    ensures cpu.regs[10] % PAGE_SIZE == 0
  {
    TrapExact(base, s, cpu, env);
    hide Trap, Fresh, OrdersFit;
  }

  lemma {:induction false} EntriesStay(base: nat, states: seq<State>, events: seq<Event>, pmps: seq<Entries>, k: nat, j: nat)
    requires base > 3 * SIZE && IsPmpRun(base, states, events, pmps) && k <= j < |events|
    requires NoCallIn(events, k, j)
    ensures pmps[j + 1][1..] == pmps[k + 1][1..]
    decreases j
  {
    if k < j {
      hide Inv, Trap, EntriesAfter, DstOf;
      EntriesStay(base, states, events, pmps, k, j - 1);
      RunInv(base, states, events, j);
      assert StepOk(base, states[j], events[j], states[j + 1]);
      OtherEntries(base, states[j], events[j], states[j + 1], pmps[j]);
    }
  }

  /**
   Over every run: when a return resumes the caller, entry 0 holds the caller's region and every other entry is
   the one the latest call left. So all regions of the TSM but its first stay open to the caller.
   */
  lemma TsmEntriesStayOpen(base: nat, states: seq<State>, events: seq<Event>, pmps: seq<Entries>, k: nat, j: nat)
    requires base > 3 * SIZE && IsPmpRun(base, states, events, pmps) && k < j < |events|
    requires Calls(events[k]) && NoCallIn(events, k, j) && Returns(events[j])
    ensures pmps[j + 1][0] == EntryFor(CALLER_REGION)
    ensures pmps[j + 1][1..] == pmps[k + 1][1..]
    ensures |states[k + 1].domains| == 3 && Programmable(states[k + 1].domains[TSM].regions)
    ensures var open := states[k + 1].domains[TSM].regions;
            forall i | 1 <= i < |open| :: pmps[j + 1][i] == EntryFor(open[i]) && Opens(pmps[j + 1][i], open[i])
    ensures Opens(pmps[j + 1][0], CALLER_REGION)
  {
    hide Inv, Trap, EntriesAfter, DstOf, PmpAddr, Opens;
    EntriesStay(base, states, events, pmps, k, j);
    RunInv(base, states, events, k);
    assert StepOk(base, states[k], events[k], states[k + 1]);
    CallEntries(base, states[k], events[k], states[k + 1], pmps[k]);
    RunInv(base, states, events, j);
    assert StepOk(base, states[j], events[j], states[j + 1]);
    OtherEntries(base, states[j], events[j], states[j + 1], pmps[j]);
    var open := states[k + 1].domains[TSM].regions;
    EntryOpens(CALLER_REGION);
    forall i | 1 <= i < |open| ensures pmps[j + 1][i] == EntryFor(open[i]) && Opens(pmps[j + 1][i], open[i]) {
      assert open[i] in open;
      EntryOpens(open[i]);
      assert pmps[j + 1][i] == pmps[j + 1][1..][i - 1] == pmps[k + 1][1..][i - 1];
    }
  }

  // ----- the driver

  lemma CopyNext(to: Registers, from: Registers, n: nat)
    requires 10 <= n < 18
    ensures Copied(to, from, n)[n := from[n]] == Copied(to, from, n + 1)
  {
    var a, b := Copied(to, from, n)[n := from[n]], Copied(to, from, n + 1);
    forall i | 0 <= i < 32
      ensures a[i] == b[i]
    {
      CopiedAt(to, from, n, i);
      CopiedAt(to, from, n + 1, i);
    }
  }

  class TsmDriver {
    const base: nat
    const pmp: PmpRegisters
    var contexts: map<nat, Context>
    var domains: seq<Domain>

    constructor (base: nat, pmp: PmpRegisters, scratch: Context, caller: Context)
      requires base > 3 * SIZE
      ensures this.base == base && this.pmp == pmp && Now() == Booted(base, scratch, caller)
    {
      this.base, this.pmp := base, pmp;
      var state := Booted(base, scratch, caller);
      contexts, domains := state.contexts, state.domains;
    }

    function Now(): State
      reads this
    {
      State(contexts, domains)
    }

    /** Puts an error code into a context and steps over the trapping instruction. */
    method StoreError(at: nat) returns (resumed: Option<nat>)
      requires at in contexts
      modifies this`contexts
      ensures match ReturnError(old(Now()), at)
              case Stop => resumed == None
              case Resume(next, where) => resumed == Some(where) && Now() == next
    {
      var c := contexts[at];
      c := c.(regs := c.regs[10 := SPACE - 1]);
      c := c.(regs := c.regs[11 := 0]);
      if c.mepc + 4 >= SPACE {
        return None;
      }
      contexts := contexts[at := c.(mepc := c.mepc + 4)];
      resumed := Some(at);
    }

    /** Stores the trapped context for the caller and passes its arguments to the callee. */
    method PassArguments(callee: nat)
      requires base > 3 * SIZE && base in contexts && (callee in contexts || callee == CallerAt(base))
      modifies this`contexts
      ensures var saved := old(contexts)[CallerAt(base) := old(contexts)[base]];
              contexts == saved[callee := Called(saved[callee], old(contexts)[base], CallerAt(base))]
    {
      var callerAt, scratch := CallerAt(base), contexts[base];
      contexts := contexts[callerAt := scratch];
      ghost var saved := contexts;
      var first := contexts[callee];
      assert Copied(first.regs, scratch.regs, 10) == first.regs;
      for i := 10 to 18
        invariant callerAt in contexts && contexts[callerAt].regs[10..18] == scratch.regs[10..18]
        invariant contexts == saved[callee := first.(regs := Copied(first.regs, scratch.regs, i))]
      {
        var c := contexts[callee];
        var arg := contexts[callerAt].regs[i];
        assert arg == contexts[callerAt].regs[10..18][i - 10] == scratch.regs[i];
        CopyNext(first.regs, scratch.regs, i);
        contexts := contexts[callee := c.(regs := c.regs[i := arg])];
      }
      var c := contexts[callee];
      assert c.regs[16] == scratch.regs[16];
      contexts := contexts[callee := c.(regs := c.regs[16 := PackA6(CALLER, c.regs[16])], callerCtx := callerAt)];
    }

    /** The handler: where to resume, or nothing when it stops. The PMP then holds the target's regions from entry 0 on. */
    method CovhHandler(a6: nat, env: Env) returns (resumed: Option<nat>)
      requires base > 3 * SIZE && base in contexts && |pmp.addr| == 16
      modifies this, pmp
      ensures match Handle(base, old(Now()), a6, env)
              case Stop => resumed == None
              case Resume(next, where) => resumed == Some(where) && Now() == next
      ensures |pmp.addr| == 16
      ensures resumed.Some? && resumed.value != base ==>
                DstOf(a6) < |domains| && |domains[DstOf(a6)].regions| <= 8 && var regions := domains[DstOf(a6)].regions;
                forall i | 0 <= i < |regions| :: Holds(pmp.addr, pmp.cfg0, i, regions[i])
                                                 && Opens(EntryAt(pmp.addr, pmp.cfg0, i), regions[i])
      ensures resumed.Some? ==>
                EntriesOf(pmp.addr, pmp.cfg0) == EntriesAfter(old(Now()), a6, Now(), old(EntriesOf(pmp.addr, pmp.cfg0)))
    {
      hide BitOr, PmpAddr, ConfigByte, Called, Returned, Prepared, EntriesOf, Programmed, Opens;
      var dst, fid := DstOf(a6), FidOf(a6);
      if dst >= |domains| {
        resumed := StoreError(base);
        return;
      }
      var d := domains[dst];
      if d.hasTsm {
        if !IsTrusted(d, CALLER) {
          resumed := StoreError(base);
          return;
        }
        if d.contextAddr !in contexts && d.contextAddr != CallerAt(base) {
          return None;
        }
        var scratch := contexts[base];
        PassArguments(d.contextAddr);
        var regions := Prepared(d, fid, scratch.regs[10], scratch.regs[11], env);
        if regions.None? {
          return None;
        }
        domains := domains[dst := d.(regions := regions.value)];
      } else {
        if d.contextAddr !in contexts || contexts[d.contextAddr].mepc + 4 >= SPACE {
          return None;
        }
        contexts := contexts[d.contextAddr := Returned(contexts[d.contextAddr], contexts[base])];
      }
      if !env.switched {
        return None;
      }
      ghost var addr, cfg0 := pmp.addr, pmp.cfg0;
      var ok := pmp.ProgramPmpFromRegions(domains[dst].regions);
      if !ok {
        return None;
      }
      ProgrammedIs(addr, cfg0, pmp.addr, pmp.cfg0, domains[dst].regions);
      resumed := Some(d.contextAddr);
    }
  }
}
