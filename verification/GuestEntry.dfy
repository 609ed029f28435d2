/** What has happened when the host enters the guest, and what can no longer change then, over every run of calls. */
module GuestEntry {
  import opened Memory
  import opened Hypervisor
  import opened Covh
  import opened Lifecycle

  predicate Accepted(r: Reply) {
    r.Ret? && r.a0 == 0
  }

  predicate Creates(c: Call, r: Reply) {
    c.CreateTvm? && Accepted(r)
  }

  predicate Finalizes(c: Call, r: Reply) {
    c.FinalizeTvm? && Accepted(r)
  }

  predicate AddsVcpu(c: Call, r: Reply) {
    c.CreateVcpu? && Accepted(r)
  }

  /** Call `b` created the TVM that is there at the end. */
  ghost predicate Born(cs: seq<Call>, rs: seq<Reply>, b: nat)
    requires |rs| == |cs|
  {
    && b < |cs| && Creates(cs[b], rs[b])
    && forall i | b < i < |cs| :: !cs[i].DestroyTvm? && !Creates(cs[i], rs[i])
  }

  /** Since call `b` some call was of the given kind. */
  ghost predicate FinalizedSince(cs: seq<Call>, rs: seq<Reply>, b: nat)
    requires |rs| == |cs|
  {
    exists i | b < i < |cs| :: Finalizes(cs[i], rs[i])
  }

  ghost predicate VcpuSince(cs: seq<Call>, rs: seq<Reply>, b: nat)
    requires |rs| == |cs|
  {
    exists i | b < i < |cs| :: AddsVcpu(cs[i], rs[i])
  }

  /** What the record says about the calls so far. */
  ghost predicate Recorded(s: Snapshot, cs: seq<Call>, rs: seq<Reply>)
    requires |rs| == |cs|
  {
    && (s.tvm.None? ==> forall b: nat :: !Born(cs, rs, b))
    && (s.tvm.Some? ==>
          exists b: nat :: Born(cs, rs, b)
                           && (s.tvm.value.state.Runnable? <==> FinalizedSince(cs, rs, b))
                           && (s.tvm.value.vcpu.Some? <==> VcpuSince(cs, rs, b)))
  }

  lemma BornOnce(cs: seq<Call>, rs: seq<Reply>, a: nat, b: nat)
    requires |rs| == |cs| && Born(cs, rs, a) && Born(cs, rs, b)
    ensures a == b
  {
  }

  lemma BornBefore(cs: seq<Call>, rs: seq<Reply>, c: Call, r: Reply, b: nat)
    requires |rs| == |cs|
    ensures !c.DestroyTvm? && !Creates(c, r) ==> (Born(cs + [c], rs + [r], b) <==> Born(cs, rs, b))
    ensures c.DestroyTvm? ==> !Born(cs + [c], rs + [r], b)
    ensures Creates(c, r) ==> (Born(cs + [c], rs + [r], b) <==> b == |cs|)
  {
    var ds, qs, n := cs + [c], rs + [r], |cs|;
    assert ds[n] == c && qs[n] == r;
    assert forall i | 0 <= i < n :: ds[i] == cs[i] && qs[i] == rs[i];
    if b == n && Creates(c, r) {
      assert Born(ds, qs, n);
    }
    if b < n && Born(cs, rs, b) && !c.DestroyTvm? && !Creates(c, r) {
      forall i | b < i < |ds| ensures !ds[i].DestroyTvm? && !Creates(ds[i], qs[i]) {
      }
    }
  }

  lemma SinceMore(cs: seq<Call>, rs: seq<Reply>, c: Call, r: Reply, b: nat)
    requires |rs| == |cs| && b < |cs|
    ensures FinalizedSince(cs + [c], rs + [r], b) <==> FinalizedSince(cs, rs, b) || Finalizes(c, r)
    ensures VcpuSince(cs + [c], rs + [r], b) <==> VcpuSince(cs, rs, b) || AddsVcpu(c, r)
  {
    var ds, qs, n := cs + [c], rs + [r], |cs|;
    assert ds[n] == c && qs[n] == r;
    assert forall i | 0 <= i < n :: ds[i] == cs[i] && qs[i] == rs[i];
    if i :| b < i < n && Finalizes(cs[i], rs[i]) {
      assert Finalizes(ds[i], qs[i]);
    }
    if i :| b < i < n && AddsVcpu(cs[i], rs[i]) {
      assert AddsVcpu(ds[i], qs[i]);
    }
  }

  /** How one returning call changes the part of the record the host enters the guest by. */
  lemma RecordStep(s: Snapshot, e: Env, c: Call, s': Snapshot, r: Reply)
    requires |e.info| == INFO_SIZE && Sane(s) && Next(s, e, c, s', r) && r.Ret?
    ensures Creates(c, r) ==> s'.tvm.Some? && !s'.tvm.value.state.Runnable? && s'.tvm.value.vcpu.None?
    ensures c.DestroyTvm? ==> s'.tvm.None?
    ensures !Creates(c, r) && !c.DestroyTvm? ==>
              && (s'.tvm.Some? <==> s.tvm.Some?)
              && (s.tvm.Some? ==>
                    && (s'.tvm.value.state.Runnable? <==> s.tvm.value.state.Runnable? || Finalizes(c, r))
                    && (s'.tvm.value.vcpu.Some? <==> s.tvm.value.vcpu.Some? || AddsVcpu(c, r)))
  {
    hide Filled, Zeroed, Patch, LoadWord;
  }

  lemma RecordedStep(s: Snapshot, e: Env, cs: seq<Call>, rs: seq<Reply>, c: Call, s': Snapshot, r: Reply)
    requires |rs| == |cs| && |e.info| == INFO_SIZE && Sane(s) && Next(s, e, c, s', r) && r.Ret? && Recorded(s, cs, rs)
    ensures Recorded(s', cs + [c], rs + [r])
  {
    RecordStep(s, e, c, s', r);
    hide Next, Sane, Born, FinalizedSince, VcpuSince, Creates, Finalizes, AddsVcpu;
    var ds, qs := cs + [c], rs + [r];
    if Creates(c, r) {
      BornBefore(cs, rs, c, r, |cs|);
      JustBorn(cs, rs, c, r);
    } else if c.DestroyTvm? || s.tvm.None? {
      forall b: nat ensures !Born(ds, qs, b) {
        BornBefore(cs, rs, c, r, b);
      }
    } else {
      var b: nat :| Born(cs, rs, b)
                    && (s.tvm.value.state.Runnable? <==> FinalizedSince(cs, rs, b))
                    && (s.tvm.value.vcpu.Some? <==> VcpuSince(cs, rs, b));
      BornInside(cs, rs, b);
      BornBefore(cs, rs, c, r, b);
      SinceMore(cs, rs, c, r, b);
    }
  }

  lemma BornInside(cs: seq<Call>, rs: seq<Reply>, b: nat)
    requires |rs| == |cs| && Born(cs, rs, b)
    ensures b < |cs|
  {
  }

  lemma JustBorn(cs: seq<Call>, rs: seq<Reply>, c: Call, r: Reply)
    requires |rs| == |cs|
    ensures !FinalizedSince(cs + [c], rs + [r], |cs|) && !VcpuSince(cs + [c], rs + [r], |cs|)
  {
  }

  lemma {:induction false} RunRecorded(e: Env, ss: seq<Snapshot>, cs: seq<Call>, rs: seq<Reply>)
    requires |e.info| == INFO_SIZE && IsRun(e, ss, cs, rs) && ss[0].tvm.None?
    ensures Recorded(ss[|cs|], cs, rs)
  {
    if cs != [] {
      var n := |cs| - 1;
      RunPrefix(e, ss, cs, rs);
      hide Next, Recorded, Sane;
      RunRecorded(e, ss[..n + 1], cs[..n], rs[..n]);
      RecordedStep(ss[n], e, cs[..n], rs[..n], cs[n], ss[n + 1], rs[n]);
      assert cs[..n] + [cs[n]] == cs && rs[..n] + [rs[n]] == rs;
    }
  }

  /**
   Over every run from a monitor without a TVM: a run call enters the guest if and only if it names TVM 1 and, since
   the TVM was created, the host has had both a finalize and a VCPU call accepted.
   */
  lemma EnteredExact(e: Env, ss: seq<Snapshot>, cs: seq<Call>, rs: seq<Reply>, id: Usize, s': Snapshot, r: Reply)
    requires |e.info| == INFO_SIZE && IsRun(e, ss, cs, rs) && ss[0].tvm.None? && Sane(ss[|cs|])
    requires Next(ss[|cs|], e, RunVcpu(id), s', r)
    ensures r == GuestEntered <==>
            id == 1 && exists b: nat :: Born(cs, rs, b) && FinalizedSince(cs, rs, b) && VcpuSince(cs, rs, b)
  {
    RunRecorded(e, ss, cs, rs);
    var s := ss[|cs|];
    hide IsRun, Born, FinalizedSince, VcpuSince;
    if s.tvm.Some? {
      var b: nat :| Born(cs, rs, b)
                    && (s.tvm.value.state.Runnable? <==> FinalizedSince(cs, rs, b))
                    && (s.tvm.value.vcpu.Some? <==> VcpuSince(cs, rs, b));
      forall c: nat | Born(cs, rs, c) ensures c == b {
        BornOnce(cs, rs, b, c);
      }
    }
  }

  lemma FixedStep(s: Snapshot, e: Env, c: Call, s': Snapshot, r: Reply)
    requires |e.info| == INFO_SIZE && Sane(s) && Next(s, e, c, s', r) && r.Ret?
    requires s.tvm.Some? && s.tvm.value.state.Runnable? && !c.DestroyTvm?
    ensures s'.tvm.Some? && s'.tvm.value.state.Runnable?
    ensures s'.tvm.value.regions == s.tvm.value.regions && s'.tvm.value.pageTable == s.tvm.value.pageTable
  {
    hide Filled, Zeroed, Patch, LoadWord;
  }

  /** After a finalize the declared regions and the directory stay as they are until the TVM is destroyed. */
  lemma {:induction false} RegionsFixed(e: Env, ss: seq<Snapshot>, cs: seq<Call>, rs: seq<Reply>)
    requires |e.info| == INFO_SIZE && IsRun(e, ss, cs, rs) && ss[0].tvm.Some? && ss[0].tvm.value.state.Runnable?
    requires forall c | c in cs :: !c.DestroyTvm?
    ensures var t, t' := ss[0].tvm, ss[|cs|].tvm;
            t'.Some? && t'.value.state.Runnable? && t'.value.regions == t.value.regions && t'.value.pageTable == t.value.pageTable
  {
    if cs != [] {
      var n := |cs| - 1;
      RunPrefix(e, ss, cs, rs);
      hide Next, Sane;
      RegionsFixed(e, ss[..n + 1], cs[..n], rs[..n]);
      FixedStep(ss[n], e, cs[n], ss[n + 1], rs[n]);
    }
  }

  /** Every block is free or belongs to TVM 1. */
  ghost predicate OwnersKnown(blocks: seq<Block>) {
    forall b | b in blocks :: b.owner.None? || b.owner.value == 1
  }

  lemma OwnersStep(s: Snapshot, e: Env, c: Call, s': Snapshot, r: Reply)
    requires |e.info| == INFO_SIZE && Sane(s) && Next(s, e, c, s', r) && r.Ret? && OwnersKnown(s.blocks)
    ensures OwnersKnown(s'.blocks)
  {
    hide Filled, Zeroed, Patch, LoadWord, ScanBlocks;
  }

  /** Over every run: as there is one TVM at a time, no fill is ever refused because of who owns its block. */
  lemma {:induction false} NeverForeign(e: Env, ss: seq<Snapshot>, cs: seq<Call>, rs: seq<Reply>, lo: nat, hi: nat)
    requires |e.info| == INFO_SIZE && IsRun(e, ss, cs, rs) && OwnersKnown(ss[0].blocks)
    ensures OwnersKnown(ss[|cs|].blocks)
    ensures PoolVerdict(ss[|cs|].blocks, TVM_ID, lo, hi) == Accept <==> Tracked(ss[|cs|].blocks, lo, hi)
  {
    if cs != [] {
      var n := |cs| - 1;
      RunPrefix(e, ss, cs, rs);
      hide Next, Sane, OwnersKnown, Tracked, PoolVerdict;
      NeverForeign(e, ss[..n + 1], cs[..n], rs[..n], lo, hi);
      OwnersStep(ss[n], e, cs[n], ss[n + 1], rs[n]);
    }
    KnownGranted(ss[|cs|].blocks, lo, hi);
  }

  lemma KnownGranted(blocks: seq<Block>, lo: nat, hi: nat)
    requires OwnersKnown(blocks)
    ensures PoolVerdict(blocks, TVM_ID, lo, hi) == Accept <==> Tracked(blocks, lo, hi)
  {
    ScanExact(blocks, lo, hi);
  }
}
