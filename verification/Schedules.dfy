/** What every schedule of a disciplined block has in common: no races, no
    deadlock, and one final state. */
module Schedules {
  import opened BlockMachine

  /** The epoch every warp of a reachable state is in. */
  ghost predicate InEpoch(code: seq<Code>, s: Block, e: nat) {
    && |s.warps| == |code| && |code| > 0 && e < |code[0]|
    && (forall w :: 0 <= w < |code| ==> |code[w]| == |code[0]|)
    && forall w :: 0 <= w < |code| ==> s.warps[w].epoch == e && s.warps[w].pc <= |code[w][e]|
  }

  /** Warp w has run the first pc instructions of its segment, and every cell that no
      other warp writes in this epoch holds what w alone would have left there. */
  ghost predicate WarpView(code: seq<Code>, g: Global, s: Block, e: nat, w: nat)
    requires InEpoch(code, s, e) && |g.regs| == |code| && w < |code|
  {
    var alone := RunPrefix(code[w][e], s.warps[w].pc, g.regs[w], g.mem);
    && s.warps[w].regs == alone.0
    && alone.1.Keys == s.mem.Keys
    && forall c :: c in s.mem && !WrittenByOther(code, e, w, c) ==> s.mem[c] == alone.1[c]
  }

  ghost predicate WrittenByOther(code: seq<Code>, e: nat, w: nat, c: Cell)
    requires forall u :: 0 <= u < |code| ==> e < |code[u]|
  {
    exists u :: u != w && Writer(code, e, u, c)
  }

  ghost predicate Inv(code: seq<Code>, s0: Block, s: Block, e: nat) {
    && InEpoch(code, s, e) && |s0.warps| == |code|
    && s.mem.Keys == s0.mem.Keys
    && forall w :: 0 <= w < |code| ==> WarpView(code, Epochs(code, e, s0), s, e, w)
  }

  lemma {:induction false} InvInit(code: seq<Code>, s0: Block)
    requires Disciplined(code, s0.mem.Keys) && Initial(code, s0)
    ensures Inv(code, s0, s0, 0)
  {}

  /** The accesses of an instruction are accesses of its segment. */
  lemma {:induction false} InSegment(seg: Segment, i: nat)
    requires i < |seg|
    ensures Reads(seg[i]) <= SegReads(seg) && Writes(seg[i]) <= SegWrites(seg)
  {}

  lemma {:induction false} InvStep(code: seq<Code>, s0: Block, s: Block, e: nat, w: nat)
    requires Disciplined(code, s0.mem.Keys) && Inv(code, s0, s, e) && Enabled(code, s, Step(w))
    ensures Inv(code, s0, Do(code, s, Step(w)), e)
  {
    var g := Epochs(code, e, s0);
    var s' := Do(code, s, Step(w));
    var seg, pc := code[w][e], s.warps[w].pc;
    var i := seg[pc];
    InSegment(seg, pc);
    var alone := RunPrefix(seg, pc, g.regs[w], g.mem);
    assert WarpView(code, g, s, e, w);
    ExecFrame(i, s.warps[w].regs, s.mem);
    ExecFrame(i, alone.0, alone.1);
    forall c | c in s.mem && c in Reads(i) ensures s.mem[c] == alone.1[c] {
      forall u | u != w && 0 <= u < |code| ensures !Writer(code, e, u, c) {
        assert Separated(code[u][e], code[w][e]);
      }
    }
    ExecAgree(i, alone.0, s.mem, alone.1);
    forall u | 0 <= u < |code| ensures WarpView(code, g, s', e, u) {
      assert WarpView(code, g, s, e, u);
      if u != w {
        forall c | c in s.mem && !WrittenByOther(code, e, u, c) ensures s'.mem[c] == s.mem[c] {
          assert !Writer(code, e, w, c);
        }
      }
    }
  }

  /** At its barrier warp w agrees with its solo run on every cell no other warp writes. */
  ghost predicate Agrees(code: seq<Code>, g: Global, mem: Mem, e: nat, w: nat)
    requires |g.regs| == |code| && w < |code| && forall u :: 0 <= u < |code| ==> e < |code[u]|
  {
    var alone := Run(code[w][e], g.regs[w], g.mem).1;
    alone.Keys == mem.Keys && forall c :: c in mem && !WrittenByOther(code, e, w, c) ==> mem[c] == alone[c]
  }

  lemma {:induction false} OnlyWriter(code: seq<Code>, cells: set<Cell>, e: nat, w: nat, c: Cell)
    requires Disciplined(code, cells) && e < |code[0]| && Writer(code, e, w, c)
    ensures !WrittenByOther(code, e, w, c)
  {
    forall u | u != w && 0 <= u < |code| ensures !Writer(code, e, u, c) {
      assert Separated(code[u][e], code[w][e]);
    }
  }

  lemma {:induction false} MergedCell(code: seq<Code>, cells: set<Cell>, g: Global, mem: Mem, e: nat, c: Cell)
    requires Disciplined(code, cells) && e < |code[0]| && |g.regs| == |code| && g.mem.Keys == mem.Keys && c in mem
    requires forall w :: 0 <= w < |code| ==> Agrees(code, g, mem, e, w)
    ensures Merged(code, e, g, c) == mem[c]
  {
    if exists w :: Writer(code, e, w, c) {
      forall w | Writer(code, e, w, c)
        ensures Agrees(code, g, mem, e, w) && Run(code[w][e], g.regs[w], g.mem).1[c] == mem[c]
      {
        OnlyWriter(code, cells, e, w, c);
        assert Agrees(code, g, mem, e, w);
      }
    } else {
      assert Agrees(code, g, mem, e, 0);
      assert !Writer(code, e, 0, c);
      RunFrame(code[0][e], g.regs[0], g.mem);
    }
  }

  /** At the end of an epoch the shared memory is the merge of the warps taken alone. */
  lemma {:induction false} EpochEnds(code: seq<Code>, s0: Block, s: Block, e: nat)
    requires Disciplined(code, s0.mem.Keys) && Inv(code, s0, s, e)
    requires forall w :: 0 <= w < |code| ==> s.warps[w].pc == |code[w][e]|
    ensures Epochs(code, e + 1, s0).mem == s.mem
    ensures forall w :: 0 <= w < |code| ==> Epochs(code, e + 1, s0).regs[w] == s.warps[w].regs
  {
    var g := Epochs(code, e, s0);
    forall w | 0 <= w < |code|
      ensures Run(code[w][e], g.regs[w], g.mem).0 == s.warps[w].regs && Agrees(code, g, s.mem, e, w)
    {
      assert WarpView(code, g, s, e, w);
    }
    EpochIs(code, s0.mem.Keys, g, s.mem, e);
    assert Epochs(code, e + 1, s0) == Epoch(code, e, g);
  }

  lemma {:induction false} EpochIs(code: seq<Code>, cells: set<Cell>, g: Global, mem: Mem, e: nat)
    requires Disciplined(code, cells) && e < |code[0]| && |g.regs| == |code| && g.mem.Keys == mem.Keys
    requires forall w :: 0 <= w < |code| ==> Agrees(code, g, mem, e, w)
    ensures Epoch(code, e, g).mem == mem
  {
    forall c | c in mem ensures Epoch(code, e, g).mem[c] == mem[c] {
      MergedCell(code, cells, g, mem, e, c);
    }
  }

  lemma {:induction false} AllArrived(code: seq<Code>, s: Block, s': Block, e: nat)
    requires InEpoch(code, s, e) && Next(code, s, Sync, s')
    ensures forall w :: 0 <= w < |code| ==> s.warps[w].pc == |code[w][e]|
    ensures InEpoch(code, s', e + 1) && s'.mem == s.mem
    ensures forall w :: 0 <= w < |code| ==> s'.warps[w].pc == 0 && s'.warps[w].regs == s.warps[w].regs
  {
    forall w | 0 <= w < |code| ensures s.warps[w].pc == |code[w][e]| && e + 1 < |code[w]| {
      assert AtBarrier(code[w], s.warps[w]);
    }
  }

  lemma {:induction false} InvSync(code: seq<Code>, s0: Block, s: Block, s': Block, e: nat)
    requires Disciplined(code, s0.mem.Keys) && Inv(code, s0, s, e) && Next(code, s, Sync, s')
    ensures Inv(code, s0, s', e + 1)
  {
    hide Epochs, WarpView, Disciplined, Enabled, Do;
    AllArrived(code, s, s', e);
    EpochEnds(code, s0, s, e);
    Syncs(code, s0, s, s', e, e + 1);
  }

  lemma {:induction false} Syncs(code: seq<Code>, s0: Block, s: Block, s': Block, e: nat, e': nat)
    requires InEpoch(code, s, e) && InEpoch(code, s', e') && |s0.warps| == |code| && e' == e + 1
    requires Epochs(code, e', s0).mem == s.mem == s'.mem
    requires forall w :: 0 <= w < |code| ==> Epochs(code, e', s0).regs[w] == s.warps[w].regs
    requires forall w :: 0 <= w < |code| ==> s'.warps[w].pc == 0 && s'.warps[w].regs == s.warps[w].regs
    ensures Inv(code, s0, s', e')
  {
    hide Epochs;
    AtStart(code, s0, s', e');
  }

  lemma {:induction false} AtStart(code: seq<Code>, s0: Block, s: Block, e: nat)
    requires InEpoch(code, s, e) && |s0.warps| == |code| && s.mem == Epochs(code, e, s0).mem
    requires forall w :: 0 <= w < |code| ==> s.warps[w].pc == 0 && s.warps[w].regs == Epochs(code, e, s0).regs[w]
    ensures Inv(code, s0, s, e)
  {
    var g := Epochs(code, e, s0);
    forall w | 0 <= w < |code| ensures WarpView(code, g, s, e, w) {
      assert RunPrefix(code[w][e], 0, g.regs[w], g.mem) == (g.regs[w], g.mem);
    }
  }

  /** The epoch of the i-th state of a run. */
  ghost function EpochOf(s: Block): nat { if |s.warps| > 0 then s.warps[0].epoch else 0 }

  lemma {:induction false} InvNext(code: seq<Code>, s0: Block, s: Block, a: Act, s': Block)
    requires Disciplined(code, s0.mem.Keys) && Inv(code, s0, s, EpochOf(s)) && Next(code, s, a, s')
    ensures Inv(code, s0, s', EpochOf(s')) && (a.Step? ==> EpochOf(s') == EpochOf(s))
  {
    InvMoves(code, s0, s, a, s', EpochOf(s));
  }

  lemma {:induction false} InvMoves(code: seq<Code>, s0: Block, s: Block, a: Act, s': Block, e: nat)
    requires Disciplined(code, s0.mem.Keys) && Inv(code, s0, s, e) && Next(code, s, a, s')
    ensures Inv(code, s0, s', if a.Step? then e else e + 1)
  {
    hide Inv, Disciplined, Enabled, Do;
    match a
    case Step(w) => InvStep(code, s0, s, e, w);
    case Sync => InvSync(code, s0, s, s', e);
  }

  lemma {:induction false} RunNext(code: seq<Code>, s0: Block, run: seq<Block>, acts: seq<Act>, i: nat)
    requires IsRun(code, s0, run, acts) && i < |acts|
    ensures |run[i].warps| == |code| && Next(code, run[i], acts[i], run[i + 1])
  {}

  lemma {:induction false} RunKeepsInv(code: seq<Code>, s0: Block, run: seq<Block>, acts: seq<Act>, i: nat)
    requires Disciplined(code, s0.mem.Keys) && Initial(code, s0) && IsRun(code, s0, run, acts) && i < |run|
    ensures Inv(code, s0, run[i], EpochOf(run[i]))
  {
    if i == 0 {
      InvInit(code, s0);
    } else {
      RunKeepsInv(code, s0, run, acts, i - 1);
      RunNext(code, s0, run, acts, i - 1);
      InvNext(code, s0, run[i - 1], acts[i - 1], run[i]);
    }
  }

  lemma {:induction false} NoSyncBetween(acts: seq<Act>, i: nat, j: nat, k: nat)
    requires i <= k < j <= |acts| && Sync !in acts[i..j]
    ensures acts[k] != Sync
  {
    assert acts[i..j][k - i] == acts[k];
  }

  lemma {:induction false} EpochKept(code: seq<Code>, s0: Block, run: seq<Block>, acts: seq<Act>, i: nat, j: nat)
    requires Disciplined(code, s0.mem.Keys) && Initial(code, s0) && IsRun(code, s0, run, acts)
    requires i <= j < |run| == |acts| + 1 && forall k :: i <= k < j ==> acts[k] != Sync
    ensures EpochOf(run[i]) == EpochOf(run[j])
    decreases j - i
  {
    hide *;
    if i < j {
      EpochKept(code, s0, run, acts, i, j - 1);
      RunKeepsInv(code, s0, run, acts, j - 1);
      RunNext(code, s0, run, acts, j - 1);
      InvNext(code, s0, run[j - 1], acts[j - 1], run[j]);
      assert acts[j - 1] != Sync;
    }
  }

  lemma {:induction false} NoConflict(code: seq<Code>, cells: set<Cell>, e: nat, u: nat, i: nat, w: nat, j: nat)
    requires Disciplined(code, cells) && e < |code[0]| && u < |code| && w < |code| && u != w
    requires i < |code[u][e]| && j < |code[w][e]|
    ensures !Conflict(code[u][e][i], code[w][e][j])
  {
    assert Separated(code[u][e], code[w][e]) && Separated(code[w][e], code[u][e]);
    InSegment(code[u][e], i);
    InSegment(code[w][e], j);
  }

  /** Data-race freedom: in no schedule do two conflicting accesses of different warps
      happen without a barrier between them. */
  lemma {:induction false} NoRace(code: seq<Code>, s0: Block, run: seq<Block>, acts: seq<Act>, i: nat, j: nat)
    requires Disciplined(code, s0.mem.Keys) && Initial(code, s0) && IsRun(code, s0, run, acts)
    requires i < j < |acts|
    ensures !Race(code, run, acts, i, j)
  {
    if Race(code, run, acts, i, j) {
      var u, w := acts[i].w, acts[j].w;
      RunKeepsInv(code, s0, run, acts, i);
      RunKeepsInv(code, s0, run, acts, j);
      forall k | i <= k < j ensures acts[k] != Sync { NoSyncBetween(acts, i, j, k); }
      EpochKept(code, s0, run, acts, i, j);
      var e := EpochOf(run[i]);
      NoConflict(code, s0.mem.Keys, e, u, run[i].warps[u].pc, w, run[j].warps[w].pc);
    }
  }

  /** Deadlock freedom: a block that has not finished can move. */
  lemma {:induction false} NoDeadlock(code: seq<Code>, s0: Block, run: seq<Block>, acts: seq<Act>, i: nat)
    requires Disciplined(code, s0.mem.Keys) && Initial(code, s0) && IsRun(code, s0, run, acts) && i < |run|
    ensures Finished(code, run[i]) || exists a :: Enabled(code, run[i], a)
  {
    var s := run[i];
    RunKeepsInv(code, s0, run, acts, i);
    var e := EpochOf(s);
    if w :| 0 <= w < |code| && s.warps[w].pc < |code[w][e]| {
      assert Enabled(code, s, Step(w));
    } else if e + 1 < |code[0]| {
      forall w | 0 <= w < |code| ensures AtBarrier(code[w], s.warps[w]) {}
      assert Enabled(code, s, Sync);
    }
  }

  /** Instructions a warp executes before instruction pc of segment e. */
  ghost function Before(c: Code, e: nat, pc: nat): nat {
    if e == 0 || e > |c| then pc else Before(c, e - 1, |c[e - 1]|) + pc
  }

  ghost function Progress(code: seq<Code>, s: Block, n: nat): nat
    requires |s.warps| == |code| && n <= |code|
  {
    if n == 0 then 0 else Progress(code, s, n - 1) + Before(code[n - 1], s.warps[n - 1].epoch, s.warps[n - 1].pc)
  }

  /** The number of steps and barriers behind a state. */
  ghost function Clock(code: seq<Code>, s: Block): nat
    requires |s.warps| == |code|
  {
    Progress(code, s, |code|) + EpochOf(s)
  }

  ghost function Work(code: seq<Code>): nat {
    if code == [] then 0 else Work(code[..|code| - 1]) + Before(code[|code| - 1], |code[|code| - 1]|, 0)
  }

  lemma {:induction false} ProgressStep(code: seq<Code>, s: Block, s': Block, w: nat, n: nat)
    requires |s.warps| == |s'.warps| == |code| && n <= |code| && w < |code|
    requires forall u :: 0 <= u < |code| ==> s.warps[u].epoch < |code[u]| && s'.warps[u].epoch == s.warps[u].epoch
    requires forall u :: 0 <= u < |code| ==> s'.warps[u].pc == s.warps[u].pc + if u == w then 1 else 0
    ensures Progress(code, s', n) == Progress(code, s, n) + if w < n then 1 else 0
  {
    if n > 0 { ProgressStep(code, s, s', w, n - 1); }
  }

  lemma {:induction false} ProgressSync(code: seq<Code>, s: Block, n: nat)
    requires |s.warps| == |code| && n <= |code| && Enabled(code, s, Sync)
    ensures forall w :: 0 <= w < |code| ==> Do(code, s, Sync).warps[w].epoch < |code[w]| && s.warps[w].epoch < |code[w]|
    ensures Progress(code, Do(code, s, Sync), n) == Progress(code, s, n)
  {
    forall w | 0 <= w < |code| ensures AtBarrier(code[w], s.warps[w]) {}
    if n > 0 {
      ProgressSync(code, s, n - 1);
      assert AtBarrier(code[n - 1], s.warps[n - 1]);
    }
  }

  lemma {:induction false} BeforeMonotone(c: Code, e: nat, pc: nat, f: nat)
    requires e < f <= |c| && pc <= |c[e]|
    ensures Before(c, e, pc) <= Before(c, f, 0)
    decreases f - e
  {
    if e + 1 == f {
    } else {
      BeforeMonotone(c, e, pc, f - 1);
      assert Before(c, f, 0) == Before(c, f - 1, |c[f - 1]|);
    }
  }

  lemma {:induction false} ProgressBound(code: seq<Code>, s: Block, n: nat)
    requires |s.warps| == |code| && n <= |code|
    requires forall w :: 0 <= w < |code| ==>
      s.warps[w].epoch < |code[w]| && s.warps[w].pc <= |code[w][s.warps[w].epoch]|
    ensures Progress(code, s, n) <= Work(code[..n])
  {
    if n > 0 {
      ProgressBound(code, s, n - 1);
      assert code[..n][..n - 1] == code[..n - 1];
      BeforeMonotone(code[n - 1], s.warps[n - 1].epoch, s.warps[n - 1].pc, |code[n - 1]|);
    }
  }

  lemma {:induction false} Advances(code: seq<Code>, s: Block, a: Act, s': Block)
    requires InEpoch(code, s, EpochOf(s)) && Next(code, s, a, s')
    ensures |s'.warps| == |code|
    ensures Clock(code, s') == Clock(code, s) + 1
  {
    match a
    case Step(w) =>
      ProgressStep(code, s, s', w, |code|);
    case Sync =>
      ProgressSync(code, s, |code|);
      assert AtBarrier(code[0], s.warps[0]);
  }

  lemma {:induction false} RunInEpoch(code: seq<Code>, s0: Block, run: seq<Block>, acts: seq<Act>, i: nat)
    requires Disciplined(code, s0.mem.Keys) && Initial(code, s0) && IsRun(code, s0, run, acts) && i < |run|
    ensures InEpoch(code, run[i], EpochOf(run[i]))
  {
    RunKeepsInv(code, s0, run, acts, i);
  }

  lemma {:induction false} RunAdvances(code: seq<Code>, s0: Block, run: seq<Block>, acts: seq<Act>, i: nat)
    requires Disciplined(code, s0.mem.Keys) && Initial(code, s0) && IsRun(code, s0, run, acts) && i < |acts|
    ensures |run[i].warps| == |run[i + 1].warps| == |code|
    ensures Clock(code, run[i + 1]) == Clock(code, run[i]) + 1
  {
    RunInEpoch(code, s0, run, acts, i);
    RunNext(code, s0, run, acts, i);
    Advances(code, run[i], acts[i], run[i + 1]);
  }

  lemma {:induction false} RunLength(code: seq<Code>, s0: Block, run: seq<Block>, acts: seq<Act>, i: nat)
    requires Disciplined(code, s0.mem.Keys) && Initial(code, s0) && IsRun(code, s0, run, acts) && i < |run|
    ensures |run[i].warps| == |code| && i == Clock(code, run[i])
  {
    assert |run| == |acts| + 1;
    hide *;
    if i == 0 {
      RunStart(code, s0, run, acts);
    } else {
      RunLength(code, s0, run, acts, i - 1);
      RunAdvances(code, s0, run, acts, i - 1);
    }
  }

  lemma {:induction false} RunStart(code: seq<Code>, s0: Block, run: seq<Block>, acts: seq<Act>)
    requires Disciplined(code, s0.mem.Keys) && Initial(code, s0) && IsRun(code, s0, run, acts)
    ensures run[0] == s0 && |s0.warps| == |code| && Clock(code, s0) == 0
  {
    forall w | 0 <= w < |code| ensures |code[w]| > 0 { assert |code[w]| == |code[0]|; }
    ProgressInit(code, s0, |code|);
  }

  lemma {:induction false} ProgressInit(code: seq<Code>, s: Block, n: nat)
    requires Initial(code, s) && n <= |code| && forall w :: 0 <= w < |code| ==> |code[w]| > 0
    ensures Progress(code, s, n) == 0
  {
    if n > 0 { ProgressInit(code, s, n - 1); }
  }

  /** Termination: no schedule is longer than the code plus its barriers. */
  lemma {:induction false} Terminates(code: seq<Code>, s0: Block, run: seq<Block>, acts: seq<Act>)
    requires Disciplined(code, s0.mem.Keys) && Initial(code, s0) && IsRun(code, s0, run, acts)
    ensures |acts| < Work(code) + |code[0]|
  {
    RunKeepsInv(code, s0, run, acts, |acts|);
    RunLength(code, s0, run, acts, |acts|);
    ProgressBound(code, run[|acts|], |code|);
    assert code[..|code|] == code;
  }

  /** Determinism: every schedule that runs to the end leaves the memory and the registers
      that taking the warps one at a time, epoch by epoch, leaves. */
  lemma {:induction false} OneFinalState(code: seq<Code>, s0: Block, run: seq<Block>, acts: seq<Act>)
    requires Disciplined(code, s0.mem.Keys) && Initial(code, s0) && IsRun(code, s0, run, acts)
    requires Finished(code, run[|acts|])
    ensures run[|acts|].mem == Epochs(code, |code[0]|, s0).mem
    ensures forall w :: 0 <= w < |code| ==> run[|acts|].warps[w].regs == Epochs(code, |code[0]|, s0).regs[w]
  {
    LastEpoch(code, s0, run, acts);
    hide *;
    EpochEnds(code, s0, run[|acts|], |code[0]| - 1);
  }

  lemma {:induction false} LastEpoch(code: seq<Code>, s0: Block, run: seq<Block>, acts: seq<Act>)
    requires Disciplined(code, s0.mem.Keys) && Initial(code, s0) && IsRun(code, s0, run, acts)
    requires Finished(code, run[|acts|])
    ensures Inv(code, s0, run[|acts|], |code[0]| - 1)
    ensures forall w :: 0 <= w < |code| ==> run[|acts|].warps[w].pc == |code[w][|code[0]| - 1]|
  {
    RunKeepsInv(code, s0, run, acts, |acts|);
    hide Disciplined, Initial, Epochs, WarpView;
    assert run[|acts|].warps[0].epoch + 1 == |code[0]|;
  }

  /** The value a cell has after an epoch: its writer's, or the old one. */
  lemma {:induction false} EpochCell(code: seq<Code>, e: nat, s0: Block, w: nat, c: Cell)
    requires Disciplined(code, s0.mem.Keys) && |s0.warps| == |code| && e < |code[0]| && c in s0.mem
    requires w < |code| && c in SegWrites(code[w][e])
    ensures Run(code[w][e], Epochs(code, e, s0).regs[w], Epochs(code, e, s0).mem).1.Keys == s0.mem.Keys
    ensures Epochs(code, e + 1, s0).mem[c] == Run(code[w][e], Epochs(code, e, s0).regs[w], Epochs(code, e, s0).mem).1[c]
  {
    var g := Epochs(code, e, s0);
    RunKeepsDomain(code[w][e], g.regs[w], g.mem);
    SoleWriter(code, s0.mem.Keys, e, g, w, c);
    assert Epochs(code, e + 1, s0) == Epoch(code, e, g);
  }

  lemma {:induction false} SoleWriter(code: seq<Code>, cells: set<Cell>, e: nat, g: Global, w: nat, c: Cell)
    requires Disciplined(code, cells) && e < |code[0]| && |g.regs| == |code| && c in g.mem
    requires Writer(code, e, w, c)
    ensures c in Run(code[w][e], g.regs[w], g.mem).1
    ensures Merged(code, e, g, c) == Run(code[w][e], g.regs[w], g.mem).1[c]
  {
    RunKeepsDomain(code[w][e], g.regs[w], g.mem);
    OnlyWriter(code, cells, e, w, c);
  }

  lemma {:induction false} EpochKeeps(code: seq<Code>, e: nat, s0: Block, c: Cell)
    requires Disciplined(code, s0.mem.Keys) && |s0.warps| == |code| && e < |code[0]| && c in s0.mem
    requires forall w :: 0 <= w < |code| ==> c !in SegWrites(code[w][e])
    ensures Epochs(code, e + 1, s0).mem[c] == Epochs(code, e, s0).mem[c]
  {
    assert forall w :: 0 <= w < |code| ==> |code[w]| == |code[0]|;
    hide Disciplined, Run;
    NoWriter(code, e, Epochs(code, e, s0), c);
  }

  lemma {:induction false} NoWriter(code: seq<Code>, e: nat, g: Global, c: Cell)
    requires |g.regs| == |code| && (forall w :: 0 <= w < |code| ==> e < |code[w]|) && c in g.mem
    requires forall w :: 0 <= w < |code| ==> c !in SegWrites(code[w][e])
    ensures Merged(code, e, g, c) == g.mem[c] && Epoch(code, e, g).mem[c] == g.mem[c]
  {
    hide Run, SegWrites;
  }

  lemma {:induction false} EpochRegs(code: seq<Code>, e: nat, s0: Block, w: nat)
    requires |s0.warps| == |code| && w < |code| && forall u :: 0 <= u < |code| ==> e < |code[u]|
    ensures Epochs(code, e + 1, s0).regs[w] == Run(code[w][e], Epochs(code, e, s0).regs[w], Epochs(code, e, s0).mem).0
  {}

  /** A cell that only warp w may write ends the epoch as w alone leaves it. */
  lemma {:induction false} EpochOwner(code: seq<Code>, e: nat, s0: Block, w: nat, c: Cell)
    requires Disciplined(code, s0.mem.Keys) && |s0.warps| == |code| && e < |code[0]| && c in s0.mem && w < |code|
    requires forall u :: 0 <= u < |code| && u != w ==> c !in SegWrites(code[u][e])
    ensures c in Run(code[w][e], Epochs(code, e, s0).regs[w], Epochs(code, e, s0).mem).1
    ensures Epochs(code, e + 1, s0).mem[c] == Run(code[w][e], Epochs(code, e, s0).regs[w], Epochs(code, e, s0).mem).1[c]
  {
    var g := Epochs(code, e, s0);
    RunFrame(code[w][e], g.regs[w], g.mem);
    if c in SegWrites(code[w][e]) {
      EpochCell(code, e, s0, w, c);
    } else {
      EpochKeeps(code, e, s0, c);
    }
  }

  /** No step of any schedule leaves the allocated cells. */
  lemma {:induction false} StepStaysInside(code: seq<Code>, s0: Block, run: seq<Block>, acts: seq<Act>, i: nat)
    requires Disciplined(code, s0.mem.Keys) && Initial(code, s0) && IsRun(code, s0, run, acts)
    requires i < |acts| && acts[i].Step?
    ensures Enabled(code, run[i], acts[i])
    ensures var x := Fetch(code, run[i], acts[i].w); Reads(x) + Writes(x) <= s0.mem.Keys
  {
    RunNext(code, s0, run, acts, i);
    RunInEpoch(code, s0, run, acts, i);
    var w, e := acts[i].w, EpochOf(run[i]);
    assert Tame(code[w][e], s0.mem.Keys);
    InSegment(code[w][e], run[i].warps[w].pc);
  }

  /** No two steps race, every step stays inside the given cells, the block has finished or can
      move, and it has moved no more often than its code and barriers allow. */
  ghost predicate Safe(code: seq<Code>, cells: set<Cell>, run: seq<Block>, acts: seq<Act>)
    requires |run| == |acts| + 1 && |code| > 0 && forall k :: 0 <= k < |run| ==> |run[k].warps| == |code|
  {
    && (forall i, j :: 0 <= i < j < |acts| ==> !Race(code, run, acts, i, j))
    && (forall i :: 0 <= i < |acts| ==> StaysInside(code, cells, run[i], acts[i]))
    && (Finished(code, run[|acts|]) || exists a :: Enabled(code, run[|acts|], a))
    && |acts| < Work(code) + |code[0]|
  }

  ghost predicate StaysInside(code: seq<Code>, cells: set<Cell>, s: Block, a: Act)
    requires |s.warps| == |code|
  {
    a.Step? ==> Enabled(code, s, a) && Reads(Fetch(code, s, a.w)) + Writes(Fetch(code, s, a.w)) <= cells
  }

  /** Every schedule of a disciplined block is safe, finished or not. */
  lemma {:induction false} DisciplinedIsSafe(code: seq<Code>, s0: Block, run: seq<Block>, acts: seq<Act>)
    requires Disciplined(code, s0.mem.Keys) && Initial(code, s0) && IsRun(code, s0, run, acts)
    ensures |code| > 0 && Safe(code, s0.mem.Keys, run, acts)
  {
    assert |code| > 0;
    hide Disciplined, Initial, Race, Work, Enabled, Finished;
    forall i, j | 0 <= i < j < |acts| ensures !Race(code, run, acts, i, j) { NoRace(code, s0, run, acts, i, j); }
    forall i | 0 <= i < |acts| ensures StaysInside(code, s0.mem.Keys, run[i], acts[i]) {
      if acts[i].Step? { StepStaysInside(code, s0, run, acts, i); }
    }
    NoDeadlock(code, s0, run, acts, |acts|);
    Terminates(code, s0, run, acts);
  }
}
