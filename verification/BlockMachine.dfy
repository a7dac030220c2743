/** One GPU block: warps of 32 lanes that run their own code in lockstep, share
    memory, and meet only at barriers. A warp's code is cut at its barriers into
    segments; between barriers the warps interleave freely.

    The loops of the kernels have bounds that depend on the launch only, so a
    warp's code is the list of instructions those loops unroll to. */
module BlockMachine {
  import opened Wrappers

  /** A float that more than one thread can reach: the attention scores and the
      reduction scratch in shared memory, an input row, an output buffer. */
  datatype Cell = Score(t: int) | Scratch(i: int) | X(i: int) | Out(i: int)

  const LANES := 32
  const WARPS := 8
  const BLOCK_SIZE := 256

  /** One register of a warp: a float per lane. */
  type Vec = v: seq<real> | |v| == 32 witness seq(32, _ => 0.0)

  /** The cell each lane touches; lanes that are not active touch none. */
  type Mask = m: seq<Option<Cell>> | |m| == 32 witness seq(32, _ => None)

  /** The registers of a warp; log collects the results of successive reductions. */
  datatype Regs = Regs(v: Vec, m: Vec, sum: Vec, inv: Vec, acc: Vec, log: seq<Vec>)

  type Mem = map<Cell, real>

  datatype Instr =
    | Alu(f: Regs -> Regs)                            // registers and read-only inputs
    | Load(at: Mask, put: (Regs, Vec) -> Regs)
    | Store(at: Mask, get: Regs -> Vec)

  type Segment = seq<Instr>
  type Code = seq<Segment>                            // one warp's code
  datatype Warp = Warp(epoch: nat, pc: nat, regs: Regs)
  datatype Block = Block(warps: seq<Warp>, mem: Mem)
  datatype Act = Step(w: nat) | Sync

  // ---- instructions

  ghost function Cells(at: Mask): set<Cell> {
    set l | 0 <= l < 32 && at[l].Some? :: at[l].value
  }

  ghost function Reads(i: Instr): set<Cell> { if i.Load? then Cells(i.at) else {} }

  ghost function Writes(i: Instr): set<Cell> { if i.Store? then Cells(i.at) else {} }

  function Gather(at: Mask, mem: Mem): Vec {
    seq(32, l requires 0 <= l < 32 =>
      if at[l].Some? && at[l].value in mem then mem[at[l].value] else 0.0)
  }

  function Scatter(at: Mask, v: Vec, mem: Mem, n: nat): Mem
    requires n <= 32
  {
    if n == 0 then mem else
      var prev := Scatter(at, v, mem, n - 1);
      if at[n - 1].Some? && at[n - 1].value in mem then prev[at[n - 1].value := v[n - 1]] else prev
  }

  function Exec(i: Instr, r: Regs, mem: Mem): (Regs, Mem) {
    match i
    case Alu(f) => (f(r), mem)
    case Load(at, put) => (put(r, Gather(at, mem)), mem)
    case Store(at, get) => (r, Scatter(at, get(r), mem, 32))
  }

  /** A warp running the first n instructions of a segment with nobody else around. */
  function RunPrefix(seg: Segment, n: nat, r: Regs, mem: Mem): (Regs, Mem)
    requires n <= |seg|
  {
    if n == 0 then (r, mem) else
      var before := RunPrefix(seg, n - 1, r, mem);
      Exec(seg[n - 1], before.0, before.1)
  }

  function Run(seg: Segment, r: Regs, mem: Mem): (Regs, Mem) { RunPrefix(seg, |seg|, r, mem) }

  ghost function SegReads(seg: Segment): set<Cell> { set i, c | 0 <= i < |seg| && c in Reads(seg[i]) :: c }

  ghost function SegWrites(seg: Segment): set<Cell> { set i, c | 0 <= i < |seg| && c in Writes(seg[i]) :: c }

  ghost predicate Conflict(a: Instr, b: Instr) {
    !(Writes(a) !! Reads(b) + Writes(b)) || !(Writes(b) !! Reads(a))
  }

  /** No two lanes of one store write the same cell. */
  ghost predicate OneLanePerCell(i: Instr) {
    i.Store? ==> DistinctCells(i.at)
  }

  ghost predicate DistinctCells(at: Mask) {
    forall k, l :: 0 <= k < l < 32 && at[k].Some? ==> at[k] != at[l]
  }

  // ---- transitions

  ghost predicate Enabled(code: seq<Code>, s: Block, a: Act)
    requires |s.warps| == |code|
  {
    match a
    case Step(w) => w < |code| && s.warps[w].epoch < |code[w]| && s.warps[w].pc < |code[w][s.warps[w].epoch]|
    case Sync => forall w :: 0 <= w < |code| ==> AtBarrier(code[w], s.warps[w])
  }

  ghost predicate AtBarrier(c: Code, w: Warp) {
    w.epoch + 1 < |c| && w.pc == |c[w.epoch]|
  }

  ghost function Fetch(code: seq<Code>, s: Block, w: nat): Instr
    requires |s.warps| == |code| && Enabled(code, s, Step(w))
  {
    code[w][s.warps[w].epoch][s.warps[w].pc]
  }

  ghost function Do(code: seq<Code>, s: Block, a: Act): Block
    requires |s.warps| == |code| && Enabled(code, s, a)
  {
    match a
    case Step(w) =>
      var warp := s.warps[w];
      var (r, mem) := Exec(Fetch(code, s, w), warp.regs, s.mem);
      Block(s.warps[w := Warp(warp.epoch, warp.pc + 1, r)], mem)
    case Sync =>
      Block(seq(|code|, w requires 0 <= w < |code| => Warp(s.warps[w].epoch + 1, 0, s.warps[w].regs)), s.mem)
  }

  /** One schedule: the states a block passes through, and who moved each time. */
  ghost predicate IsRun(code: seq<Code>, s0: Block, run: seq<Block>, acts: seq<Act>) {
    && |run| == |acts| + 1 && run[0] == s0
    && (forall i :: 0 <= i < |run| ==> |run[i].warps| == |code|)
    && forall i :: 0 <= i < |acts| ==> Next(code, run[i], acts[i], run[i + 1])
  }

  ghost predicate Next(code: seq<Code>, s: Block, a: Act, s': Block)
    requires |s.warps| == |code|
  {
    Enabled(code, s, a) && s' == Do(code, s, a)
  }

  ghost predicate Initial(code: seq<Code>, s: Block) {
    |s.warps| == |code| && forall w :: 0 <= w < |code| ==> s.warps[w].epoch == 0 && s.warps[w].pc == 0
  }

  ghost predicate Finished(code: seq<Code>, s: Block)
    requires |s.warps| == |code|
  {
    forall w :: 0 <= w < |code| ==> s.warps[w].epoch + 1 == |code[w]| && s.warps[w].pc == |code[w][s.warps[w].epoch]|
  }

  /** Steps i and j of a run race: different warps, no barrier in between, conflicting accesses. */
  ghost predicate Race(code: seq<Code>, run: seq<Block>, acts: seq<Act>, i: nat, j: nat)
    requires |run| == |acts| + 1 && i < j < |acts|
    requires forall k :: 0 <= k < |run| ==> |run[k].warps| == |code|
  {
    && acts[i].Step? && acts[j].Step? && acts[i].w != acts[j].w
    && Sync !in acts[i..j]
    && Enabled(code, run[i], acts[i]) && Enabled(code, run[j], acts[j])
    && Conflict(Fetch(code, run[i], acts[i].w), Fetch(code, run[j], acts[j].w))
  }

  // ---- what a kernel has to show about its code

  ghost predicate Separated(a: Segment, b: Segment) {
    SegWrites(a) !! SegReads(b) + SegWrites(b)
  }

  /** Every warp meets the same barriers, between two barriers no warp writes what another
      touches, no two lanes store to one cell, and only allocated cells are touched. */
  ghost predicate Disciplined(code: seq<Code>, cells: set<Cell>) {
    && |code| > 0 && |code[0]| > 0
    && (forall w :: 0 <= w < |code| ==> |code[w]| == |code[0]|)
    && (forall u, w, e :: 0 <= u < |code| && 0 <= w < |code| && u != w && 0 <= e < |code[0]| ==>
      Separated(code[u][e], code[w][e]))
    && (forall w, e :: 0 <= w < |code| && 0 <= e < |code[0]| ==> Tame(code[w][e], cells))
  }

  ghost predicate Tame(seg: Segment, cells: set<Cell>) {
    && SegReads(seg) <= cells && SegWrites(seg) <= cells
    && forall i :: 0 <= i < |seg| ==> OneLanePerCell(seg[i])
  }

  // ---- the sequential meaning of a block

  datatype Global = Global(regs: seq<Regs>, mem: Mem)

  /** One epoch with the warps taken one at a time: each cell ends as its only writer left it. */
  ghost function Epoch(code: seq<Code>, e: nat, g: Global): Global
    requires |g.regs| == |code| && forall w :: 0 <= w < |code| ==> e < |code[w]|
  {
    Global(
      seq(|code|, w requires 0 <= w < |code| => Run(code[w][e], g.regs[w], g.mem).0),
      map c | c in g.mem :: Merged(code, e, g, c))
  }

  ghost predicate Writer(code: seq<Code>, e: nat, w: int, c: Cell)
    requires forall u :: 0 <= u < |code| ==> e < |code[u]|
  {
    0 <= w < |code| && c in SegWrites(code[w][e])
  }

  ghost function Merged(code: seq<Code>, e: nat, g: Global, c: Cell): real
    requires |g.regs| == |code| && forall w :: 0 <= w < |code| ==> e < |code[w]|
    requires c in g.mem
  {
    if exists w :: Writer(code, e, w, c) then
      var w :| Writer(code, e, w, c);
      RunKeepsDomain(code[w][e], g.regs[w], g.mem);
      Run(code[w][e], g.regs[w], g.mem).1[c]
    else g.mem[c]
  }

  ghost function Epochs(code: seq<Code>, e: nat, s: Block): (g: Global)
    requires |s.warps| == |code| && forall w :: 0 <= w < |code| ==> e <= |code[w]|
    ensures |g.regs| == |code| && g.mem.Keys == s.mem.Keys
  {
    if e == 0 then Global(seq(|code|, w requires 0 <= w < |code| => s.warps[w].regs), s.mem)
    else Epoch(code, e - 1, Epochs(code, e - 1, s))
  }

  // ---- frames

  lemma {:induction false} ScatterFrame(at: Mask, v: Vec, mem: Mem, n: nat)
    requires n <= 32
    ensures Scatter(at, v, mem, n).Keys == mem.Keys
    ensures forall c :: c in mem && c !in Cells(at) ==> Scatter(at, v, mem, n)[c] == mem[c]
  {
    if n > 0 { ScatterFrame(at, v, mem, n - 1); }
  }

  lemma {:induction false} ScatterAgree(at: Mask, v: Vec, a: Mem, b: Mem, n: nat, c: Cell)
    requires n <= 32 && a.Keys == b.Keys && c in a && a[c] == b[c]
    ensures c in Scatter(at, v, a, n) && c in Scatter(at, v, b, n)
    ensures Scatter(at, v, a, n)[c] == Scatter(at, v, b, n)[c]
  {
    if n > 0 { ScatterAgree(at, v, a, b, n - 1, c); }
  }

  /** With one lane per cell, a store puts each active lane's value in its cell. */
  lemma {:induction false} ScatterAt(at: Mask, v: Vec, mem: Mem, n: nat, l: nat)
    requires n <= 32 && l < n && at[l].Some? && at[l].value in mem
    requires DistinctCells(at)
    ensures at[l].value in Scatter(at, v, mem, n) && Scatter(at, v, mem, n)[at[l].value] == v[l]
  {
    ScatterFrame(at, v, mem, n);
    ScatterFrame(at, v, mem, n - 1);
    if l < n - 1 {
      ScatterAt(at, v, mem, n - 1, l);
      assert at[l] != at[n - 1];
    }
  }

  lemma {:induction false} ExecFrame(i: Instr, r: Regs, mem: Mem)
    ensures Exec(i, r, mem).1.Keys == mem.Keys
    ensures forall c :: c in mem && c !in Writes(i) ==> Exec(i, r, mem).1[c] == mem[c]
  {
    if i.Store? { ScatterFrame(i.at, i.get(r), mem, 32); }
  }

  /** An instruction computes the same from two memories that agree on what it reads. */
  lemma {:induction false} ExecAgree(i: Instr, r: Regs, a: Mem, b: Mem)
    requires a.Keys == b.Keys && forall c :: c in a && c in Reads(i) ==> a[c] == b[c]
    ensures Exec(i, r, a).0 == Exec(i, r, b).0
    ensures Exec(i, r, a).1.Keys == Exec(i, r, b).1.Keys == a.Keys
    ensures forall c :: c in a && a[c] == b[c] ==> Exec(i, r, a).1[c] == Exec(i, r, b).1[c]
  {
    ExecFrame(i, r, a);
    ExecFrame(i, r, b);
    if i.Load? {
      assert Gather(i.at, a) == Gather(i.at, b);
    }
    if i.Store? {
      forall c | c in a && a[c] == b[c]
        ensures Exec(i, r, a).1[c] == Exec(i, r, b).1[c]
      {
        ScatterAgree(i.at, i.get(r), a, b, 32, c);
      }
    }
  }

  lemma {:induction false} PrefixFrame(seg: Segment, n: nat, r: Regs, mem: Mem)
    requires n <= |seg|
    ensures RunPrefix(seg, n, r, mem).1.Keys == mem.Keys
    ensures forall c :: c in mem && c !in SegWrites(seg) ==> RunPrefix(seg, n, r, mem).1[c] == mem[c]
  {
    if n > 0 {
      PrefixFrame(seg, n - 1, r, mem);
      var before := RunPrefix(seg, n - 1, r, mem);
      ExecFrame(seg[n - 1], before.0, before.1);
      forall c | c in Writes(seg[n - 1]) ensures c in SegWrites(seg) {}
    }
  }

  lemma {:induction false} RunKeepsDomain(seg: Segment, r: Regs, mem: Mem)
    ensures Run(seg, r, mem).1.Keys == mem.Keys
  {
    PrefixFrame(seg, |seg|, r, mem);
  }

  lemma {:induction false} RunFrame(seg: Segment, r: Regs, mem: Mem)
    ensures Run(seg, r, mem).1.Keys == mem.Keys
    ensures forall c :: c in mem && c !in SegWrites(seg) ==> Run(seg, r, mem).1[c] == mem[c]
  {
    PrefixFrame(seg, |seg|, r, mem);
  }

  lemma {:induction false} PrefixOfConcat(a: Segment, b: Segment, n: nat, r: Regs, mem: Mem)
    requires n <= |a|
    ensures RunPrefix(a + b, n, r, mem) == RunPrefix(a, n, r, mem)
  {
    if n > 0 { PrefixOfConcat(a, b, n - 1, r, mem); }
  }

  lemma {:induction false} PrefixPastConcat(a: Segment, b: Segment, n: nat, r: Regs, mem: Mem)
    requires n <= |b|
    ensures RunPrefix(a + b, |a| + n, r, mem) == RunPrefix(b, n, Run(a, r, mem).0, Run(a, r, mem).1)
  {
    if n == 0 {
      PrefixOfConcat(a, b, |a|, r, mem);
    } else {
      PrefixPastConcat(a, b, n - 1, r, mem);
      assert (a + b)[|a| + n - 1] == b[n - 1];
    }
  }

  lemma {:induction false} RunConcat(a: Segment, b: Segment, r: Regs, mem: Mem)
    ensures Run(a + b, r, mem) == Run(b, Run(a, r, mem).0, Run(a, r, mem).1)
  {
    PrefixPastConcat(a, b, |b|, r, mem);
  }

  lemma {:induction false} RunOne(i: Instr, r: Regs, mem: Mem)
    ensures Run([i], r, mem) == Exec(i, r, mem)
  {
    assert RunPrefix([i], 0, r, mem) == (r, mem);
  }

  lemma {:induction false} SegConcat(a: Segment, b: Segment)
    ensures SegReads(a + b) == SegReads(a) + SegReads(b)
    ensures SegWrites(a + b) == SegWrites(a) + SegWrites(b)
  {
    forall c | c in SegReads(a) + SegReads(b) ensures c in SegReads(a + b) {
      if c in SegReads(a) {
        var i :| 0 <= i < |a| && c in Reads(a[i]);
        assert (a + b)[i] == a[i];
      } else {
        var i :| 0 <= i < |b| && c in Reads(b[i]);
        assert (a + b)[|a| + i] == b[i];
      }
    }
    forall c | c in SegWrites(a) + SegWrites(b) ensures c in SegWrites(a + b) {
      if c in SegWrites(a) {
        var i :| 0 <= i < |a| && c in Writes(a[i]);
        assert (a + b)[i] == a[i];
      } else {
        var i :| 0 <= i < |b| && c in Writes(b[i]);
        assert (a + b)[|a| + i] == b[i];
      }
    }
  }

  lemma {:induction false} SegOne(i: Instr)
    ensures SegReads([i]) == Reads(i) && SegWrites([i]) == Writes(i)
  {
    forall c | c in Reads(i) ensures c in SegReads([i]) { assert c in Reads([i][0]); }
    forall c | c in Writes(i) ensures c in SegWrites([i]) { assert c in Writes([i][0]); }
  }
}
