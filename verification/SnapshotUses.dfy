/** Uses of a node that are safe: whenever calls exclude each other, completed calls return the
    samples of a direct run and the node keeps its state. */
module SnapshotUses {
  import opened Lists
  import opened Snapshots
  import opened SnapshotPairs

  // ----- what exclusion buys

  function Iterate<S>(tick: S -> S, s: S, n: nat): S {
    if n == 0 then s else tick(Iterate(tick, s, n - 1))
  }

  /** The states a direct run of `n` samples visits. */
  function Orbit<S>(tick: S -> S, s: S, n: nat): (r: seq<S>)
    ensures |r| == n
  {
    if n == 0 then [] else Orbit(tick, s, n - 1) + [Iterate(tick, s, n - 1)]
  }

  ghost predicate CallIntact<S>(env: Env<S>, n: Node<S>, s: S, c: Call<S>) {
    match c.pc
    case Tick(_, left) =>
      && |c.taken| + left == c.samples && c.taken == Orbit(env.tick, s, |c.taken|)
      && n.saved == s && n.state == Iterate(env.tick, s, |c.taken|)
    case Restore(_) => c.taken == Orbit(env.tick, s, c.samples) && n.saved == s
    case Release => c.taken == Orbit(env.tick, s, c.samples)
    case Done(completed) => c.taken == if completed then Orbit(env.tick, s, c.samples) else []
    case _ => c.taken == []
  }

  /** Every call takes the samples of a direct run from `s`, and the node is in state `s`
      whenever no call is between save and restore. */
  ghost predicate Intact<S>(env: Env<S>, n: Node<S>, s: S) {
    && (forall k :: k in n.calls ==> CallIntact(env, n, s, n.calls[k]))
    && ((forall k :: k in n.calls ==> !n.calls[k].Sampling()) ==> n.state == s)
  }

  /** A call that saves finds the node in state `s`. */
  lemma SavesStart<S>(env: Env<S>, n: Node<S>, s: S, k: Id)
    requires Exclusive(n) && Intact(env, n, s) && k in n.calls && n.calls[k].pc.Save?
    ensures n.state == s
  {
    forall j | j in n.calls ensures !n.calls[j].Sampling() { assert n.calls[k].Inside(); }
  }

  /** One more sample. */
  lemma TickIntact<S>(env: Env<S>, n: Node<S>, s: S, c: Call<S>)
    requires CallIntact(env, n, s, c) && c.pc.Tick? && c.pc.left > 0
    ensures c.taken + [n.state] == Orbit(env.tick, s, |c.taken| + 1)
    ensures env.tick(n.state) == Iterate(env.tick, s, |c.taken| + 1)
  {
  }

  lemma MoveIntact<S>(env: Env<S>, n: Node<S>, s: S, k: Id)
    requires k in n.calls && CallIntact(env, n, s, n.calls[k]) && (n.calls[k].pc.Save? ==> n.state == s)
    ensures CallIntact(env, Next(env, n, k), s, Next(env, n, k).calls[k])
  {
    var c := n.calls[k];
    if c.pc.Tick? && c.pc.left > 0 {
      TickIntact(env, n, s, c);
      var d := c.(pc := Tick(c.pc.claimed, c.pc.left - 1), taken := c.taken + [n.state]);
      assert Next(env, n, k).calls[k] == d && |d.taken| == |c.taken| + 1;
    }
  }

  lemma MoverIntact<S>(env: Env<S>, n: Node<S>, s: S, k: Id)
    requires Exclusive(n) && Intact(env, n, s) && k in n.calls
    ensures CallIntact(env, Next(env, n, k), s, Next(env, n, k).calls[k])
  {
    if n.calls[k].pc.Save? { SavesStart(env, n, s, k); }
    MoveIntact(env, n, s, k);
  }

  lemma OtherIntact<S>(env: Env<S>, n: Node<S>, s: S, k: Id, j: Id)
    requires Exclusive(n) && Intact(env, n, s) && k in n.calls && j in n.calls && j != k
    ensures CallIntact(env, Next(env, n, k), s, n.calls[j])
  {
    assert CallIntact(env, n, s, n.calls[j]);
    assert !(n.calls[j].Inside() && n.calls[k].Inside());
  }

  lemma RestIntact<S>(env: Env<S>, n: Node<S>, s: S, k: Id)
    requires Exclusive(n) && Intact(env, n, s) && k in n.calls
    requires forall j :: j in n.calls ==> !Next(env, n, k).calls[j].Sampling()
    ensures Next(env, n, k).state == s
  {
    assert CallIntact(env, n, s, n.calls[k]);
    forall j | j in n.calls && j != k ensures !n.calls[j].Sampling() {
      assert Next(env, n, k).calls[j] == n.calls[j];
    }
  }

  lemma IntactKeeps<S>(env: Env<S>, n: Node<S>, s: S, mv: Move)
    requires Exclusive(n) && Intact(env, n, s)
    ensures Intact(env, Step(env, n, mv), s)
  {
    var r := Step(env, n, mv);
    match mv
    case Begin(k, context, samples) =>
      assert forall j :: j in n.calls ==> CallIntact(env, n, s, n.calls[j]);
      assert forall j :: j in n.calls ==> j in r.calls && r.calls[j] == n.calls[j];
    case Advance(k) =>
      if k in n.calls {
        NextMoves(env, n, k);
        MoverIntact(env, n, s, k);
        forall j | j in r.calls ensures CallIntact(env, r, s, r.calls[j]) {
          if j != k { OtherIntact(env, n, s, k, j); }
        }
        if forall j :: j in n.calls ==> !r.calls[j].Sampling() { RestIntact(env, n, s, k); }
      }
  }

  ghost predicate AlwaysExclusive<S>(env: Env<S>, n: Node<S>, mvs: seq<Move>)
    decreases |mvs|
  {
    Exclusive(n) && (mvs == [] || AlwaysExclusive(env, Step(env, n, mvs[0]), mvs[1..]))
  }

  /** Over any run in which calls exclude each other, every completed call returns the samples
      of a direct run and the node ends where it started. */
  lemma {:induction false} ExclusiveRunsAreIntact<S>(env: Env<S>, n: Node<S>, s: S, mvs: seq<Move>)
    requires Intact(env, n, s) && AlwaysExclusive(env, n, mvs)
    ensures Intact(env, Exec(env, n, mvs), s)
    decreases |mvs|
  {
    if mvs != [] {
      IntactKeeps(env, n, s, mvs[0]);
      ExclusiveRunsAreIntact(env, Step(env, n, mvs[0]), s, mvs[1..]);
    }
  }

  lemma {:induction false} CallsGrow<S>(env: Env<S>, n: Node<S>, mvs: seq<Move>)
    ensures n.calls.Keys <= Exec(env, n, mvs).calls.Keys
    decreases |mvs|
  {
    if mvs != [] { CallsGrow(env, Step(env, n, mvs[0]), mvs[1..]); }
  }

  lemma {:induction false} TwoCallsExclude<S>(env: Env<S>, n: Node<S>, past: set<Id>, mvs: seq<Move>)
    requires Inv(n) && Two(n, past) && |New(Exec(env, n, mvs), past)| <= 2
    ensures AlwaysExclusive(env, n, mvs) && Exclusive(Exec(env, n, mvs)) && Inv(Exec(env, n, mvs))
    decreases |mvs|
  {
    TwoIsExclusive(n, past);
    if mvs != [] {
      var r := Step(env, n, mvs[0]);
      CallsGrow(env, r, mvs[1..]);
      SubsetSize(New(r, past), New(Exec(env, r, mvs[1..]), past));
      StepKeeps(env, n, mvs[0]);
      TwoKeeps(env, n, past, mvs[0]);
      TwoCallsExclude(env, r, past, mvs[1..]);
    }
  }

  /** With at most two calls on a new node, in every interleaving: both get the samples of a
      direct run, or give up, and the node's state is untouched. */
  lemma TwoCallsAreIntact<S>(env: Env<S>, s: S, mvs: seq<Move>)
    requires |Exec(env, Init(s), mvs).calls| <= 2
    ensures Intact(env, Exec(env, Init(s), mvs), s)
  {
    assert New(Exec(env, Init(s), mvs), {}) == Exec(env, Init(s), mvs).calls.Keys;
    TwoCallsExclude(env, Init(s), {}, mvs);
    ExclusiveRunsAreIntact(env, Init(s), s, mvs);
  }

  // ----- cycles

  /** No call is in progress. */
  ghost predicate Quiet<S>(n: Node<S>) {
    forall k :: k in n.calls ==> n.calls[k].pc.Done?
  }

  ghost function RunCycles<S>(env: Env<S>, n: Node<S>, cycles: seq<seq<Move>>): Node<S>
    decreases |cycles|
  {
    if cycles == [] then n else RunCycles(env, Exec(env, n, cycles[0]), cycles[1..])
  }

  /** Every cycle starts with no call in progress and begins at most two. */
  ghost predicate TwoACycle<S>(env: Env<S>, n: Node<S>, cycles: seq<seq<Move>>)
    decreases |cycles|
  {
    cycles == []
    || (Quiet(n) && |New(Exec(env, n, cycles[0]), n.calls.Keys)| <= 2
        && TwoACycle(env, Exec(env, n, cycles[0]), cycles[1..]))
  }

  lemma QuietIsTwo<S>(n: Node<S>)
    requires Quiet(n)
    ensures Two(n, n.calls.Keys)
  {
    assert New(n, n.calls.Keys) == {};
  }

  lemma {:induction false} CyclesKeepIntact<S>(env: Env<S>, n: Node<S>, s: S, cycles: seq<seq<Move>>)
    requires Inv(n) && Intact(env, n, s)
    ensures TwoACycle(env, n, cycles) ==> Intact(env, RunCycles(env, n, cycles), s)
    decreases |cycles|
  {
    if cycles != [] && TwoACycle(env, n, cycles) {
      QuietIsTwo(n);
      TwoCallsExclude(env, n, n.calls.Keys, cycles[0]);
      ExclusiveRunsAreIntact(env, n, s, cycles[0]);
      CyclesKeepIntact(env, Exec(env, n, cycles[0]), s, cycles[1..]);
    }
  }

  /** A node sampled over any number of cycles, by at most two calls in each, gives every
      completed call the samples of a direct run and keeps its state. */
  lemma {:induction false} CyclesAreIntact<S>(env: Env<S>, s: S, cycles: seq<seq<Move>>)
    ensures TwoACycle(env, Init(s), cycles) ==> Intact(env, RunCycles(env, Init(s), cycles), s)
  {
    CyclesKeepIntact(env, Init(s), s, cycles);
  }

  // ----- calls in progress at once

  ghost function InProgress<S>(n: Node<S>): set<Id> {
    set k | k in n.calls && !n.calls[k].pc.Done?
  }

  /** At every step of the run at most `c` calls are in progress. */
  ghost predicate AtMost<S>(env: Env<S>, n: Node<S>, mvs: seq<Move>, c: nat)
    decreases |mvs|
  {
    |InProgress(n)| <= c && (mvs == [] || AtMost(env, Step(env, n, mvs[0]), mvs[1..], c))
  }

  lemma AloneIsExclusive<S>(n: Node<S>)
    requires |InProgress(n)| <= 1
    ensures Exclusive(n)
  {
    forall j, k | j in n.calls && k in n.calls && n.calls[j].Inside() && n.calls[k].Inside() ensures j == k {
      assert j in InProgress(n) && k in InProgress(n);
      assert |InProgress(n) - {j}| == |InProgress(n)| - 1;
      assert k in {j} + (InProgress(n) - {j});
    }
  }

  lemma {:induction false} AloneExcludes<S>(env: Env<S>, n: Node<S>, mvs: seq<Move>)
    requires AtMost(env, n, mvs, 1)
    ensures AlwaysExclusive(env, n, mvs) && Exclusive(Exec(env, n, mvs))
    decreases |mvs|
  {
    AloneIsExclusive(n);
    if mvs != [] { AloneExcludes(env, Step(env, n, mvs[0]), mvs[1..]); }
  }

  /** Calls made one at a time, however many, are all intact. */
  lemma OneAtATimeIsIntact<S>(env: Env<S>, s: S, mvs: seq<Move>)
    requires AtMost(env, Init(s), mvs, 1)
    ensures Intact(env, Exec(env, Init(s), mvs), s)
  {
    AloneExcludes(env, Init(s), mvs);
    ExclusiveRunsAreIntact(env, Init(s), s, mvs);
  }

  lemma {:induction false} FewerAtOnce<S>(env: Env<S>, n: Node<S>, mvs: seq<Move>, c: nat, d: nat)
    requires AtMost(env, n, mvs, c) && c <= d
    ensures AtMost(env, n, mvs, d)
    decreases |mvs|
  {
    if mvs != [] { FewerAtOnce(env, Step(env, n, mvs[0]), mvs[1..], c, d); }
  }

  /** A wait that may not spin always gives up. */
  lemma {:induction false} NoSpinExcludes<S>(env: Env<S>, n: Node<S>, mvs: seq<Move>)
    requires env.maxSpins == 0
    requires Inv(n) && forall k :: k in n.calls && n.calls[k].Inside() ==> n.calls[k].Claimed()
    ensures Exclusive(Exec(env, n, mvs))
    decreases |mvs|
  {
    if mvs != [] {
      StepKeeps(env, n, mvs[0]);
      NoSpinExcludes(env, Step(env, n, mvs[0]), mvs[1..]);
    }
  }
}
