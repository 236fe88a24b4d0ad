/** Taking samples from a node for a buffer: the fast path of an inactive node, the snapshot
    path, and the path that waits for another snapshot. Sample values are reals. */
module Sampling {
  import opened Arith

  /** One `process_sample` call: a value and the next state, or an exception. */
  datatype Tick<S> = Sample(value: real, next: S) | Raise(next: S)

  datatype Result<S> = Ran(values: seq<real>, last: S) | Raised(values: seq<real>, last: S)

  /** `n` samples taken directly from state `s`. */
  function RunFrom<S>(tick: S -> Tick<S>, s: S, n: nat): Result<S>
    decreases n
  {
    if n == 0 then Ran([], s)
    else match tick(s)
      case Raise(t) => Raised([], t)
      case Sample(v, t) => After([v], RunFrom(tick, t, n - 1))
  }

  function After<S>(values: seq<real>, r: Result<S>): Result<S> {
    match r
    case Ran(vs, last) => Ran(values + vs, last)
    case Raised(vs, last) => Raised(values + vs, last)
  }

  lemma AfterAfter<S>(a: seq<real>, b: seq<real>, r: Result<S>)
    ensures After(a, After(b, r)) == After(a + b, r)
  {
    assert a + (b + r.values) == a + b + r.values;
  }

  lemma {:induction false} RunLength<S>(tick: S -> Tick<S>, s: S, n: nat)
    ensures var r := RunFrom(tick, s, n); |r.values| <= n && (r.Ran? ==> |r.values| == n)
    decreases n
  {
    if n > 0 && tick(s).Sample? { RunLength(tick, tick(s).next, n - 1); }
  }

  /** Consecutive runs are one longer run: what an inactive node hands out is one stream. */
  lemma {:induction false} RunsJoin<S>(tick: S -> Tick<S>, s: S, m: nat, n: nat)
    requires RunFrom(tick, s, m).Ran?
    ensures RunFrom(tick, s, m + n) == After(RunFrom(tick, s, m).values, RunFrom(tick, RunFrom(tick, s, m).last, n))
    decreases m
  {
    if m == 0 {
      assert [] + RunFrom(tick, s, n).values == RunFrom(tick, s, n).values;
    } else {
      var t := tick(s);
      RunsJoin(tick, t.next, m - 1, n);
      var first := RunFrom(tick, t.next, m - 1);
      AfterAfter([t.value], first.values, RunFrom(tick, first.last, n));
    }
  }

  // ----- wait_for_snapshot_completion

  function Pow2(n: nat): nat {
    if n == 0 then 1 else 2 * Pow2(n - 1)
  }

  /** Pause instructions issued in the first `turns` turns: doubling for ten turns. */
  function Pauses(turns: nat): nat {
    if turns <= 10 then Pow2(turns) - 1 else Pow2(10) - 1
  }

  /** Some poll among the first `maxSpins` finds the snapshot finished. */
  ghost predicate Clears(inContext: nat -> bool, maxSpins: int) {
    exists k: nat :: k < maxSpins && !inContext(k)
  }

  /** Spins while poll `k` still finds the node in the awaited context. */
  method WaitForSnapshot(inContext: nat -> bool, maxSpins: int) returns (ok: bool, spins: nat, pauses: nat)
    ensures ok <==> exists k: nat :: k < maxSpins && !inContext(k)
    ensures spins <= if maxSpins < 0 then 0 else maxSpins
    ensures pauses == Pauses(spins) <= 1023 && (spins >= 10 ==> pauses == 1023)
    ensures spins > 0 ==> inContext(spins - 1)
  {
    spins, pauses := 0, 0;
    while inContext(spins) && spins < maxSpins
      invariant 0 <= spins <= (if maxSpins < 0 then 0 else maxSpins)
      invariant forall k: nat :: k < spins ==> inContext(k)
      invariant pauses == Pauses(spins)
      decreases maxSpins - spins
    {
      if spins < 10 {
        var i := 0;
        while i < Pow2(spins)
          invariant 0 <= i <= Pow2(spins) && pauses == Pauses(spins) + i
        {
          pauses, i := pauses + 1, i + 1;
        }
      }
      spins := spins + 1;
    }
    ok := spins < maxSpins;
    PausesBounded(spins);
  }

  lemma PausesBounded(turns: nat)
    ensures Pauses(turns) <= 1023
  {
    assert Pow2(10) == 1024 by {
      assert Pow2(2) == 4;
      assert Pow2(4) == 16;
      assert Pow2(6) == 64;
      assert Pow2(8) == 256;
    }
    if turns <= 10 { Pow2Mono(turns, 10); }
  }

  lemma {:induction false} Pow2Mono(a: nat, b: nat)
    requires a <= b
    ensures Pow2(a) <= Pow2(b)
    decreases b
  {
    if a < b { Pow2Mono(a, b - 1); }
  }

  // ----- the node and the three extraction functions

  function Mixed(buffer: seq<real>, values: seq<real>, mix: real): (r: seq<real>)
    requires |values| <= |buffer|
    ensures |r| == |buffer|
  {
    seq(|buffer|, i requires 0 <= i < |buffer| => if i < |values| then buffer[i] + values[i] * mix else buffer[i])
  }

  lemma MixedNext(buffer: seq<real>, values: seq<real>, v: real, mix: real)
    requires |values| < |buffer|
    ensures var i := |values|;
            && Mixed(buffer, values, mix)[i] == buffer[i]
            && Mixed(buffer, values + [v], mix) == Mixed(buffer, values, mix)[i := buffer[i] + v * mix]
  {
    var now := Mixed(buffer, values, mix)[|values| := buffer[|values|] + v * mix];
    var next := Mixed(buffer, values + [v], mix);
    forall i | 0 <= i < |buffer| ensures next[i] == now[i] {
      if i <= |values| { assert (values + [v])[i] == if i < |values| then values[i] else v; }
    }
    assert next == now;
  }

  function Zeros(n: nat): (r: seq<real>)
    ensures |r| == n && forall i :: 0 <= i < n ==> r[i] == 0.0
  {
    if n == 0 then [] else [0.0] + Zeros(n - 1)
  }

  /** How the buffers that share a node coordinate: the processed flag and the count of
      extractions since it was set. */
  datatype Sharing = Sharing(processed: bool, resets: nat)

  function Marked(s: Sharing, inactive: bool, buffers: nat): Sharing {
    if inactive && buffers > 1 && !s.processed then Sharing(true, s.resets + 1) else s
  }

  function ResetRequested(s: Sharing, buffers: nat): Sharing {
    if buffers <= 1 || s.resets + 1 == buffers then Sharing(false, 0) else s.(resets := s.resets + 1)
  }

  /** What a completed snapshot leaves. */
  function Snapped(s: Sharing, buffers: nat): Sharing {
    if s.processed then ResetRequested(s, buffers) else s
  }

  class Node<S> {
    const tick: S -> Tick<S>
    const inactive: bool
    const bufferCount: nat
    var state: S
    var saved: S
    var context: nat  // 0: no snapshot in progress
    var bufferProcessed: bool
    var resetCount: nat

    constructor (tick: S -> Tick<S>, state: S, inactive: bool, bufferCount: nat)
      ensures this.tick == tick && this.state == state && this.inactive == inactive && this.bufferCount == bufferCount
      ensures context == 0 && !bufferProcessed && resetCount == 0
    {
      this.tick, this.state, this.saved, this.inactive, this.bufferCount := tick, state, state, inactive, bufferCount;
      context, bufferProcessed, resetCount := 0, false, 0;
    }

    ghost function Share(): Sharing
      reads this
    {
      Sharing(bufferProcessed, resetCount)
    }

    method MarkBufferProcessed() returns (marked: bool)
      modifies this`bufferProcessed, this`resetCount
      ensures Share() == Marked(old(Share()), inactive, bufferCount)
      ensures bufferProcessed <==> old(bufferProcessed) || (inactive && bufferCount > 1)
      ensures resetCount
              == if inactive && bufferCount > 1 && !old(bufferProcessed) then old(resetCount) + 1 else old(resetCount)
      ensures marked <==> inactive && bufferCount >= 1 && (bufferCount == 1 || !old(bufferProcessed))
    {
      if bufferCount >= 1 && inactive {
        if bufferCount == 1 { return true; }
        if !bufferProcessed {
          bufferProcessed := true;
          resetCount := resetCount + 1;
          return true;
        }
      }
      return false;
    }

    method RequestBufferReset()
      modifies this`bufferProcessed, this`resetCount
      ensures Share() == ResetRequested(old(Share()), bufferCount)
      ensures if bufferCount <= 1 || old(resetCount) + 1 == bufferCount then !bufferProcessed && resetCount == 0
              else bufferProcessed == old(bufferProcessed) && resetCount == old(resetCount) + 1
    {
      resetCount := resetCount + 1;
      if resetCount == bufferCount || bufferCount <= 1 {
        bufferProcessed := false;
        resetCount := 0;
      }
    }

    /** The sampling loop; stops at an exception. */
    method SampleLoop(n: nat) returns (values: seq<real>, ok: bool)
      modifies this`state
      ensures RunFrom(tick, old(state), n) == if ok then Ran(values, state) else Raised(values, state)
    {
      values, ok := [], true;
      ghost var run := RunFrom(tick, state, n);
      var i := 0;
      assert [] + run.values == run.values;
      while i < n
        invariant 0 <= i <= n
        invariant run == After(values, RunFrom(tick, state, n - i))
      {
        match tick(state) {
          case Raise(t) =>
            assert values + [] == values;
            state := t;
            return values, false;
          case Sample(v, t) =>
            AfterAfter(values, [v], RunFrom(tick, t, n - i - 1));
            state := t;
            values := values + [v];
        }
        i := i + 1;
      }
      assert values + [] == values;
    }

    /** Save, sample, restore; on an exception the state is left where it was raised. */
    method SampleSaved(n: nat) returns (values: seq<real>, ok: bool)
      modifies this`state, this`saved, this`bufferProcessed, this`resetCount
      ensures var run := RunFrom(tick, old(state), n);
              && ok == run.Ran? && values == run.values && state == (if ok then old(state) else run.last)
              && Share() == if ok then Snapped(old(Share()), bufferCount) else old(Share())
    {
      saved := state;
      values, ok := SampleLoop(n);
      if ok {
        state := saved;
        if bufferProcessed { RequestBufferReset(); }
      }
    }

    /** The mixing loop of the buffer form, exception or not. */
    method MixLoop(buffer: array<real>, mix: real) returns (ok: bool)
      modifies this`state, buffer
      ensures var run := RunFrom(tick, old(state), buffer.Length);
              && ok == run.Ran? && state == run.last
              && |run.values| <= buffer.Length && buffer[..] == Mixed(old(buffer[..]), run.values, mix)
    {
      ghost var run, n, was := RunFrom(tick, state, buffer.Length), buffer.Length, buffer[..];
      ghost var values: seq<real> := [];
      RunLength(tick, state, n);
      ok := true;
      var i := 0;
      assert [] + run.values == run.values;
      assert buffer[..] == Mixed(was, [], mix);
      while i < buffer.Length
        invariant 0 <= i <= n && |values| == i && |was| == n
        invariant run == After(values, RunFrom(tick, state, n - i))
        invariant buffer[..] == Mixed(was, values, mix)
      {
        match tick(state) {
          case Raise(t) =>
            assert values + [] == values;
            state := t;
            return false;
          case Sample(v, t) =>
            AfterAfter(values, [v], RunFrom(tick, t, n - i - 1));
            MixedNext(was, values, v, mix);
            assert buffer[i] == buffer[..][i];
            state := t;
            buffer[i] := buffer[i] + v * mix;
            assert buffer[..] == Mixed(was, values, mix)[i := was[i] + v * mix];
            values := values + [v];
        }
        i := i + 1;
      }
      assert values + [] == values;
    }

    method MixSaved(buffer: array<real>, mix: real) returns (ok: bool)
      modifies this`state, this`saved, this`bufferProcessed, this`resetCount, buffer
      ensures var run := RunFrom(tick, old(state), buffer.Length);
              && ok == run.Ran? && state == (if ok then old(state) else run.last)
              && Share() == (if ok then Snapped(old(Share()), bufferCount) else old(Share()))
              && |run.values| <= buffer.Length && buffer[..] == Mixed(old(buffer[..]), run.values, mix)
    {
      saved := state;
      ok := MixLoop(buffer, mix);
      if ok {
        state := saved;
        if bufferProcessed { RequestBufferReset(); }
      }
    }

    predicate FastPath()
      reads this
    {
      inactive && !bufferProcessed
    }
  }

  /** How an extraction ends: with values, with nothing (a caught exception or a timeout), or
      by letting the exception through. */
  datatype Extraction = Values(values: seq<real>) | Nothing | Escaped

  /** `extract_multiple_samples`. `id` is the fresh context id, `inContext` the answers of the
      waiting loop's polls, `afterWait` the node state once the wait is over. */
  method ExtractMultipleSamples<S>(node: Node?<S>, n: nat, id: nat, inContext: nat -> bool, maxSpins: int, afterWait: S)
    returns (r: Extraction)
    requires id > 0
    modifies node
    ensures node == null ==> r == Values(Zeros(n))
    ensures node != null ==>
              var fast := node.inactive && !old(node.bufferProcessed);
              var start := if fast || old(node.context) == 0 then old(node.state) else afterWait;
              var run := RunFrom(node.tick, start, n);
              && node.context == old(node.context)
              && if !fast && old(node.context) != 0 && !Clears(inContext, maxSpins) then
                   r == Nothing && node.state == start && node.Share() == old(node.Share())
                 else if run.Raised? then
                   && r == (if !fast && old(node.context) == 0 then Nothing else Escaped)
                   && node.state == run.last && node.Share() == old(node.Share())
                 else
                   && r == Values(run.values) && node.state == (if fast then run.last else start)
                   && node.Share() == if fast then Marked(old(node.Share()), true, node.bufferCount)
                                      else Snapped(old(node.Share()), node.bufferCount)
    ensures node != null && node.inactive && old(node.context) == 0 && r.Values? ==>
              Shared(node.state, node.Share())
                  == Extracted(node.tick, node.bufferCount, n, old(Shared(node.state, node.Share())))
  {
    if node == null { return Values(Zeros(n)); }
    if node.FastPath() {
      var values, ok := node.SampleLoop(n);
      if !ok { return Escaped; }
      var _ := node.MarkBufferProcessed();
      return Values(values);
    }
    if node.context == 0 {
      node.context := id;
      var values, ok := node.SampleSaved(n);
      node.context := 0;
      return if ok then Values(values) else Nothing;
    }
    var done, _, _ := WaitForSnapshot(inContext, maxSpins);
    node.state := afterWait;
    if !done { return Nothing; }
    var values, ok := node.SampleSaved(n);
    r := if ok then Values(values) else Escaped;
  }

  /** `extract_single_sample`: zero for a missing node, a caught exception or a timeout. */
  method ExtractSingleSample<S>(node: Node?<S>, id: nat, inContext: nat -> bool, maxSpins: int, afterWait: S)
    returns (value: real, escaped: bool)
    requires id > 0
    modifies node
    ensures node == null ==> value == 0.0 && !escaped
    ensures node != null ==>
              var fast := node.inactive && !old(node.bufferProcessed);
              var start := if fast || old(node.context) == 0 then old(node.state) else afterWait;
              var t := node.tick(start);
              && node.context == old(node.context)
              && if !fast && old(node.context) != 0 && !Clears(inContext, maxSpins) then
                   value == 0.0 && !escaped && node.state == start && node.Share() == old(node.Share())
                 else if t.Raise? then
                   && value == 0.0 && (escaped <==> fast || old(node.context) != 0)
                   && node.state == t.next && node.Share() == old(node.Share())
                 else
                   && value == t.value && !escaped && node.state == (if fast then t.next else start)
                   && node.Share() == if fast then Marked(old(node.Share()), true, node.bufferCount)
                                      else Snapped(old(node.Share()), node.bufferCount)
  {
    value, escaped := 0.0, false;
    if node == null { return; }
    OneSample(node.tick, if node.FastPath() || node.context == 0 then node.state else afterWait);
    if node.FastPath() {
      var values, ok := node.SampleLoop(1);
      if !ok { return 0.0, true; }
      var _ := node.MarkBufferProcessed();
      return values[0], false;
    }
    if node.context == 0 {
      node.context := id;
      var values, ok := node.SampleSaved(1);
      node.context := 0;
      return if ok then values[0] else 0.0, false;
    }
    var done, _, _ := WaitForSnapshot(inContext, maxSpins);
    node.state := afterWait;
    if !done { return; }
    var values, ok := node.SampleSaved(1);
    if ok { value := values[0]; } else { escaped := true; }
  }

  lemma OneSample<S>(tick: S -> Tick<S>, s: S)
    ensures RunFrom(tick, s, 1) == match tick(s)
      case Raise(t) => Raised([], t)
      case Sample(v, t) => Ran([v], t)
  {
    if tick(s).Sample? { assert RunFrom(tick, tick(s).next, 0) == Ran([], tick(s).next); }
  }

  /** `update_buffer_with_node_data`: adds the samples with factor `mix`. An exception leaves
      the samples taken before it in the buffer. */
  method UpdateBuffer<S>(node: Node?<S>, buffer: array<real>, mix: real, id: nat, inContext: nat -> bool, maxSpins: int,
                         afterWait: S) returns (escaped: bool)
    requires id > 0
    modifies node, buffer
    ensures node == null ==> buffer[..] == old(buffer[..]) && !escaped
    ensures node != null ==>
              var fast := node.inactive && !old(node.bufferProcessed);
              var start := if fast || old(node.context) == 0 then old(node.state) else afterWait;
              var run := RunFrom(node.tick, start, buffer.Length);
              && node.context == old(node.context)
              && if !fast && old(node.context) != 0 && !Clears(inContext, maxSpins) then
                   !escaped && buffer[..] == old(buffer[..]) && node.state == start && node.Share() == old(node.Share())
                 else
                   && |run.values| <= buffer.Length && buffer[..] == Mixed(old(buffer[..]), run.values, mix)
                   && node.state == (if run.Ran? && !fast then start else run.last)
                   && (escaped <==> run.Raised? && (fast || old(node.context) != 0))
                   && node.Share() == if run.Raised? then old(node.Share())
                                      else if fast then Marked(old(node.Share()), true, node.bufferCount)
                                      else Snapped(old(node.Share()), node.bufferCount)
  {
    escaped := false;
    if node == null { return; }
    if node.FastPath() {
      var ok := node.MixLoop(buffer, mix);
      if !ok { return true; }
      var _ := node.MarkBufferProcessed();
      return;
    }
    if node.context == 0 {
      node.context := id;
      var _ := node.MixSaved(buffer, mix);
      node.context := 0;
      return;
    }
    var done, _, _ := WaitForSnapshot(inContext, maxSpins);
    node.state := afterWait;
    if !done { return; }
    var ok := node.MixSaved(buffer, mix);
    escaped := !ok;
  }

  // ----- several buffers sharing an inactive node

  datatype Shared<S> = Shared(state: S, share: Sharing)

  /** One extraction of `m` samples from an inactive node with no snapshot in progress, as
      ExtractMultipleSamples does it: the node afterwards. */
  ghost function Extracted<S>(tick: S -> Tick<S>, buffers: nat, m: nat, sh: Shared<S>): Shared<S> {
    if sh.share.processed then Shared(sh.state, Snapped(sh.share, buffers))
    else Shared(RunFrom(tick, sh.state, m).last, Marked(sh.share, true, buffers))
  }

  ghost function AfterExtractions<S>(tick: S -> Tick<S>, buffers: nat, m: nat, sh: Shared<S>, k: nat): Shared<S>
    decreases k
  {
    if k == 0 then sh else Extracted(tick, buffers, m, AfterExtractions(tick, buffers, m, sh, k - 1))
  }

  /** The buffers that make up one turn. */
  function TurnLength(buffers: nat): (n: nat)
    ensures n >= 1
  {
    if buffers <= 1 then 1 else buffers
  }

  /** Blocks the node has moved on by after `k` extractions. */
  function BlocksTaken(buffers: nat, k: nat): nat {
    k / TurnLength(buffers) + if k % TurnLength(buffers) == 0 then 0 else 1
  }

  /** Samples `i * m` up to `(i + 1) * m` of the node's stream. */
  ghost function Block<S>(tick: S -> Tick<S>, s: S, m: nat, i: nat): seq<real> {
    var stream := RunFrom(tick, s, i * m + m).values;
    if i * m <= |stream| then stream[i * m..] else []
  }

  lemma BlockFrom<S>(tick: S -> Tick<S>, s: S, m: nat, i: nat)
    requires forall t :: tick(t).Sample?
    ensures RunFrom(tick, RunFrom(tick, s, i * m).last, m).values == Block(tick, s, m, i)
  {
    RunNeverRaises(tick, s, i * m);
    RunLength(tick, s, i * m);
    RunsJoin(tick, s, i * m, m);
  }

  lemma NextExtraction(n: nat, k: nat)
    requires n >= 1
    ensures if k % n + 1 == n then (k + 1) / n == k / n + 1 && (k + 1) % n == 0
            else (k + 1) / n == k / n && (k + 1) % n == k % n + 1
  {
    var q, r := k / n, k % n;
    assert k == q * n + r;
    if r + 1 == n {
      assert k + 1 == (q + 1) * n + 0;
      DivModUnique(k + 1, n, q + 1, 0);
    } else {
      DivModUnique(k + 1, n, q, r + 1);
    }
  }

  lemma {:induction false} RunNeverRaises<S>(tick: S -> Tick<S>, s: S, n: nat)
    requires forall t :: tick(t).Sample?
    ensures RunFrom(tick, s, n).Ran?
    decreases n
  {
    if n > 0 { RunNeverRaises(tick, tick(s).next, n - 1); }
  }

  /** What `k` extractions leave of a node that starts unmarked in state `s`. */
  ghost function Expected<S>(tick: S -> Tick<S>, buffers: nat, m: nat, s: S, k: nat): Shared<S> {
    var r := k % TurnLength(buffers);
    Shared(RunFrom(tick, s, BlocksTaken(buffers, k) * m).last, if r == 0 then Sharing(false, 0) else Sharing(true, r))
  }

  lemma ExpectedNext<S>(tick: S -> Tick<S>, buffers: nat, m: nat, s: S, k: nat)
    requires forall t :: tick(t).Sample?
    ensures Expected(tick, buffers, m, s, k + 1) == Extracted(tick, buffers, m, Expected(tick, buffers, m, s, k))
  {
    var n, i := TurnLength(buffers), BlocksTaken(buffers, k);
    NextExtraction(n, k);
    if k % n == 0 {
      RunNeverRaises(tick, s, i * m);
      RunsJoin(tick, s, i * m, m);
      assert BlocksTaken(buffers, k + 1) == i + 1;
      assert (i + 1) * m == i * m + m;
    }
  }

  lemma {:induction false} ExtractionsAsExpected<S>(tick: S -> Tick<S>, buffers: nat, m: nat, s: S, k: nat)
    requires forall t :: tick(t).Sample?
    ensures AfterExtractions(tick, buffers, m, Shared(s, Sharing(false, 0)), k) == Expected(tick, buffers, m, s, k)
    decreases k
  {
    if k == 0 {
      DivModUnique(0, TurnLength(buffers), 0, 0);
    } else {
      ExtractionsAsExpected(tick, buffers, m, s, k - 1);
      ExpectedNext(tick, buffers, m, s, k - 1);
    }
  }

  /** Extractions taken in turn by the buffers sharing an inactive node that does not raise:
      a whole turn moves the node on by exactly one block of `m` samples and leaves it
      unmarked. The first buffer of a turn moves it, so that one reads the current block and
      the others read the next. */
  lemma SharedTurns<S>(tick: S -> Tick<S>, buffers: nat, m: nat, s: S, k: nat)
    requires forall t :: tick(t).Sample?
    ensures var now := AfterExtractions(tick, buffers, m, Shared(s, Sharing(false, 0)), k);
            var turn, place := k / TurnLength(buffers), k % TurnLength(buffers);
            && (place == 0 ==> now == Shared(RunFrom(tick, s, turn * m).last, Sharing(false, 0)))
            && RunFrom(tick, now.state, m).values == Block(tick, s, m, if place == 0 then turn else turn + 1)
  {
    ExtractionsAsExpected(tick, buffers, m, s, k);
    BlockFrom(tick, s, m, BlocksTaken(buffers, k));
  }
}
