/** Concrete and exact runs of the snapshot protocol: how many calls may run at once, what
    goes wrong when there are more, and when a waiting call gives up. */
module SnapshotRuns {
  import opened Lists
  import opened Snapshots
  import opened SnapshotPairs
  import opened SnapshotUses

  // ----- building runs

  lemma {:induction false} ExecSnoc<S>(env: Env<S>, n: Node<S>, mvs: seq<Move>, mv: Move, c: nat)
    ensures Exec(env, n, mvs + [mv]) == Step(env, Exec(env, n, mvs), mv)
    ensures AtMost(env, n, mvs, c) && |InProgress(Step(env, Exec(env, n, mvs), mv))| <= c
        ==> AtMost(env, n, mvs + [mv], c)
    decreases |mvs|
  {
    if mvs == [] {
      assert mvs + [mv] == [mv];
    } else {
      assert (mvs + [mv])[1..] == mvs[1..] + [mv];
      ExecSnoc(env, Step(env, n, mvs[0]), mvs[1..], mv, c);
    }
    if AtMost(env, n, mvs, c) { LastAtMost(env, n, mvs, c); }
  }

  lemma {:induction false} LastAtMost<S>(env: Env<S>, n: Node<S>, mvs: seq<Move>, c: nat)
    requires AtMost(env, n, mvs, c)
    ensures |InProgress(Exec(env, n, mvs))| <= c
    decreases |mvs|
  {
    if mvs != [] { LastAtMost(env, Step(env, n, mvs[0]), mvs[1..], c); }
  }

  /** Call `k` takes its next action, which puts no further call in progress. */
  lemma Go<S>(env: Env<S>, s: S, mvs: seq<Move>, k: Id, c: nat) returns (more: seq<Move>)
    requires AtMost(env, Init(s), mvs, c) && k in Exec(env, Init(s), mvs).calls
    ensures Exec(env, Init(s), more) == Next(env, Exec(env, Init(s), mvs), k)
    ensures AtMost(env, Init(s), more, c) && more == mvs + [Advance(k)]
  {
    var n := Exec(env, Init(s), mvs);
    more := mvs + [Advance(k)];
    LastAtMost(env, Init(s), mvs, c);
    assert InProgress(Next(env, n, k)) <= InProgress(n);
    SubsetSize(InProgress(Next(env, n, k)), InProgress(n));
    ExecSnoc(env, Init(s), mvs, Advance(k), c);
  }

  /** A new call of one sample begins, where the calls in progress leave room for it. */
  lemma Enter<S>(env: Env<S>, s: S, mvs: seq<Move>, k: Id, context: nat, c: nat) returns (more: seq<Move>)
    requires AtMost(env, Init(s), mvs, c) && k !in Exec(env, Init(s), mvs).calls && context > 0
    requires |InProgress(Exec(env, Init(s), mvs))| < c
    ensures Exec(env, Init(s), more) == Step(env, Exec(env, Init(s), mvs), Begin(k, context, 1))
    ensures AtMost(env, Init(s), more, c)
  {
    var n := Exec(env, Init(s), mvs);
    more := mvs + [Begin(k, context, 1)];
    assert InProgress(Step(env, n, Begin(k, context, 1))) == InProgress(n) + {k};
    ExecSnoc(env, Init(s), mvs, Begin(k, context, 1), c);
  }

  function Single<S>(context: nat, pc: Pc): Call<S> {
    Call(context, 1, pc, [])
  }

  function Ended<S>(context: nat, s: S): Call<S> {
    Call(context, 1, Done(true), [s])
  }

  /** Calls 0 and 1 of one sample each: the first claims, the second finds it claimed. */
  lemma PairBegins<S>(env: Env<S>, s: S, c: nat) returns (mvs: seq<Move>)
    requires c >= 2
    ensures Exec(env, Init(s), mvs) == Node(s, s, 1, map[0 := Single(1, Save(true)), 1 := Single(2, Load)])
    ensures AtMost(env, Init(s), mvs, c)
  {
    mvs := [];
    assert InProgress(Init(s)) == {};
    mvs := Enter(env, s, mvs, 0, 1, c);
    var n := Node(s, s, 0, map[0 := Single(1, Claim)]);
    assert Exec(env, Init(s), mvs) == n && InProgress(n) == {0};
    mvs := Enter(env, s, mvs, 1, 2, c);
    mvs := Go(env, s, mvs, 0, c);
    mvs := Go(env, s, mvs, 1, c);
  }

  /** A call of one sample that has claimed runs to its end. */
  lemma Finish<S>(env: Env<S>, s: S, mvs: seq<Move>, k: Id, c: nat) returns (more: seq<Move>)
    requires var n := Exec(env, Init(s), mvs);
             AtMost(env, Init(s), mvs, c) && n.state == s && k in n.calls && n.context > 0
             && n.calls[k] == Single(n.context, Save(true))
    ensures var n := Exec(env, Init(s), mvs);
            Exec(env, Init(s), more) == Node(s, s, 0, n.calls[k := Ended(n.context, s)])
    ensures AtMost(env, Init(s), more, c)
  {
    var n := Exec(env, Init(s), mvs);
    more := Go(env, s, mvs, k, c);
    more := Go(env, s, more, k, c);
    assert [] + [s] == [s];
    assert Exec(env, Init(s), more)
        == Node(env.tick(s), s, n.context, n.calls[k := Call(n.context, 1, Tick(true, 0), [s])]);
    more := Go(env, s, more, k, c);
    more := Go(env, s, more, k, c);
    assert Exec(env, Init(s), more) == Node(s, s, n.context, n.calls[k := Call(n.context, 1, Release, [s])]);
    more := Go(env, s, more, k, c);
  }

  /** Call 1 waits for call 0, which has ended. */
  lemma FirstEnds<S>(env: Env<S>, s: S) returns (mvs: seq<Move>)
    ensures Exec(env, Init(s), mvs) == Node(s, s, 0, map[0 := Ended(1, s), 1 := Single(2, Wait(1, 0))])
    ensures AtMost(env, Init(s), mvs, 2)
  {
    mvs := PairBegins(env, s, 2);
    mvs := Go(env, s, mvs, 1, 2);
    mvs := Finish(env, s, mvs, 0, 2);
  }

  /** Two threads: one samples and samples again; the other, which waited for the first call,
      sees its context gone and proceeds beside the second. */
  lemma TwoThreadsOverlap<S>(env: Env<S>, s: S) returns (mvs: seq<Move>)
    requires env.maxSpins > 0
    ensures Exec(env, Init(s), mvs)
            == Node(s, s, 3, map[0 := Ended(1, s), 1 := Single(2, Save(false)), 2 := Single(3, Save(true))])
    ensures AtMost(env, Init(s), mvs, 2)
  {
    mvs := FirstEnds(env, s);
    assert InProgress(Exec(env, Init(s), mvs)) == {1};
    mvs := Enter(env, s, mvs, 2, 3, 2);
    mvs := Go(env, s, mvs, 2, 2);
    mvs := Go(env, s, mvs, 1, 2);
  }

  /** The waiter saves and samples, then the claimer saves what the waiter made of the state. */
  lemma TwoThreadsCross<S>(env: Env<S>, s: S) returns (mvs: seq<Move>)
    requires env.maxSpins > 0
    ensures var t := env.tick(s);
            Exec(env, Init(s), mvs)
            == Node(t, t, 3, map[0 := Ended(1, s), 1 := Call(2, 1, Tick(false, 0), [s]), 2 := Single(3, Tick(true, 1))])
    ensures AtMost(env, Init(s), mvs, 2)
  {
    mvs := TwoThreadsOverlap(env, s);
    mvs := Go(env, s, mvs, 1, 2);
    mvs := Go(env, s, mvs, 1, 2);
    assert [] + [s] == [s];
    assert Exec(env, Init(s), mvs).calls[1] == Call(2, 1, Tick(false, 0), [s]);
    mvs := Go(env, s, mvs, 2, 2);
  }

  /** The waiter restores and ends. */
  lemma WaiterEnds<S>(env: Env<S>, s: S) returns (mvs: seq<Move>)
    requires env.maxSpins > 0
    ensures var t := env.tick(s);
            Exec(env, Init(s), mvs)
            == Node(t, t, 3, map[0 := Ended(1, s), 1 := Ended(2, s), 2 := Single(3, Tick(true, 1))])
    ensures AtMost(env, Init(s), mvs, 2)
  {
    mvs := TwoThreadsCross(env, s);
    mvs := Go(env, s, mvs, 1, 2);
    mvs := Go(env, s, mvs, 1, 2);
  }

  /** Never more than two calls in progress: all three complete, yet one returns a later
      sample and the node ends one sample ahead. */
  lemma TwoThreadsSpoil<S>(env: Env<S>, s: S) returns (mvs: seq<Move>)
    requires env.maxSpins > 0
    ensures var n, t := Exec(env, Init(s), mvs), env.tick(s);
            n.state == t && n.calls == map[0 := Ended(1, s), 1 := Ended(2, s), 2 := Ended(3, t)]
    ensures AtMost(env, Init(s), mvs, 2)
  {
    var t := env.tick(s);
    mvs := WaiterEnds(env, s);
    mvs := Go(env, s, mvs, 2, 2);
    assert [] + [t] == [t];
    assert Exec(env, Init(s), mvs).calls[2] == Call(3, 1, Tick(true, 0), [t]);
    mvs := Go(env, s, mvs, 2, 2);
    mvs := Go(env, s, mvs, 2, 2);
    mvs := Go(env, s, mvs, 2, 2);
  }

  /** Calls exclude each other in every interleaving of up to `calls` calls of which at most
      `atOnce` are in progress at a time. */
  ghost predicate AlwaysExcludes<S>(env: Env<S>, s: S, calls: nat, atOnce: nat) {
    forall mvs :: AtMost(env, Init(s), mvs, atOnce) && |Exec(env, Init(s), mvs).calls| <= calls ==>
                    Exclusive(Exec(env, Init(s), mvs))
  }

  lemma SafeNumbers<S>(env: Env<S>, s: S, calls: nat, atOnce: nat, mvs: seq<Move>)
    requires calls <= 2 || atOnce <= 1 || env.maxSpins == 0
    requires AtMost(env, Init(s), mvs, atOnce) && |Exec(env, Init(s), mvs).calls| <= calls
    ensures Exclusive(Exec(env, Init(s), mvs))
  {
    if calls <= 2 {
      assert New(Exec(env, Init(s), mvs), {}) == Exec(env, Init(s), mvs).calls.Keys;
      TwoCallsExclude(env, Init(s), {}, mvs);
    } else if atOnce <= 1 {
      FewerAtOnce(env, Init(s), mvs, atOnce, 1);
      AloneExcludes(env, Init(s), mvs);
    } else {
      NoSpinExcludes(env, Init(s), mvs);
    }
  }

  /** They do if and only if there are at most two calls in all, or one at a time, or a wait
      gives up at once: two threads that sample repeatedly are already too many. */
  lemma ExclusionIff<S>(env: Env<S>, s: S, calls: nat, atOnce: nat)
    ensures AlwaysExcludes(env, s, calls, atOnce) <==> calls <= 2 || atOnce <= 1 || env.maxSpins == 0
  {
    if calls <= 2 || atOnce <= 1 || env.maxSpins == 0 {
      forall mvs | AtMost(env, Init(s), mvs, atOnce) && |Exec(env, Init(s), mvs).calls| <= calls
        ensures Exclusive(Exec(env, Init(s), mvs))
      {
        SafeNumbers(env, s, calls, atOnce, mvs);
      }
    } else {
      var mvs := TwoThreadsOverlap(env, s);
      var n := Exec(env, Init(s), mvs);
      FewerAtOnce(env, Init(s), mvs, 2, atOnce);
      assert n.calls.Keys == {0, 1, 2};
      assert |n.calls| == 3;
      assert n.calls[1].Inside() && n.calls[2].Inside();
    }
  }

  // ----- two waiters

  /** Calls 1 and 2 both wait for call 0. */
  lemma WaitersWait<S>(env: Env<S>, s: S) returns (mvs: seq<Move>)
    ensures Exec(env, Init(s), mvs)
            == Node(s, s, 1, map[0 := Single(1, Save(true)), 1 := Single(2, Wait(1, 0)), 2 := Single(3, Wait(1, 0))])
    ensures AtMost(env, Init(s), mvs, 3)
  {
    mvs := PairBegins(env, s, 3);
    var n := Node(s, s, 1, map[0 := Single(1, Save(true)), 1 := Single(2, Load)]);
    assert InProgress(n) == {0, 1};
    mvs := Enter(env, s, mvs, 2, 3, 3);
    mvs := Go(env, s, mvs, 2, 3);
    mvs := Go(env, s, mvs, 1, 3);
    mvs := Go(env, s, mvs, 2, 3);
  }

  /** Both see it gone. */
  lemma WaitersOverlap<S>(env: Env<S>, s: S) returns (mvs: seq<Move>)
    requires env.maxSpins > 0
    ensures Exec(env, Init(s), mvs)
            == Node(s, s, 0, map[0 := Ended(1, s), 1 := Single(2, Save(false)), 2 := Single(3, Save(false))])
    ensures AtMost(env, Init(s), mvs, 3)
  {
    mvs := WaitersWait(env, s);
    mvs := Finish(env, s, mvs, 0, 3);
    mvs := Go(env, s, mvs, 1, 3);
    mvs := Go(env, s, mvs, 2, 3);
  }

  /** Call 1 samples, then call 2 saves what call 1 made of the state. */
  lemma WaitersCross<S>(env: Env<S>, s: S) returns (mvs: seq<Move>)
    requires env.maxSpins > 0
    ensures var t := env.tick(s);
            Exec(env, Init(s), mvs)
            == Node(t, t, 0,
                    map[0 := Ended(1, s), 1 := Call(2, 1, Tick(false, 0), [s]), 2 := Single(3, Tick(false, 1))])
    ensures AtMost(env, Init(s), mvs, 3)
  {
    mvs := WaitersOverlap(env, s);
    mvs := Go(env, s, mvs, 1, 3);
    mvs := Go(env, s, mvs, 1, 3);
    assert [] + [s] == [s];
    assert Exec(env, Init(s), mvs).calls[1] == Call(2, 1, Tick(false, 0), [s]);
    mvs := Go(env, s, mvs, 2, 3);
  }

  /** Two waiters that pass at once save and restore across each other as well. */
  lemma ThreeCallsSpoil<S>(env: Env<S>, s: S) returns (mvs: seq<Move>)
    requires env.maxSpins > 0
    ensures var n, t := Exec(env, Init(s), mvs), env.tick(s);
            n.state == t && n.calls == map[0 := Ended(1, s), 1 := Ended(2, s), 2 := Ended(3, t)]
  {
    var t := env.tick(s);
    mvs := WaitersCross(env, s);
    mvs := Go(env, s, mvs, 1, 3);
    mvs := Go(env, s, mvs, 1, 3);
    assert Exec(env, Init(s), mvs)
        == Node(t, t, 0, map[0 := Ended(1, s), 1 := Ended(2, s), 2 := Single(3, Tick(false, 1))]);
    mvs := Go(env, s, mvs, 2, 3);
    assert [] + [t] == [t];
    assert Exec(env, Init(s), mvs).calls[2] == Call(3, 1, Tick(false, 0), [t]);
    mvs := Go(env, s, mvs, 2, 3);
    mvs := Go(env, s, mvs, 2, 3);
  }

  // ----- giving up

  /** Some poll of `k`, within the limit, finds another context than the awaited one. */
  ghost predicate SeesChange<S>(env: Env<S>, n: Node<S>, mvs: seq<Move>, k: Id)
    decreases |mvs|
  {
    mvs != []
    && ((k in n.calls && mvs[0] == Advance(k) && n.calls[k].pc.Wait?
         && n.calls[k].pc.spins < env.maxSpins && n.context != n.calls[k].pc.awaited)
        || SeesChange(env, Step(env, n, mvs[0]), mvs[1..], k))
  }

  lemma {:induction false} PastItsWait<S>(env: Env<S>, n: Node<S>, mvs: seq<Move>, k: Id)
    requires k in n.calls && (n.calls[k].Inside() || n.calls[k].pc.Release? || n.calls[k].pc == Done(true))
    ensures var r := Exec(env, n, mvs); k in r.calls && (r.calls[k].pc.Done? ==> r.calls[k].pc.completed)
    ensures !SeesChange(env, n, mvs, k)
    decreases |mvs|
  {
    if mvs != [] { PastItsWait(env, Step(env, n, mvs[0]), mvs[1..], k); }
  }

  lemma {:induction false} GaveUpStays<S>(env: Env<S>, n: Node<S>, mvs: seq<Move>, k: Id)
    requires k in n.calls && n.calls[k].pc == Done(false)
    ensures var r := Exec(env, n, mvs); k in r.calls && r.calls[k].pc == Done(false)
    ensures !SeesChange(env, n, mvs, k)
    decreases |mvs|
  {
    if mvs != [] { GaveUpStays(env, Step(env, n, mvs[0]), mvs[1..], k); }
  }

  /** Over any run, a waiting call that ends has given up exactly when none of its polls within
      the limit found another context than the one it loaded. */
  lemma {:induction false} GivesUpIff<S>(env: Env<S>, n: Node<S>, mvs: seq<Move>, k: Id)
    requires k in n.calls && n.calls[k].pc.Wait?
    ensures var r := Exec(env, n, mvs);
            k in r.calls && (r.calls[k].pc.Done? ==> (r.calls[k].pc == Done(false) <==> !SeesChange(env, n, mvs, k)))
    decreases |mvs|
  {
    if mvs != [] {
      var r := Step(env, n, mvs[0]);
      if r.calls[k].pc.Wait? {
        GivesUpIff(env, r, mvs[1..], k);
      } else if r.calls[k].pc.Save? {
        PastItsWait(env, r, mvs[1..], k);
      } else {
        GaveUpStays(env, r, mvs[1..], k);
      }
    }
  }

  function TurnsLeft<S>(env: Env<S>, spins: nat): nat {
    if spins < env.maxSpins then env.maxSpins - spins else 0
  }

  /** On a free node the wait for "no snapshot" takes every turn it may, and gives up. */
  lemma {:induction false} SpinOut<S>(env: Env<S>, s: S, mvs: seq<Move>, k: Id, c: nat) returns (more: seq<Move>)
    requires var n := Exec(env, Init(s), mvs);
             AtMost(env, Init(s), mvs, c) && n.context == 0 && k in n.calls
             && n.calls[k].pc.Wait? && n.calls[k].pc.awaited == 0
    ensures var n := Exec(env, Init(s), mvs);
            Exec(env, Init(s), more) == n.(calls := n.calls[k := n.calls[k].(pc := Done(false))])
            && |more| == |mvs| + 1 + TurnsLeft(env, n.calls[k].pc.spins)
    decreases env.maxSpins - Exec(env, Init(s), mvs).calls[k].pc.spins
  {
    var n := Exec(env, Init(s), mvs);
    more := Go(env, s, mvs, k, c);
    if n.calls[k].pc.spins < env.maxSpins { more := SpinOut(env, s, more, k, c); }
  }

  /** A call that loads the context only after the snapshot it lost to was released waits for
      "no snapshot" to pass: at every spin limit it gives up, alone on a free node. */
  lemma LateLoadGivesUp<S>(env: Env<S>, s: S) returns (mvs: seq<Move>)
    ensures Exec(env, Init(s), mvs) == Node(s, s, 0, map[0 := Ended(1, s), 1 := Single(2, Done(false))])
  {
    mvs := PairBegins(env, s, 2);
    mvs := Finish(env, s, mvs, 0, 2);
    mvs := Go(env, s, mvs, 1, 2);
    assert Exec(env, Init(s), mvs) == Node(s, s, 0, map[0 := Ended(1, s), 1 := Single(2, Wait(0, 0))]);
    mvs := SpinOut(env, s, mvs, 1, 2);
  }
}
