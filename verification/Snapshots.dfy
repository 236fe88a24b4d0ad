/** Several threads extracting samples from one node at once. The thread that claims the
    node's snapshot context saves, samples and restores; a thread that finds it claimed waits
    for that context to pass and then does the same without claiming. Calls of the extraction
    functions interleave at every access to the node, which is not on the fast path. A sample
    is a function of the state it is taken from, so a call's result is the states it visits. */
module Snapshots {

  type Id = nat

  /** The next action of a call. `Load` follows a failed claim. */
  datatype Pc =
    | Claim
    | Load
    | Wait(awaited: nat, spins: nat)
    | Save(claimed: bool)
    | Tick(claimed: bool, left: nat)
    | Restore(claimed: bool)
    | Release
    | Done(completed: bool)

  datatype Call<S> = Call(context: nat, samples: nat, pc: Pc, taken: seq<S>) {
    /** Between a successful claim and its release. */
    predicate Claimed() {
      match pc
      case Save(claimed) => claimed
      case Tick(claimed, _) => claimed
      case Restore(claimed) => claimed
      case Release => true
      case _ => false
    }

    /** Free to change the node's state and its single saved copy. */
    predicate Inside() {
      pc.Save? || Sampling()
    }

    predicate Sampling() {
      pc.Tick? || pc.Restore?
    }

    /** The claim failed, and the call has not given up. */
    predicate Passed() {
      pc.Load? || pc.Wait? || (Inside() && !Claimed())
    }
  }

  /** `context` is 0 when no snapshot is in progress. */
  datatype Node<S> = Node(state: S, saved: S, context: nat, calls: map<Id, Call<S>>)

  function Init<S>(s: S): Node<S> {
    Node(s, s, 0, map[])
  }

  datatype Move = Begin(k: Id, context: nat, samples: nat) | Advance(k: Id)

  /** The node's behaviour and the spin limit of the wait. */
  datatype Env<!S> = Env(tick: S -> S, maxSpins: nat)

  function Next<S>(env: Env<S>, n: Node<S>, k: Id): Node<S>
    requires k in n.calls
  {
    var c := n.calls[k];
    match c.pc
    case Claim =>
      if n.context == 0 then n.(context := c.context, calls := n.calls[k := c.(pc := Save(true))])
      else n.(calls := n.calls[k := c.(pc := Load)])
    case Load => n.(calls := n.calls[k := c.(pc := Wait(n.context, 0))])
    case Wait(awaited, spins) =>
      if spins >= env.maxSpins then n.(calls := n.calls[k := c.(pc := Done(false))])
      else if n.context == awaited then n.(calls := n.calls[k := c.(pc := Wait(awaited, spins + 1))])
      else n.(calls := n.calls[k := c.(pc := Save(false))])
    case Save(claimed) => n.(saved := n.state, calls := n.calls[k := c.(pc := Tick(claimed, c.samples))])
    case Tick(claimed, left) =>
      if left == 0 then n.(calls := n.calls[k := c.(pc := Restore(claimed))])
      else n.(state := env.tick(n.state),
          calls := n.calls[k := c.(pc := Tick(claimed, left - 1), taken := c.taken + [n.state])])
    case Restore(claimed) =>
      n.(state := n.saved, calls := n.calls[k := c.(pc := if claimed then Release else Done(true))])
    case Release =>
      n.(context := if n.context == c.context then 0 else n.context, calls := n.calls[k := c.(pc := Done(true))])
    case Done(_) => n
  }

  /** Context ids are positive; a move that is not enabled does nothing. */
  function Step<S>(env: Env<S>, n: Node<S>, mv: Move): Node<S> {
    match mv
    case Begin(k, context, samples) =>
      if k in n.calls || context == 0 then n else n.(calls := n.calls[k := Call(context, samples, Claim, [])])
    case Advance(k) => if k in n.calls then Next(env, n, k) else n
  }

  ghost function Exec<S>(env: Env<S>, n: Node<S>, mvs: seq<Move>): Node<S>
    decreases |mvs|
  {
    if mvs == [] then n else Exec(env, Step(env, n, mvs[0]), mvs[1..])
  }

  // ----- claims

  /** A claim excludes other claims. */
  ghost predicate Inv<S>(n: Node<S>) {
    && (forall k :: k in n.calls ==> n.calls[k].context > 0)
    && (forall k :: k in n.calls && n.calls[k].Claimed() ==> n.context == n.calls[k].context)
    && (forall j, k :: j in n.calls && k in n.calls && n.calls[j].Claimed() && n.calls[k].Claimed() ==> j == k)
    && (n.context != 0 ==> exists k :: k in n.calls && n.calls[k].Claimed())
  }

  /** Only call `k` moved. */
  ghost predicate OnlyMoved<S>(n: Node<S>, r: Node<S>, k: Id) {
    && k in n.calls && k in r.calls && r.calls.Keys == n.calls.Keys
    && r.calls[k].context == n.calls[k].context && r.calls[k].samples == n.calls[k].samples
    && forall j :: j in n.calls && j != k ==> r.calls[j] == n.calls[j]
  }

  lemma NextMoves<S>(env: Env<S>, n: Node<S>, k: Id)
    requires k in n.calls
    ensures OnlyMoved(n, Next(env, n, k), k)
  {
  }

  lemma ClaimKeeps<S>(n: Node<S>, r: Node<S>, k: Id)
    requires Inv(n) && OnlyMoved(n, r, k)
    requires n.context == 0 && r.context == n.calls[k].context && r.calls[k].Claimed()
    ensures Inv(r)
  {
  }

  lemma ReleaseKeeps<S>(n: Node<S>, r: Node<S>, k: Id)
    requires Inv(n) && OnlyMoved(n, r, k)
    requires n.calls[k].Claimed() && r.context == 0 && !r.calls[k].Claimed()
    ensures Inv(r)
  {
    assert forall j :: j in n.calls && n.calls[j].Claimed() ==> j == k;
  }

  lemma OtherKeeps<S>(n: Node<S>, r: Node<S>, k: Id)
    requires Inv(n) && OnlyMoved(n, r, k)
    requires r.context == n.context && r.calls[k].Claimed() == n.calls[k].Claimed()
    ensures Inv(r)
  {
    if n.context != 0 {
      var j :| j in n.calls && n.calls[j].Claimed();
      assert r.calls[j].Claimed();
    }
  }

  lemma NextKeeps<S>(env: Env<S>, n: Node<S>, k: Id)
    requires Inv(n) && k in n.calls
    ensures Inv(Next(env, n, k))
  {
    var r := Next(env, n, k);
    NextMoves(env, n, k);
    if n.calls[k].pc.Claim? && n.context == 0 {
      ClaimKeeps(n, r, k);
    } else if n.calls[k].pc.Release? {
      ReleaseKeeps(n, r, k);
    } else {
      OtherKeeps(n, r, k);
    }
  }

  lemma StepKeeps<S>(env: Env<S>, n: Node<S>, mv: Move)
    requires Inv(n)
    ensures Inv(Step(env, n, mv))
  {
    match mv
    case Advance(k) => if k in n.calls { NextKeeps(env, n, k); }
    case Begin(k, context, samples) =>
      if k !in n.calls && n.context != 0 {
        var j :| j in n.calls && n.calls[j].Claimed();
        assert j in Step(env, n, mv).calls;
      }
  }

  // ----- exclusion

  /** At most one call has the node to itself. */
  ghost predicate Exclusive<S>(n: Node<S>) {
    forall j, k :: j in n.calls && k in n.calls && n.calls[j].Inside() && n.calls[k].Inside() ==> j == k
  }
}
