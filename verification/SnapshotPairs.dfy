/** Two calls on one node: the one that fails to claim fails because of the other, and gets past
    its wait only when the other has ended, so they exclude each other. */
module SnapshotPairs {
  import opened Snapshots

  /** With two calls, `c` failed to claim because of `d`, and gets past its wait only when `d`
      has ended. */
  predicate PairedCalls<S>(c: Call<S>, d: Call<S>) {
    && (d.Claimed() || d.pc.Done?)
    && match c.pc
       case Load => true
       case Wait(awaited, _) => awaited == d.context || (awaited == 0 && d.pc.Done?)
       case _ => d.pc.Done?
  }

  ghost predicate Paired<S>(n: Node<S>, k: Id, j: Id)
    requires k in n.calls && j in n.calls
  {
    k != j && PairedCalls(n.calls[k], n.calls[j])
  }

  /** The calls begun since those in `past`. */
  function New<S>(n: Node<S>, past: set<Id>): set<Id> {
    n.calls.Keys - past
  }

  /** At most two calls besides the ended ones in `past`. */
  ghost predicate Two<S>(n: Node<S>, past: set<Id>) {
    && (forall k :: k in past ==> k in n.calls && n.calls[k].pc.Done?)
    && |New(n, past)| <= 2
    && (forall k :: k in n.calls && n.calls[k].Passed() ==> |New(n, past)| == 2)
    && forall k, j :: k in n.calls && j in New(n, past) && k != j && n.calls[k].Passed() ==> Paired(n, k, j)
  }

  lemma OnlyTwo(ids: set<Id>, i: Id, j: Id, k: Id)
    requires |ids| <= 2 && i in ids && j in ids && k in ids && i != j
    ensures k == i || k == j
  {
    assert |ids - {i} - {j}| == |ids| - 2;
    assert ids - {i} - {j} == {};
    assert k in {i, j} + (ids - {i} - {j});
  }

  lemma AnyOther(ids: set<Id>, i: Id, j: Id)
    requires |ids| <= 2 && i in ids && j in ids && i != j
    ensures |ids| == 2
  {
    assert |ids - {i} - {j}| == |ids| - 2;
  }

  lemma InsideAlone<S>(n: Node<S>, past: set<Id>, k: Id, j: Id)
    requires Two(n, past) && k in n.calls && j in n.calls && k != j
    requires n.calls[k].Inside() && !n.calls[k].Claimed()
    ensures !n.calls[j].Inside()
  {
    assert j in New(n, past) ==> Paired(n, k, j);
  }

  lemma TwoIsExclusive<S>(n: Node<S>, past: set<Id>)
    requires Inv(n) && Two(n, past)
    ensures Exclusive(n)
  {
    forall j, k | j in n.calls && k in n.calls && j != k ensures !(n.calls[j].Inside() && n.calls[k].Inside()) {
      if n.calls[j].Inside() && !n.calls[j].Claimed() { InsideAlone(n, past, j, k); }
      if n.calls[k].Inside() && !n.calls[k].Claimed() { InsideAlone(n, past, k, j); }
    }
  }

  /** The only claimer besides `k` is `j`. */
  lemma ClaimerIs<S>(n: Node<S>, past: set<Id>, k: Id, j: Id)
    requires Inv(n) && Two(n, past) && k in New(n, past) && j in New(n, past) && k != j
    requires !n.calls[k].Claimed() && n.context != 0
    ensures n.calls[j].Claimed()
  {
    var i :| i in n.calls && n.calls[i].Claimed();
    OnlyTwo(New(n, past), k, j, i);
  }

  /** The moved call `k` against the other one, `d`. */
  lemma MovePairs<S>(env: Env<S>, n: Node<S>, k: Id, d: Call<S>)
    requires k in n.calls && Next(env, n, k).calls[k].Passed()
    requires d.Claimed() ==> n.context == d.context
    requires !n.calls[k].Claimed() && n.context != 0 ==> d.Claimed()
    requires d.Claimed() || d.pc.Done? || !n.calls[k].Passed()
    requires n.calls[k].Passed() ==> PairedCalls(n.calls[k], d)
    ensures PairedCalls(Next(env, n, k).calls[k], d)
  {
  }

  lemma MoverPaired<S>(env: Env<S>, n: Node<S>, past: set<Id>, k: Id, j: Id)
    requires Inv(n) && Two(n, past) && k in New(n, past) && j in New(n, past) && k != j
    ensures Next(env, n, k).calls[k].Passed() ==> PairedCalls(Next(env, n, k).calls[k], n.calls[j])
  {
    if !n.calls[k].Claimed() && n.context != 0 { ClaimerIs(n, past, k, j); }
    assert n.calls[k].Passed() ==> Paired(n, k, j);
    if Next(env, n, k).calls[k].Passed() { MovePairs(env, n, k, n.calls[j]); }
  }

  /** The moved call `k` as the one that `c` waits for. */
  lemma MovedPairs<S>(env: Env<S>, n: Node<S>, k: Id, c: Call<S>)
    requires k in n.calls && PairedCalls(c, n.calls[k])
    ensures PairedCalls(c, Next(env, n, k).calls[k])
  {
  }

  /** A call that now fails to claim fails because of another. */
  lemma PassedTwo<S>(n: Node<S>, past: set<Id>, k: Id)
    requires Inv(n) && Two(n, past) && k in New(n, past)
    requires n.calls[k].Passed() || (n.calls[k].pc.Claim? && n.context != 0)
    ensures |New(n, past)| == 2
  {
    if !n.calls[k].Passed() {
      var i :| i in n.calls && n.calls[i].Claimed();
      AnyOther(New(n, past), i, k);
    }
  }

  /** Two survives a move of `k` that pairs it as it should. */
  lemma MoveKeepsTwo<S>(n: Node<S>, r: Node<S>, past: set<Id>, k: Id)
    requires Two(n, past) && OnlyMoved(n, r, k) && k !in past
    requires r.calls[k].Passed() ==> |New(n, past)| == 2
    requires forall j :: j in New(n, past) && j != k && r.calls[k].Passed() ==> PairedCalls(r.calls[k], n.calls[j])
    requires forall j :: j in n.calls && j != k && n.calls[j].Passed() ==> PairedCalls(n.calls[j], r.calls[k])
    ensures Two(r, past)
  {
    assert New(r, past) == New(n, past);
    forall i, j | i in r.calls && j in New(r, past) && i != j && r.calls[i].Passed() ensures Paired(r, i, j) {
      if i != k && j != k { OnlyTwo(New(n, past), i, j, k); }
    }
  }

  /** How a move can leave its call among those that failed to claim. */
  lemma PassedBy<S>(env: Env<S>, n: Node<S>, k: Id)
    requires k in n.calls && Next(env, n, k).calls[k].Passed()
    ensures n.calls[k].Passed() || (n.calls[k].pc.Claim? && n.context != 0)
  {
  }

  /** The moved call is paired with every other. */
  lemma MoverPairsAll<S>(env: Env<S>, n: Node<S>, r: Node<S>, past: set<Id>, k: Id)
    requires Inv(n) && Two(n, past) && k in New(n, past) && r == Next(env, n, k)
    ensures k in r.calls
    ensures r.calls[k].Passed() ==>
              && |New(n, past)| == 2
              && forall j :: j in New(n, past) && j != k ==> PairedCalls(r.calls[k], n.calls[j])
  {
    NextMoves(env, n, k);
    if r.calls[k].Passed() {
      PassedBy(env, n, k);
      PassedTwo(n, past, k);
      forall j | j in New(n, past) && j != k ensures PairedCalls(r.calls[k], n.calls[j]) {
        MoverPaired(env, n, past, k, j);
      }
    }
  }

  /** Every other call stays paired with the moved one. */
  lemma OthersPaired<S>(env: Env<S>, n: Node<S>, r: Node<S>, past: set<Id>, k: Id)
    requires Two(n, past) && k in New(n, past) && r == Next(env, n, k) && k in r.calls
    ensures forall j :: j in n.calls && j != k && n.calls[j].Passed() ==> PairedCalls(n.calls[j], r.calls[k])
  {
    forall j | j in n.calls && j != k && n.calls[j].Passed() ensures PairedCalls(n.calls[j], r.calls[k]) {
      assert Paired(n, j, k);
      MovedPairs(env, n, k, n.calls[j]);
    }
  }

  lemma NextTwo<S>(env: Env<S>, n: Node<S>, past: set<Id>, k: Id)
    requires Inv(n) && Two(n, past) && k in New(n, past)
    ensures Two(Next(env, n, k), past)
  {
    var r := Next(env, n, k);
    NextMoves(env, n, k);
    MoverPairsAll(env, n, r, past, k);
    OthersPaired(env, n, r, past, k);
    MoveKeepsTwo(n, r, past, k);
  }

  lemma BeginTwo<S>(n: Node<S>, r: Node<S>, past: set<Id>, k: Id)
    requires Two(n, past) && k !in n.calls && k in r.calls && !r.calls[k].Passed()
        && r.calls == n.calls[k := r.calls[k]]
    requires |New(r, past)| <= 2
    ensures Two(r, past)
  {
    assert New(r, past) == New(n, past) + {k} && k !in New(n, past);
    assert |New(r, past)| == |New(n, past)| + 1;
    forall i | i in r.calls ensures !r.calls[i].Passed() {
      assert i != k ==> r.calls[i] == n.calls[i];
    }
  }

  lemma BeginKeepsTwo<S>(env: Env<S>, n: Node<S>, past: set<Id>, k: Id, context: nat, samples: nat)
    requires Two(n, past) && |New(Step(env, n, Begin(k, context, samples)), past)| <= 2
    ensures Two(Step(env, n, Begin(k, context, samples)), past)
  {
    if k !in n.calls && context != 0 {
      var r := n.(calls := n.calls[k := Call(context, samples, Claim, [])]);
      assert Step(env, n, Begin(k, context, samples)) == r;
      BeginTwo(n, r, past, k);
    }
  }

  lemma TwoKeeps<S>(env: Env<S>, n: Node<S>, past: set<Id>, mv: Move)
    requires Inv(n) && Two(n, past) && |New(Step(env, n, mv), past)| <= 2
    ensures Two(Step(env, n, mv), past)
  {
    if mv.Begin? {
      BeginKeepsTwo(env, n, past, mv.k, mv.context, mv.samples);
    } else if mv.k in New(n, past) {
      NextTwo(env, n, past, mv.k);
    } else {
      assert Step(env, n, mv) == n;
    }
  }
}
