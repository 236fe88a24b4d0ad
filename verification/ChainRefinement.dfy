/** Two refinements over whole runs: a chain that defers edits behaves like one that applies
    them directly in call order, exactly as long as no direct call overtakes a pending edit
    in a way that matters; and `optimize_for_tokens` cannot be observed through what
    `process` invokes under OVERRIDE_SKIP. */
module ChainRefinement {
  import opened Tokens
  import opened Lists
  import opened Chain
  import opened ChainRuns

  /** What every `process` call of a run invokes, in order. */
  ghost function Trace(pol: Policy, m: Machine, es: seq<Event>): seq<seq<Proc>>
    decreases |es|
  {
    if es == [] then []
    else (if es[0].Process? then [Ran(pol, m, es[0].b, es[0].throws)] else [])
         + Trace(pol, Step(pol, m, es[0]), es[1..])
  }

  // ----- reference: a chain without a queue

  /** The operations the 32-slot table takes from an empty start. */
  ghost function Accepted(ops: seq<Op>): seq<Op> {
    if |ops| <= MAX_PENDING_PROCESSORS then ops else ops[..MAX_PENDING_PROCESSORS]
  }

  /** The chain that applies edits when they are issued; only `process` looks at its flag. */
  datatype Direct = Direct(core: Core, flagged: bool)

  ghost function DirectRan(pol: Policy, d: Direct, b: Buf, throws: Option<nat>): seq<Proc> {
    if d.flagged then [] else Loop(pol, d.core, b, throws).0
  }

  ghost function DirectStep(pol: Policy, d: Direct, e: Event): Direct {
    match e
    case Add(p, b, _) => d.(core := AddDirect(pol, d.core, p, b))
    case Remove(p, b) => d.(core := RemoveDirect(d.core, p, b))
    case OptimizeFor(b) => d.(core := Optimize(pol, d.core, b))
    case Process(b, script, throws) =>
      if d.flagged then d
      else
        var (ran, threw) := Loop(pol, d.core, b, throws);
        Direct(ApplyAll(pol, Looped(pol, d.core, b, throws), Accepted(Issued(script, |ran|))), threw)
  }

  ghost function DirectRun(pol: Policy, d: Direct, es: seq<Event>): Direct
    decreases |es|
  {
    if es == [] then d else DirectRun(pol, DirectStep(pol, d, es[0]), es[1..])
  }

  ghost function DirectTrace(pol: Policy, d: Direct, es: seq<Event>): seq<seq<Proc>>
    decreases |es|
  {
    if es == [] then []
    else (if es[0].Process? then [DirectRan(pol, d, es[0].b, es[0].throws)] else [])
         + DirectTrace(pol, DirectStep(pol, d, es[0]), es[1..])
  }

  /** The chain once the pending operations are applied. */
  ghost function Settled(pol: Policy, m: Machine): Direct {
    Direct(Drained(pol, m), m.flagged)
  }

  // ----- what a queue does to one list

  /** An edit's effect on the list of its own buffer. */
  function Edited(pol: Policy, l: seq<Proc>, op: Op): seq<Proc> {
    if !op.isAddition then Erase(l, op.proc) else if pol.Admits(op.proc) && op.proc !in l then l + [op.proc] else l
  }

  function EditAt(pol: Policy, l: seq<Proc>, op: Op, b: Buf): seq<Proc> {
    if op.buf == b then Edited(pol, l, op) else l
  }

  /** The list of `b` after all of `ops`. */
  function EditAll(pol: Policy, l: seq<Proc>, ops: seq<Op>, b: Buf): seq<Proc>
    decreases |ops|
  {
    if ops == [] then l else EditAt(pol, EditAll(pol, l, ops[..|ops| - 1], b), ops[|ops| - 1], b)
  }

  lemma ApplyAt(pol: Policy, c: Core, op: Op, b: Buf)
    ensures ListOf(Apply(pol, c, op).lists, b) == EditAt(pol, ListOf(c.lists, b), op, b)
  {
    if op.proc !in ListOf(c.lists, op.buf) { EraseAbsent(ListOf(c.lists, op.buf), op.proc); }
  }

  lemma {:induction false} ApplyAllSnoc(pol: Policy, c: Core, ops: seq<Op>, op: Op)
    ensures ApplyAll(pol, c, ops + [op]) == Apply(pol, ApplyAll(pol, c, ops), op)
    decreases |ops|
  {
    if ops == [] {
      assert ops + [op] == [op];
    } else {
      assert (ops + [op])[1..] == ops[1..] + [op];
      ApplyAllSnoc(pol, Apply(pol, c, ops[0]), ops[1..], op);
    }
  }

  lemma {:induction false} ApplyAllAt(pol: Policy, c: Core, ops: seq<Op>, b: Buf)
    ensures ListOf(ApplyAll(pol, c, ops).lists, b) == EditAll(pol, ListOf(c.lists, b), ops, b)
    decreases |ops|
  {
    if ops != [] {
      var n := |ops| - 1;
      assert ops == ops[..n] + [ops[n]];
      ApplyAllSnoc(pol, c, ops[..n], ops[n]);
      ApplyAllAt(pol, c, ops[..n], b);
      ApplyAt(pol, ApplyAll(pol, c, ops[..n]), ops[n], b);
    }
  }

  /** Buffers an edit gives an entry in `m_buffer_processors`. */
  function Touched(pol: Policy, op: Op): set<Buf> {
    if op.isAddition && !pol.Admits(op.proc) then {} else {op.buf}
  }

  function AllTouched(pol: Policy, ops: seq<Op>): set<Buf> {
    if ops == [] then {} else Touched(pol, ops[0]) + AllTouched(pol, ops[1..])
  }

  lemma {:induction false} ApplyAllKeys(pol: Policy, c: Core, ops: seq<Op>)
    ensures ApplyAll(pol, c, ops).lists.Keys == c.lists.Keys + AllTouched(pol, ops)
    decreases |ops|
  {
    if ops != [] { ApplyAllKeys(pol, Apply(pol, c, ops[0]), ops[1..]); }
  }

  lemma EditedNoDup(pol: Policy, l: seq<Proc>, op: Op)
    requires NoDup(l)
    ensures NoDup(Edited(pol, l, op))
    ensures forall q :: q in Edited(pol, l, op) <==>
                          if q == op.proc then op.isAddition && (q in l || pol.Admits(q)) else q in l
  {
    EraseMembers(l, op.proc);
    if op.proc !in l { AppendNoDup(l, [op.proc]); }
  }

  /** What the queue's last admitted operation on `p` does to it: adds, removes, or none. */
  ghost function Fate(pol: Policy, ops: seq<Op>, p: Proc, b: Buf): Option<bool>
    decreases |ops|
  {
    if ops == [] then None
    else
      var n := |ops| - 1;
      if ops[n] == Op(true, p, b) && pol.Admits(p) then Some(true)
      else if ops[n] == Op(false, p, b) then Some(false)
      else Fate(pol, ops[..n], p, b)
  }

  ghost predicate EndsPresent(pol: Policy, l: seq<Proc>, ops: seq<Op>, p: Proc, b: Buf) {
    match Fate(pol, ops, p, b)
    case Some(added) => added
    case None => p in l
  }

  lemma {:induction false} EditAllMembers(pol: Policy, l: seq<Proc>, ops: seq<Op>, b: Buf)
    requires NoDup(l)
    ensures NoDup(EditAll(pol, l, ops, b))
    ensures forall p :: p in EditAll(pol, l, ops, b) <==> EndsPresent(pol, l, ops, p, b)
    decreases |ops|
  {
    if ops != [] {
      var n := |ops| - 1;
      EditAllMembers(pol, l, ops[..n], b);
      EditedNoDup(pol, EditAll(pol, l, ops[..n], b), ops[n]);
    }
  }

  /** Duplicate-free lists that differ at most by `p`. */
  ghost predicate AgreeBut(l: seq<Proc>, k: seq<Proc>, p: Proc) {
    NoDup(l) && NoDup(k) && Erase(l, p) == Erase(k, p)
  }

  lemma EditedErase(pol: Policy, l: seq<Proc>, op: Op, p: Proc)
    requires NoDup(l)
    ensures Erase(Edited(pol, l, op), p) == if op.proc == p then Erase(l, p) else Edited(pol, Erase(l, p), op)
  {
    EraseMembers(l, p);
    EraseAppend(l, [op.proc], p);
    EraseCommutes(l, op.proc, p);
    if p !in l { EraseAbsent(l, p); }
    EraseAbsent(Erase(l, p), p);
    assert op.proc != p ==> Erase([op.proc], p) == [op.proc];
  }

  /** The same queue on two such lists; removing `p` makes them one. */
  lemma {:induction false} EditAllAgree(pol: Policy, l: seq<Proc>, k: seq<Proc>, ops: seq<Op>, p: Proc, b: Buf)
    requires AgreeBut(l, k, p)
    ensures AgreeBut(EditAll(pol, l, ops, b), EditAll(pol, k, ops, b), p)
    ensures Op(false, p, b) in ops ==> EditAll(pol, l, ops, b) == EditAll(pol, k, ops, b)
    decreases |ops|
  {
    if ops != [] {
      var n := |ops| - 1;
      var l', k' := EditAll(pol, l, ops[..n], b), EditAll(pol, k, ops[..n], b);
      EditAllAgree(pol, l, k, ops[..n], p, b);
      EditedNoDup(pol, l', ops[n]);
      EditedNoDup(pol, k', ops[n]);
      EditedErase(pol, l', ops[n], p);
      EditedErase(pol, k', ops[n], p);
      assert ops == ops[..n] + [ops[n]];
    }
  }

  // ----- a direct remove and a pending queue

  /** A remove of `p` may go before the queue exactly when the queue does not end up adding it. */
  lemma RemoveFirst(pol: Policy, l: seq<Proc>, ops: seq<Op>, p: Proc, b: Buf)
    requires NoDup(l)
    ensures EditAll(pol, Erase(l, p), ops, b) == Erase(EditAll(pol, l, ops, b), p)
        <==> Fate(pol, ops, p, b) != Some(true)
  {
    var early, late := EditAll(pol, Erase(l, p), ops, b), EditAll(pol, l, ops, b);
    EraseMembers(l, p);
    EraseAbsent(Erase(l, p), p);
    EditAllAgree(pol, Erase(l, p), l, ops, p, b);
    EditAllMembers(pol, Erase(l, p), ops, b);
    EditAllMembers(pol, l, ops, b);
    EraseMembers(late, p);
    if p !in early { EraseAbsent(early, p); }
  }

  // ----- a direct add and a pending queue

  /** Other processors that the queue appends before it first appends `p` and keeps: a direct
      add of `p` would stand before them. */
  ghost function Behind(pol: Policy, l: seq<Proc>, ops: seq<Op>, p: Proc, b: Buf): set<Proc>
    decreases |ops|
  {
    if ops == [] then {}
    else
      var n := |ops| - 1;
      var op, before, now := ops[n], Behind(pol, l, ops[..n], p, b), EditAll(pol, l, ops[..n], b);
      if op.buf != b then before
      else if !op.isAddition then before - {op.proc}
      else if op.proc != p && pol.Admits(op.proc) && op.proc !in now && p !in now then before + {op.proc}
      else before
  }

  /** The list with `p` added first, and the list without that add, to which `p` is appended
      at the end unless the queue did so; they differ by `y` standing after or before `p`. */
  ghost predicate Placed(early: seq<Proc>, now: seq<Proc>, p: Proc, x: seq<Proc>, y: seq<Proc>, z: seq<Proc>) {
    && NoDup(early) && early == x + [p] + y + z
    && if p in now then now == x + y + [p] + z else z == [] && now == x + y
  }

  lemma EraseParts(x: seq<Proc>, p: Proc, y: seq<Proc>, z: seq<Proc>, q: Proc)
    requires NoDup(x + [p] + y + z) && q != p
    ensures Erase(x + [p] + y + z, q) == Erase(x, q) + [p] + Erase(y, q) + Erase(z, q)
    ensures Erase(x + y + [p] + z, q) == Erase(x, q) + Erase(y, q) + [p] + Erase(z, q)
    ensures Erase(x + y, q) == Erase(x, q) + Erase(y, q)
    ensures Members(Erase(y, q)) == Members(y) - {q}
  {
    PartsNoDup(x, p, y, z);
    EraseMembers(y, q);
    assert Erase([p], q) == [p];
    assert NoDup(x + [p]) && NoDup(x + y) by { JoinNoDup(x + [p], y); }
    EraseJoin(x + [p] + y, z, q);
    EraseJoin(x + [p], y, q);
    EraseJoin(x, [p], q);
    EraseJoin(x + y + [p], z, q);
    EraseJoin(x + y, [p], q);
    EraseJoin(x, y, q);
  }

  lemma PartsNoDup(x: seq<Proc>, p: Proc, y: seq<Proc>, z: seq<Proc>)
    requires NoDup(x + [p] + y + z)
    ensures NoDup(x + y + [p] + z) && NoDup(x + [p] + y) && NoDup(x + y + [p]) && NoDup(x + y) && NoDup(y)
    ensures p !in x && p !in y && p !in z
  {
    JoinNoDup(x + [p] + y, z);
    JoinNoDup(x + [p], y);
    JoinNoDup(x, [p]);
    assert forall q :: q in x ==> q in x + [p];
    AppendNoDup(x, y);
    AppendNoDup(x + y, [p]);
    assert forall q :: q in x + y + [p] <==> q in x + [p] + y;
    AppendNoDup(x + y + [p], z);
  }

  lemma PlaceEdit(pol: Policy, early: seq<Proc>, now: seq<Proc>, p: Proc,
                  x: seq<Proc>, y: seq<Proc>, z: seq<Proc>, op: Op)
    returns (x': seq<Proc>, y': seq<Proc>, z': seq<Proc>)
    requires Placed(early, now, p, x, y, z) && pol.Admits(p) && op.(buf := 0) != Op(false, p, 0)
    ensures Placed(Edited(pol, early, op), Edited(pol, now, op), p, x', y', z')
    ensures Members(y') == if !op.isAddition then Members(y) - {op.proc}
                           else if op.proc != p && pol.Admits(op.proc) && op.proc !in now && p !in now then
                             Members(y) + {op.proc}
                           else Members(y)
  {
    var q := op.proc;
    x', y', z' := x, y, z;
    PartsNoDup(x, p, y, z);
    EditedNoDup(pol, early, op);
    assert q != p ==> (q in early <==> q in now);
    if !op.isAddition {
      EraseParts(x, p, y, z, q);
      EraseMembers(now, q);
      x', y', z' := Erase(x, q), Erase(y, q), Erase(z, q);
    } else if q == p {
      if p !in now { assert now + [p] == x + y + [p] + []; }
    } else if pol.Admits(q) && q !in now {
      if p in now {
        z' := z + [q];
        assert x + y + [p] + z + [q] == x + y + [p] + z' && early + [q] == x + [p] + y + z';
      } else {
        y' := y + [q];
        assert x + y + [q] == x + y' && early + [q] == x + [p] + y' + [];
        assert Members(y') == Members(y) + {q};
      }
    }
  }

  lemma {:induction false} PlaceAll(pol: Policy, l: seq<Proc>, ops: seq<Op>, p: Proc, b: Buf)
    returns (x: seq<Proc>, y: seq<Proc>, z: seq<Proc>)
    requires NoDup(l) && p !in l && pol.Admits(p) && Op(false, p, b) !in ops
    ensures Placed(EditAll(pol, l + [p], ops, b), EditAll(pol, l, ops, b), p, x, y, z)
    ensures Members(y) == Behind(pol, l, ops, p, b)
    decreases |ops|
  {
    if ops == [] {
      x, y, z := l, [], [];
      AppendNoDup(l, [p]);
      assert l + [p] == l + [p] + [] + [] && l + [] == l;
    } else {
      var n := |ops| - 1;
      assert ops[n] in ops;
      x, y, z := PlaceAll(pol, l, ops[..n], p, b);
      if ops[n].buf == b {
        x, y, z := PlaceEdit(pol, EditAll(pol, l + [p], ops[..n], b), EditAll(pol, l, ops[..n], b), p, x, y, z, ops[n]);
      }
    }
  }

  /** A direct add of `p` before the queue: nothing happens if it is turned away; if `p` is
      listed, or the queue removes it, what counts is that the queue does not end up removing
      it; otherwise no processor may end up behind it. */
  ghost predicate AddMayOvertake(pol: Policy, l: seq<Proc>, ops: seq<Op>, p: Proc, b: Buf) {
    pol.Admits(p) ==>
      if p in l || Op(false, p, b) in ops then Fate(pol, ops, p, b) != Some(false) else Behind(pol, l, ops, p, b) == {}
  }

  lemma {:induction false} Removed(pol: Policy, ops: seq<Op>, p: Proc, b: Buf)
    requires Op(false, p, b) in ops
    ensures Fate(pol, ops, p, b).Some?
    decreases |ops|
  {
    var n := |ops| - 1;
    assert ops == ops[..n] + [ops[n]];
    if ops[n] != Op(false, p, b) { Removed(pol, ops[..n], p, b); }
  }

  lemma AddFirst(pol: Policy, l: seq<Proc>, ops: seq<Op>, p: Proc, b: Buf)
    requires NoDup(l)
    ensures EditAll(pol, Edited(pol, l, Op(true, p, b)), ops, b) == Edited(pol, EditAll(pol, l, ops, b), Op(true, p, b))
            <==> AddMayOvertake(pol, l, ops, p, b)
  {
    var now := EditAll(pol, l, ops, b);
    EditAllMembers(pol, l, ops, b);
    if pol.Admits(p) && p !in l {
      if Op(false, p, b) in ops {
        Removed(pol, ops, p, b);
        AppendNoDup(l, [p]);
        EraseAppend(l, [p], p);
        EraseAbsent(l, p);
        assert Erase([p], p) == [] && l + [] == l;
        EditAllAgree(pol, l, l + [p], ops, p, b);
      } else {
        var x, y, z := PlaceAll(pol, l, ops, p, b);
        PartsNoDup(x, p, y, z);
        PlacedSame(x, p, y, z);
        assert p !in now ==> now + [p] == x + y + [p] + z;
      }
    }
  }

  lemma PlacedSame(x: seq<Proc>, p: Proc, y: seq<Proc>, z: seq<Proc>)
    requires p !in y
    ensures x + [p] + y + z == x + y + [p] + z <==> Members(y) == {}
  {
    if y == [] {
      assert x + [p] + [] + z == x + [] + [p] + z;
    } else {
      assert y[0] in Members(y);
      assert (x + [p] + y + z)[|x|] == p && (x + y + [p] + z)[|x|] == y[0];
    }
  }

  // ----- a direct optimisation and a pending queue

  /** Pairs of an incompatible and a compatible processor such that the queue appends the
      second behind the first and keeps both. */
  ghost function Crossed(pol: Policy, l: seq<Proc>, ops: seq<Op>, b: Buf): set<(Proc, Proc)>
    decreases |ops|
  {
    if ops == [] then {}
    else
      var n := |ops| - 1;
      var op, before, now := ops[n], Crossed(pol, l, ops[..n], b), EditAll(pol, l, ops[..n], b);
      if op.buf != b then before
      else if !op.isAddition then set pq | pq in before && pq.0 != op.proc && pq.1 != op.proc
      else if pol.Admits(op.proc) && pol.Fits(op.proc) && op.proc !in now then
        before + set i | i in now && !pol.Fits(i) :: (i, op.proc)
      else before
  }

  /** No incompatible processor stands before a compatible one. */
  ghost predicate Partitioned(pol: Policy, k: seq<Proc>) {
    forall i: Proc, q: Proc :: Before(k, i, q) && !pol.Fits(i) ==> !pol.Fits(q)
  }

  /** The pairs that stand in that order in `k`. */
  ghost predicate CrossedIn(pol: Policy, k: seq<Proc>, pairs: set<(Proc, Proc)>) {
    forall i: Proc, q: Proc :: (i, q) in pairs <==> !pol.Fits(i) && pol.Fits(q) && Before(k, i, q)
  }

  lemma BeforeSnoc(k: seq<Proc>, r: Proc, i: Proc, q: Proc)
    requires r !in k
    ensures Before(k + [r], i, q) <==> Before(k, i, q) || (i in k && q == r)
  {
    if Before(k, i, q) {
      BeforeAppend([], k, [r], i, q);
      assert [] + k + [r] == k + [r];
    }
    if i in k && q == r {
      var j :| 0 <= j < |k| && k[j] == i;
      assert (k + [r])[j] == i && (k + [r])[|k|] == q;
    }
    if Before(k + [r], i, q) {
      var j, h :| 0 <= j < h < |k + [r]| && (k + [r])[j] == i && (k + [r])[h] == q;
      assert i == k[j];
      if h < |k| { assert k[h] == q; }
    }
  }

  lemma EraseBeforeIff(k: seq<Proc>, r: Proc, i: Proc, q: Proc)
    requires NoDup(k)
    ensures Before(Erase(k, r), i, q) <==> Before(k, i, q) && i != r && q != r
  {
    EraseMembers(k, r);
    if Before(k, i, q) && i != r && q != r { EraseBefore(k, r, i, q); }
    if Before(Erase(k, r), i, q) {
      var j, h :| 0 <= j < h < |Erase(k, r)| && Erase(k, r)[j] == i && Erase(k, r)[h] == q;
      assert i in Erase(k, r) && q in Erase(k, r);
      if !Before(k, i, q) {
        Ordered(k, i, q);
        EraseBefore(k, r, q, i);
        OneWay(Erase(k, r), q, i);
      }
    }
  }

  lemma Ordered(k: seq<Proc>, i: Proc, q: Proc)
    requires i in k && q in k && i != q && !Before(k, i, q)
    ensures Before(k, q, i)
  {
    var j :| 0 <= j < |k| && k[j] == i;
    var h :| 0 <= h < |k| && k[h] == q;
    assert h < j;
  }

  lemma OneWay(k: seq<Proc>, i: Proc, q: Proc)
    requires NoDup(k) && Before(k, i, q)
    ensures !Before(k, q, i)
  {
    var j, h :| 0 <= j < h < |k| && k[j] == i && k[h] == q;
    forall g, f | 0 <= g < f < |k| && k[f] == i ensures k[g] != q { assert f == j; }
  }

  /** What the queue places wrongly in an already partitioned list. */
  lemma {:induction false} CrossedPairs(pol: Policy, l: seq<Proc>, k: seq<Proc>, ops: seq<Op>, b: Buf)
    requires NoDup(l) && NoDup(k) && (forall p :: p in l <==> p in k) && Partitioned(pol, k)
    ensures CrossedIn(pol, EditAll(pol, k, ops, b), Crossed(pol, l, ops, b))
    decreases |ops|
  {
    if ops != [] {
      var n := |ops| - 1;
      CrossedPairs(pol, l, k, ops[..n], b);
      if ops[n].buf == b {
        var now := EditAll(pol, k, ops[..n], b);
        EditAllMembers(pol, l, ops[..n], b);
        EditAllMembers(pol, k, ops[..n], b);
        forall i: Proc, q: Proc ensures (i, q) in Crossed(pol, l, ops, b)
                            <==> !pol.Fits(i) && pol.Fits(q) && Before(Edited(pol, now, ops[n]), i, q) {
          if !ops[n].isAddition {
            EraseBeforeIff(now, ops[n].proc, i, q);
          } else if ops[n].proc !in now {
            BeforeSnoc(now, ops[n].proc, i, q);
          }
        }
      }
    }
  }

  /** A list is already optimised when no incompatible processor stands before a compatible one. */
  lemma PartitionedIff(pol: Policy, k: seq<Proc>)
    ensures k == Select(k, pol.Compatible()) + Select(k, pol.Incompatible()) <==> Partitioned(pol, k)
  {
    var yes, no := Select(k, pol.Compatible()), Select(k, pol.Incompatible());
    SelectMembers(k, pol.Compatible());
    SelectMembers(k, pol.Incompatible());
    if k == yes + no {
      forall i: Proc, q: Proc | Before(k, i, q) && !pol.Fits(i) ensures !pol.Fits(q) { BehindPart(yes, no, i, q); }
    }
    if Partitioned(pol, k) { PartitionedIsSelect(pol, k); }
  }

  lemma BehindPart(yes: seq<Proc>, no: seq<Proc>, i: Proc, q: Proc)
    requires Before(yes + no, i, q) && i !in yes
    ensures q in no
  {
    var j, h :| 0 <= j < h < |yes + no| && (yes + no)[j] == i && (yes + no)[h] == q;
    assert j >= |yes|;
    assert q == no[h - |yes|];
  }

  lemma PartitionedTail(pol: Policy, k: seq<Proc>)
    requires k != [] && Partitioned(pol, k)
    ensures Partitioned(pol, k[1..])
    ensures !pol.Fits(k[0]) ==> forall p :: p in k ==> !pol.Fits(p)
  {
    forall i: Proc, q: Proc | Before(k[1..], i, q) && !pol.Fits(i) ensures !pol.Fits(q) {
      BeforeAppend([k[0]], k[1..], [], i, q);
      assert [k[0]] + k[1..] + [] == k;
    }
    if !pol.Fits(k[0]) {
      forall h | 0 <= h < |k| ensures !pol.Fits(k[h]) { assert h > 0 ==> Before(k, k[0], k[h]); }
    }
  }

  lemma {:induction false} PartitionedIsSelect(pol: Policy, k: seq<Proc>)
    requires Partitioned(pol, k)
    ensures k == Select(k, pol.Compatible()) + Select(k, pol.Incompatible())
  {
    if k != [] {
      PartitionedTail(pol, k);
      if pol.Fits(k[0]) {
        PartitionedIsSelect(pol, k[1..]);
        Assoc([k[0]], Select(k[1..], pol.Compatible()), Select(k[1..], pol.Incompatible()));
        assert k == [k[0]] + k[1..];
      } else {
        SelectAll(k, pol.Incompatible());
        SelectNone(k, pol.Compatible());
        assert [] + k == k;
      }
    }
  }

  /** Duplicate-free lists with the same members, those in `keep` in the same order. */
  ghost predicate SameOn(l: seq<Proc>, k: seq<Proc>, keep: iset<Proc>) {
    && NoDup(l) && NoDup(k)
    && Select(l, keep) == Select(k, keep)
    && (forall p :: p in l <==> p in k)
  }

  lemma EditedSameOn(pol: Policy, l: seq<Proc>, k: seq<Proc>, op: Op, keep: iset<Proc>)
    requires SameOn(l, k, keep)
    ensures SameOn(Edited(pol, l, op), Edited(pol, k, op), keep)
  {
    EditedNoDup(pol, l, op);
    EditedNoDup(pol, k, op);
    if op.isAddition {
      SelectConcat(l, [op.proc], keep);
      SelectConcat(k, [op.proc], keep);
    } else {
      SelectErase(l, keep, op.proc);
      SelectErase(k, keep, op.proc);
    }
  }

  lemma {:induction false} EditAllSameOn(pol: Policy, l: seq<Proc>, k: seq<Proc>, ops: seq<Op>, b: Buf,
                                         keep: iset<Proc>)
    requires SameOn(l, k, keep)
    ensures SameOn(EditAll(pol, l, ops, b), EditAll(pol, k, ops, b), keep)
    decreases |ops|
  {
    if ops != [] {
      var n := |ops| - 1;
      EditAllSameOn(pol, l, k, ops[..n], b, keep);
      EditedSameOn(pol, EditAll(pol, l, ops[..n], b), EditAll(pol, k, ops[..n], b), ops[n], keep);
    }
  }

  lemma OptimizedSameOn(pol: Policy, l: seq<Proc>)
    requires NoDup(l) && pol.strategy != Strict && pol.strategy != Filtered
    ensures SameOn(l, OptimizedList(pol, l), pol.Compatible()) && SameOn(l, OptimizedList(pol, l), pol.Incompatible())
    ensures Partitioned(pol, OptimizedList(pol, l))
  {
    OptimizedMembers(pol, l);
    OptimizeIsIdempotent(pol, l);
    PartitionedIff(pol, OptimizedList(pol, l));
  }

  ghost predicate AddsNothing(pol: Policy, ops: seq<Op>, b: Buf) {
    forall p: Proc :: Fate(pol, ops, p, b) != Some(true)
  }

  /** An optimisation before the queue: under FILTERED every listed processor is compatible
      and it does nothing; under STRICT it does nothing or empties the list, which then has to
      stay empty; otherwise the queue may not place a compatible processor behind an
      incompatible one. */
  ghost predicate OptimizeMayOvertake(pol: Policy, l: seq<Proc>, ops: seq<Op>, b: Buf) {
    match pol.strategy
    case Filtered => true
    case Strict => AreTokensCompatible(pol.mask, pol.mask) || AddsNothing(pol, ops, b)
    case _ => Crossed(pol, l, ops, b) == {}
  }

  ghost predicate AllAdmitted(pol: Policy, l: seq<Proc>) {
    forall p :: p in l ==> pol.Admits(p)
  }

  lemma {:induction false} EditAllAdmitted(pol: Policy, l: seq<Proc>, ops: seq<Op>, b: Buf)
    requires NoDup(l) && AllAdmitted(pol, l)
    ensures AllAdmitted(pol, EditAll(pol, l, ops, b))
    decreases |ops|
  {
    if ops != [] {
      var n := |ops| - 1;
      EditAllAdmitted(pol, l, ops[..n], b);
      EditAllMembers(pol, l, ops[..n], b);
      EditedNoDup(pol, EditAll(pol, l, ops[..n], b), ops[n]);
    }
  }

  lemma OptimizeFiltering(pol: Policy, l: seq<Proc>)
    requires AllAdmitted(pol, l) && (pol.strategy == Strict || pol.strategy == Filtered)
    ensures OptimizedList(pol, l)
            == if pol.strategy == Filtered || AreTokensCompatible(pol.mask, pol.mask) then l else []
  {
    if pol.strategy == Strict {
      StrictOptimizeIff(pol, l);
    } else {
      SelectAll(l, pol.Compatible());
      assert l + [] == l;
    }
  }

  lemma StaysEmptyIff(pol: Policy, ops: seq<Op>, b: Buf)
    ensures EditAll(pol, [], ops, b) == [] <==> AddsNothing(pol, ops, b)
  {
    var k := EditAll(pol, [], ops, b);
    EditAllMembers(pol, [], ops, b);
    forall p: Proc ensures p in k <==> Fate(pol, ops, p, b) == Some(true) {
      assert p in k <==> EndsPresent(pol, [], ops, p, b);
    }
    if k != [] { assert k[0] in k && Fate(pol, ops, k[0], b) == Some(true); }
  }

  lemma OptimizeFirst(pol: Policy, l: seq<Proc>, ops: seq<Op>, b: Buf)
    requires NoDup(l) && AllAdmitted(pol, l)
    ensures EditAll(pol, OptimizedList(pol, l), ops, b) == OptimizedList(pol, EditAll(pol, l, ops, b))
            <==> OptimizeMayOvertake(pol, l, ops, b)
  {
    if pol.strategy == Strict || pol.strategy == Filtered {
      OptimizeFirstFiltering(pol, l, ops, b);
    } else {
      OptimizeFirstPartition(pol, l, ops, b);
    }
  }

  lemma OptimizeFirstFiltering(pol: Policy, l: seq<Proc>, ops: seq<Op>, b: Buf)
    requires NoDup(l) && AllAdmitted(pol, l) && (pol.strategy == Strict || pol.strategy == Filtered)
    ensures EditAll(pol, OptimizedList(pol, l), ops, b) == OptimizedList(pol, EditAll(pol, l, ops, b))
            <==> OptimizeMayOvertake(pol, l, ops, b)
  {
    EditAllAdmitted(pol, l, ops, b);
    OptimizeFiltering(pol, l);
    OptimizeFiltering(pol, EditAll(pol, l, ops, b));
    StaysEmptyIff(pol, ops, b);
  }

  lemma OptimizeFirstPartition(pol: Policy, l: seq<Proc>, ops: seq<Op>, b: Buf)
    requires NoDup(l) && pol.strategy != Strict && pol.strategy != Filtered
    ensures EditAll(pol, OptimizedList(pol, l), ops, b) == OptimizedList(pol, EditAll(pol, l, ops, b))
            <==> OptimizeMayOvertake(pol, l, ops, b)
  {
    var k := OptimizedList(pol, l);
    var early := EditAll(pol, k, ops, b);
    OptimizedSameOn(pol, l);
    EditAllSameOn(pol, l, k, ops, b, pol.Compatible());
    EditAllSameOn(pol, l, k, ops, b, pol.Incompatible());
    CrossedPairs(pol, l, k, ops, b);
    PartitionedIff(pol, early);
    NoPairs(pol, early, Crossed(pol, l, ops, b));
  }

  lemma NoPairs(pol: Policy, k: seq<Proc>, pairs: set<(Proc, Proc)>)
    requires CrossedIn(pol, k, pairs)
    ensures pairs == {} <==> Partitioned(pol, k)
  {
    if pairs != {} {
      var pq :| pq in pairs;
      assert (pq.0, pq.1) in pairs;
    }
  }

  // ----- one step

  /** The two chains hold the same lists. */
  ghost predicate Agree(c: Core, d: Core) {
    c.lists == d.lists
  }

  /** They also skip and remove the same processors. */
  ghost predicate Alike(c: Core, d: Core) {
    && Agree(c, d)
    && (forall b: Buf :: SetOf(c.skips, b) == SetOf(d.skips, b))
    && (forall b: Buf :: SetOf(c.removals, b) == SetOf(d.removals, b))
  }

  lemma SoundIsAlike(pol: Policy, c: Core, d: Core)
    requires WellFormed(pol, c) && WellFormed(pol, d) && Agree(c, d)
    ensures Alike(c, d)
  {
    forall b: Buf ensures SetOf(c.skips, b) == SetOf(d.skips, b) && SetOf(c.removals, b) == SetOf(d.removals, b) {
      assert SoundAt(pol, c, b) && SoundAt(pol, d, b);
    }
  }

  /** The list of `e` when `x` goes before the queue, and when it goes after. */
  lemma EditFirstAt(pol: Policy, c: Core, ops: seq<Op>, x: Op, e: Buf)
    ensures ListOf(ApplyAll(pol, Apply(pol, c, x), ops).lists, e)
        == EditAll(pol, EditAt(pol, ListOf(c.lists, e), x, e), ops, e)
    ensures ListOf(Apply(pol, ApplyAll(pol, c, ops), x).lists, e)
        == EditAt(pol, EditAll(pol, ListOf(c.lists, e), ops, e), x, e)
  {
    ApplyAllAt(pol, Apply(pol, c, x), ops, e);
    ApplyAllAt(pol, c, ops, e);
    ApplyAt(pol, c, x, e);
    ApplyAt(pol, ApplyAll(pol, c, ops), x, e);
  }

  lemma EditFirstKeys(pol: Policy, c: Core, ops: seq<Op>, x: Op)
    ensures ApplyAll(pol, Apply(pol, c, x), ops).lists.Keys == Apply(pol, ApplyAll(pol, c, ops), x).lists.Keys
  {
    ApplyAllKeys(pol, Apply(pol, c, x), ops);
    ApplyAllKeys(pol, c, ops);
  }

  /** Applying `x` before or after the queue: the lists agree if they do on the buffer of `x`. */
  lemma EditFirst(pol: Policy, c: Core, ops: seq<Op>, x: Op)
    ensures var l := ListOf(c.lists, x.buf);
            Agree(ApplyAll(pol, Apply(pol, c, x), ops), Apply(pol, ApplyAll(pol, c, ops), x))
            <==> EditAll(pol, Edited(pol, l, x), ops, x.buf) == Edited(pol, EditAll(pol, l, ops, x.buf), x)
  {
    var early, late := ApplyAll(pol, Apply(pol, c, x), ops), Apply(pol, ApplyAll(pol, c, ops), x);
    EditFirstAt(pol, c, ops, x, x.buf);
    if ListOf(early.lists, x.buf) == ListOf(late.lists, x.buf) {
      forall e: Buf ensures ListOf(early.lists, e) == ListOf(late.lists, e) { EditFirstAt(pol, c, ops, x, e); }
      EditFirstKeys(pol, c, ops, x);
      SameLists(early.lists, late.lists);
    }
  }

  lemma OptimizeFirstCore(pol: Policy, c: Core, ops: seq<Op>, b: Buf)
    ensures var l := ListOf(c.lists, b);
            Agree(ApplyAll(pol, Optimize(pol, c, b), ops), Optimize(pol, ApplyAll(pol, c, ops), b))
            <==> EditAll(pol, OptimizedList(pol, l), ops, b) == OptimizedList(pol, EditAll(pol, l, ops, b))
  {
    var early, late := ApplyAll(pol, Optimize(pol, c, b), ops), Optimize(pol, ApplyAll(pol, c, ops), b);
    ApplyAllKeys(pol, Optimize(pol, c, b), ops);
    ApplyAllKeys(pol, c, ops);
    forall e: Buf
      ensures ListOf(early.lists, e) == EditAll(pol, ListOf(Optimize(pol, c, b).lists, e), ops, e)
      ensures e != b ==> ListOf(early.lists, e) == ListOf(late.lists, e)
    {
      ApplyAllAt(pol, Optimize(pol, c, b), ops, e);
      ApplyAllAt(pol, c, ops, e);
    }
    ApplyAllAt(pol, c, ops, b);
    if ListOf(early.lists, b) == ListOf(late.lists, b) { SameLists(early.lists, late.lists); }
  }

  /** A remove applied at once, whatever is pending: the next `process` starts from the lists
      of call order if and only if the queue does not end up adding the removed processor. */
  lemma RemoveOvertakesIff(pol: Policy, m: Machine, p: Proc, b: Buf)
    requires Inv(pol, m)
    ensures Agree(Drained(pol, m.(core := RemoveDirect(m.core, p, b))), RemoveDirect(Drained(pol, m), p, b))
            <==> Fate(pol, m.pending, p, b) != Some(true)
  {
    assert SoundAt(pol, m.core, b);
    EditFirst(pol, m.core, m.pending, Op(false, p, b));
    RemoveFirst(pol, ListOf(m.core.lists, b), m.pending, p, b);
  }

  /** An add applied at once, whatever is pending. */
  lemma AddOvertakesIff(pol: Policy, m: Machine, p: Proc, b: Buf)
    requires Inv(pol, m)
    ensures Agree(Drained(pol, m.(core := AddDirect(pol, m.core, p, b))), AddDirect(pol, Drained(pol, m), p, b))
            <==> AddMayOvertake(pol, ListOf(m.core.lists, b), m.pending, p, b)
  {
    assert SoundAt(pol, m.core, b);
    EditFirst(pol, m.core, m.pending, Op(true, p, b));
    AddFirst(pol, ListOf(m.core.lists, b), m.pending, p, b);
  }

  /** An optimisation applied at once, whatever is pending. */
  lemma OptimizeOvertakesIff(pol: Policy, m: Machine, b: Buf)
    requires Inv(pol, m)
    ensures Agree(Drained(pol, m.(core := Optimize(pol, m.core, b))), Optimize(pol, Drained(pol, m), b))
            <==> OptimizeMayOvertake(pol, ListOf(m.core.lists, b), m.pending, b)
  {
    assert SoundAt(pol, m.core, b);
    OptimizeFirstCore(pol, m.core, m.pending, b);
    OptimizeFirst(pol, ListOf(m.core.lists, b), m.pending, b);
  }

  /** An edit deferred when the table is full is lost, which matters unless it would have done
      nothing: an add of a listed processor, a remove of an unlisted one from a known buffer. */
  ghost predicate MayBeLost(pol: Policy, m: Machine, x: Op) {
    var present := EndsPresent(pol, ListOf(m.core.lists, x.buf), m.pending, x.proc, x.buf);
    if x.isAddition then pol.Admits(x.proc) ==> present
    else !present && (x.buf in m.core.lists || x.buf in AllTouched(pol, m.pending))
  }

  lemma LostEditIff(pol: Policy, m: Machine, x: Op)
    requires Inv(pol, m)
    ensures Agree(Drained(pol, m), Apply(pol, Drained(pol, m), x)) <==> MayBeLost(pol, m, x)
  {
    var c, b := Drained(pol, m), x.buf;
    var l := ListOf(c.lists, b);
    assert SoundAt(pol, m.core, b);
    ApplyAllAt(pol, m.core, m.pending, b);
    ApplyAllKeys(pol, m.core, m.pending);
    EditAllMembers(pol, ListOf(m.core.lists, b), m.pending, b);
    EraseMembers(l, x.proc);
    Overwrite(c.lists, b, l, l);
  }

  /** An edit that `m` defers. */
  lemma DeferredIff(pol: Policy, m: Machine, x: Op)
    requires Inv(pol, m)
    ensures Agree(Drained(pol, m.(pending := Enqueue(m.pending, x))), Apply(pol, Drained(pol, m), x))
            <==> |m.pending| < MAX_PENDING_PROCESSORS || MayBeLost(pol, m, x)
  {
    if |m.pending| < MAX_PENDING_PROCESSORS {
      ApplyAllSnoc(pol, m.core, m.pending, x);
    } else {
      LostEditIff(pol, m, x);
    }
  }

  ghost predicate MayDefer(pol: Policy, m: Machine, x: Op) {
    |m.pending| < MAX_PENDING_PROCESSORS || MayBeLost(pol, m, x)
  }

  /** The call leaves the settled chain where applying every edit in call order would. */
  ghost predicate InOrder(pol: Policy, m: Machine, e: Event) {
    match e
    case Add(p, b, busy) =>
      if busy || m.flagged then MayDefer(pol, m, Op(true, p, b))
      else AddMayOvertake(pol, ListOf(m.core.lists, b), m.pending, p, b)
    case Remove(p, b) =>
      if m.flagged then MayDefer(pol, m, Op(false, p, b)) else Fate(pol, m.pending, p, b) != Some(true)
    case OptimizeFor(b) => OptimizeMayOvertake(pol, ListOf(m.core.lists, b), m.pending, b)
    case Process(_, _, _) => true
  }

  /** The two chains hold the same lists and the same flag. */
  ghost predicate SameLook(d: Direct, e: Direct) {
    Agree(d.core, e.core) && d.flagged == e.flagged
  }

  lemma StepRefinesIff(pol: Policy, m: Machine, e: Event)
    requires Inv(pol, m)
    ensures SameLook(Settled(pol, Step(pol, m, e)), DirectStep(pol, Settled(pol, m), e)) <==> InOrder(pol, m, e)
  {
    match e
    case Add(p, b, busy) =>
      if busy || m.flagged { DeferredIff(pol, m, Op(true, p, b)); } else { AddOvertakesIff(pol, m, p, b); }
    case Remove(p, b) =>
      if m.flagged { DeferredIff(pol, m, Op(false, p, b)); } else { RemoveOvertakesIff(pol, m, p, b); }
    case OptimizeFor(b) => OptimizeOvertakesIff(pol, m, b);
    case Process(b, script, throws) =>
      var issued := Issued(script, |Ran(pol, m, b, throws)|);
      EnqueueAllIsPrefix([], issued);
      assert EnqueueAll([], issued) == Accepted(issued);
  }

  /** Nor do skips and removals differ then. */
  lemma StepRefinesFully(pol: Policy, m: Machine, e: Event)
    requires Inv(pol, m)
    ensures var now, direct := Settled(pol, Step(pol, m, e)), DirectStep(pol, Settled(pol, m), e);
            Alike(now.core, direct.core) && now.flagged == direct.flagged <==> InOrder(pol, m, e)
  {
    StepRefinesIff(pol, m, e);
    StepKeeps(pol, m, e);
    ApplyAllKeeps(pol, m.core, m.pending);
    ApplyAllKeeps(pol, Step(pol, m, e).core, Step(pol, m, e).pending);
    DirectStepKeeps(pol, Settled(pol, m), e);
    if InOrder(pol, m, e) {
      SoundIsAlike(pol, Settled(pol, Step(pol, m, e)).core, DirectStep(pol, Settled(pol, m), e).core);
    }
  }

  /** Two adds of different processors, or an add and a remove of one processor, on one
      buffer, such that no add is turned away. */
  ghost predicate Conflicting(pol: Policy, c: Core, x: Op, y: Op) {
    && x.buf == y.buf
    && if x.isAddition && y.isAddition then
         x.proc != y.proc && AddSucceeds(pol, c, x.proc, x.buf) && AddSucceeds(pol, c, y.proc, y.buf)
       else x.isAddition != y.isAddition && x.proc == y.proc && pol.Admits(x.proc)
  }

  function EventOf(x: Op): Event {
    if x.isAddition then Add(x.proc, x.buf, false) else Remove(x.proc, x.buf)
  }

  /** The case of a single pending operation: an edit may overtake it exactly when the two do
      not conflict. */
  lemma OvertakingIff(pol: Policy, c: Core, pending: Op, x: Op)
    requires WellFormed(pol, c)
    ensures Alike(Drained(pol, Machine(Apply(pol, c, x), [pending], false)),
                  Apply(pol, Drained(pol, Machine(c, [pending], false)), x))
            <==> !Conflicting(pol, c, pending, x)
  {
    var m, l := Machine(c, [pending], false), ListOf(c.lists, x.buf);
    StepRefinesFully(pol, m, EventOf(x));
    assert m.pending[..0] == [];
    assert EditAll(pol, l, [], x.buf) == l;
    assert Fate(pol, [], x.proc, x.buf) == None;
    if x.isAddition { SinglePending(pol, l, pending, x.proc, x.buf); }
  }

  lemma SinglePending(pol: Policy, l: seq<Proc>, pending: Op, p: Proc, b: Buf)
    ensures Behind(pol, l, [pending], p, b)
            == if pending.isAddition && pending.buf == b && pending.proc != p && pol.Admits(pending.proc)
                && pending.proc !in l && p !in l
               then {pending.proc} else {}
  {
    assert [pending][..0] == [];
    assert Behind(pol, l, [], p, b) == {} && EditAll(pol, l, [], b) == l;
  }

  // ----- whole runs

  lemma {:induction false} ApplyAllRespects(pol: Policy, c: Core, d: Core, ops: seq<Op>)
    requires Agree(c, d)
    ensures Agree(ApplyAll(pol, c, ops), ApplyAll(pol, d, ops))
    decreases |ops|
  {
    if ops != [] { ApplyAllRespects(pol, Apply(pol, c, ops[0]), Apply(pol, d, ops[0]), ops[1..]); }
  }

  lemma DirectStepRespects(pol: Policy, c: Direct, d: Direct, e: Event)
    requires SameLook(c, d)
    ensures SameLook(DirectStep(pol, c, e), DirectStep(pol, d, e))
  {
    match e
    case Process(b, script, throws) =>
      var ran := Loop(pol, c.core, b, throws).0;
      ApplyAllRespects(pol, Looped(pol, c.core, b, throws), Looped(pol, d.core, b, throws),
                       Accepted(Issued(script, |ran|)));
    case _ =>
  }

  lemma DirectStepKeeps(pol: Policy, d: Direct, e: Event)
    requires WellFormed(pol, d.core)
    ensures WellFormed(pol, DirectStep(pol, d, e).core)
  {
    match e
    case Add(p, b, _) => AddKeeps(pol, d.core, p, b);
    case Remove(p, b) => RemoveKeeps(pol, d.core, p, b);
    case OptimizeFor(b) => OptimizeKeeps(pol, d.core, b);
    case Process(b, script, throws) =>
      LoopedKeeps(pol, d.core, b, throws);
      ApplyAllKeeps(pol, Looped(pol, d.core, b, throws), Accepted(Issued(script, |Loop(pol, d.core, b, throws).0|)));
  }

  ghost predicate AllInOrder(pol: Policy, m: Machine, es: seq<Event>)
    decreases |es|
  {
    es == [] || (InOrder(pol, m, es[0]) && AllInOrder(pol, Step(pol, m, es[0]), es[1..]))
  }

  /** After every call of the run the settled chain looks like the chain without a queue. */
  ghost predicate StaysInStep(pol: Policy, m: Machine, d: Direct, es: seq<Event>)
    decreases |es|
  {
    && SameLook(Settled(pol, m), d)
    && (es == [] || StaysInStep(pol, Step(pol, m, es[0]), DirectStep(pol, d, es[0]), es[1..]))
  }

  /** Deferred edits refine direct ones over a whole run, throwing or not, exactly when every
      call is in order. */
  lemma {:induction false} RefinesDirectIff(pol: Policy, m: Machine, d: Direct, es: seq<Event>)
    requires Inv(pol, m) && SameLook(Settled(pol, m), d)
    ensures StaysInStep(pol, m, d, es) <==> AllInOrder(pol, m, es)
    decreases |es|
  {
    if es != [] {
      var m', d' := Step(pol, m, es[0]), DirectStep(pol, d, es[0]);
      StepRefinesIff(pol, m, es[0]);
      DirectStepRespects(pol, Settled(pol, m), d, es[0]);
      StepKeeps(pol, m, es[0]);
      if SameLook(Settled(pol, m'), d') { RefinesDirectIff(pol, m', d', es[1..]); }
    }
  }

  lemma {:induction false} InStepRuns(pol: Policy, m: Machine, d: Direct, es: seq<Event>)
    requires Inv(pol, m) && WellFormed(pol, d.core) && StaysInStep(pol, m, d, es)
    ensures Trace(pol, m, es) == DirectTrace(pol, d, es)
    ensures Alike(Drained(pol, Run(pol, m, es)), DirectRun(pol, d, es).core)
    ensures Run(pol, m, es).flagged == DirectRun(pol, d, es).flagged
    decreases |es|
  {
    if es == [] {
      ApplyAllKeeps(pol, m.core, m.pending);
      SoundIsAlike(pol, Drained(pol, m), d.core);
    } else {
      StepKeeps(pol, m, es[0]);
      DirectStepKeeps(pol, d, es[0]);
      InStepRuns(pol, Step(pol, m, es[0]), DirectStep(pol, d, es[0]), es[1..]);
    }
  }

  /** Over any run whose calls are in order, every `process` invokes what it would invoke had
      the edits been applied directly in call order, and the settled chain is the same. */
  lemma DeferredRefinesDirect(pol: Policy, m: Machine, es: seq<Event>)
    requires Inv(pol, m) && AllInOrder(pol, m, es)
    ensures Trace(pol, m, es) == DirectTrace(pol, Settled(pol, m), es)
    ensures var direct := DirectRun(pol, Settled(pol, m), es);
            Alike(Drained(pol, Run(pol, m, es)), direct.core) && Run(pol, m, es).flagged == direct.flagged
  {
    RefinesDirectIff(pol, m, Settled(pol, m), es);
    ApplyAllKeeps(pol, m.core, m.pending);
    InStepRuns(pol, m, Settled(pol, m), es);
  }

  lemma DeferredRefinesDirectFromStart(pol: Policy, es: seq<Event>)
    requires AllInOrder(pol, START, es)
    ensures Trace(pol, START, es) == DirectTrace(pol, Direct(EMPTY, false), es)
    ensures var direct := DirectRun(pol, Direct(EMPTY, false), es);
            Alike(Drained(pol, Run(pol, START, es)), direct.core) && Run(pol, START, es).flagged == direct.flagged
  {
    DeferredRefinesDirect(pol, START, es);
  }

  /** A remove that is applied at once while an add of the same processor is pending is
      overtaken: the processor comes back and is invoked. */
  lemma DirectEditOvertakes(pol: Policy, p: Proc, b: Buf)
    requires pol.strategy == Ignore
    ensures var es := [Add(p, b, true), Remove(p, b), Process(b, [], None)];
            !AllInOrder(pol, START, es) && Trace(pol, START, es) == [[p]]
                && DirectTrace(pol, Direct(EMPTY, false), es) == [[]]
  {
    var es := [Add(p, b, true), Remove(p, b), Process(b, [], None)];
    var m1 := Step(pol, START, es[0]);
    var m2 := Step(pol, m1, es[1]);
    assert es[1..] == [es[1], es[2]] && es[1..][1..] == [es[2]] && es[1..][1..][1..] == [];
    assert m1.pending == [Op(true, p, b)] && m1.pending[0] in m1.pending;
    assert m2 == Machine(Core(map[b := []], map[], map[]), [Op(true, p, b)], false);
    assert Iterated(pol, m2, b) == [p] by {
      assert ApplyAll(pol, m2.core, m2.pending) == Apply(pol, m2.core, m2.pending[0]);
    }
    var c1 := DirectStep(pol, Direct(EMPTY, false), es[0]);
    assert c1.core.lists[b] == [p];
    var c2 := DirectStep(pol, c1, es[1]);
    assert c2.core.lists[b] == [];
    assert Trace(pol, m2, es[1..][1..]) == [[p]] + Trace(pol, Step(pol, m2, es[2]), []);
    assert DirectTrace(pol, c2, es[1..][1..]) == [[]] + DirectTrace(pol, DirectStep(pol, c2, es[2]), []);
  }

  // ----- optimize_for_tokens

  /** Stable partition: kept processors in order, then (unless filtered out) the others. */
  lemma OptimizeIsIdempotent(pol: Policy, l: seq<Proc>)
    ensures OptimizedList(pol, OptimizedList(pol, l)) == OptimizedList(pol, l)
    ensures Select(OptimizedList(pol, l), pol.Compatible()) == Select(l, pol.Compatible())
    ensures pol.strategy != Strict && pol.strategy != Filtered ==>
              Select(OptimizedList(pol, l), pol.Incompatible()) == Select(l, pol.Incompatible())
  {
    var yes, no := Select(l, pol.Compatible()), Select(l, pol.Incompatible());
    SelectMembers(l, pol.Compatible());
    SelectMembers(l, pol.Incompatible());
    SelectAll(yes, pol.Compatible());
    SelectNone(yes, pol.Incompatible());
    SelectAll(no, pol.Incompatible());
    SelectNone(no, pol.Compatible());
    SelectConcat(yes, no, pol.Compatible());
    SelectConcat(yes, no, pol.Incompatible());
    assert yes + [] == yes && [] + no == no;
  }

  lemma {:induction false} PartitionIsPermutation(pol: Policy, l: seq<Proc>)
    ensures multiset(Select(l, pol.Compatible())) + multiset(Select(l, pol.Incompatible())) == multiset(l)
  {
    if l != [] {
      assert l == [l[0]] + l[1..];
      PartitionIsPermutation(pol, l[1..]);
    }
  }

  /** No processor is lost or duplicated unless the strategy filters. */
  lemma OptimizePermutes(pol: Policy, l: seq<Proc>)
    requires pol.strategy != Strict && pol.strategy != Filtered
    ensures multiset(OptimizedList(pol, l)) == multiset(l)
    ensures |OptimizedList(pol, l)| == |l|
  {
    PartitionIsPermutation(pol, l);
    assert |multiset(OptimizedList(pol, l))| == |multiset(l)|;
  }

  /** Under OVERRIDE_REJECT the chain after the next loop is the same with or without a
      preceding optimisation, which at most creates the buffer's empty list. */
  lemma OptimizeBeforeCleanup(pol: Policy, c: Core, b: Buf)
    requires pol.strategy == OverrideReject
    ensures b in c.lists ==> AfterLoop(pol, Optimize(pol, c, b), b) == AfterLoop(pol, c, b)
    ensures b !in c.lists ==> AfterLoop(pol, Optimize(pol, c, b), b) == AfterLoop(pol, c, b).(lists := c.lists[b := []])
  {
    var l := ListOf(c.lists, b);
    OptimizeIsIdempotent(pol, l);
    OptimizePermutes(pol, l);
    if b in c.lists { CleanupIgnores(pol, c, b, OptimizedList(pol, l)); }
  }

  lemma CleanupIgnores(pol: Policy, c: Core, b: Buf, k: seq<Proc>)
    requires pol.strategy == OverrideReject && b in c.lists
    requires |k| == |c.lists[b]| && Select(k, pol.Compatible()) == Select(c.lists[b], pol.Compatible())
    ensures AfterLoop(pol, c.(lists := c.lists[b := k]), b) == AfterLoop(pol, c, b)
  {
    var l := c.lists[b];
    if l == [] {
      assert k == [] && c.lists[b := k] == c.lists;
    } else {
      assert c.lists[b := k][b := Select(k, pol.Compatible())] == c.lists[b := Select(l, pol.Compatible())];
    }
  }

  /** Under STRICT or FILTERED, optimisation is exactly the order-preserving filter to the
      compatible processors. */
  lemma OptimizeFilters(pol: Policy, l: seq<Proc>, r: seq<Proc>)
    requires NoDup(l) && (pol.strategy == Strict || pol.strategy == Filtered)
    ensures r == OptimizedList(pol, l) <==> OrderedFilter(l, pol.Compatible(), r)
  {
    SelectIsOrderedFilter(l, pol.Compatible(), r);
    assert Select(l, pol.Compatible()) + [] == Select(l, pol.Compatible());
  }

  /** Tokens reach a processor through its constructor or `set_processing_token`, which
      rejects the others; with such tokens a STRICT list is unchanged by optimisation. */
  lemma StrictOptimizeIsIdentity(pol: Policy, l: seq<Proc>)
    requires pol.strategy == Strict
    requires forall p :: p in l ==> pol.Admits(p) && IsValidToken(pol.TokenOf(p))
    ensures OptimizedList(pol, l) == l
  {
    StrictOptimizeIff(pol, l);
    if l != [] {
      assert l[0] in l;
      SelfCompatibleIff(pol.mask);
    }
  }

  /** Without that assumption, a STRICT list of admitted processors survives optimisation
      exactly when the mask is compatible with itself; otherwise it is emptied. */
  lemma StrictOptimizeIff(pol: Policy, l: seq<Proc>)
    requires pol.strategy == Strict
    requires forall p :: p in l ==> pol.Admits(p)
    ensures OptimizedList(pol, l) == if AreTokensCompatible(pol.mask, pol.mask) then l else []
  {
    if AreTokensCompatible(pol.mask, pol.mask) {
      SelectAll(l, pol.Compatible());
    } else {
      SelectNone(l, pol.Compatible());
    }
  }

  /** A processor whose class writes the unvalidated token CPU_PROCESS | GPU_PROCESS is admitted
      by a chain with that mask, and optimised away. */
  lemma StrictOptimizeEmpties(p: Proc)
    ensures var token := CPU_PROCESS | GPU_PROCESS;
            var pol := Policy(Strict, token, map[p := token]);
            !IsValidToken(token) && pol.Admits(p) && OptimizedList(pol, [p]) == []
  {
    var token := CPU_PROCESS | GPU_PROCESS;
    var pol := Policy(Strict, token, map[p := token]);
    assert !Has(token, FRAME_RATE) && Has(token, CPU_PROCESS) && Has(token, GPU_PROCESS);
    SelfCompatibleIff(token);
    StrictOptimizeIff(pol, [p]);
  }

  /** Same members, and the compatible ones in the same order. */
  ghost predicate SameUpToOptimize(pol: Policy, c: Core, d: Core) {
    forall b: Buf :: SameOn(ListOf(c.lists, b), ListOf(d.lists, b), pol.Compatible())
  }

  lemma ApplyKeepsSame(pol: Policy, c: Core, d: Core, op: Op)
    requires SameUpToOptimize(pol, c, d)
    ensures SameUpToOptimize(pol, Apply(pol, c, op), Apply(pol, d, op))
  {
    var c', d' := Apply(pol, c, op), Apply(pol, d, op);
    forall b: Buf ensures SameOn(ListOf(c'.lists, b), ListOf(d'.lists, b), pol.Compatible()) {
      var l, k := ListOf(c.lists, b), ListOf(d.lists, b);
      assert SameOn(l, k, pol.Compatible());
      ApplyAt(pol, c, op, b);
      ApplyAt(pol, d, op, b);
      EditedSameOn(pol, l, k, op, pol.Compatible());
    }
  }

  lemma {:induction false} ApplyAllKeepsSame(pol: Policy, c: Core, d: Core, ops: seq<Op>)
    requires SameUpToOptimize(pol, c, d)
    ensures SameUpToOptimize(pol, ApplyAll(pol, c, ops), ApplyAll(pol, d, ops))
    decreases |ops|
  {
    if ops != [] {
      ApplyKeepsSame(pol, c, d, ops[0]);
      ApplyAllKeepsSame(pol, Apply(pol, c, ops[0]), Apply(pol, d, ops[0]), ops[1..]);
    }
  }

  lemma OptimizeKeepsSame(pol: Policy, c: Core, d: Core, b: Buf)
    requires SameUpToOptimize(pol, c, d) && pol.strategy == OverrideSkip
    ensures SameUpToOptimize(pol, Optimize(pol, c, b), d)
  {
    forall e: Buf ensures SameOn(ListOf(Optimize(pol, c, b).lists, e), ListOf(d.lists, e), pol.Compatible()) {
      var l := ListOf(c.lists, e);
      assert SameOn(l, ListOf(d.lists, e), pol.Compatible());
      OptimizedMembers(pol, l);
      OptimizeIsIdempotent(pol, l);
    }
  }

  ghost function DropOptimize(es: seq<Event>): seq<Event> {
    if es == [] then [] else (if es[0].OptimizeFor? then [] else [es[0]]) + DropOptimize(es[1..])
  }

  lemma StepKeepsSame(pol: Policy, m: Machine, n: Machine, e: Event)
    requires pol.strategy == OverrideSkip && !e.OptimizeFor?
    requires SameUpToOptimize(pol, m.core, n.core) && m.pending == n.pending && m.flagged == n.flagged
    ensures var m', n' := Step(pol, m, e), Step(pol, n, e);
            SameUpToOptimize(pol, m'.core, n'.core) && m'.pending == n'.pending && m'.flagged == n'.flagged
    ensures e.Process? ==> Ran(pol, m, e.b, e.throws) == Ran(pol, n, e.b, e.throws)
  {
    match e
    case Add(p, b, busy) => ApplyKeepsSame(pol, m.core, n.core, Op(true, p, b));
    case Remove(p, b) => ApplyKeepsSame(pol, m.core, n.core, Op(false, p, b));
    case Process(b, script, throws) =>
      ApplyAllKeepsSame(pol, m.core, n.core, m.pending);
      assert SameOn(Iterated(pol, m, b), Iterated(pol, n, b), pol.Compatible());
  }

  lemma {:induction false} OptimizeInvisible(pol: Policy, m: Machine, n: Machine, es: seq<Event>)
    requires pol.strategy == OverrideSkip
    requires SameUpToOptimize(pol, m.core, n.core) && m.pending == n.pending && m.flagged == n.flagged
    ensures Trace(pol, m, es) == Trace(pol, n, DropOptimize(es))
    decreases |es|
  {
    if es != [] {
      var rest := DropOptimize(es[1..]);
      if es[0].OptimizeFor? {
        OptimizeKeepsSame(pol, m.core, n.core, es[0].b);
        OptimizeInvisible(pol, Step(pol, m, es[0]), n, es[1..]);
        assert DropOptimize(es) == rest;
      } else {
        StepKeepsSame(pol, m, n, es[0]);
        OptimizeInvisible(pol, Step(pol, m, es[0]), Step(pol, n, es[0]), es[1..]);
        assert DropOptimize(es)[1..] == rest;
      }
    }
  }

  /** Under OVERRIDE_SKIP, deleting every `optimize_for_tokens` call from a run changes
      nothing any `process` call invokes. */
  lemma OptimizePreservesMeaning(pol: Policy, es: seq<Event>)
    requires pol.strategy == OverrideSkip
    ensures Trace(pol, START, es) == Trace(pol, START, DropOptimize(es))
  {
    forall b: Buf ensures SameOn(ListOf(EMPTY.lists, b), ListOf(EMPTY.lists, b), pol.Compatible()) {}
    OptimizeInvisible(pol, START, START, es);
  }
}
