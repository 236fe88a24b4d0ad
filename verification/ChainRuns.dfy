/** What holds in every state a chain can reach by adds, removes, `process` calls (with edits
    issued from inside running processors) and `optimize_for_tokens`, under fixed strategy,
    mask and processor tokens. */
module ChainRuns {
  import opened Tokens
  import opened Lists
  import opened Chain

  ghost function IncompatibleMembers(pol: Policy, l: seq<Proc>): set<Proc> {
    set p | p in l && !pol.Fits(p)
  }

  /** One buffer's entry: no duplicates, only admitted processors, and each bookkeeping set
      holds exactly the incompatible members under the strategy it serves. */
  ghost predicate Sound(pol: Policy, l: seq<Proc>, skips: set<Proc>, removals: set<Proc>) {
    && NoDup(l)
    && (forall p :: p in l ==> pol.Admits(p))
    && skips == (if pol.strategy == OverrideSkip then IncompatibleMembers(pol, l) else {})
    && removals == (if pol.strategy == OverrideReject then IncompatibleMembers(pol, l) else {})
  }

  /** The entry of buffer `b`. */
  ghost predicate SoundAt(pol: Policy, c: Core, b: Buf) {
    Sound(pol, ListOf(c.lists, b), SetOf(c.skips, b), SetOf(c.removals, b))
  }

  ghost predicate WellFormed(pol: Policy, c: Core) {
    forall b: Buf :: SoundAt(pol, c, b)
  }

  lemma AddKeepsEntry(pol: Policy, c: Core, p: Proc, b: Buf)
    requires SoundAt(pol, c, b) && pol.Admits(p)
    ensures SoundAt(pol, AddDirect(pol, c, p, b), b)
  {
    var l := ListOf(c.lists, b);
    var l' := if p in l then l else l + [p];
    if p !in l { AppendNoDup(l, [p]); }
    assert IncompatibleMembers(pol, l') == IncompatibleMembers(pol, l) + if pol.Fits(p) then {} else {p};
  }

  lemma AddKeeps(pol: Policy, c: Core, p: Proc, b: Buf)
    requires WellFormed(pol, c)
    ensures WellFormed(pol, AddDirect(pol, c, p, b))
  {
    if pol.Admits(p) {
      var c' := AddDirect(pol, c, p, b);
      forall d: Buf ensures SoundAt(pol, c', d) {
        assert SoundAt(pol, c, d);
        if d == b { AddKeepsEntry(pol, c, p, b); }
      }
    }
  }

  lemma RemoveKeeps(pol: Policy, c: Core, p: Proc, b: Buf)
    requires WellFormed(pol, c)
    ensures WellFormed(pol, RemoveDirect(c, p, b))
  {
    var l := ListOf(c.lists, b);
    assert SoundAt(pol, c, b);
    EraseMembers(l, p);
    assert IncompatibleMembers(pol, Erase(l, p)) == IncompatibleMembers(pol, l) - {p};
    forall d: Buf ensures SoundAt(pol, RemoveDirect(c, p, b), d) {
      assert SoundAt(pol, c, d);
    }
  }

  lemma ApplyKeeps(pol: Policy, c: Core, op: Op)
    requires WellFormed(pol, c)
    ensures WellFormed(pol, Apply(pol, c, op))
  {
    if op.isAddition { AddKeeps(pol, c, op.proc, op.buf); } else { RemoveKeeps(pol, c, op.proc, op.buf); }
  }

  lemma {:induction false} ApplyAllKeeps(pol: Policy, c: Core, ops: seq<Op>)
    requires WellFormed(pol, c)
    ensures WellFormed(pol, ApplyAll(pol, c, ops))
    decreases |ops|
  {
    if ops != [] {
      ApplyKeeps(pol, c, ops[0]);
      ApplyAllKeeps(pol, Apply(pol, c, ops[0]), ops[1..]);
    }
  }

  lemma AfterLoopKeeps(pol: Policy, c: Core, b: Buf)
    requires WellFormed(pol, c)
    ensures WellFormed(pol, AfterLoop(pol, c, b))
  {
    var l := ListOf(c.lists, b);
    assert SoundAt(pol, c, b);
    SelectMembers(l, pol.Compatible());
    SelectNoDup(l, pol.Compatible());
    forall d: Buf ensures SoundAt(pol, AfterLoop(pol, c, b), d) {
      assert SoundAt(pol, c, d);
    }
  }

  lemma OptimizedMembers(pol: Policy, l: seq<Proc>)
    requires NoDup(l)
    ensures NoDup(OptimizedList(pol, l))
    ensures forall p :: p in OptimizedList(pol, l) ==> p in l
    ensures forall p :: p in l && pol.Fits(p) ==> p in OptimizedList(pol, l)
    ensures pol.strategy != Strict && pol.strategy != Filtered ==>
              forall p :: p in l ==> p in OptimizedList(pol, l)
  {
    var yes, no := Select(l, pol.Compatible()), Select(l, pol.Incompatible());
    SelectMembers(l, pol.Compatible());
    SelectMembers(l, pol.Incompatible());
    SelectNoDup(l, pol.Compatible());
    SelectNoDup(l, pol.Incompatible());
    AppendNoDup(yes, no);
    assert yes + [] == yes;
  }

  lemma OptimizeKeeps(pol: Policy, c: Core, b: Buf)
    requires WellFormed(pol, c)
    ensures WellFormed(pol, Optimize(pol, c, b))
  {
    var l := ListOf(c.lists, b);
    assert SoundAt(pol, c, b);
    OptimizedMembers(pol, l);
    forall d: Buf ensures SoundAt(pol, Optimize(pol, c, b), d) {
      assert SoundAt(pol, c, d);
    }
  }

  lemma {:induction false} EnqueueAllIsPrefix(pending: seq<Op>, ops: seq<Op>)
    requires |pending| <= MAX_PENDING_PROCESSORS
    ensures EnqueueAll(pending, ops)
            == pending + if |pending| + |ops| <= MAX_PENDING_PROCESSORS then ops
                         else ops[..MAX_PENDING_PROCESSORS - |pending|]
    decreases |ops|
  {
    if ops != [] { EnqueueAllIsPrefix(Enqueue(pending, ops[0]), ops[1..]); }
  }

  ghost predicate Inv(pol: Policy, m: Machine) {
    WellFormed(pol, m.core) && |m.pending| <= MAX_PENDING_PROCESSORS
  }

  lemma LoopedKeeps(pol: Policy, c: Core, b: Buf, throws: Option<nat>)
    requires WellFormed(pol, c)
    ensures WellFormed(pol, Looped(pol, c, b, throws))
  {
    AfterLoopKeeps(pol, c, b);
  }

  lemma StepKeeps(pol: Policy, m: Machine, e: Event)
    requires Inv(pol, m)
    ensures Inv(pol, Step(pol, m, e))
  {
    match e
    case Add(p, b, busy) => AddKeeps(pol, m.core, p, b);
    case Remove(p, b) => RemoveKeeps(pol, m.core, p, b);
    case OptimizeFor(b) => OptimizeKeeps(pol, m.core, b);
    case Process(b, script, throws) =>
      ApplyAllKeeps(pol, m.core, m.pending);
      LoopedKeeps(pol, Drained(pol, m), b, throws);
      EnqueueAllIsPrefix([], Issued(script, |Ran(pol, m, b, throws)|));
  }

  lemma {:induction false} RunKeeps(pol: Policy, m: Machine, es: seq<Event>)
    requires Inv(pol, m)
    ensures Inv(pol, Run(pol, m, es))
    decreases |es|
  {
    if es != [] {
      StepKeeps(pol, m, es[0]);
      RunKeeps(pol, Step(pol, m, es[0]), es[1..]);
    }
  }

  /** Every reachable chain is duplicate-free, holds only admitted processors, and its
      bookkeeping sets equal the incompatible members of its lists. */
  lemma ReachableIsSound(pol: Policy, es: seq<Event>)
    ensures Inv(pol, Run(pol, START, es))
  {
    RunKeeps(pol, START, es);
  }

  // ----- what an edit and a loop do, strategy by strategy

  /** An add is turned away by a STRICT chain from any token but its own, and by a FILTERED
      chain from an incompatible one; no other chain turns any away. */
  ghost predicate TurnedAway(pol: Policy, p: Proc) {
    || (pol.strategy == Strict && pol.TokenOf(p) != pol.mask)
    || (pol.strategy == Filtered && !AreTokensCompatible(pol.mask, pol.TokenOf(p)))
  }

  ghost function Booked(m: map<Buf, set<Proc>>, b: Buf, p: Proc, due: bool): map<Buf, set<Proc>> {
    if due then m[b := SetOf(m, b) + {p}] else m
  }

  /** A refused add changes nothing and calls nobody. Any other leaves `p` listed on `b`, at
      the end if it is new, and then calls `on_attach`; an incompatible one is put down to be
      skipped under OVERRIDE_SKIP, to be removed under OVERRIDE_REJECT; nothing else changes. */
  lemma AddOutcome(pol: Policy, c: Core, p: Proc, b: Buf)
    ensures var c', l := AddDirect(pol, c, p, b), ListOf(c.lists, b);
            var clash := !AreTokensCompatible(pol.mask, pol.TokenOf(p));
            if TurnedAway(pol, p) then c' == c && HooksOf(pol, c, Op(true, p, b)) == []
            else
              && c'.lists == c.lists[b := if p in l then l else l + [p]]
              && HooksOf(pol, c, Op(true, p, b)) == (if p in l then [] else [OnAttach(p, b)])
              && c'.skips == Booked(c.skips, b, p, pol.strategy == OverrideSkip && clash)
              && c'.removals == Booked(c.removals, b, p, pol.strategy == OverrideReject && clash)
  {
  }

  ghost predicate SameEntry(c: Core, d: Core, b: Buf) {
    && ListOf(c.lists, b) == ListOf(d.lists, b)
    && SetOf(c.skips, b) == SetOf(d.skips, b) && SetOf(c.removals, b) == SetOf(d.removals, b)
  }

  /** A remove takes `p`, and it alone, off the list of `b` and off both sets, and calls
      `on_detach` if it was listed; other buffers keep their lists and sets. */
  lemma RemoveOutcome(pol: Policy, c: Core, p: Proc, b: Buf)
    requires WellFormed(pol, c)
    ensures var c' := RemoveDirect(c, p, b);
            && (forall q :: q in ListOf(c'.lists, b) <==> q in ListOf(c.lists, b) && q != p)
            && p !in SetOf(c'.skips, b) && p !in SetOf(c'.removals, b)
            && HooksOf(pol, c, Op(false, p, b)) == (if p in ListOf(c.lists, b) then [OnDetach(p, b)] else [])
            && (forall d: Buf :: d != b ==> SameEntry(c, c', d))
  {
    assert SoundAt(pol, c, b);
    EraseMembers(ListOf(c.lists, b), p);
  }

  /** A completed `process` call invokes every listed processor in list order, except that an
      OVERRIDE_SKIP chain passes over the incompatible ones; and it erases the incompatible
      ones if and only if the strategy is OVERRIDE_REJECT. */
  lemma LoopOutcome(pol: Policy, c: Core, b: Buf)
    requires WellFormed(pol, c)
    ensures var l := ListOf(c.lists, b);
            var fitting := iset p: Proc | AreTokensCompatible(pol.mask, pol.TokenOf(p));
            var (ran, threw) := Loop(pol, c, b, None);
            var after := ListOf(Looped(pol, c, b, None).lists, b);
            && !threw
            && (if pol.strategy == OverrideSkip then OrderedFilter(l, fitting, ran) else ran == l)
            && (if pol.strategy == OverrideReject then OrderedFilter(l, fitting, after) else after == l)
  {
    var l := ListOf(c.lists, b);
    assert SoundAt(pol, c, b);
    assert pol.Compatible() == iset p: Proc | AreTokensCompatible(pol.mask, pol.TokenOf(p));
    SelectIsOrderedFilter(l, pol.Compatible(), Select(l, pol.Compatible()));
  }

  // ----- OVERRIDE_REJECT: bounded execution of incompatible processors

  ghost function Present(m: Machine, p: Proc, b: Buf): nat {
    if p in ListOf(m.core.lists, b) then 1 else 0
  }

  /** Calls made on processors over a run. */
  ghost function RunHooks(pol: Policy, m: Machine, es: seq<Event>): seq<Hook>
    decreases |es|
  {
    if es == [] then [] else StepHooks(pol, m, es[0]) + RunHooks(pol, Step(pol, m, es[0]), es[1..])
  }

  /** Successful adds of `p` on `b`: each calls `on_attach` once. */
  ghost function Adds(pol: Policy, m: Machine, es: seq<Event>, p: Proc, b: Buf): nat {
    Count(RunHooks(pol, m, es), OnAttach(p, b))
  }

  /** Invocations of `p` on `b` made by one call. */
  ghost function ExecutionsIn(pol: Policy, m: Machine, e: Event, p: Proc, b: Buf): nat {
    match e
    case Process(d, _, throws) => if d == b then Count(Ran(pol, m, b, throws), p) else 0
    case _ => 0
  }

  ghost function Executions(pol: Policy, m: Machine, es: seq<Event>, p: Proc, b: Buf): nat
    decreases |es|
  {
    if es == [] then 0
    else ExecutionsIn(pol, m, es[0], p, b) + Executions(pol, Step(pol, m, es[0]), es[1..], p, b)
  }

  lemma {:induction false} CountNoDup<T>(s: seq<T>, x: T)
    requires NoDup(s)
    ensures Count(s, x) == if x in s then 1 else 0
  {
    if s != [] { CountNoDup(s[1..], x); }
  }

  lemma HooksOfCount(pol: Policy, c: Core, op: Op, p: Proc, b: Buf)
    requires WellFormed(pol, c)
    ensures var after := ListOf(Apply(pol, c, op).lists, b);
            Count(HooksOf(pol, c, op), OnAttach(p, b)) + (if p in ListOf(c.lists, b) then 1 else 0)
            == Count(HooksOf(pol, c, op), OnDetach(p, b)) + if p in after then 1 else 0
  {
    assert SoundAt(pol, c, op.buf);
    EraseMembers(ListOf(c.lists, op.buf), op.proc);
    CountOne(OnAttach(op.proc, op.buf), OnAttach(p, b));
    CountOne(OnAttach(op.proc, op.buf), OnDetach(p, b));
    CountOne(OnDetach(op.proc, op.buf), OnAttach(p, b));
    CountOne(OnDetach(op.proc, op.buf), OnDetach(p, b));
  }

  lemma CountOne<T>(x: T, y: T)
    ensures Count([x], y) == if x == y then 1 else 0
  {
    assert Count([x], y) == (if x == y then 1 else 0) + Count([], y);
  }

  /** Edits keep `p` listed as often as they attach it beyond detaching it. */
  lemma {:induction false} HooksAllCount(pol: Policy, c: Core, ops: seq<Op>, p: Proc, b: Buf)
    requires WellFormed(pol, c)
    ensures var after := ListOf(ApplyAll(pol, c, ops).lists, b);
            Count(HooksAll(pol, c, ops), OnAttach(p, b)) + (if p in ListOf(c.lists, b) then 1 else 0)
            == Count(HooksAll(pol, c, ops), OnDetach(p, b)) + if p in after then 1 else 0
    decreases |ops|
  {
    if ops != [] {
      var next := Apply(pol, c, ops[0]);
      HooksOfCount(pol, c, ops[0], p, b);
      ApplyKeeps(pol, c, ops[0]);
      HooksAllCount(pol, next, ops[1..], p, b);
      CountConcat(HooksOf(pol, c, ops[0]), HooksAll(pol, next, ops[1..]), OnAttach(p, b));
      CountConcat(HooksOf(pol, c, ops[0]), HooksAll(pol, next, ops[1..]), OnDetach(p, b));
    }
  }

  /** `p` is listed and a later `process` can reach it: none does once the chain is stuck. */
  ghost function Reachable(m: Machine, p: Proc, b: Buf): nat {
    if m.flagged then 0 else Present(m, p, b)
  }

  lemma PrefixCount<T>(s: seq<T>, n: nat, x: T)
    requires n <= |s|
    ensures Count(s[..n], x) <= Count(s, x)
  {
    assert s == s[..n] + s[n..];
    CountConcat(s[..n], s[n..], x);
  }

  /** One loop executes `p` at most once, and leaves it listed only if it threw. */
  lemma RejectLoop(pol: Policy, c: Core, b: Buf, throws: Option<nat>, p: Proc)
    requires WellFormed(pol, c) && pol.strategy == OverrideReject && !pol.Fits(p)
    ensures var (ran, threw) := Loop(pol, c, b, throws);
            Count(ran, p) <= (if p in ListOf(c.lists, b) then 1 else 0)
            && (!threw ==> p !in ListOf(Looped(pol, c, b, throws).lists, b))
  {
    var l := ListOf(c.lists, b);
    assert SoundAt(pol, c, b);
    CountNoDup(l, p);
    PrefixCount(l, |Loop(pol, c, b, throws).0|, p);
    SelectMembers(l, pol.Compatible());
  }

  lemma RejectProcess(pol: Policy, m: Machine, e: Event, p: Proc, b: Buf)
    requires Inv(pol, m) && pol.strategy == OverrideReject && !pol.Fits(p) && e.Process? && !m.flagged
    ensures ExecutionsIn(pol, m, e, p, b) + Reachable(Step(pol, m, e), p, b)
            <= Count(StepHooks(pol, m, e), OnAttach(p, b)) + Present(m, p, b)
  {
    ApplyAllKeeps(pol, m.core, m.pending);
    HooksAllCount(pol, m.core, m.pending, p, b);
    RejectLoop(pol, Drained(pol, m), b, e.throws, p);
    assert e.b != b ==> ListOf(Step(pol, m, e).core.lists, b) == ListOf(Drained(pol, m).lists, b);
  }

  lemma RejectStep(pol: Policy, m: Machine, e: Event, p: Proc, b: Buf)
    requires Inv(pol, m) && pol.strategy == OverrideReject && !pol.Fits(p)
    ensures ExecutionsIn(pol, m, e, p, b) + Reachable(Step(pol, m, e), p, b)
            <= Count(StepHooks(pol, m, e), OnAttach(p, b)) + Reachable(m, p, b)
  {
    assert SoundAt(pol, m.core, b);
    match e
    case Add(q, d, busy) => HooksOfCount(pol, m.core, Op(true, q, d), p, b);
    case Remove(q, d) => EraseMembers(ListOf(m.core.lists, b), q);
    case OptimizeFor(d) => OptimizedMembers(pol, ListOf(m.core.lists, b));
    case Process(d, script, throws) => if !m.flagged { RejectProcess(pol, m, e, p, b); }
  }

  /** Over any run under OVERRIDE_REJECT, throwing or not, an incompatible processor is
      executed at most once per successful add, and once less while it is still to be reached. */
  lemma {:induction false} RejectedRunAtMostOncePerAdd(pol: Policy, m: Machine, es: seq<Event>, p: Proc, b: Buf)
    requires Inv(pol, m) && pol.strategy == OverrideReject && !pol.Fits(p)
    ensures Executions(pol, m, es, p, b) + Reachable(Run(pol, m, es), p, b)
            <= Adds(pol, m, es, p, b) + Reachable(m, p, b)
    decreases |es|
  {
    if es != [] {
      RejectStep(pol, m, es[0], p, b);
      CountConcat(StepHooks(pol, m, es[0]), RunHooks(pol, Step(pol, m, es[0]), es[1..]), OnAttach(p, b));
      StepKeeps(pol, m, es[0]);
      RejectedRunAtMostOncePerAdd(pol, Step(pol, m, es[0]), es[1..], p, b);
    }
  }

  lemma RejectedRunFromStart(pol: Policy, es: seq<Event>, p: Proc, b: Buf)
    requires pol.strategy == OverrideReject && !pol.Fits(p)
    ensures Executions(pol, START, es, p, b) <= Adds(pol, START, es, p, b)
  {
    RejectedRunAtMostOncePerAdd(pol, START, es, p, b);
  }

  /** A throw skips the cleanup: the processor was executed for its one add and is still
      listed, but the chain is stuck. */
  lemma ThrowKeepsRejected(pol: Policy, p: Proc, b: Buf)
    requires pol.strategy == OverrideReject && !pol.Fits(p)
    ensures var es := [Add(p, b, false), Process(b, [], Some(0))];
            var m := Run(pol, START, es);
            Executions(pol, START, es, p, b) == Adds(pol, START, es, p, b) == Present(m, p, b) == 1 && m.flagged
  {
    var es := [Add(p, b, false), Process(b, [], Some(0))];
    var m := Step(pol, START, es[0]);
    var m' := Step(pol, m, es[1]);
    assert es[1..] == [es[1]] && es[1..][1..] == [];
    assert ListOf(m.core.lists, b) == [p] && Drained(pol, m) == m.core;
    assert [p][..0 + 1] == [p];
    assert Loop(pol, m.core, b, Some(0)) == ([p], true);
    assert m'.core == m.core && m'.flagged && Run(pol, m, es[1..]) == m';
    CountOne(p, p);
    assert Executions(pol, m, es[1..], p, b) == 1 && ExecutionsIn(pol, START, es[0], p, b) == 0;
    assert StepHooks(pol, START, es[0]) == [OnAttach(p, b)] && StepHooks(pol, m, es[1]) == [];
    assert RunHooks(pol, m, es[1..]) == [] + RunHooks(pol, m', []);
    assert RunHooks(pol, START, es) == [OnAttach(p, b)] + [];
    assert [OnAttach(p, b)] + [] == [OnAttach(p, b)];
    CountOne(OnAttach(p, b), OnAttach(p, b));
  }

  /** A stuck chain stays stuck and invokes nothing. */
  lemma {:induction false} StuckChainRunsNothing(pol: Policy, m: Machine, es: seq<Event>, p: Proc, b: Buf)
    requires m.flagged
    ensures Run(pol, m, es).flagged && Executions(pol, m, es, p, b) == 0
    decreases |es|
  {
    if es != [] { StuckChainRunsNothing(pol, Step(pol, m, es[0]), es[1..], p, b); }
  }

  // ----- attach and detach calls

  /** `p` leaves the list of `b` without `on_detach`: erased by the cleanup of `process`, or
      filtered out by an optimisation. */
  ghost function Dropped(pol: Policy, m: Machine, e: Event, p: Proc, b: Buf): nat {
    match e
    case Process(d, _, throws) =>
      if d == b && !m.flagged && !Loop(pol, Drained(pol, m), b, throws).1
         && pol.strategy == OverrideReject && !pol.Fits(p) && p in Iterated(pol, m, b) then 1 else 0
    case OptimizeFor(d) =>
      if d == b && (pol.strategy == Strict || pol.strategy == Filtered) && !pol.Fits(p)
         && p in ListOf(m.core.lists, b) then 1 else 0
    case _ => 0
  }

  ghost function AllDropped(pol: Policy, m: Machine, es: seq<Event>, p: Proc, b: Buf): nat
    decreases |es|
  {
    if es == [] then 0 else Dropped(pol, m, es[0], p, b) + AllDropped(pol, Step(pol, m, es[0]), es[1..], p, b)
  }

  lemma HooksStep(pol: Policy, m: Machine, e: Event, p: Proc, b: Buf)
    requires Inv(pol, m)
    ensures Count(StepHooks(pol, m, e), OnAttach(p, b)) + Present(m, p, b)
            == Count(StepHooks(pol, m, e), OnDetach(p, b)) + Present(Step(pol, m, e), p, b) + Dropped(pol, m, e, p, b)
  {
    match e
    case Add(q, d, busy) => HooksOfCount(pol, m.core, Op(true, q, d), p, b);
    case Remove(q, d) => HooksOfCount(pol, m.core, Op(false, q, d), p, b);
    case OptimizeFor(d) =>
      SelectMembers(ListOf(m.core.lists, b), pol.Compatible());
      SelectMembers(ListOf(m.core.lists, b), pol.Incompatible());
    case Process(d, script, throws) =>
      HooksAllCount(pol, m.core, m.pending, p, b);
      SelectMembers(Iterated(pol, m, b), pol.Compatible());
  }

  /** Over any run, `on_attach` calls for `p` on `b` beyond `on_detach` calls are accounted for
      by its being listed, or having been dropped without a call. */
  lemma {:induction false} HooksBalance(pol: Policy, m: Machine, es: seq<Event>, p: Proc, b: Buf)
    requires Inv(pol, m)
    ensures Count(RunHooks(pol, m, es), OnAttach(p, b)) + Present(m, p, b)
            == Count(RunHooks(pol, m, es), OnDetach(p, b)) + Present(Run(pol, m, es), p, b)
                + AllDropped(pol, m, es, p, b)
    decreases |es|
  {
    if es != [] {
      var m' := Step(pol, m, es[0]);
      HooksStep(pol, m, es[0], p, b);
      StepKeeps(pol, m, es[0]);
      HooksBalance(pol, m', es[1..], p, b);
      CountConcat(StepHooks(pol, m, es[0]), RunHooks(pol, m', es[1..]), OnAttach(p, b));
      CountConcat(StepHooks(pol, m, es[0]), RunHooks(pol, m', es[1..]), OnDetach(p, b));
    }
  }

  // ----- relative order of compatible processors

  ghost predicate Keeps(ops: seq<Op>, p: Proc, b: Buf) {
    Op(false, p, b) !in ops
  }

  /** The call neither removes `p` from `b` itself nor invokes a processor that asks for it. */
  ghost predicate KeptBy(e: Event, p: Proc, b: Buf) {
    match e
    case Remove(x, d) => x != p || d != b
    case Process(_, script, _) => forall ops :: ops in script ==> Keeps(ops, p, b)
    case _ => true
  }

  ghost predicate NeverRemoved(es: seq<Event>, p: Proc, b: Buf) {
    forall e :: e in es ==> KeptBy(e, p, b)
  }

  lemma {:induction false} FlattenKeeps(ss: seq<seq<Op>>, p: Proc, b: Buf)
    requires forall ops :: ops in ss ==> Keeps(ops, p, b)
    ensures Keeps(Flatten(ss), p, b)
  {
    if ss != [] {
      assert ss[0] in ss;
      FlattenKeeps(ss[1..], p, b);
    }
  }

  lemma ApplyKeepsOrder(pol: Policy, c: Core, op: Op, p: Proc, q: Proc, b: Buf)
    requires Before(ListOf(c.lists, b), p, q)
    requires op != Op(false, p, b) && op != Op(false, q, b)
    ensures Before(ListOf(Apply(pol, c, op).lists, b), p, q)
  {
    var l := ListOf(c.lists, b);
    if op.buf == b {
      if op.isAddition {
        BeforeAppend([], l, [op.proc], p, q);
        assert [] + l + [op.proc] == l + [op.proc];
      } else {
        EraseBefore(l, op.proc, p, q);
      }
    }
  }

  lemma {:induction false} ApplyAllKeepsOrder(pol: Policy, c: Core, ops: seq<Op>, p: Proc, q: Proc, b: Buf)
    requires Before(ListOf(c.lists, b), p, q)
    requires Keeps(ops, p, b) && Keeps(ops, q, b)
    ensures Before(ListOf(ApplyAll(pol, c, ops).lists, b), p, q)
    decreases |ops|
  {
    if ops != [] {
      ApplyKeepsOrder(pol, c, ops[0], p, q, b);
      ApplyAllKeepsOrder(pol, Apply(pol, c, ops[0]), ops[1..], p, q, b);
    }
  }

  lemma OptimizeKeepsOrder(pol: Policy, l: seq<Proc>, p: Proc, q: Proc)
    requires Before(l, p, q) && pol.Fits(p) && pol.Fits(q)
    ensures Before(OptimizedList(pol, l), p, q)
  {
    var yes := Select(l, pol.Compatible());
    var tail := OptimizedList(pol, l)[|yes|..];
    SelectBefore(l, pol.Compatible(), p, q);
    BeforeAppend([], yes, tail, p, q);
    assert OptimizedList(pol, l) == [] + yes + tail;
  }

  /** What a `process` call queues removes `p` only if some invoked processor asks for it. */
  lemma QueuedKeeps(script: seq<seq<Op>>, n: nat, p: Proc, b: Buf)
    requires forall ops :: ops in script ==> Keeps(ops, p, b)
    ensures Keeps(EnqueueAll([], Issued(script, n)), p, b)
  {
    FlattenKeeps(if n <= |script| then script[..n] else script, p, b);
    EnqueueAllIsPrefix([], Issued(script, n));
  }

  lemma LoopKeepsOrder(pol: Policy, c: Core, d: Buf, p: Proc, q: Proc, b: Buf)
    requires Before(ListOf(c.lists, b), p, q) && pol.Fits(p) && pol.Fits(q)
    ensures Before(ListOf(AfterLoop(pol, c, d).lists, b), p, q)
  {
    if d == b { SelectBefore(ListOf(c.lists, b), pol.Compatible(), p, q); }
  }

  lemma StepKeepsOrder(pol: Policy, m: Machine, e: Event, p: Proc, q: Proc, b: Buf)
    requires Before(ListOf(m.core.lists, b), p, q) && pol.Fits(p) && pol.Fits(q)
    requires Keeps(m.pending, p, b) && Keeps(m.pending, q, b)
    requires KeptBy(e, p, b) && KeptBy(e, q, b)
    ensures var m' := Step(pol, m, e);
            Before(ListOf(m'.core.lists, b), p, q) && Keeps(m'.pending, p, b) && Keeps(m'.pending, q, b)
  {
    match e
    case Add(x, d, busy) => ApplyKeepsOrder(pol, m.core, Op(true, x, d), p, q, b);
    case Remove(x, d) => ApplyKeepsOrder(pol, m.core, Op(false, x, d), p, q, b);
    case OptimizeFor(d) => OptimizeKeepsOrder(pol, ListOf(m.core.lists, b), p, q);
    case Process(d, script, throws) =>
      ApplyAllKeepsOrder(pol, m.core, m.pending, p, q, b);
      LoopKeepsOrder(pol, Drained(pol, m), d, p, q, b);
      var n := |Ran(pol, m, d, throws)|;
      QueuedKeeps(script, n, p, b);
      QueuedKeeps(script, n, q, b);
  }

  /** Compatible processors keep their relative order over any run that removes neither. */
  lemma {:induction false} CompatibleOrderKept(pol: Policy, m: Machine, es: seq<Event>, p: Proc, q: Proc, b: Buf)
    requires Before(ListOf(m.core.lists, b), p, q) && pol.Fits(p) && pol.Fits(q)
    requires Keeps(m.pending, p, b) && Keeps(m.pending, q, b)
    requires NeverRemoved(es, p, b) && NeverRemoved(es, q, b)
    ensures Before(ListOf(Run(pol, m, es).core.lists, b), p, q)
    decreases |es|
  {
    if es != [] {
      assert es[0] in es;
      StepKeepsOrder(pol, m, es[0], p, q, b);
      CompatibleOrderKept(pol, Step(pol, m, es[0]), es[1..], p, q, b);
    }
  }
}
