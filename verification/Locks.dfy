/** The non-blocking locks of the buffer subsystem: a buffer's processing flag, a processor's
    activity counter and a chain's processing flag. Calls of `BufferProcessor::process`,
    `process_non_owning` and `BufferProcessingChain::process` interleave freely at every
    atomic step; nested calls are among these interleavings. */
module Locks {

  type Id = nat

  datatype Kind = Owning(proc: Id, buf: Id) | NonOwning(proc: Id) | ChainProcess(chain: Id)

  datatype Outcome = Skipped | Returned | Threw

  /** `Leaving` is after the processing function, `Released` after the buffer flag is
      cleared; both remember whether an exception is in flight. */
  datatype Pc = Start | Acquired | Running | Leaving(thrown: bool) | Released(thrown: bool) | Ended(outcome: Outcome)

  datatype Call = Call(kind: Kind, pc: Pc) {
    /** Between a successful acquire of `b` and its release. */
    predicate Holds(b: Id) {
      kind.Owning? && kind.buf == b && (pc.Acquired? || pc.Running? || pc.Leaving?)
    }

    /** Between the increment and the decrement of `p`'s counter. */
    predicate Counts(p: Id) {
      match kind
      case Owning(q, _) => q == p && (pc.Running? || pc.Leaving? || pc.Released?)
      case NonOwning(q) => q == p && (pc.Running? || pc.Leaving?)
      case ChainProcess(_) => false
    }

    /** Inside `process` of chain `c`. */
    predicate Inside(c: Id) {
      kind == ChainProcess(c) && (pc.Running? || pc.Leaving?)
    }

    /** Inside, or left by an exception without clearing the flag. */
    predicate Occupies(c: Id) {
      Inside(c) || (kind == ChainProcess(c) && pc == Ended(Threw))
    }
  }

  datatype Sys = Sys(held: set<Id>, active: map<Id, int>, entered: set<Id>, calls: map<Id, Call>)

  const INIT := Sys({}, map[], {}, map[])

  function ActiveOf(s: Sys, p: Id): int {
    if p in s.active then s.active[p] else 0
  }

  function At(s: Sys, k: Id, pc: Pc): map<Id, Call>
    requires k in s.calls
  {
    s.calls[k := Call(s.calls[k].kind, pc)]
  }

  /** `Advance` makes call `k` take its next atomic step; `throws` decides whether the code
      run inside raises. */
  datatype Move = Begin(k: Id, kind: Kind) | Advance(k: Id, throws: bool)

  function AdvanceOwning(s: Sys, k: Id, p: Id, b: Id, throws: bool): Sys
    requires k in s.calls
  {
    match s.calls[k].pc
    case Start =>
      if b in s.held then Sys(s.held, s.active, s.entered, At(s, k, Ended(Skipped)))
      else Sys(s.held + {b}, s.active, s.entered, At(s, k, Acquired))
    case Acquired => Sys(s.held, s.active[p := ActiveOf(s, p) + 1], s.entered, At(s, k, Running))
    case Running => Sys(s.held, s.active, s.entered, At(s, k, Leaving(throws)))
    case Leaving(t) => Sys(s.held - {b}, s.active, s.entered, At(s, k, Released(t)))
    case Released(t) =>
      Sys(s.held, s.active[p := ActiveOf(s, p) - 1], s.entered, At(s, k, Ended(if t then Threw else Returned)))
    case Ended(_) => s
  }

  function AdvanceNonOwning(s: Sys, k: Id, p: Id, throws: bool): Sys
    requires k in s.calls
  {
    match s.calls[k].pc
    case Start => Sys(s.held, s.active[p := ActiveOf(s, p) + 1], s.entered, At(s, k, Running))
    case Running => Sys(s.held, s.active, s.entered, At(s, k, Leaving(throws)))
    case Leaving(t) =>
      Sys(s.held, s.active[p := ActiveOf(s, p) - 1], s.entered, At(s, k, Ended(if t then Threw else Returned)))
    case _ => s
  }

  /** A processor that throws inside the loop leaves the chain's flag set. */
  function AdvanceChain(s: Sys, k: Id, c: Id, throws: bool): Sys
    requires k in s.calls
  {
    match s.calls[k].pc
    case Start =>
      if c in s.entered then Sys(s.held, s.active, s.entered, At(s, k, Ended(Skipped)))
      else Sys(s.held, s.active, s.entered + {c}, At(s, k, Running))
    case Running => Sys(s.held, s.active, s.entered, At(s, k, if throws then Ended(Threw) else Leaving(false)))
    case Leaving(_) => Sys(s.held, s.active, s.entered - {c}, At(s, k, Ended(Returned)))
    case _ => s
  }

  function Step(s: Sys, mv: Move): Sys {
    match mv
    case Begin(k, kind) => if k in s.calls then s else Sys(s.held, s.active, s.entered, s.calls[k := Call(kind, Start)])
    case Advance(k, throws) =>
      if k !in s.calls then s
      else
        match s.calls[k].kind
        case Owning(p, b) => AdvanceOwning(s, k, p, b, throws)
        case NonOwning(p) => AdvanceNonOwning(s, k, p, throws)
        case ChainProcess(c) => AdvanceChain(s, k, c, throws)
  }

  ghost function Exec(s: Sys, mvs: seq<Move>): Sys
    decreases |mvs|
  {
    if mvs == [] then s else Exec(Step(s, mvs[0]), mvs[1..])
  }

  ghost function Holders(s: Sys, b: Id): set<Id> {
    set k | k in s.calls && s.calls[k].Holds(b)
  }

  ghost function Counters(s: Sys, p: Id): set<Id> {
    set k | k in s.calls && s.calls[k].Counts(p)
  }

  ghost function Occupants(s: Sys, c: Id): set<Id> {
    set k | k in s.calls && s.calls[k].Occupies(c)
  }

  /** Calls reach only the program points of their kind. */
  predicate PcOk(call: Call) {
    match call.kind
    case Owning(_, _) => true
    case NonOwning(_) => !call.pc.Acquired? && !call.pc.Released?
    case ChainProcess(_) => !call.pc.Acquired? && !call.pc.Released? && (call.pc.Leaving? ==> !call.pc.thrown)
  }

  /** A flag is set exactly when one call is between setting and clearing it; a counter is
      the number of calls in its counted region. */
  ghost predicate Inv(s: Sys) {
    && (forall k :: k in s.calls ==> PcOk(s.calls[k]))
    && (forall b: Id :: BufferOk(s, b))
    && (forall p: Id :: CounterOk(s, p))
    && (forall c: Id :: ChainOk(s, c))
  }

  ghost predicate BufferOk(s: Sys, b: Id) {
    |Holders(s, b)| == if b in s.held then 1 else 0
  }

  ghost predicate CounterOk(s: Sys, p: Id) {
    |Counters(s, p)| == ActiveOf(s, p)
  }

  ghost predicate ChainOk(s: Sys, c: Id) {
    |Occupants(s, c)| == if c in s.entered then 1 else 0
  }

  function One(b: bool): nat {
    if b then 1 else 0
  }

  lemma SizeMinus(s: set<Id>, k: Id)
    ensures |s - {k}| == |s| - One(k in s)
  {
    if k !in s { assert s - {k} == s; }
  }

  /** Only call `k` moved, so each set changes by `k` alone. */
  ghost predicate OnlyMoved(s: Sys, r: Sys, k: Id) {
    k in s.calls && k in r.calls && r.calls == s.calls[k := r.calls[k]]
  }

  lemma HoldersMove(s: Sys, r: Sys, k: Id, x: Id)
    requires OnlyMoved(s, r, k)
    ensures |Holders(r, x)| == |Holders(s, x)| - One(s.calls[k].Holds(x)) + One(r.calls[k].Holds(x))
  {
    assert Holders(r, x) - {k} == Holders(s, x) - {k};
    SizeMinus(Holders(r, x), k);
    SizeMinus(Holders(s, x), k);
  }

  lemma CountersMove(s: Sys, r: Sys, k: Id, x: Id)
    requires OnlyMoved(s, r, k)
    ensures |Counters(r, x)| == |Counters(s, x)| - One(s.calls[k].Counts(x)) + One(r.calls[k].Counts(x))
  {
    assert Counters(r, x) - {k} == Counters(s, x) - {k};
    SizeMinus(Counters(r, x), k);
    SizeMinus(Counters(s, x), k);
  }

  lemma OccupantsMove(s: Sys, r: Sys, k: Id, x: Id)
    requires OnlyMoved(s, r, k)
    ensures |Occupants(r, x)| == |Occupants(s, x)| - One(s.calls[k].Occupies(x)) + One(r.calls[k].Occupies(x))
  {
    assert Occupants(r, x) - {k} == Occupants(s, x) - {k};
    SizeMinus(Occupants(r, x), k);
    SizeMinus(Occupants(s, x), k);
  }

  lemma HolderIsFlagged(s: Sys, k: Id, b: Id)
    requires Inv(s) && k in s.calls && s.calls[k].Holds(b)
    ensures b in s.held && Holders(s, b) == {k}
  {
    assert BufferOk(s, b) && k in Holders(s, b);
    assert |Holders(s, b) - {k}| == |Holders(s, b)| - 1;
  }

  lemma OccupantIsFlagged(s: Sys, k: Id, c: Id)
    requires Inv(s) && k in s.calls && s.calls[k].Occupies(c)
    ensures c in s.entered && Occupants(s, c) == {k}
  {
    assert ChainOk(s, c) && k in Occupants(s, c);
    assert |Occupants(s, c) - {k}| == |Occupants(s, c)| - 1;
  }

  lemma AdvanceKeepsBuffer(s: Sys, k: Id, throws: bool, x: Id)
    requires Inv(s) && k in s.calls
    ensures BufferOk(Step(s, Advance(k, throws)), x)
  {
    var r := Step(s, Advance(k, throws));
    HoldersMove(s, r, k, x);
    assert BufferOk(s, x) && PcOk(s.calls[k]);
    if s.calls[k].Holds(x) { HolderIsFlagged(s, k, x); }
  }

  /** A step moves the counter by what it moves the call in or out of its counted region. */
  lemma CounterFollows(s: Sys, k: Id, throws: bool, x: Id)
    requires k in s.calls && PcOk(s.calls[k])
    ensures var r := Step(s, Advance(k, throws));
            && OnlyMoved(s, r, k)
            && ActiveOf(r, x) == ActiveOf(s, x) - One(s.calls[k].Counts(x)) + One(r.calls[k].Counts(x))
  {
  }

  lemma AdvanceKeepsCounter(s: Sys, k: Id, throws: bool, x: Id)
    requires Inv(s) && k in s.calls
    ensures CounterOk(Step(s, Advance(k, throws)), x)
  {
    assert CounterOk(s, x) && PcOk(s.calls[k]);
    CounterFollows(s, k, throws, x);
    CountersMove(s, Step(s, Advance(k, throws)), k, x);
  }

  lemma AdvanceKeepsChain(s: Sys, k: Id, throws: bool, x: Id)
    requires Inv(s) && k in s.calls
    ensures ChainOk(Step(s, Advance(k, throws)), x)
  {
    OccupantsMove(s, Step(s, Advance(k, throws)), k, x);
    assert ChainOk(s, x) && PcOk(s.calls[k]);
    if s.calls[k].Occupies(x) { OccupantIsFlagged(s, k, x); }
  }

  lemma AdvanceKeeps(s: Sys, k: Id, throws: bool)
    requires Inv(s) && k in s.calls
    ensures Inv(Step(s, Advance(k, throws)))
  {
    var r := Step(s, Advance(k, throws));
    assert PcOk(s.calls[k]);
    forall x: Id ensures BufferOk(r, x) { AdvanceKeepsBuffer(s, k, throws, x); }
    forall x: Id ensures CounterOk(r, x) { AdvanceKeepsCounter(s, k, throws, x); }
    forall x: Id ensures ChainOk(r, x) { AdvanceKeepsChain(s, k, throws, x); }
  }

  lemma BeginKeeps(s: Sys, k: Id, kind: Kind)
    requires Inv(s) && k !in s.calls
    ensures Inv(Step(s, Begin(k, kind)))
  {
    var r := Step(s, Begin(k, kind));
    forall x: Id ensures BufferOk(r, x) && CounterOk(r, x) && ChainOk(r, x) {
      assert BufferOk(s, x) && CounterOk(s, x) && ChainOk(s, x);
      assert Holders(r, x) == Holders(s, x);
      assert Counters(r, x) == Counters(s, x);
      assert Occupants(r, x) == Occupants(s, x);
    }
  }

  lemma StepKeeps(s: Sys, mv: Move)
    requires Inv(s)
    ensures Inv(Step(s, mv))
  {
    match mv
    case Begin(k, kind) => if k !in s.calls { BeginKeeps(s, k, kind); }
    case Advance(k, throws) => if k in s.calls { AdvanceKeeps(s, k, throws); }
  }

  lemma {:induction false} ExecKeeps(s: Sys, mvs: seq<Move>)
    requires Inv(s)
    ensures Inv(Exec(s, mvs))
    decreases |mvs|
  {
    if mvs != [] {
      StepKeeps(s, mvs[0]);
      ExecKeeps(Step(s, mvs[0]), mvs[1..]);
    }
  }

  /** In every interleaving of any calls, normal or throwing: a buffer's flag is set exactly
      when one call holds it, a processor's counter is the number of calls in its counted
      region, and a chain's flag is set exactly when one call is inside or died inside. */
  lemma EveryInterleaving(mvs: seq<Move>)
    ensures Inv(Exec(INIT, mvs))
  {
    forall x: Id ensures BufferOk(INIT, x) && CounterOk(INIT, x) && ChainOk(INIT, x) {
      assert Holders(INIT, x) == {} && Counters(INIT, x) == {} && Occupants(INIT, x) == {};
    }
    ExecKeeps(INIT, mvs);
  }

  /** Mutual exclusion, also on runs that throw. */
  lemma AtMostOne(mvs: seq<Move>, j: Id, k: Id)
    requires var s := Exec(INIT, mvs); j in s.calls && k in s.calls
    ensures var s := Exec(INIT, mvs);
            && (forall b :: s.calls[j].Holds(b) && s.calls[k].Holds(b) ==> j == k)
            && (forall c :: s.calls[j].Inside(c) && s.calls[k].Inside(c) ==> j == k)
  {
    var s := Exec(INIT, mvs);
    EveryInterleaving(mvs);
    forall b | s.calls[j].Holds(b) && s.calls[k].Holds(b) ensures j == k {
      HolderIsFlagged(s, j, b);
      HolderIsFlagged(s, k, b);
    }
    forall c | s.calls[j].Inside(c) && s.calls[k].Inside(c) ensures j == k {
      OccupantIsFlagged(s, j, c);
      OccupantIsFlagged(s, k, c);
    }
  }

  /** No step of another call, whether its acquire fails or it is on its way out, releases a
      lock that `h` holds. */
  lemma OthersNeverRelease(s: Sys, h: Id, b: Id, mv: Move)
    requires Inv(s) && h in s.calls && s.calls[h].Holds(b)
    requires mv.Advance? ==> mv.k != h
    ensures var r := Step(s, mv); b in r.held && h in r.calls && r.calls[h] == s.calls[h]
  {
    HolderIsFlagged(s, h, b);
    if mv.Advance? && mv.k in s.calls && s.calls[mv.k].kind.Owning? && s.calls[mv.k].pc.Leaving? {
      HolderIsFlagged(s, mv.k, s.calls[mv.k].kind.buf);
    }
  }

  /** Exceptions leak neither a buffer lock nor a count: once every call has ended, no flag
      is set and every counter is zero. */
  lemma NoLeaks(mvs: seq<Move>)
    requires forall k :: k in Exec(INIT, mvs).calls ==> Exec(INIT, mvs).calls[k].pc.Ended?
    ensures var s := Exec(INIT, mvs); s.held == {} && forall p: Id :: ActiveOf(s, p) == 0
  {
    var s := Exec(INIT, mvs);
    EveryInterleaving(mvs);
    forall x: Id ensures Holders(s, x) == {} && Counters(s, x) == {} {}
    forall b: Id ensures b !in s.held { assert BufferOk(s, b); }
    forall p: Id ensures ActiveOf(s, p) == 0 { assert CounterOk(s, p); }
  }

  /** A chain whose `process` threw never runs again: no later call gets inside. */
  lemma {:induction false} ThrownChainIsWedged(s: Sys, k: Id, c: Id, mvs: seq<Move>, j: Id)
    requires Inv(s) && k in s.calls && s.calls[k] == Call(ChainProcess(c), Ended(Threw))
    ensures var r := Exec(s, mvs); c in r.entered && (j in r.calls ==> !r.calls[j].Inside(c))
    decreases |mvs|
  {
    if mvs == [] {
      OccupantIsFlagged(s, k, c);
      if j in s.calls && s.calls[j].Inside(c) { OccupantIsFlagged(s, j, c); }
    } else {
      StepKeeps(s, mvs[0]);
      ThrownChainIsWedged(Step(s, mvs[0]), k, c, mvs[1..], j);
    }
  }

  /** Without exceptions the chain's flag is set exactly while a call is inside. */
  lemma {:induction false} NonThrowingFlag(mvs: seq<Move>, c: Id)
    requires forall k :: k in Exec(INIT, mvs).calls ==> Exec(INIT, mvs).calls[k].pc != Ended(Threw)
    ensures var s := Exec(INIT, mvs); c in s.entered <==> exists k :: k in s.calls && s.calls[k].Inside(c)
  {
    var s := Exec(INIT, mvs);
    EveryInterleaving(mvs);
    if c in s.entered {
      assert ChainOk(s, c);
      var k :| k in Occupants(s, c);
      assert s.calls[k].Inside(c);
    }
    if k :| k in s.calls && s.calls[k].Inside(c) { OccupantIsFlagged(s, k, c); }
  }

  // ----- who gets in, and how calls end

  /** A lock that turns call `k` away is held by somebody else. */
  ghost predicate Busy(s: Sys, kind: Kind) {
    match kind
    case Owning(_, b) => exists j :: j in s.calls && s.calls[j].Holds(b)
    case NonOwning(_) => false
    case ChainProcess(c) => exists j :: j in s.calls && s.calls[j].Occupies(c)
  }

  lemma BusyIff(s: Sys, kind: Kind)
    requires Inv(s)
    ensures match kind
            case Owning(_, b) => Busy(s, kind) <==> b in s.held
            case NonOwning(_) => !Busy(s, kind)
            case ChainProcess(c) => Busy(s, kind) <==> c in s.entered
  {
    match kind
    case Owning(_, b) =>
      assert BufferOk(s, b);
      if b in s.held {
        var j :| j in Holders(s, b);
        assert s.calls[j].Holds(b);
      }
      if Busy(s, kind) {
        var j :| j in s.calls && s.calls[j].Holds(b);
        HolderIsFlagged(s, j, b);
      }
    case NonOwning(_) =>
    case ChainProcess(c) =>
      assert ChainOk(s, c);
      if c in s.entered {
        var j :| j in Occupants(s, c);
        assert s.calls[j].Occupies(c);
      }
      if Busy(s, kind) {
        var j :| j in s.calls && s.calls[j].Occupies(c);
        OccupantIsFlagged(s, j, c);
      }
  }

  /** A call is skipped if and only if another holds its buffer, or occupies its chain;
      otherwise it gets in, and goes on into the region in which it runs. */
  lemma GetsInIff(mvs: seq<Move>, k: Id, throws: bool)
    requires k in Exec(INIT, mvs).calls && Exec(INIT, mvs).calls[k].pc == Start
    ensures var s := Exec(INIT, mvs);
            var kind := s.calls[k].kind;
            var r := Step(s, Advance(k, throws));
            && (r.calls[k].pc == Ended(Skipped) <==> Busy(s, kind))
            && (!Busy(s, kind) ==>
                  match kind
                  case Owning(p, b) =>
                    && r.calls[k].pc == Acquired && r.calls[k].Holds(b)
                    && Step(r, Advance(k, throws)).calls[k].pc == Running
                    && Step(r, Advance(k, throws)).calls[k].Counts(p)
                  case NonOwning(p) => r.calls[k].pc == Running && r.calls[k].Counts(p)
                  case ChainProcess(c) => r.calls[k].pc == Running && r.calls[k].Inside(c))
  {
    EveryInterleaving(mvs);
    BusyIff(Exec(INIT, mvs), Exec(INIT, mvs).calls[k].kind);
  }

  /** Calls are made at any time; one that is under way is not made again. */
  lemma CallsBegin(s: Sys, k: Id, kind: Kind)
    ensures var r := Step(s, Begin(k, kind));
            && r.calls == (if k in s.calls then s.calls else s.calls[k := Call(kind, Start)])
            && r.held == s.held && r.active == s.active && r.entered == s.entered
  {
  }

  lemma TwoSteps(a: Move, b: Move)
    ensures Exec(INIT, [a, b]) == Step(Step(INIT, a), b)
  {
    assert [a, b][1..] == [b] && [b][1..] == [];
    assert Exec(Step(INIT, a), [b]) == Exec(Step(Step(INIT, a), b), []);
  }

  /** From the start: a first call takes its lock, and a second one on the same buffer, or into
      the same chain, is then turned away. */
  lemma FirstComesFirst(p: Id, q: Id, b: Id, c: Id)
    ensures var s := Exec(INIT, [Begin(0, Owning(p, b)), Advance(0, false)]);
            && 0 in s.calls && s.calls[0].pc == Acquired && b in s.held
            && var t := Step(Step(s, Begin(1, Owning(q, b))), Advance(1, false));
               1 in t.calls && t.calls[1].pc == Ended(Skipped) && t.held == s.held
    ensures var s := Exec(INIT, [Begin(0, ChainProcess(c)), Advance(0, false)]);
            && 0 in s.calls && s.calls[0].pc == Running && c in s.entered
            && var t := Step(Step(s, Begin(1, ChainProcess(c))), Advance(1, false));
               1 in t.calls && t.calls[1].pc == Ended(Skipped) && t.entered == s.entered
  {
    TwoSteps(Begin(0, Owning(p, b)), Advance(0, false));
    TwoSteps(Begin(0, ChainProcess(c)), Advance(0, false));
  }

  /** Actions call `k` has still to take. */
  function Remaining(pc: Pc): nat {
    match pc
    case Start => 5
    case Acquired => 4
    case Running => 3
    case Leaving(_) => 2
    case Released(_) => 1
    case Ended(_) => 0
  }

  lemma OwnAction(s: Sys, k: Id, throws: bool)
    requires k in s.calls && PcOk(s.calls[k]) && !s.calls[k].pc.Ended?
    ensures var r := Step(s, Advance(k, throws)); k in r.calls && Remaining(r.calls[k].pc) < Remaining(s.calls[k].pc)
  {
  }

  lemma OtherAction(s: Sys, k: Id, mv: Move)
    requires k in s.calls && (mv.Advance? && mv.k == k ==> s.calls[k].pc.Ended?) && PcOk(s.calls[k])
    ensures var r := Step(s, mv); k in r.calls && r.calls[k] == s.calls[k]
  {
  }

  /** Nothing blocks: every action of an unfinished call brings it nearer its end, and no
      other call's action changes where it is. */
  lemma EveryCallEnds(mvs: seq<Move>, k: Id, mv: Move)
    requires k in Exec(INIT, mvs).calls
    ensures var s := Exec(INIT, mvs);
            var r := Step(s, mv);
            && k in r.calls
            && (if mv.Advance? && mv.k == k && !s.calls[k].pc.Ended? then
                  Remaining(r.calls[k].pc) < Remaining(s.calls[k].pc)
                else r.calls[k] == s.calls[k])
  {
    var s := Exec(INIT, mvs);
    EveryInterleaving(mvs);
    assert PcOk(s.calls[k]);
    if mv.Advance? && mv.k == k && !s.calls[k].pc.Ended? {
      OwnAction(s, k, mv.throws);
    } else {
      OtherAction(s, k, mv);
    }
  }

  datatype Run = NotYet | Ran(raised: bool)

  /** Whether call `k` has run its code, and whether that raised, read off the schedule: its
      step from `Running`. */
  ghost function RunOf(s: Sys, mvs: seq<Move>, k: Id): Run
    decreases |mvs|
  {
    if mvs == [] then NotYet
    else if k in s.calls && s.calls[k].pc.Running? && mvs[0].Advance? && mvs[0].k == k then Ran(mvs[0].throws)
    else RunOf(Step(s, mvs[0]), mvs[1..], k)
  }

  /** How far a call is, and what that says about its run. */
  ghost predicate Tells(pc: Pc, run: Run) {
    match pc
    case Leaving(t) => run == Ran(t)
    case Released(t) => run == Ran(t)
    case Ended(Returned) => run == Ran(false)
    case Ended(Threw) => run == Ran(true)
    case _ => run == NotYet
  }

  lemma {:induction false} AfterRun(s: Sys, mvs: seq<Move>, k: Id, run: Run)
    requires k in s.calls && PcOk(s.calls[k]) && run.Ran? && Tells(s.calls[k].pc, run)
    ensures var r := Exec(s, mvs); k in r.calls && Tells(r.calls[k].pc, run)
    decreases |mvs|
  {
    if mvs != [] { AfterRun(Step(s, mvs[0]), mvs[1..], k, run); }
  }

  lemma {:induction false} AfterSkip(s: Sys, mvs: seq<Move>, k: Id)
    requires k in s.calls && s.calls[k].pc == Ended(Skipped)
    ensures var r := Exec(s, mvs); k in r.calls && r.calls[k].pc == Ended(Skipped)
    ensures RunOf(s, mvs, k) == NotYet
    decreases |mvs|
  {
    if mvs != [] { AfterSkip(Step(s, mvs[0]), mvs[1..], k); }
  }

  lemma {:induction false} BeforeRun(s: Sys, mvs: seq<Move>, k: Id)
    requires k in s.calls ==> PcOk(s.calls[k])
    requires k in s.calls ==> s.calls[k].pc.Start? || s.calls[k].pc.Acquired? || s.calls[k].pc.Running?
    ensures var r := Exec(s, mvs); k in r.calls ==> Tells(r.calls[k].pc, RunOf(s, mvs, k))
    decreases |mvs|
  {
    if mvs != [] {
      var r := Step(s, mvs[0]);
      if k in s.calls && s.calls[k].pc.Running? && mvs[0].Advance? && mvs[0].k == k {
        AfterRun(r, mvs[1..], k, Ran(mvs[0].throws));
      } else if k in r.calls && r.calls[k].pc == Ended(Skipped) {
        AfterSkip(r, mvs[1..], k);
      } else {
        BeforeRun(r, mvs[1..], k);
      }
    }
  }

  /** In every interleaving a call that ended was skipped exactly if its code never ran, threw
      exactly if its code raised, and returned otherwise. */
  lemma OutcomeIff(mvs: seq<Move>, k: Id)
    ensures var s := Exec(INIT, mvs);
            k in s.calls ==>
              && Tells(s.calls[k].pc, RunOf(INIT, mvs, k))
              && (s.calls[k].pc.Ended? ==>
                    && (s.calls[k].pc == Ended(Skipped) <==> RunOf(INIT, mvs, k) == NotYet)
                    && (s.calls[k].pc == Ended(Threw) <==> RunOf(INIT, mvs, k) == Ran(true))
                    && (s.calls[k].pc == Ended(Returned) <==> RunOf(INIT, mvs, k) == Ran(false)))
  {
    BeforeRun(INIT, mvs, k);
  }
}
