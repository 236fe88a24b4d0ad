/** The 32-slot table of deferred operations under concurrency. Any number of calls of
    `queue_pending_processor_op` interleave at every compare-and-swap, payload write and
    counter increment; a drain happens when no call is half-way. */
module PendingSlots {
  import opened Lists
  import opened Chain

  type Call = nat

  datatype Cell = Cell(active: bool, op: Option<Op>)

  /** Where a call is: about to try slot `i`, owner of a slot at three stages, or returned
      false. `Done` returned true. */
  datatype Pc = Scanning(i: nat) | Claimed(slot: nat) | Written(slot: nat) | Done(slot: nat) | Full {
    predicate Holds(k: nat) {
      (Claimed? || Written? || Done?) && slot == k
    }

    predicate Finished() {
      Done? || Full?
    }
  }

  /** `claims`, `accepted` and `delivered` are history: the calls whose compare-and-swap
      succeeded since the last drain, all operations ever claimed, all operations applied. */
  datatype Table = Table(cells: seq<Cell>, count: int, pcs: map<Call, Pc>, ops: map<Call, Op>,
                         claims: seq<Call>, accepted: seq<Op>, delivered: seq<Op>)

  datatype Move = Begin(c: Call, op: Op) | Advance(c: Call) | Drain

  const FREE := Cell(false, None)

  function Clear(n: nat): (cells: seq<Cell>)
    ensures |cells| == n && forall i :: 0 <= i < n ==> cells[i] == FREE
  {
    if n == 0 then [] else Clear(n - 1) + [FREE]
  }

  function Init(): Table {
    Table(Clear(MAX_PENDING_PROCESSORS), 0, map[], map[], [], [], [])
  }

  predicate Quiescent(s: Table) {
    forall c :: c in s.pcs ==> s.pcs[c].Finished()
  }

  /** One step of call `c`. */
  function AdvanceCall(s: Table, c: Call): Table
    requires |s.cells| == MAX_PENDING_PROCESSORS && c in s.pcs && c in s.ops
  {
    match s.pcs[c]
    case Scanning(i) =>
      if i >= |s.cells| then s.(pcs := s.pcs[c := Full])
      else if s.cells[i].active then s.(pcs := s.pcs[c := Scanning(i + 1)])
      else s.(cells := s.cells[i := Cell(true, s.cells[i].op)], pcs := s.pcs[c := Claimed(i)],
              claims := s.claims + [c], accepted := s.accepted + [s.ops[c]])
    case Claimed(k) =>
      if k < |s.cells| then
        s.(cells := s.cells[k := Cell(s.cells[k].active, Some(s.ops[c]))], pcs := s.pcs[c := Written(k)])
      else s
    case Written(k) => s.(count := s.count + 1, pcs := s.pcs[c := Done(k)])
    case _ => s
  }

  /** What a drain applies: the payloads of the active slots in table order. */
  function ActiveOps(cells: seq<Cell>): seq<Op> {
    if cells == [] then []
    else (if cells[0].active && cells[0].op.Some? then [cells[0].op.value] else []) + ActiveOps(cells[1..])
  }

  function ActiveCount(cells: seq<Cell>): nat {
    if cells == [] then 0 else (if cells[0].active then 1 else 0) + ActiveCount(cells[1..])
  }

  /** A move that is not enabled does nothing, so a schedule is any sequence of moves. */
  function Step(s: Table, mv: Move): Table
    requires |s.cells| == MAX_PENDING_PROCESSORS && s.pcs.Keys == s.ops.Keys
  {
    match mv
    case Begin(c, op) => if c in s.pcs then s else s.(pcs := s.pcs[c := Scanning(0)], ops := s.ops[c := op])
    case Advance(c) => if c in s.pcs then AdvanceCall(s, c) else s
    case Drain =>
      if Quiescent(s) then
        Table(Clear(MAX_PENDING_PROCESSORS), s.count - ActiveCount(s.cells), map[], map[], [], s.accepted,
              s.delivered + ActiveOps(s.cells))
      else s
  }

  ghost function ClaimedOps(s: Table): seq<Op>
    requires forall k :: 0 <= k < |s.claims| ==> s.claims[k] in s.ops
  {
    seq(|s.claims|, k requires 0 <= k < |s.claims| => s.ops[s.claims[k]])
  }

  ghost function Counted(s: Table): set<Call> {
    set c | c in s.pcs && s.pcs[c].Done?
  }

  /** What call `c` may rely on at its program point. */
  ghost predicate CallOk(s: Table, c: Call)
    requires |s.cells| == MAX_PENDING_PROCESSORS && c in s.pcs && c in s.ops
  {
    match s.pcs[c]
    case Scanning(i) => i <= |s.claims| && c !in s.claims
    case Full => |s.claims| == MAX_PENDING_PROCESSORS && c !in s.claims
    case Claimed(k) => k < |s.claims| && s.claims[k] == c
    case Written(k) => k < |s.claims| <= |s.cells| && s.claims[k] == c && s.cells[k].op == Some(s.ops[c])
    case Done(k) => k < |s.claims| <= |s.cells| && s.claims[k] == c && s.cells[k].op == Some(s.ops[c])
  }

  ghost predicate Shape(s: Table) {
    && |s.cells| == MAX_PENDING_PROCESSORS && s.pcs.Keys == s.ops.Keys
    && |s.claims| <= MAX_PENDING_PROCESSORS
    && (forall i :: 0 <= i < |s.cells| ==> (s.cells[i].active <==> i < |s.claims|))
    && (forall k :: 0 <= k < |s.claims| ==> s.claims[k] in s.pcs && s.pcs[s.claims[k]].Holds(k))
    && (forall c :: c in s.pcs ==> CallOk(s, c))
  }

  ghost predicate Inv(s: Table) {
    && Shape(s)
    && s.count == |Counted(s)|
    && s.accepted == s.delivered + ClaimedOps(s)
  }

  ghost function Exec(s: Table, mvs: seq<Move>): (r: Table)
    requires Inv(s)
    ensures Inv(r)
    decreases |mvs|
  {
    if mvs == [] then s else StepKeeps(s, mvs[0]); Exec(Step(s, mvs[0]), mvs[1..])
  }

  lemma ClaimKeeps(s: Table, c: Call)
    requires Inv(s) && c in s.pcs && s.pcs[c].Scanning? && s.pcs[c].i < |s.cells| && !s.cells[s.pcs[c].i].active
    ensures Inv(AdvanceCall(s, c)) && s.pcs[c].i == |s.claims|
  {
    var r := AdvanceCall(s, c);
    assert s.pcs[c].i == |s.claims|;
    assert Counted(r) == Counted(s);
    assert ClaimedOps(r) == ClaimedOps(s) + [s.ops[c]];
    assert s.delivered + (ClaimedOps(s) + [s.ops[c]]) == s.accepted + [s.ops[c]];
    assert Shape(r);
  }

  /** A failed compare-and-swap, or the end of the table. */
  lemma PassKeeps(s: Table, c: Call)
    requires Inv(s) && c in s.pcs && s.pcs[c].Scanning?
    requires s.pcs[c].i >= |s.cells| || s.cells[s.pcs[c].i].active
    ensures Inv(AdvanceCall(s, c))
  {
    var r := AdvanceCall(s, c);
    assert CallOk(s, c);
    assert Counted(r) == Counted(s);
    assert ClaimedOps(r) == ClaimedOps(s);
    assert Shape(r);
  }

  lemma WriteKeeps(s: Table, c: Call)
    requires Inv(s) && c in s.pcs && s.pcs[c].Claimed?
    ensures Inv(AdvanceCall(s, c))
  {
    var r := AdvanceCall(s, c);
    assert CallOk(s, c);
    assert Counted(r) == Counted(s);
    assert ClaimedOps(r) == ClaimedOps(s);
    assert Shape(r);
  }

  lemma CountKeeps(s: Table, c: Call)
    requires Inv(s) && c in s.pcs && s.pcs[c].Written?
    ensures Inv(AdvanceCall(s, c))
  {
    var r := AdvanceCall(s, c);
    assert CallOk(s, c);
    assert Shape(r);
    assert ClaimedOps(r) == ClaimedOps(s);
    assert Counted(r) == Counted(s) + {c} && c !in Counted(s);
  }

  lemma AdvanceKeeps(s: Table, c: Call)
    requires Inv(s) && c in s.pcs
    ensures Inv(AdvanceCall(s, c))
  {
    match s.pcs[c]
    case Scanning(i) => if i < |s.cells| && !s.cells[i].active { ClaimKeeps(s, c); } else { PassKeeps(s, c); }
    case Claimed(k) => WriteKeeps(s, c);
    case Written(k) => CountKeeps(s, c);
    case _ =>
  }

  lemma BeginKeeps(s: Table, c: Call, op: Op)
    requires Inv(s) && c !in s.pcs
    ensures Inv(Step(s, Begin(c, op)))
  {
    var r := Step(s, Begin(c, op));
    assert forall k :: 0 <= k < |s.claims| ==> s.claims[k] != c;
    assert Counted(r) == Counted(s);
    assert ClaimedOps(r) == ClaimedOps(s);
    assert Shape(r);
  }

  lemma {:induction false} ActiveCountPrefix(cells: seq<Cell>, n: nat)
    requires n <= |cells|
    requires forall i :: 0 <= i < |cells| ==> (cells[i].active <==> i < n)
    ensures ActiveCount(cells) == n
  {
    if cells != [] { ActiveCountPrefix(cells[1..], if n == 0 then 0 else n - 1); }
  }

  lemma {:induction false} ActiveOpsPrefix(cells: seq<Cell>, ops: seq<Op>)
    requires |ops| <= |cells|
    requires forall i :: 0 <= i < |cells| ==> (cells[i].active <==> i < |ops|)
    requires forall i :: 0 <= i < |ops| ==> cells[i].op == Some(ops[i])
    ensures ActiveOps(cells) == ops
  {
    if cells != [] {
      ActiveOpsPrefix(cells[1..], if ops == [] then [] else ops[1..]);
    }
  }

  lemma {:induction false} NoDupSize<T>(s: seq<T>)
    requires NoDup(s)
    ensures |Members(s)| == |s|
  {
    if s != [] {
      NoDupSize(s[1..]);
      assert Members(s) == {s[0]} + Members(s[1..]);
    }
  }

  lemma ClaimantsAreDone(s: Table)
    requires Inv(s) && Quiescent(s)
    ensures NoDup(s.claims) && Counted(s) == Members(s.claims)
    ensures forall c :: c in s.pcs ==> (s.pcs[c].Done? <==> c in s.claims)
    ensures |s.claims| < MAX_PENDING_PROCESSORS ==> s.pcs.Keys == Members(s.claims)
  {
    forall k | 0 <= k < |s.claims| ensures s.pcs[s.claims[k]] == Done(k) {}
    forall c | c in s.pcs ensures s.pcs[c].Done? <==> c in s.claims { assert CallOk(s, c); }
  }

  /** Once every call has returned, the counter is the number of active slots, which is the
      number of calls that returned true, and their payloads in table order are the
      operations in the order they were claimed. */
  lemma QuiescentTable(s: Table)
    requires Inv(s) && Quiescent(s)
    ensures s.count == ActiveCount(s.cells) == |s.claims|
    ensures ActiveOps(s.cells) == ClaimedOps(s)
    ensures |s.claims| == if |s.pcs| <= MAX_PENDING_PROCESSORS then |s.pcs| else MAX_PENDING_PROCESSORS
  {
    ClaimantsAreDone(s);
    NoDupSize(s.claims);
    ActiveCountPrefix(s.cells, |s.claims|);
    forall k | 0 <= k < |s.claims| ensures s.cells[k].op == Some(ClaimedOps(s)[k]) {
      assert CallOk(s, s.claims[k]);
    }
    ActiveOpsPrefix(s.cells, ClaimedOps(s));
    SubsetSize(Members(s.claims), s.pcs.Keys);
  }

  lemma DrainKeeps(s: Table)
    requires Inv(s)
    ensures Inv(Step(s, Drain))
  {
    if Quiescent(s) {
      QuiescentTable(s);
      var r := Step(s, Drain);
      assert Counted(r) == {} && ClaimedOps(r) == [];
      assert s.accepted + [] == s.accepted;
    }
  }

  lemma StepKeeps(s: Table, mv: Move)
    requires Inv(s)
    ensures Inv(Step(s, mv))
  {
    match mv
    case Begin(c, op) => if c !in s.pcs { BeginKeeps(s, c, op); }
    case Advance(c) => if c in s.pcs { AdvanceKeeps(s, c); }
    case Drain => DrainKeeps(s);
  }

  lemma InitInv()
    ensures Inv(Init())
  {
    assert Counted(Init()) == {} && ClaimedOps(Init()) == [];
  }

  ghost function Reach(mvs: seq<Move>): (r: Table)
    ensures Inv(r)
  {
    InitInv();
    Exec(Init(), mvs)
  }

  lemma {:induction false} ExecSnoc(s: Table, mvs: seq<Move>, mv: Move)
    requires Inv(s)
    ensures Exec(s, mvs + [mv]) == Step(Exec(s, mvs), mv)
    decreases |mvs|
  {
    StepKeeps(Exec(s, mvs), mv);
    if mvs == [] {
      assert mvs + [mv] == [mv];
      assert Exec(s, [mv]) == Exec(Step(s, mv), []);
    } else {
      StepKeeps(s, mvs[0]);
      assert (mvs + [mv])[1..] == mvs[1..] + [mv];
      ExecSnoc(Step(s, mvs[0]), mvs[1..], mv);
    }
  }

  lemma ReachSnoc(mvs: seq<Move>)
    requires mvs != []
    ensures Reach(mvs) == Step(Reach(mvs[..|mvs| - 1]), mvs[|mvs| - 1])
  {
    InitInv();
    assert mvs == mvs[..|mvs| - 1] + [mvs[|mvs| - 1]];
    ExecSnoc(Init(), mvs[..|mvs| - 1], mvs[|mvs| - 1]);
  }

  /** What the caller of `c` asked for: the operation of its first `Begin` since the last drain
      that took place, read off the schedule alone. */
  ghost function Asked(mvs: seq<Move>, c: Call): Option<Op>
    decreases |mvs|
  {
    if mvs == [] then None
    else
      var n := |mvs| - 1;
      var before := Asked(mvs[..n], c);
      match mvs[n]
      case Begin(d, op) => if d == c && before.None? then Some(op) else before
      case Advance(_) => before
      case Drain => if Quiescent(Reach(mvs[..n])) then None else before
  }

  /** What one move does to the operation of call `c`. */
  lemma OpsMove(s: Table, mv: Move, c: Call)
    requires Inv(s)
    ensures var r := Step(s, mv);
            match mv
            case Begin(d, op) =>
              if d == c && c !in s.ops then c in r.ops && r.ops[c] == op
              else (c in r.ops <==> c in s.ops) && (c in s.ops ==> r.ops[c] == s.ops[c])
            case Advance(_) => r.ops == s.ops
            case Drain => if Quiescent(s) then c !in r.ops else r == s
  {
  }

  lemma {:induction false} AskedIsKept(mvs: seq<Move>, c: Call)
    ensures var s := Reach(mvs); if c in s.ops then Asked(mvs, c) == Some(s.ops[c]) else Asked(mvs, c) == None
    decreases |mvs|
  {
    if mvs != [] {
      var n := |mvs| - 1;
      AskedIsKept(mvs[..n], c);
      ReachSnoc(mvs);
      OpsMove(Reach(mvs[..n]), mvs[n], c);
    } else {
      assert Reach(mvs) == Init();
    }
  }

  /** A finished or written slot holds exactly what its caller asked for. */
  lemma SlotsHoldWhatWasAsked(mvs: seq<Move>, c: Call)
    ensures var s := Reach(mvs);
            c in s.pcs && (s.pcs[c].Written? || s.pcs[c].Done?) ==>
              && s.pcs[c].slot < |s.cells| && s.cells[s.pcs[c].slot].active
              && Asked(mvs, c).Some? && s.cells[s.pcs[c].slot].op == Asked(mvs, c)
  {
    var s := Reach(mvs);
    AskedIsKept(mvs, c);
    if c in s.pcs { assert CallOk(s, c); }
  }

  ghost predicate Issued(mvs: seq<Move>, op: Op) {
    exists i, c :: 0 <= i < |mvs| && mvs[i] == Begin(c, op)
  }

  lemma {:induction false} AskedWasIssued(mvs: seq<Move>, c: Call)
    ensures Asked(mvs, c).Some? ==> Issued(mvs, Asked(mvs, c).value)
    decreases |mvs|
  {
    if mvs != [] && Asked(mvs, c).Some? {
      var n := |mvs| - 1;
      AskedWasIssued(mvs[..n], c);
      var op := Asked(mvs, c).value;
      if mvs[n] == Begin(c, op) {
        assert Issued(mvs, op);
      } else {
        var i, d :| 0 <= i < n && mvs[..n][i] == Begin(d, op);
        assert mvs[i] == Begin(d, op);
      }
    }
  }

  /** One move claims at most one operation, that of the call it advances. */
  lemma AcceptedMove(s: Table, mv: Move)
    requires Inv(s)
    ensures var r := Step(s, mv);
            r.accepted == s.accepted || (mv.Advance? && mv.c in s.ops && r.accepted == s.accepted + [s.ops[mv.c]])
  {
  }

  /** Nothing is claimed, and so nothing applied, that no caller asked for. */
  lemma {:induction false} AcceptedWereIssued(mvs: seq<Move>)
    ensures forall i :: 0 <= i < |Reach(mvs).accepted| ==> Issued(mvs, Reach(mvs).accepted[i])
    decreases |mvs|
  {
    if mvs == [] {
      assert Reach(mvs) == Init();
    } else {
      var n := |mvs| - 1;
      var s, mv := Reach(mvs[..n]), mvs[n];
      AcceptedWereIssued(mvs[..n]);
      ReachSnoc(mvs);
      AcceptedMove(s, mv);
      forall i | 0 <= i < |Reach(mvs).accepted| ensures Issued(mvs, Reach(mvs).accepted[i]) {
        if i < |s.accepted| {
          IssuedGrows(mvs, s.accepted[i]);
        } else {
          AskedIsKept(mvs[..n], mv.c);
          AskedWasIssued(mvs[..n], mv.c);
          IssuedGrows(mvs, s.ops[mv.c]);
        }
      }
    }
  }

  lemma IssuedGrows(mvs: seq<Move>, op: Op)
    requires mvs != [] && Issued(mvs[..|mvs| - 1], op)
    ensures Issued(mvs, op)
  {
    var i, c :| 0 <= i < |mvs| - 1 && mvs[..|mvs| - 1][i] == Begin(c, op);
    assert mvs[i] == Begin(c, op);
  }

  /** Actions a call has still to take, whatever the others do meanwhile. */
  function Remaining(pc: Pc): nat {
    match pc
    case Scanning(i) => if i >= MAX_PENDING_PROCESSORS then 1 else MAX_PENDING_PROCESSORS - i + 3
    case Claimed(_) => 2
    case Written(_) => 1
    case _ => 0
  }

  lemma OwnAction(s: Table, c: Call)
    requires |s.cells| == MAX_PENDING_PROCESSORS && c in s.pcs && c in s.ops && CallOk(s, c)
    requires |s.claims| <= MAX_PENDING_PROCESSORS
    ensures var r := AdvanceCall(s, c);
            && c in r.pcs && (!s.pcs[c].Finished() ==> Remaining(r.pcs[c]) < Remaining(s.pcs[c]))
            && (s.pcs[c].Claimed? || s.pcs[c].Written? ==> !r.pcs[c].Full?)
  {
  }

  lemma OtherAction(s: Table, c: Call, mv: Move)
    requires Inv(s) && c in s.pcs && mv != Drain && mv != Advance(c)
    ensures c in Step(s, mv).pcs && Step(s, mv).pcs[c] == s.pcs[c]
  {
  }

  /** Every call ends after at most 35 actions of its own: each action brings it nearer, a
      claimed slot is always stored to and counted, and other calls do not set it back. */
  lemma EveryCallEnds(mvs: seq<Move>, c: Call, mv: Move)
    requires c in Reach(mvs).pcs && mv != Drain
    ensures var s, r := Reach(mvs), Step(Reach(mvs), mv);
            && Remaining(s.pcs[c]) <= 35 && (Remaining(s.pcs[c]) == 0 <==> s.pcs[c].Finished())
            && c in r.pcs
            && (mv == Advance(c) && !s.pcs[c].Finished() ==> Remaining(r.pcs[c]) < Remaining(s.pcs[c]))
            && (mv != Advance(c) ==> r.pcs[c] == s.pcs[c])
            && (s.pcs[c].Claimed? || s.pcs[c].Written? ==> !r.pcs[c].Full?)
  {
    var s := Reach(mvs);
    assert CallOk(s, c);
    if mv == Advance(c) { OwnAction(s, c); } else { OtherAction(s, c, mv); }
  }

  /** In every interleaving: claimed slots form a prefix of the table, no two calls own the
      same slot, a stored payload is its owner's operation, and a call reports "full" only
      when all 32 slots are taken. */
  lemma SlotsInEveryInterleaving(mvs: seq<Move>)
    ensures var s := Reach(mvs);
            && (forall i, j :: 0 <= i < j < |s.cells| && s.cells[j].active ==> s.cells[i].active)
            && (forall c, d, k :: c in s.pcs && d in s.pcs && s.pcs[c].Holds(k) && s.pcs[d].Holds(k) ==> c == d)
            && (forall c :: c in s.pcs && s.pcs[c].Done? ==>
                  s.pcs[c].slot < |s.cells| && s.cells[s.pcs[c].slot].active
                      && s.cells[s.pcs[c].slot].op == Some(s.ops[c]))
            && (forall c :: c in s.pcs && s.pcs[c].Full? ==> forall i :: 0 <= i < |s.cells| ==> s.cells[i].active)
  {
    var s := Reach(mvs);
    assert Shape(s);
    forall c, d, k | c in s.pcs && d in s.pcs && s.pcs[c].Holds(k) && s.pcs[d].Holds(k) ensures c == d {
      assert CallOk(s, c) && CallOk(s, d);
    }
    forall c | c in s.pcs ensures CallOk(s, c) {}
  }

  /** No step but a drain changes a claimed slot's owner or its stored payload. */
  lemma ClaimedSlotIsStable(s: Table, mv: Move, k: nat)
    requires Inv(s) && mv != Drain && k < |s.claims| && s.pcs[s.claims[k]].Done?
    ensures var r := Step(s, mv);
            && k < |r.claims| && r.claims[k] == s.claims[k] && r.pcs[r.claims[k]] == s.pcs[s.claims[k]]
            && r.cells[k] == s.cells[k]
  {
    if mv.Advance? && mv.c in s.pcs {
      assert CallOk(s, mv.c) && CallOk(s, s.claims[k]);
    }
  }

  /** Conservation: what was ever claimed is what was applied plus what is still claimed, in
      claim order; with every call returned, the next drain applies exactly the rest. */
  lemma NothingLostOrDuplicated(mvs: seq<Move>)
    ensures var s := Reach(mvs);
            && s.accepted == s.delivered + ClaimedOps(s)
            && (Quiescent(s) ==> s.count == ActiveCount(s.cells)
                                 && Step(s, Drain).delivered == s.accepted && Step(s, Drain).count == 0)
  {
    var s := Reach(mvs);
    if Quiescent(s) { QuiescentTable(s); }
  }

  lemma StepGrowsClaims(s: Table, mv: Move)
    requires Inv(s) && mv != Drain
    ensures s.claims <= Step(s, mv).claims
  {
  }

  lemma {:induction false} ClaimsGrow(s: Table, mvs: seq<Move>)
    requires Inv(s) && Drain !in mvs
    ensures s.claims <= Exec(s, mvs).claims
    decreases |mvs|
  {
    if mvs != [] {
      StepKeeps(s, mvs[0]);
      StepGrowsClaims(s, mvs[0]);
      ClaimsGrow(Step(s, mvs[0]), mvs[1..]);
    }
  }

  /** Real-time order: a call that starts after another has claimed its slot gets a later
      slot, so a drain applies operations in call order. */
  lemma LaterCallGetsLaterSlot(s: Table, first: Call, i: nat, second: Call, mvs: seq<Move>, j: nat)
    requires Inv(s) && Drain !in mvs
    requires first in s.pcs && s.pcs[first].Holds(i) && second !in s.pcs
    requires second in Exec(s, mvs).pcs && Exec(s, mvs).pcs[second].Holds(j)
    ensures i < j
  {
    var r := Exec(s, mvs);
    ClaimsGrow(s, mvs);
    assert CallOk(s, first) && CallOk(r, second);
    assert forall k :: 0 <= k < |s.claims| ==> r.claims[k] == s.claims[k];
  }
}
