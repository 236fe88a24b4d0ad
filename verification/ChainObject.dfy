/** The chain as the source writes it: an object whose maps, slot table and flags change step
    by step. Every method is proved against the functions of Chain.dfy and ChainTokens.dfy. */
module ChainObject {
  import opened Tokens
  import opened Lists
  import opened Chain
  import opened ChainTokens
  import ChainRefinement

  /** `Taken` is a slot whose `active` flag is set; draining resets it. */
  datatype Slot = Free | Taken(op: Op)

  /** Operations of the taken slots in table order, the order in which they are applied. */
  ghost function TakenOps(s: seq<Slot>): seq<Op> {
    if s == [] then [] else (if s[0].Taken? then [s[0].op] else []) + TakenOps(s[1..])
  }

  lemma {:induction false} TakenOpsConcat(s: seq<Slot>, t: seq<Slot>)
    ensures TakenOps(s + t) == TakenOps(s) + TakenOps(t)
  {
    if s == [] {
      assert s + t == t;
    } else {
      assert (s + t)[1..] == s[1..] + t;
      TakenOpsConcat(s[1..], t);
      Assoc(if s[0].Taken? then [s[0].op] else [], TakenOps(s[1..]), TakenOps(t));
    }
  }

  lemma {:induction false} TakenOpsFree(s: seq<Slot>)
    requires forall i :: 0 <= i < |s| ==> s[i].Free?
    ensures TakenOps(s) == []
  {
    if s != [] { TakenOpsFree(s[1..]); }
  }

  lemma {:induction false} TakenOpsFull(s: seq<Slot>)
    requires forall i :: 0 <= i < |s| ==> s[i].Taken?
    ensures |TakenOps(s)| == |s|
  {
    if s != [] { TakenOpsFull(s[1..]); }
  }

  lemma TakenOpsClaim(s: seq<Slot>, k: nat, op: Op)
    requires k < |s|
    requires forall i :: k <= i < |s| ==> s[i].Free?
    ensures TakenOps(s[k := Taken(op)]) == TakenOps(s) + [op]
  {
    var t := s[k := Taken(op)];
    assert s == s[..k] + s[k..] && t == s[..k] + [Taken(op)] + s[k + 1..];
    TakenOpsConcat(s[..k], s[k..]);
    TakenOpsConcat(s[..k] + [Taken(op)], s[k + 1..]);
    TakenOpsConcat(s[..k], [Taken(op)]);
    TakenOpsFree(s[k..]);
    TakenOpsFree(s[k + 1..]);
  }

  lemma TakenOpsNext(s: seq<Slot>, i: nat)
    requires i < |s|
    ensures TakenOps(s[..i + 1]) == if s[i].Taken? then TakenOps(s[..i]) + [s[i].op] else TakenOps(s[..i])
  {
    assert s[..i + 1] == s[..i] + [s[i]];
    TakenOpsConcat(s[..i], [s[i]]);
  }

  /** The chain once the slots before `i` have been drained. */
  ghost function DrainedTo(pol: Policy, c: Core, s: seq<Slot>, i: nat): Core
    requires i <= |s|
  {
    ApplyAll(pol, c, TakenOps(s[..i]))
  }

  /** The calls on processors made by then. */
  ghost function HooksTo(pol: Policy, c: Core, s: seq<Slot>, i: nat): seq<Hook>
    requires i <= |s|
  {
    HooksAll(pol, c, TakenOps(s[..i]))
  }

  lemma {:induction false} HooksAllSnoc(pol: Policy, c: Core, ops: seq<Op>, op: Op)
    ensures HooksAll(pol, c, ops + [op]) == HooksAll(pol, c, ops) + HooksOf(pol, ApplyAll(pol, c, ops), op)
    decreases |ops|
  {
    if ops == [] {
      assert ops + [op] == [op];
      assert HooksAll(pol, c, [op]) == HooksOf(pol, c, op) + [];
    } else {
      assert (ops + [op])[1..] == ops[1..] + [op];
      HooksAllSnoc(pol, Apply(pol, c, ops[0]), ops[1..], op);
    }
  }

  lemma DrainNext(pol: Policy, c: Core, s: seq<Slot>, i: nat)
    requires i < |s|
    ensures DrainedTo(pol, c, s, i + 1)
            == if s[i].Taken? then Apply(pol, DrainedTo(pol, c, s, i), s[i].op) else DrainedTo(pol, c, s, i)
    ensures HooksTo(pol, c, s, i + 1)
            == if s[i].Taken? then HooksTo(pol, c, s, i) + HooksOf(pol, DrainedTo(pol, c, s, i), s[i].op)
                else HooksTo(pol, c, s, i)
  {
    TakenOpsNext(s, i);
    if s[i].Taken? {
      ChainRefinement.ApplyAllSnoc(pol, c, TakenOps(s[..i]), s[i].op);
      HooksAllSnoc(pol, c, TakenOps(s[..i]), s[i].op);
    }
  }

  /** The queue after `n` processors have issued their edits. */
  ghost function QueuedAfter(script: seq<seq<Op>>, n: nat): seq<Op> {
    EnqueueAll([], Issued(script, n))
  }

  lemma QueuedNext(script: seq<seq<Op>>, n: nat)
    ensures QueuedAfter(script, n + 1) == EnqueueAll(QueuedAfter(script, n), if n < |script| then script[n] else [])
    ensures QueuedAfter(script, 0) == []
  {
    IssuedNext(script, n);
    EnqueueAllConcat([], Issued(script, n), if n < |script| then script[n] else []);
    assert Issued(script, 0) == Flatten([]);
  }

  lemma {:induction false} EnqueueAllConcat(pending: seq<Op>, a: seq<Op>, b: seq<Op>)
    ensures EnqueueAll(EnqueueAll(pending, a), b) == EnqueueAll(pending, a + b)
    decreases |a|
  {
    if a == [] {
      assert a + b == b;
    } else {
      assert (a + b)[1..] == a[1..] + b;
      EnqueueAllConcat(Enqueue(pending, a[0]), a[1..], b);
    }
  }

  lemma IssuedNext(script: seq<seq<Op>>, n: nat)
    ensures Issued(script, n + 1) == Issued(script, n) + if n < |script| then script[n] else []
  {
    if n < |script| {
      assert script[..n + 1] == script[..n] + [script[n]];
      FlattenConcat(script[..n], [script[n]]);
      assert Flatten([script[n]]) == script[n] + Flatten([]);
    } else {
      assert n == |script| ==> script[..n] == script;
    }
  }

  lemma InvokedNext(pol: Policy, l: seq<Proc>, i: nat)
    requires i < |l|
    ensures Invoked(pol, l[..i + 1])
            == Invoked(pol, l[..i]) + if pol.strategy == OverrideSkip && !pol.Fits(l[i]) then [] else [l[i]]
  {
    assert l[..i + 1] == l[..i] + [l[i]];
    SelectConcat(l[..i], [l[i]], pol.Compatible());
  }

  /** The processor that throws is the last one invoked. */
  lemma ThrowStops(pol: Policy, l: seq<Proc>, i: nat, throws: Option<nat>)
    requires i <= |l| && Invoked(pol, l[..i]) != [] && throws == Some(|Invoked(pol, l[..i])| - 1)
    ensures UpToThrow(Invoked(pol, l), throws) == (Invoked(pol, l[..i]), true)
  {
    assert l == l[..i] + l[i..];
    SelectConcat(l[..i], l[i..], pol.Compatible());
  }

  /** The processors' own state, shared by every chain that lists them: their tokens, and
      which of them are inside a processing function (`m_active_processing > 0`). */
  class ProcessorTable {
    var tokens: map<Proc, Token>
    var busy: set<Proc>

    constructor ()
      ensures tokens == map[] && busy == {} && AllValid()
    {
      tokens, busy := map[], {};
      new;
      assert IsValidToken(AUDIO_BACKEND);
    }

    /** Every processor has a token that `validate_token` accepts. */
    ghost predicate AllValid()
      reads this
    {
      forall p: Proc :: IsValidToken(TokenIn(tokens, p))
    }

    /** `set_processing_token`: a rejected token raises and changes nothing. */
    method SetProcessingToken(p: Proc, token: Token) returns (ok: bool)
      modifies this`tokens
      ensures ok <==> !(Has(token, SAMPLE_RATE) && Has(token, FRAME_RATE))
                      && !(Has(token, CPU_PROCESS) && Has(token, GPU_PROCESS))
                      && !(Has(token, SEQUENTIAL) && Has(token, PARALLEL))
      ensures old(AllValid()) ==> AllValid()
      ensures tokens == if ok then old(tokens)[p := token] else old(tokens)
    {
      ok := IsValidToken(token);
      if ok {
        ghost var was := tokens;
        tokens := tokens[p := token];
        assert forall q: Proc :: TokenIn(tokens, q) == if q == p then token else TokenIn(was, q);
      }
    }
  }

  /** The token of `p` before and after enforcement reaches it. */
  ghost function Target(pol: Policy, reached: bool, p: Proc): Token {
    if reached && pol.Fits(p) then pol.mask else pol.TokenOf(p)
  }

  /** Enforcement has reached exactly the processors in `seen`. */
  ghost predicate Reached(pol: Policy, tokens: map<Proc, Token>, seen: set<Proc>) {
    forall p: Proc :: TokenIn(tokens, p) == Target(pol, p in seen, p)
  }

  lemma ReachOne(pol: Policy, tokens: map<Proc, Token>, seen: set<Proc>, p: Proc)
    requires Reached(pol, tokens, seen)
    ensures var token := TokenIn(tokens, p);
            var tokens' := if token != pol.mask && AreTokensCompatible(pol.mask, token) then tokens[p := pol.mask]
                           else tokens;
            Reached(pol, tokens', seen + {p})
  {
    var token := TokenIn(tokens, p);
    assert token == Target(pol, p in seen, p);
    var tokens' := if token != pol.mask && AreTokensCompatible(pol.mask, token) then tokens[p := pol.mask] else tokens;
    forall q: Proc ensures TokenIn(tokens', q) == Target(pol, q in seen + {p}, q) {
      assert TokenIn(tokens, q) == Target(pol, q in seen, q);
    }
  }

  datatype AddOutcome = Added | NotExactMatch | NotCompatible | AlreadyPresent | Deferred | QueueFull

  class BufferProcessingChain {
    const procs: ProcessorTable
    const slots: array<Slot>
    var lists: map<Buf, seq<Proc>>
    var skips: map<Buf, set<Proc>>
    var removals: map<Buf, set<Proc>>
    var strategy: Strategy
    var mask: Token
    var isProcessing: bool
    var pendingCount: nat
    var hooks: seq<Hook>  // `on_attach` and `on_detach` calls made so far

    /** Claimed slots form a prefix of the 32-slot table, counted by `pendingCount`. */
    ghost predicate Valid()
      reads this, slots
    {
      && slots.Length == MAX_PENDING_PROCESSORS
      && pendingCount <= MAX_PENDING_PROCESSORS
      && forall i :: 0 <= i < slots.Length ==> (slots[i].Taken? <==> i < pendingCount)
    }

    ghost function Pol(): Policy
      reads this, procs
    {
      Policy(strategy, mask, procs.tokens)
    }

    ghost function State(): Core
      reads this
    {
      Core(lists, skips, removals)
    }

    ghost function Pending(): seq<Op>
      reads this, slots
    {
      TakenOps(slots[..])
    }

    ghost function Whole(): Machine
      reads this, slots
    {
      Machine(State(), Pending(), isProcessing)
    }

    lemma PendingLength()
      requires Valid()
      ensures |Pending()| == pendingCount
    {
      var s := slots[..];
      assert s == s[..pendingCount] + s[pendingCount..];
      TakenOpsConcat(s[..pendingCount], s[pendingCount..]);
      TakenOpsFull(s[..pendingCount]);
      TakenOpsFree(s[pendingCount..]);
    }

    constructor (procs: ProcessorTable)
      ensures Valid() && fresh(slots) && this.procs == procs
      ensures Whole() == START
      ensures strategy == Filtered && mask == AUDIO_BACKEND && hooks == []
    {
      this.procs := procs;
      slots := new Slot[MAX_PENDING_PROCESSORS](_ => Free);
      lists, skips, removals := map[], map[], map[];
      strategy, mask := Filtered, AUDIO_BACKEND;
      isProcessing, pendingCount, hooks := false, 0, [];
      new;
      TakenOpsFree(slots[..]);
    }

    function TokenOf(p: Proc): Token
      reads procs
    {
      TokenIn(procs.tokens, p)
    }

    /** `std::ranges::find`: the index of the first occurrence, or the length. */
    static method Find(l: seq<Proc>, p: Proc) returns (k: nat)
      ensures k <= |l| && p !in l[..k]
      ensures k < |l| ==> l[k] == p
    {
      k := 0;
      while k < |l| && l[k] != p
        invariant k <= |l| && p !in l[..k]
      {
        k := k + 1;
      }
    }

    /** The switch on the strategy: a rejection, or the bookkeeping of an admitted add. */
    method AdmitOrReject(p: Proc, b: Buf) returns (r: AddOutcome)
      modifies this`skips, this`removals
      ensures r == (if Pol().Admits(p) then Added else if strategy == Strict then NotExactMatch else NotCompatible)
      ensures State() == if Pol().Admits(p) then Book(Pol(), old(State()), p, b) else old(State())
    {
      match strategy {
        case Strict =>
          if TokenOf(p) != mask { return NotExactMatch; }
        case Filtered =>
          if !AreTokensCompatible(mask, TokenOf(p)) { return NotCompatible; }
        case OverrideSkip =>
          if !AreTokensCompatible(mask, TokenOf(p)) { skips := skips[b := SetOf(skips, b) + {p}]; }
        case OverrideReject =>
          if !AreTokensCompatible(mask, TokenOf(p)) { removals := removals[b := SetOf(removals, b) + {p}]; }
        case Ignore =>
      }
      r := Added;
    }

    method AddProcessorDirect(p: Proc, b: Buf) returns (r: AddOutcome)
      modifies this`lists, this`skips, this`removals, this`hooks
      ensures State() == AddDirect(Pol(), old(State()), p, b)
      ensures hooks == old(hooks) + HooksOf(Pol(), old(State()), Op(true, p, b))
      ensures r == if strategy == Strict && TokenOf(p) != mask then NotExactMatch
                   else if strategy == Filtered && !AreTokensCompatible(mask, TokenOf(p)) then NotCompatible
                   else if p in ListOf(old(lists), b) then AlreadyPresent else Added
      ensures r == Added || r == AlreadyPresent ==>
                && p in ListOf(lists, b)
                && (strategy == OverrideSkip && !AreTokensCompatible(mask, TokenOf(p)) ==> p in SetOf(skips, b))
                && (strategy == OverrideReject && !AreTokensCompatible(mask, TokenOf(p)) ==> p in SetOf(removals, b))
      ensures hooks == if r == Added then old(hooks) + [OnAttach(p, b)] else old(hooks)
    {
      r := AdmitOrReject(p, b);
      assert hooks + [] == hooks;
      if r != Added { return; }
      var l := ListOf(lists, b);
      lists := lists[b := l];
      var k := Find(l, p);
      if k != |l| { return AlreadyPresent; }
      assert l[..k] == l;
      Overwrite(old(lists), b, l, l + [p]);
      lists := lists[b := l + [p]];
      hooks := hooks + [OnAttach(p, b)];
    }

    method RemoveProcessorDirect(p: Proc, b: Buf)
      modifies this`lists, this`skips, this`removals, this`hooks
      ensures State() == RemoveDirect(old(State()), p, b)
      ensures hooks == old(hooks) + HooksOf(Pol(), old(State()), Op(false, p, b))
    {
      var l := ListOf(lists, b);
      lists := lists[b := l];
      var k := Find(l, p);
      if k != |l| {
        hooks := hooks + [OnDetach(p, b)];
        EraseAtIndex(l, p, k);
        Overwrite(old(lists), b, l, Erase(l, p));
        lists := lists[b := l[..k] + l[k + 1..]];
        skips := skips[b := SetOf(skips, b) - {p}];
        removals := removals[b := SetOf(removals, b) - {p}];
      } else {
        assert l[..k] == l && hooks + [] == hooks;
      }
    }

    /** `queue_pending_processor_op` run without interference: the first free slot takes the
        operation, and it is refused only when all 32 are taken. */
    method QueuePendingOp(op: Op) returns (ok: bool)
      requires Valid()
      modifies slots, this`pendingCount
      ensures Valid()
      ensures ok <==> |old(Pending())| < MAX_PENDING_PROCESSORS
      ensures Pending() == Enqueue(old(Pending()), op)
    {
      PendingLength();
      var i := 0;
      while i < slots.Length
        invariant 0 <= i <= pendingCount
        invariant Valid() && slots[..] == old(slots[..]) && pendingCount == old(pendingCount)
        invariant |Pending()| == pendingCount
      {
        if slots[i].Free? {
          TakenOpsClaim(slots[..], i, op);
          slots[i] := Taken(op);
          assert slots[..] == old(slots[..])[i := Taken(op)];
          pendingCount := pendingCount + 1;
          return true;
        }
        i := i + 1;
      }
      return false;
    }

    method AddProcessor(p: Proc, b: Buf) returns (r: AddOutcome)
      requires Valid()
      modifies this`lists, this`skips, this`removals, this`hooks, this`pendingCount, slots
      ensures Valid()
      ensures var call := Add(p, b, p in procs.busy);
              Whole() == Step(Pol(), old(Whole()), call) && hooks == old(hooks) + StepHooks(Pol(), old(Whole()), call)
      ensures if isProcessing || p in procs.busy then
                r == if |old(Pending())| < MAX_PENDING_PROCESSORS then Deferred else QueueFull
              else r == Added <==> AddSucceeds(Pol(), old(State()), p, b)
    {
      if isProcessing || p in procs.busy {
        var ok := QueuePendingOp(Op(true, p, b));
        r := if ok then Deferred else QueueFull;
        assert hooks + [] == hooks;
      } else {
        r := AddProcessorDirect(p, b);
      }
    }

    method RemoveProcessor(p: Proc, b: Buf)
      requires Valid()
      modifies this`lists, this`skips, this`removals, this`hooks, this`pendingCount, slots
      ensures Valid()
      ensures Whole() == Step(Pol(), old(Whole()), Remove(p, b))
      ensures hooks == old(hooks) + StepHooks(Pol(), old(Whole()), Remove(p, b))
    {
      if isProcessing {
        var _ := QueuePendingOp(Op(false, p, b));
        assert hooks + [] == hooks;
      } else {
        RemoveProcessorDirect(p, b);
      }
    }

    /** An operation taken from a slot. */
    method ApplyOp(op: Op)
      modifies this`lists, this`skips, this`removals, this`hooks
      ensures State() == Apply(Pol(), old(State()), op)
      ensures hooks == old(hooks) + HooksOf(Pol(), old(State()), op)
    {
      if op.isAddition {
        var _ := AddProcessorDirect(op.proc, op.buf);
      } else {
        RemoveProcessorDirect(op.proc, op.buf);
      }
    }

    /** `process_pending_processor_operations`: applies the taken slots in table order. */
    method ProcessPendingOperations()
      requires Valid()
      modifies this`lists, this`skips, this`removals, this`hooks, this`pendingCount, slots
      ensures Valid() && Pending() == [] && pendingCount == 0
      ensures State() == ApplyAll(Pol(), old(State()), old(Pending()))
      ensures hooks == old(hooks) + HooksAll(Pol(), old(State()), old(Pending()))
    {
      ghost var s0, n, pol, c0 := slots[..], pendingCount, Pol(), State();
      assert hooks + [] == hooks;
      var i := 0;
      while i < slots.Length
        invariant 0 <= i <= slots.Length == |s0| == MAX_PENDING_PROCESSORS
        invariant pendingCount == (if i < n then n - i else 0)
        invariant forall j :: 0 <= j < i ==> slots[j].Free?
        invariant forall j :: i <= j < slots.Length ==> slots[j] == s0[j]
        invariant Pol() == pol && State() == DrainedTo(pol, c0, s0, i)
        invariant hooks == old(hooks) + HooksTo(pol, c0, s0, i)
      {
        DrainNext(pol, c0, s0, i);
        assert slots[i].Taken?
            ==> hooks + HooksOf(pol, DrainedTo(pol, c0, s0, i), s0[i].op) == old(hooks) + HooksTo(pol, c0, s0, i + 1);
        if slots[i].Taken? {
          var op := slots[i].op;
          ApplyOp(op);
          slots[i] := Free;
          pendingCount := pendingCount - 1;
        }
        i := i + 1;
      }
      assert s0[..i] == s0;
      TakenOpsFree(slots[..]);
    }

    /** An edit made on this chain by a running processor. */
    method EditWhileProcessing(op: Op)
      requires Valid() && isProcessing
      modifies this`lists, this`skips, this`removals, this`hooks, this`pendingCount, slots
      ensures Valid() && State() == old(State()) && hooks == old(hooks)
      ensures Pending() == Enqueue(old(Pending()), op)
    {
      if op.isAddition {
        var _ := AddProcessor(op.proc, op.buf);
      } else {
        RemoveProcessor(op.proc, op.buf);
      }
    }

    /** The edits a processor makes while it runs. */
    method RunProcessor(ops: seq<Op>)
      requires Valid() && isProcessing
      modifies this`lists, this`skips, this`removals, this`hooks, this`pendingCount, slots
      ensures Valid() && State() == old(State()) && hooks == old(hooks)
      ensures Pending() == EnqueueAll(old(Pending()), ops)
    {
      ghost var start := Pending();
      var rest := ops;
      while rest != []
        invariant Valid() && State() == old(State()) && hooks == old(hooks)
        invariant EnqueueAll(Pending(), rest) == EnqueueAll(start, ops)
        decreases |rest|
      {
        EditWhileProcessing(rest[0]);
        rest := rest[1..];
      }
    }

    method CleanupRejectedProcessors(b: Buf)
      modifies this`lists, this`removals
      ensures State() == Cleanup(Pol(), old(State()), b)
    {
      var l := ListOf(lists, b);
      var kept, dropped := Partition(l);
      lists := lists[b := kept];
      removals := removals[b := {}];
    }

    /** Splits a list by compatibility, both halves in order. */
    method Partition(l: seq<Proc>) returns (kept: seq<Proc>, dropped: seq<Proc>)
      ensures kept == Select(l, Pol().Compatible())
      ensures dropped == Select(l, Pol().Incompatible())
    {
      kept, dropped := [], [];
      var i := 0;
      while i < |l|
        invariant 0 <= i <= |l|
        invariant kept == Select(l[..i], Pol().Compatible())
        invariant dropped == Select(l[..i], Pol().Incompatible())
      {
        assert l[..i + 1] == l[..i] + [l[i]];
        SelectConcat(l[..i], [l[i]], Pol().Compatible());
        SelectConcat(l[..i], [l[i]], Pol().Incompatible());
        if AreTokensCompatible(mask, TokenOf(l[i])) {
          kept := kept + [l[i]];
        } else {
          dropped := dropped + [l[i]];
        }
        i := i + 1;
      }
      assert l[..i] == l;
    }

    /** Runs a processor that is due: the k-th one invoked issues `script[k]`. */
    method InvokeIfDue(p: Proc, script: seq<seq<Op>>, before: seq<Proc>) returns (invoked: seq<Proc>)
      requires Valid() && isProcessing && Pending() == QueuedAfter(script, |before|)
      modifies this`lists, this`skips, this`removals, this`hooks, this`pendingCount, slots
      ensures Valid() && State() == old(State()) && hooks == old(hooks)
      ensures invoked == before + if strategy == OverrideSkip && !Pol().Fits(p) then [] else [p]
      ensures Pending() == QueuedAfter(script, |invoked|)
    {
      invoked := before;
      if strategy != OverrideSkip || AreTokensCompatible(mask, TokenOf(p)) {
        var ops := if |before| < |script| then script[|before|] else [];
        QueuedNext(script, |before|);
        RunProcessor(ops);
        invoked := before + [p];
      }
    }

    /** One turn of the loop of `process`; the processor may throw after its edits. */
    method Turn(b: Buf, i: nat, script: seq<seq<Op>>, throws: Option<nat>, before: seq<Proc>)
      returns (invoked: seq<Proc>, threw: bool)
      requires Valid() && isProcessing && Pending() == QueuedAfter(script, |before|)
      requires i < |ListOf(lists, b)| && before == Invoked(Pol(), ListOf(lists, b)[..i])
      requires throws.Some? ==> |before| <= throws.value
      modifies this`lists, this`skips, this`removals, this`hooks, this`pendingCount, slots
      ensures Valid() && State() == old(State()) && hooks == old(hooks)
      ensures invoked == Invoked(Pol(), ListOf(lists, b)[..i + 1])
      ensures threw ==> (invoked, true) == UpToThrow(Invoked(Pol(), ListOf(lists, b)), throws)
      ensures !threw && throws.Some? ==> |invoked| <= throws.value
      ensures Pending() == QueuedAfter(script, |invoked|)
    {
      ghost var pol, l := Pol(), ListOf(lists, b);
      invoked := InvokeIfDue(ListOf(lists, b)[i], script, before);
      InvokedNext(pol, l, i);
      threw := |invoked| > |before| && throws == Some(|before|);
      if threw { ThrowStops(pol, l, i + 1, throws); }
    }

    /** That loop: the list being iterated is read afresh at every turn, as a range-for over
        the member does. */
    method InvokeAll(b: Buf, script: seq<seq<Op>>, throws: Option<nat>) returns (invoked: seq<Proc>, threw: bool)
      requires Valid() && isProcessing && Pending() == []
      modifies this`lists, this`skips, this`removals, this`hooks, this`pendingCount, slots
      ensures Valid() && State() == old(State()) && hooks == old(hooks)
      ensures (invoked, threw) == UpToThrow(Invoked(Pol(), ListOf(lists, b)), throws)
      ensures Pending() == QueuedAfter(script, |invoked|)
    {
      invoked, threw := [], false;
      var i := 0;
      QueuedNext(script, 0);
      while i < |ListOf(lists, b)|
        invariant Valid() && State() == old(State()) && hooks == old(hooks)
        invariant 0 <= i <= |ListOf(lists, b)| && !threw
        invariant invoked == Invoked(Pol(), ListOf(lists, b)[..i])
        invariant throws.Some? ==> |invoked| <= throws.value
        invariant Pending() == QueuedAfter(script, |invoked|)
        decreases |ListOf(lists, b)| - i
      {
        invoked, threw := Turn(b, i, script, throws, invoked);
        i := i + 1;
        if threw { return; }
      }
      assert ListOf(lists, b)[..i] == ListOf(lists, b);
    }

    /** What `process` does before its loop. */
    method DrainIfPending()
      requires Valid()
      modifies this`lists, this`skips, this`removals, this`hooks, this`pendingCount, slots
      ensures Valid() && Pending() == []
      ensures State() == ApplyAll(Pol(), old(State()), old(Pending()))
      ensures hooks == old(hooks) + HooksAll(Pol(), old(State()), old(Pending()))
    {
      PendingLength();
      assert hooks + [] == hooks;
      if pendingCount > 0 {
        ProcessPendingOperations();
      }
    }

    /** One `process` call. If a processor throws, the exception leaves the chain flagged as
        processing and skips the cleanup. */
    method Process(b: Buf, script: seq<seq<Op>>, throws: Option<nat>) returns (invoked: seq<Proc>, threw: bool)
      requires Valid()
      modifies this`lists, this`skips, this`removals, this`hooks, this`pendingCount, this`isProcessing, slots
      ensures Valid()
      ensures var call := Event.Process(b, script, throws);
              Whole() == Step(Pol(), old(Whole()), call) && hooks == old(hooks) + StepHooks(Pol(), old(Whole()), call)
      ensures invoked == Ran(Pol(), old(Whole()), b, throws)
      ensures threw <==> isProcessing && !old(isProcessing)
    {
      assert hooks + [] == hooks;
      if isProcessing { return [], false; }
      isProcessing := true;
      DrainIfPending();
      if ListOf(lists, b) == [] {
        isProcessing := false;
        QueuedNext(script, 0);
        return [], false;
      }
      invoked, threw := InvokeAll(b, script, throws);
      if threw { return; }
      if strategy == OverrideReject {
        CleanupRejectedProcessors(b);
      }
      isProcessing := false;
    }

    method OptimizeForTokens(b: Buf)
      modifies this`lists
      ensures State() == Optimize(Pol(), old(State()), b)
    {
      var l := ListOf(lists, b);
      lists := lists[b := l];
      if l == [] { return; }
      var compatible, incompatible := Partition(l);
      Overwrite(old(lists), b, l, compatible);
      lists := lists[b := compatible];
      assert compatible + [] == compatible;
      if strategy != Strict && strategy != Filtered {
        Overwrite(old(lists), b, compatible, compatible + incompatible);
        lists := lists[b := compatible + incompatible];
      }
    }

    method MergeBuffer(b: Buf, l: seq<Proc>, ghost target: map<Buf, seq<Proc>>, ghost merged: map<Buf, seq<Proc>>)
      requires lists == Merge(target, merged) && b !in merged
      modifies this`lists
      ensures lists == Merge(target, merged[b := l])
    {
      MergeOneMore(target, merged, b, l);
      if b !in lists {
        lists := lists[b := l];
      } else {
        var k := PushMissing(lists[b], l);
        lists := lists[b := k];
      }
    }

    /** Merges a copy of another chain's lists, buffer by buffer in any order. */
    method MergeChain(other: BufferProcessingChain)
      modifies this`lists
      ensures lists == Merge(old(lists), old(other.lists))
    {
      var source := other.lists;
      ghost var target, merged := lists, map[];
      var todo := source.Keys;
      MergeNothing(target);
      while todo != {}
        invariant todo <= source.Keys && merged.Keys == source.Keys - todo
        invariant forall b :: b in merged ==> merged[b] == source[b]
        invariant lists == Merge(target, merged)
        decreases |todo|
      {
        var b :| b in todo;
        MergeBuffer(b, source[b], target, merged);
        merged := merged[b := source[b]];
        todo := todo - {b};
      }
      assert merged == source;
    }

    static method PushMissing(t: seq<Proc>, s: seq<Proc>) returns (r: seq<Proc>)
      ensures r == MergeInto(t, s)
    {
      r := t;
      var i := 0;
      while i < |s|
        invariant 0 <= i <= |s|
        invariant MergeInto(r, s[i..]) == MergeInto(t, s)
      {
        assert s[i..][1..] == s[i + 1..];
        var k := Find(r, s[i]);
        if k == |r| {
          assert r[..k] == r;
          r := r + [s[i]];
        }
        i := i + 1;
      }
    }

    /** The report of one buffer. */
    method ReportOn(b: Buf) returns (infos: seq<TokenInfo>)
      ensures infos == InfosOf(Pol(), ListOf(lists, b))
    {
      infos := [];
      var l := ListOf(lists, b);
      for i := 0 to |l|
        invariant infos == InfosOf(Pol(), l[..i])
      {
        var token := TokenOf(l[i]);
        var fits := AreTokensCompatible(mask, token);
        infos := infos
            + [TokenInfo(l[i], token, fits, strategy == OverrideSkip && !fits, strategy == OverrideReject && !fits)];
      }
      assert l[..|l|] == l;
    }

    /** One report for every buffer with an entry, in any order. */
    method AnalyzeTokenCompatibility() returns (reports: seq<Report>)
      ensures |reports| == |lists|
      ensures forall i :: 0 <= i < |reports| ==>
                var b := reports[i].buf;
                b in lists && reports[i] == Report(b, mask, strategy, InfosOf(Pol(), lists[b]))
      ensures forall i, k :: 0 <= i < |reports| && 0 <= k < |reports[i].infos| ==>
                var b, info := reports[i].buf, reports[i].infos[k];
                && b in lists && |reports[i].infos| == |lists[b]|
                && info.proc == lists[b][k] && info.token == TokenOf(info.proc)
                && (info.isCompatible <==> AreTokensCompatible(mask, info.token))
                && (info.willBeSkipped <==> strategy == OverrideSkip && !info.isCompatible)
                && (info.pendingRemoval <==> strategy == OverrideReject && !info.isCompatible)
      ensures forall i, j :: 0 <= i < j < |reports| ==> reports[i].buf != reports[j].buf
    {
      reports := [];
      var todo := lists.Keys;
      while todo != {}
        invariant todo <= lists.Keys && |reports| + |todo| == |lists|
        invariant forall i :: 0 <= i < |reports| ==>
                    var b := reports[i].buf;
                    b in lists && b !in todo && reports[i] == Report(b, mask, strategy, InfosOf(Pol(), lists[b]))
        invariant forall i, j :: 0 <= i < j < |reports| ==> reports[i].buf != reports[j].buf
        decreases |todo|
      {
        var b :| b in todo;
        var infos := ReportOn(b);
        reports := reports + [Report(b, mask, strategy, infos)];
        todo := todo - {b};
      }
    }

    method ValidateAllProcessors() returns (allCompatible: bool)
      ensures allCompatible <==> AllFit(Pol(), lists)
    {
      allCompatible := true;
      ghost var pol := Pol();
      var todo := lists.Keys;
      while todo != {}
        invariant todo <= lists.Keys
        invariant allCompatible <==> forall b, p :: b in lists && b !in todo && p in lists[b] ==> pol.Fits(p)
        decreases |todo|
      {
        var b :| b in todo;
        var _, incompatible := Partition(lists[b]);
        SelectMembers(lists[b], pol.Incompatible());
        if incompatible != [] {
          assert incompatible[0] in lists[b] && !pol.Fits(incompatible[0]);
          allCompatible := false;
        }
        todo := todo - {b};
      }
    }

    method EnforceOne(ghost pol: Policy, p: Proc, ghost seen: set<Proc>) returns (ok: bool)
      requires pol.mask == mask && Reached(pol, procs.tokens, seen)
      modifies procs`tokens
      ensures ok ==> Reached(pol, procs.tokens, seen + {p})
      ensures IsValidToken(mask) ==> ok
      ensures !IsValidToken(mask) ==> procs.tokens == old(procs.tokens)
      ensures !ok ==> old(Pol()).Fits(p) && old(Pol()).TokenOf(p) != mask
    {
      ReachOne(pol, procs.tokens, seen, p);
      ok := true;
      var token := TokenOf(p);
      if token != mask && AreTokensCompatible(mask, token) {
        ok := procs.SetProcessingToken(p, mask);
      }
    }

    method EnforceOnList(ghost pol: Policy, b: Buf, ghost seen: set<Proc>) returns (ok: bool)
      requires b in lists && pol.mask == mask && Reached(pol, procs.tokens, seen)
      modifies procs`tokens
      ensures ok ==> Reached(pol, procs.tokens, seen + Members(lists[b]))
      ensures IsValidToken(mask) ==> ok
      ensures !IsValidToken(mask) ==> procs.tokens == old(procs.tokens)
      ensures !ok ==> exists p :: p in lists[b] && old(Pol()).Fits(p) && old(Pol()).TokenOf(p) != mask
    {
      var l := lists[b];
      ok := true;
      var i := 0;
      while i < |l|
        invariant 0 <= i <= |l| && ok
        invariant Reached(pol, procs.tokens, seen + Members(l[..i]))
        invariant !IsValidToken(mask) ==> procs.tokens == old(procs.tokens)
      {
        assert seen + Members(l[..i]) + {l[i]} == seen + Members(l[..i + 1]);
        ok := EnforceOne(pol, l[i], seen + Members(l[..i]));
        if !ok { return; }
        i := i + 1;
      }
      assert l[..i] == l;
    }

    /** Enforcement either gives the mask to every compatible processor of the chain, or
        raises with no token changed: exactly when the mask is rejected and some processor
        would have received it. */
    method EnforceChainToken() returns (ok: bool)
      modifies procs`tokens
      ensures ok <==> IsValidToken(mask) || !NeedsEnforcement(old(Pol()), lists)
      ensures ok ==> Enforces(old(Pol()), lists, Pol())
      ensures !ok ==> procs.tokens == old(procs.tokens)
    {
      ghost var pol, seen := Pol(), {};
      var todo := lists.Keys;
      while todo != {}
        invariant todo <= lists.Keys
        invariant Reached(pol, procs.tokens, seen)
        invariant forall p :: p in seen <==> exists b :: b in lists && b !in todo && p in lists[b]
        invariant !IsValidToken(mask) ==> procs.tokens == pol.tokens
        decreases |todo|
      {
        var b :| b in todo;
        ok := EnforceOnList(pol, b, seen);
        if !ok { return; }
        seen := seen + Members(lists[b]);
        todo := todo - {b};
      }
      ok := true;
      assert Enforces(pol, lists, Pol()) by {
        forall p: Proc
          ensures Pol().TokenOf(p) == if InChain(lists, p) && pol.Fits(p) then pol.mask else pol.TokenOf(p)
        {
          assert TokenIn(procs.tokens, p) == Target(pol, p in seen, p);
        }
      }
      if !IsValidToken(mask) { ChainTokens.EnforceIsIdempotent(pol, lists, Pol()); }
    }
  }
}
