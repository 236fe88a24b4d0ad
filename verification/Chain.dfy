/** What a buffer processing chain does, as functions on values: the direct edits, the
    deferred-operation queue, one `process` call, and the token operations. The class in
    ChainObject.dfy updates its fields step by step and is proved against these. */
module Chain {
  import opened Tokens
  import opened Lists

  type Proc = nat  // identity of a BufferProcessor
  type Buf = nat   // identity of a Buffer

  datatype Strategy = Strict | Filtered | OverrideSkip | OverrideReject | Ignore

  /** A processor without an entry still has the token its constructor gave it. */
  function TokenIn(tokens: map<Proc, Token>, p: Proc): Token {
    if p in tokens then tokens[p] else AUDIO_BACKEND
  }

  /** What an edit or a `process` call consults and does not change. */
  datatype Policy = Policy(strategy: Strategy, mask: Token, tokens: map<Proc, Token>) {
    function TokenOf(p: Proc): Token {
      TokenIn(tokens, p)
    }

    predicate Fits(p: Proc) {
      AreTokensCompatible(mask, TokenOf(p))
    }

    ghost function Compatible(): iset<Proc> {
      iset p: Proc | Fits(p)
    }

    ghost function Incompatible(): iset<Proc> {
      iset p: Proc | !Fits(p)
    }

    /** The admission test at the head of `add_processor_direct`. */
    predicate Admits(p: Proc) {
      match strategy
      case Strict => TokenOf(p) == mask
      case Filtered => Fits(p)
      case _ => true
    }
  }

  /** `m_buffer_processors`, `m_conditional_processors` and `m_pending_removal`. */
  datatype Core = Core(lists: map<Buf, seq<Proc>>, skips: map<Buf, set<Proc>>, removals: map<Buf, set<Proc>>)

  const EMPTY := Core(map[], map[], map[])

  function ListOf(lists: map<Buf, seq<Proc>>, b: Buf): seq<Proc> {
    if b in lists then lists[b] else []
  }

  lemma Overwrite<V>(m: map<Buf, V>, b: Buf, v: V, w: V)
    ensures m[b := v][b := w] == m[b := w]
    ensures b in m ==> m[b := m[b]] == m
  {
  }

  lemma SameLists(x: map<Buf, seq<Proc>>, y: map<Buf, seq<Proc>>)
    requires x.Keys == y.Keys
    requires forall b: Buf :: ListOf(x, b) == ListOf(y, b)
    ensures x == y
  {
    forall b | b in x ensures x[b] == y[b] { assert ListOf(x, b) == ListOf(y, b); }
  }

  function SetOf(m: map<Buf, set<Proc>>, b: Buf): set<Proc> {
    if b in m then m[b] else {}
  }

  /** Bookkeeping done by an admitted add before the list is looked at. */
  function Book(pol: Policy, c: Core, p: Proc, b: Buf): Core {
    if pol.strategy == OverrideSkip && !pol.Fits(p) then c.(skips := c.skips[b := SetOf(c.skips, b) + {p}])
    else if pol.strategy == OverrideReject && !pol.Fits(p) then
      c.(removals := c.removals[b := SetOf(c.removals, b) + {p}])
    else c
  }

  predicate AddSucceeds(pol: Policy, c: Core, p: Proc, b: Buf) {
    pol.Admits(p) && p !in ListOf(c.lists, b)
  }

  function AddDirect(pol: Policy, c: Core, p: Proc, b: Buf): Core {
    if !pol.Admits(p) then c
    else
      var l := ListOf(c.lists, b);
      Book(pol, c, p, b).(lists := c.lists[b := if p in l then l else l + [p]])
  }

  function RemoveDirect(c: Core, p: Proc, b: Buf): Core {
    var l := ListOf(c.lists, b);
    if p in l then
      Core(c.lists[b := Erase(l, p)],
           c.skips[b := SetOf(c.skips, b) - {p}],
           c.removals[b := SetOf(c.removals, b) - {p}])
    else c.(lists := c.lists[b := l])
  }

  datatype Op = Op(isAddition: bool, proc: Proc, buf: Buf)

  function Apply(pol: Policy, c: Core, op: Op): Core {
    if op.isAddition then AddDirect(pol, c, op.proc, op.buf) else RemoveDirect(c, op.proc, op.buf)
  }

  ghost function ApplyAll(pol: Policy, c: Core, ops: seq<Op>): Core
    decreases |ops|
  {
    if ops == [] then c else ApplyAll(pol, Apply(pol, c, ops[0]), ops[1..])
  }

  /** Calls a chain makes on a processor when it enters or leaves a list by an edit. */
  datatype Hook = OnAttach(proc: Proc, buf: Buf) | OnDetach(proc: Proc, buf: Buf)

  function HooksOf(pol: Policy, c: Core, op: Op): seq<Hook> {
    if op.isAddition then (if AddSucceeds(pol, c, op.proc, op.buf) then [OnAttach(op.proc, op.buf)] else [])
    else if op.proc in ListOf(c.lists, op.buf) then [OnDetach(op.proc, op.buf)] else []
  }

  ghost function HooksAll(pol: Policy, c: Core, ops: seq<Op>): seq<Hook>
    decreases |ops|
  {
    if ops == [] then [] else HooksOf(pol, c, ops[0]) + HooksAll(pol, Apply(pol, c, ops[0]), ops[1..])
  }

  /** The processors of `l` on which one `process` call invokes `BufferProcessor::process`. */
  ghost function Invoked(pol: Policy, l: seq<Proc>): seq<Proc> {
    if pol.strategy == OverrideSkip then Select(l, pol.Compatible()) else l
  }

  ghost function Cleanup(pol: Policy, c: Core, b: Buf): Core {
    c.(lists := c.lists[b := Select(ListOf(c.lists, b), pol.Compatible())], removals := c.removals[b := {}])
  }

  /** The chain after the loop over the processors of `b`. */
  ghost function AfterLoop(pol: Policy, c: Core, b: Buf): Core {
    if ListOf(c.lists, b) != [] && pol.strategy == OverrideReject then Cleanup(pol, c, b) else c
  }

  ghost function OptimizedList(pol: Policy, l: seq<Proc>): seq<Proc> {
    Select(l, pol.Compatible())
    + if pol.strategy == Strict || pol.strategy == Filtered then [] else Select(l, pol.Incompatible())
  }

  ghost function Optimize(pol: Policy, c: Core, b: Buf): Core {
    c.(lists := c.lists[b := OptimizedList(pol, ListOf(c.lists, b))])
  }

  // ----- the chain with its deferred operations

  const MAX_PENDING_PROCESSORS: nat := 32

  /** The chain between calls. `flagged` is `m_is_processing`, which stays set when a
      processor throws out of `process`. */
  datatype Machine = Machine(core: Core, pending: seq<Op>, flagged: bool)

  ghost function Enqueue(pending: seq<Op>, op: Op): seq<Op> {
    if |pending| < MAX_PENDING_PROCESSORS then pending + [op] else pending
  }

  ghost function EnqueueAll(pending: seq<Op>, ops: seq<Op>): seq<Op>
    decreases |ops|
  {
    if ops == [] then pending else EnqueueAll(Enqueue(pending, ops[0]), ops[1..])
  }

  /** Calls made on a chain. `Add` carries whether the processor is active elsewhere
      (`m_active_processing > 0`), which defers it. The k-th processor invoked by `Process`
      issues the edits `script[k]` on the same chain while it runs; if `throws` is k, and that
      many are invoked, it then throws. */
  datatype Event =
    | Add(p: Proc, b: Buf, busy: bool)
    | Remove(p: Proc, b: Buf)
    | Process(b: Buf, script: seq<seq<Op>>, throws: Option<nat>)
    | OptimizeFor(b: Buf)

  /** The edits issued while `n` processors run. */
  ghost function Issued(script: seq<seq<Op>>, n: nat): seq<Op> {
    Flatten(if n <= |script| then script[..n] else script)
  }

  /** The list a `process` call on `b` iterates: pending operations are applied first. */
  ghost function Iterated(pol: Policy, m: Machine, b: Buf): seq<Proc> {
    ListOf(Drained(pol, m).lists, b)
  }

  /** Of the processors due, those invoked, and whether the last of them threw. */
  ghost function UpToThrow(due: seq<Proc>, throws: Option<nat>): (seq<Proc>, bool) {
    if throws.Some? && throws.value < |due| then (due[..throws.value + 1], true) else (due, false)
  }

  /** The loop of `process` over the processors of `b`. */
  ghost function Loop(pol: Policy, c: Core, b: Buf, throws: Option<nat>): (seq<Proc>, bool) {
    UpToThrow(Invoked(pol, ListOf(c.lists, b)), throws)
  }

  /** The chain after that loop; an exception skips the cleanup. */
  ghost function Looped(pol: Policy, c: Core, b: Buf, throws: Option<nat>): Core {
    if Loop(pol, c, b, throws).1 then c else AfterLoop(pol, c, b)
  }

  ghost function Drained(pol: Policy, m: Machine): Core {
    ApplyAll(pol, m.core, m.pending)
  }

  /** A flagged chain defers every edit and returns at once from `process`. */
  ghost function Step(pol: Policy, m: Machine, e: Event): Machine {
    match e
    case Add(p, b, busy) =>
      if busy || m.flagged then m.(pending := Enqueue(m.pending, Op(true, p, b)))
      else m.(core := AddDirect(pol, m.core, p, b))
    case Remove(p, b) =>
      if m.flagged then m.(pending := Enqueue(m.pending, Op(false, p, b))) else m.(core := RemoveDirect(m.core, p, b))
    case OptimizeFor(b) => m.(core := Optimize(pol, m.core, b))
    case Process(b, script, throws) =>
      if m.flagged then m
      else
        var c := Drained(pol, m);
        var (ran, threw) := Loop(pol, c, b, throws);
        Machine(Looped(pol, c, b, throws), EnqueueAll([], Issued(script, |ran|)), threw)
  }

  /** The calls on processors made by one step. */
  ghost function StepHooks(pol: Policy, m: Machine, e: Event): seq<Hook> {
    match e
    case Add(p, b, busy) => if busy || m.flagged then [] else HooksOf(pol, m.core, Op(true, p, b))
    case Remove(p, b) => if m.flagged then [] else HooksOf(pol, m.core, Op(false, p, b))
    case OptimizeFor(_) => []
    case Process(_, _, _) => if m.flagged then [] else HooksAll(pol, m.core, m.pending)
  }

  /** The processors on which a `process` call invokes `BufferProcessor::process`. */
  ghost function Ran(pol: Policy, m: Machine, b: Buf, throws: Option<nat>): seq<Proc> {
    if m.flagged then [] else Loop(pol, Drained(pol, m), b, throws).0
  }

  ghost function Run(pol: Policy, m: Machine, es: seq<Event>): Machine
    decreases |es|
  {
    if es == [] then m else Run(pol, Step(pol, m, es[0]), es[1..])
  }

  const START := Machine(EMPTY, [], false)
}
