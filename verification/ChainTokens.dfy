/** Merging chains, the compatibility report, and enforcing the chain's token. */
module ChainTokens {
  import opened Tokens
  import opened Lists
  import opened Chain
  import opened ChainRuns

  type ProcLists = map<Buf, seq<Proc>>

  // ----- merge_chain

  /** Pushes every processor of `s` that the growing target does not hold yet. */
  ghost function MergeInto(t: seq<Proc>, s: seq<Proc>): seq<Proc>
    decreases |s|
  {
    if s == [] then t else MergeInto(if s[0] in t then t else t + [s[0]], s[1..])
  }

  ghost function MergedAt(t: ProcLists, s: ProcLists, b: Buf): seq<Proc>
    requires b in t || b in s
  {
    if b !in t then s[b] else if b in s then MergeInto(t[b], s[b]) else t[b]
  }

  ghost function Merge(t: ProcLists, s: ProcLists): ProcLists {
    map b | b in t.Keys + s.Keys :: MergedAt(t, s, b)
  }

  lemma MergeNothing(t: ProcLists)
    ensures Merge(t, map[]) == t
  {
  }

  /** Merging one more buffer of the source. */
  lemma MergeOneMore(t: ProcLists, s: ProcLists, b: Buf, l: seq<Proc>)
    requires b !in s
    ensures Merge(t, s[b := l]) == Merge(t, s)[b := if b in t then MergeInto(t[b], l) else l]
    ensures b in Merge(t, s) <==> b in t
    ensures b in t ==> Merge(t, s)[b] == t[b]
  {
    var more := s[b := l];
    forall d | d in Merge(t, more) ensures Merge(t, more)[d] == MergedAt(t, more, d) {}
    assert Merge(t, more).Keys == t.Keys + s.Keys + {b};
  }

  ghost predicate DupFree(m: ProcLists) {
    forall b :: b in m ==> NoDup(m[b])
  }

  lemma {:induction false} MergeIntoIs(t: seq<Proc>, s: seq<Proc>)
    requires NoDup(s)
    ensures MergeInto(t, s) == t + Without(s, t)
    decreases |s|
  {
    if s != [] {
      var h := if s[0] in t then [] else [s[0]];
      assert t + h == if s[0] in t then t else t + [s[0]];
      MergeIntoIs(t + h, s[1..]);
      WithoutIgnores(s[1..], t, s[0]);
      assert Without(s[1..], t + h) == Without(s[1..], t);
      Assoc(t, h, Without(s[1..], t));
    }
  }

  lemma {:induction false} WithoutIgnores(s: seq<Proc>, t: seq<Proc>, x: Proc)
    requires x !in s
    ensures Without(s, t + [x]) == Without(s, t)
  {
    if s != [] {
      assert s[0] in t + [x] <==> s[0] in t;
      WithoutIgnores(s[1..], t, x);
    }
  }

  lemma MergedEntry(t: ProcLists, s: ProcLists, b: Buf)
    requires DupFree(t) && DupFree(s)
    ensures ListOf(Merge(t, s), b) == ListOf(t, b) + Without(ListOf(s, b), ListOf(t, b))
  {
    var l, k := ListOf(t, b), ListOf(s, b);
    if b in t && b in s {
      MergeIntoIs(l, k);
    } else if b in s {
      WithoutNone(k, []);
      assert [] + k == k;
    } else {
      assert l + [] == l;
    }
  }

  /** Merging keeps the target's order as a prefix and appends exactly the new processors in
      source order; duplicate-freedom survives. */
  lemma MergeAppendsNew(t: ProcLists, s: ProcLists, b: Buf)
    requires DupFree(t) && DupFree(s)
    ensures ListOf(Merge(t, s), b) == ListOf(t, b) + Without(ListOf(s, b), ListOf(t, b))
    ensures NoDup(ListOf(Merge(t, s), b))
  {
    var l, k := ListOf(t, b), ListOf(s, b);
    MergedEntry(t, s, b);
    WithoutMembers(k, l);
    WithoutNoDup(k, l);
    AppendNoDup(l, Without(k, l));
  }

  lemma MergeDupFree(t: ProcLists, s: ProcLists)
    requires DupFree(t) && DupFree(s)
    ensures DupFree(Merge(t, s))
  {
    forall b | b in Merge(t, s) ensures NoDup(Merge(t, s)[b]) { MergeAppendsNew(t, s, b); }
  }

  lemma MergeIsIdempotent(t: ProcLists, s: ProcLists)
    requires DupFree(t) && DupFree(s)
    ensures Merge(Merge(t, s), s) == Merge(t, s)
  {
    var ts := Merge(t, s);
    MergeDupFree(t, s);
    forall b: Buf ensures ListOf(Merge(ts, s), b) == ListOf(ts, b) {
      MergeAppendsNew(t, s, b);
      MergeAppendsNew(ts, s, b);
      WithoutMembers(ListOf(s, b), ListOf(t, b));
      WithoutAll(ListOf(s, b), ListOf(ts, b));
    }
    SameLists(Merge(ts, s), ts);
  }

  lemma AppendNewAssociative(l: seq<Proc>, k: seq<Proc>, h: seq<Proc>)
    ensures l + Without(k, l) + Without(h, l + Without(k, l)) == l + Without(k + Without(h, k), l)
  {
    WithoutConcat(k, Without(h, k), l);
    WithoutTwice(h, k, l);
  }

  lemma MergeAssociativeAt(x: ProcLists, y: ProcLists, z: ProcLists, b: Buf)
    requires DupFree(x) && DupFree(y) && DupFree(z)
    ensures ListOf(Merge(Merge(x, y), z), b) == ListOf(Merge(x, Merge(y, z)), b)
  {
    MergeDupFree(x, y);
    MergeDupFree(y, z);
    MergeAppendsNew(x, y, b);
    MergeAppendsNew(y, z, b);
    MergeAppendsNew(Merge(x, y), z, b);
    MergeAppendsNew(x, Merge(y, z), b);
    AppendNewAssociative(ListOf(x, b), ListOf(y, b), ListOf(z, b));
  }

  lemma MergeIsAssociative(x: ProcLists, y: ProcLists, z: ProcLists)
    requires DupFree(x) && DupFree(y) && DupFree(z)
    ensures Merge(Merge(x, y), z) == Merge(x, Merge(y, z))
  {
    forall b: Buf ensures ListOf(Merge(Merge(x, y), z), b) == ListOf(Merge(x, Merge(y, z)), b) {
      MergeAssociativeAt(x, y, z, b);
    }
    SameLists(Merge(Merge(x, y), z), Merge(x, Merge(y, z)));
  }

  /** Every way to build a chain: start empty, make a call under whatever policy is then in
      force, or merge in another chain so built. */
  datatype Build = Fresh | Called(base: Build, pol: Policy, e: Event) | Merged(base: Build, other: Build)

  ghost function Built(how: Build): Machine {
    match how
    case Fresh => START
    case Called(base, pol, e) => Step(pol, Built(base), e)
    case Merged(base, other) =>
      var m := Built(base);
      Machine(Core(Merge(m.core.lists, Built(other).core.lists), m.core.skips, m.core.removals), m.pending, m.flagged)
  }

  lemma EditDupFree(pol: Policy, c: Core, op: Op)
    requires DupFree(c.lists)
    ensures DupFree(Apply(pol, c, op).lists)
  {
    var l := ListOf(c.lists, op.buf);
    EraseMembers(l, op.proc);
    if op.proc !in l { AppendNoDup(l, [op.proc]); }
  }

  lemma {:induction false} EditsDupFree(pol: Policy, c: Core, ops: seq<Op>)
    requires DupFree(c.lists)
    ensures DupFree(ApplyAll(pol, c, ops).lists)
    decreases |ops|
  {
    if ops != [] {
      EditDupFree(pol, c, ops[0]);
      EditsDupFree(pol, Apply(pol, c, ops[0]), ops[1..]);
    }
  }

  lemma CallDupFree(pol: Policy, m: Machine, e: Event)
    requires DupFree(m.core.lists)
    ensures DupFree(Step(pol, m, e).core.lists)
  {
    match e
    case Add(p, b, busy) => EditDupFree(pol, m.core, Op(true, p, b));
    case Remove(p, b) => EditDupFree(pol, m.core, Op(false, p, b));
    case OptimizeFor(b) => OptimizedMembers(pol, ListOf(m.core.lists, b));
    case Process(b, script, throws) =>
      EditsDupFree(pol, m.core, m.pending);
      SelectNoDup(Iterated(pol, m, b), pol.Compatible());
  }

  /** No chain that can be built holds a processor twice for one buffer, so the laws of
      merging apply to all of them. */
  lemma {:induction false} EveryBuiltChainIsDupFree(how: Build)
    ensures DupFree(Built(how).core.lists)
  {
    match how
    case Fresh =>
    case Called(base, pol, e) =>
      EveryBuiltChainIsDupFree(base);
      CallDupFree(pol, Built(base), e);
    case Merged(base, other) =>
      EveryBuiltChainIsDupFree(base);
      EveryBuiltChainIsDupFree(other);
      MergeDupFree(Built(base).core.lists, Built(other).core.lists);
  }

  /** A processor that may join a list behind the chain's back: `merge_chain` makes no
      admission test, so the processor has to pass it, and does no bookkeeping, so there must
      be none to do. */
  ghost predicate MayMerge(pol: Policy, p: Proc) {
    pol.Admits(p) && (pol.strategy == OverrideSkip || pol.strategy == OverrideReject ==> pol.Fits(p))
  }

  ghost predicate MergeMatches(pol: Policy, t: ProcLists, s: ProcLists) {
    forall b, p :: b in s && p in s[b] && p !in ListOf(t, b) ==> MayMerge(pol, p)
  }

  lemma MergedEntryIff(pol: Policy, l: seq<Proc>, k: seq<Proc>, skips: set<Proc>, removals: set<Proc>)
    requires Sound(pol, l, skips, removals) && NoDup(k)
    ensures Sound(pol, l + Without(k, l), skips, removals) <==> forall p :: p in k && p !in l ==> MayMerge(pol, p)
  {
    var merged := l + Without(k, l);
    WithoutMembers(k, l);
    WithoutNoDup(k, l);
    AppendNoDup(l, Without(k, l));
    assert forall p :: p in merged <==> p in l || p in k;
    if Sound(pol, merged, skips, removals) {
      forall p | p in k && p !in l ensures MayMerge(pol, p) {
        assert pol.Admits(p);
        assert p !in IncompatibleMembers(pol, l);
      }
    }
    if forall p :: p in k && p !in l ==> MayMerge(pol, p) {
      assert pol.strategy == OverrideSkip || pol.strategy == OverrideReject ==>
               IncompatibleMembers(pol, merged) == IncompatibleMembers(pol, l);
    }
  }

  /** A merge keeps a chain well-formed, with only admitted processors and exact bookkeeping,
      if and only if every processor it brings in is admitted and, under the two overriding
      strategies, compatible. */
  lemma MergeWellFormedIff(pol: Policy, c: Core, s: ProcLists)
    requires WellFormed(pol, c) && DupFree(s)
    ensures WellFormed(pol, c.(lists := Merge(c.lists, s))) <==> MergeMatches(pol, c.lists, s)
  {
    var merged := c.(lists := Merge(c.lists, s));
    assert DupFree(c.lists) by {
      forall b | b in c.lists ensures NoDup(c.lists[b]) { assert SoundAt(pol, c, b); }
    }
    forall b: Buf
      ensures SoundAt(pol, merged, b)
              <==> forall p :: p in ListOf(s, b) && p !in ListOf(c.lists, b) ==> MayMerge(pol, p)
    {
      assert SoundAt(pol, c, b);
      MergeAppendsNew(c.lists, s, b);
      MergedEntryIff(pol, ListOf(c.lists, b), ListOf(s, b), SetOf(c.skips, b), SetOf(c.removals, b));
    }
    if WellFormed(pol, merged) {
      forall b, p | b in s && p in s[b] && p !in ListOf(c.lists, b) ensures MayMerge(pol, p) {
        assert SoundAt(pol, merged, b) && p in ListOf(s, b);
      }
    }
  }

  /** A FILTERED chain merged with a chain that lists an incompatible processor holds it, and
      invokes it, although adding it would have been refused. */
  lemma MergeBypassesAdmission(pol: Policy, p: Proc, b: Buf)
    requires pol.strategy == Filtered && !pol.Fits(p)
    ensures var merged := EMPTY.(lists := Merge(EMPTY.lists, map[b := [p]]));
            && !AddSucceeds(pol, EMPTY, p, b)
            && !WellFormed(pol, merged)
            && Invoked(pol, Iterated(pol, Machine(merged, [], false), b)) == [p]
  {
    var merged := EMPTY.(lists := Merge(EMPTY.lists, map[b := [p]]));
    assert ListOf(merged.lists, b) == [p];
    assert p in ListOf(merged.lists, b);
    assert !SoundAt(pol, merged, b);
    assert ApplyAll(pol, merged, []) == merged;
  }

  // ----- analyze_token_compatibility

  datatype TokenInfo =
    TokenInfo(proc: Proc, token: Token, isCompatible: bool, willBeSkipped: bool, pendingRemoval: bool)

  datatype Report = Report(buf: Buf, preferred: Token, strategy: Strategy, infos: seq<TokenInfo>)

  function InfoOf(pol: Policy, p: Proc): TokenInfo {
    TokenInfo(p, pol.TokenOf(p), pol.Fits(p),
              pol.strategy == OverrideSkip && !pol.Fits(p),
              pol.strategy == OverrideReject && !pol.Fits(p))
  }

  function InfosOf(pol: Policy, l: seq<Proc>): seq<TokenInfo> {
    seq(|l|, i requires 0 <= i < |l| => InfoOf(pol, l[i]))
  }

  /** Every entry is about the processor at its place in the list. */
  lemma ReportEntries(pol: Policy, l: seq<Proc>, k: nat)
    requires k < |l|
    ensures |InfosOf(pol, l)| == |l|
    ensures var info := InfosOf(pol, l)[k];
            && info.proc == l[k] && info.token == TokenIn(pol.tokens, l[k])
            && (info.isCompatible <==> AreTokensCompatible(pol.mask, TokenIn(pol.tokens, l[k])))
  {
  }

  /** The report's `skipped_processors` and `pending_removal_processors`. */
  function SkippedCount(infos: seq<TokenInfo>): nat {
    if infos == [] then 0 else (if infos[0].willBeSkipped then 1 else 0) + SkippedCount(infos[1..])
  }

  function RemovalCount(infos: seq<TokenInfo>): nat {
    if infos == [] then 0 else (if infos[0].pendingRemoval then 1 else 0) + RemovalCount(infos[1..])
  }

  lemma {:induction false} CountsMatch(pol: Policy, l: seq<Proc>)
    ensures SkippedCount(InfosOf(pol, l)) == |l| - |Invoked(pol, l)|
    ensures RemovalCount(InfosOf(pol, l))
            == if pol.strategy == OverrideReject then |l| - |Select(l, pol.Compatible())| else 0
  {
    if l != [] {
      assert InfosOf(pol, l)[1..] == InfosOf(pol, l[1..]);
      CountsMatch(pol, l[1..]);
    }
  }

  lemma {:induction false} EditsElsewhere(pol: Policy, c: Core, ops: seq<Op>, b: Buf)
    requires forall op :: op in ops ==> op.buf != b
    ensures ListOf(ApplyAll(pol, c, ops).lists, b) == ListOf(c.lists, b)
    decreases |ops|
  {
    if ops != [] {
      assert ops[0] in ops;
      EditsElsewhere(pol, Apply(pol, c, ops[0]), ops[1..], b);
    }
  }

  /** A processor reported as skipped is not invoked by the next `process`. If that call runs
      to its end, the report names exactly the processors it skips or erases, and its counts
      are theirs; if a processor throws, or the chain is stuck, none is erased. Pending
      operations are applied before the call looks at the list, so they count too unless they
      are for other buffers. */
  lemma ReportPredictsProcess(pol: Policy, m: Machine, b: Buf, script: seq<seq<Op>>, throws: Option<nat>)
    ensures var l := Iterated(pol, m, b);
            var ran := Ran(pol, m, b, throws);
            var after := ListOf(Step(pol, m, Process(b, script, throws)).core.lists, b);
            && (forall p :: p in l && InfoOf(pol, p).willBeSkipped ==> p !in ran)
            && if !m.flagged && !Loop(pol, Drained(pol, m), b, throws).1 then
                 && (forall p :: p in l ==> (InfoOf(pol, p).willBeSkipped <==> p !in ran))
                 && (forall p :: p in l ==> (InfoOf(pol, p).pendingRemoval <==> p !in after))
                 && SkippedCount(InfosOf(pol, l)) == |l| - |ran|
                 && RemovalCount(InfosOf(pol, l)) == |l| - |after|
               else after == if m.flagged then ListOf(m.core.lists, b) else l
    ensures (forall op :: op in m.pending ==> op.buf != b) ==> Iterated(pol, m, b) == ListOf(m.core.lists, b)
  {
    var l := Iterated(pol, m, b);
    SelectMembers(l, pol.Compatible());
    CountsMatch(pol, l);
    if forall op :: op in m.pending ==> op.buf != b { EditsElsewhere(pol, m.core, m.pending, b); }
  }

  // ----- validate_all_processors, enforce_chain_token_on_processors

  ghost predicate AllFit(pol: Policy, lists: ProcLists) {
    forall b, p :: b in lists && p in lists[b] ==> pol.Fits(p)
  }

  /** Some processor of the chain is compatible with the mask without carrying it. */
  ghost predicate NeedsEnforcement(pol: Policy, lists: ProcLists) {
    exists b, p :: b in lists && p in lists[b] && pol.Fits(p) && pol.TokenOf(p) != pol.mask
  }

  ghost predicate InChain(lists: ProcLists, p: Proc) {
    exists b :: b in lists && p in lists[b]
  }

  /** `next` is `pol` after an enforcement that raised nothing. */
  ghost predicate Enforces(pol: Policy, lists: ProcLists, next: Policy) {
    && next.strategy == pol.strategy && next.mask == pol.mask
    && forall p: Proc :: next.TokenOf(p) == if InChain(lists, p) && pol.Fits(p) then pol.mask else pol.TokenOf(p)
  }

  /** Enforcement with an accepted mask changes no processor's compatibility, hence not the
      verdict of `validate_all_processors`. */
  lemma EnforceKeepsVerdict(pol: Policy, lists: ProcLists, next: Policy)
    requires Enforces(pol, lists, next) && IsValidToken(pol.mask)
    ensures forall p: Proc :: next.Fits(p) <==> pol.Fits(p)
    ensures AllFit(next, lists) <==> AllFit(pol, lists)
  {
    SelfCompatibleIff(pol.mask);
    forall p: Proc ensures next.Fits(p) <==> pol.Fits(p) {
      assert next.TokenOf(p) == if InChain(lists, p) && pol.Fits(p) then pol.mask else pol.TokenOf(p);
    }
  }

  /** A second enforcement changes nothing. */
  lemma EnforceIsIdempotent(pol: Policy, lists: ProcLists, next: Policy)
    requires Enforces(pol, lists, next)
    ensures !NeedsEnforcement(next, lists) && Enforces(next, lists, next)
  {
    forall p: Proc ensures InChain(lists, p) && next.Fits(p) ==> next.TokenOf(p) == next.mask {
      assert next.TokenOf(p) == if InChain(lists, p) && pol.Fits(p) then pol.mask else pol.TokenOf(p);
    }
    forall b, p | b in lists && p in lists[b] ensures !(next.Fits(p) && next.TokenOf(p) != next.mask) {
      assert InChain(lists, p);
    }
  }

  /** Reachable chains stay well-formed under enforcement with an accepted mask. */
  lemma EnforceKeepsWellFormed(pol: Policy, c: Core, next: Policy)
    requires WellFormed(pol, c) && Enforces(pol, c.lists, next) && IsValidToken(pol.mask)
    ensures WellFormed(next, c)
  {
    EnforceKeepsVerdict(pol, c.lists, next);
    forall b: Buf ensures SoundAt(next, c, b) {
      assert SoundAt(pol, c, b);
      var l := ListOf(c.lists, b);
      assert IncompatibleMembers(next, l) == IncompatibleMembers(pol, l);
      forall p | p in l ensures next.Admits(p) {
        assert pol.Admits(p);
        assert next.TokenOf(p) == if InChain(c.lists, p) && pol.Fits(p) then pol.mask else pol.TokenOf(p);
      }
    }
  }

  /** Enforcement followed by optimisation under STRICT keeps exactly the processors that were
      compatible, in order, all now carrying the mask. */
  lemma EnforceThenOptimize(pol: Policy, lists: ProcLists, next: Policy, b: Buf)
    requires Enforces(pol, lists, next) && IsValidToken(pol.mask) && pol.strategy == Strict
    ensures OptimizedList(next, ListOf(lists, b)) == Select(ListOf(lists, b), pol.Compatible())
    ensures forall p :: p in OptimizedList(next, ListOf(lists, b)) ==> next.TokenOf(p) == next.mask
  {
    var l := ListOf(lists, b);
    EnforceKeepsVerdict(pol, lists, next);
    assert next.Compatible() == pol.Compatible();
    SelectMembers(l, pol.Compatible());
    forall p | p in Select(l, pol.Compatible()) ensures next.TokenOf(p) == next.mask {
      assert InChain(lists, p);
    }
  }
}
