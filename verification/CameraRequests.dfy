/** The camera's request protocol: any number of `pull_frame_all` callers, one decode thread
    waiting on a condition variable, a coalescing flag cleared outside the mutex, spurious
    wake-ups, and shutdown and restart at any time. */
module CameraRequests {

  type Id = nat

  /** The next action of a `pull_frame_all` call. */
  datatype Requester = WantLock | Store | Release | Notify | Returned

  /** The next action of `decode_thread_func`; `Idle` is before start and after exit. The wait
      predicate reads the stop flag, then the request flag, under the mutex; `Park` releases
      the mutex and blocks in one step, as a condition variable does. */
  datatype Decoder = Idle | LoopTest | WantMutex | ReadStop | ReadFlag | Park | Blocked | Woken
                   | Unlock | CheckStop | ClearFlag | Attempt

  datatype Holder = Nobody | DecodeThread | Caller(id: Id)

  datatype Event = Stored(id: Id) | Cleared | Attempted(pulled: bool) | Stopped

  datatype Cam =
    Cam(stop: bool, requested: bool, mutex: Holder, dec: Decoder, reqs: map<Id, Requester>, log: seq<Event>)

  const INIT := Cam(false, false, Nobody, Idle, map[], [])

  datatype Move =
    | Call(id: Id)
    | StepRequester(id: Id)
    | StepDecoder(containerAlive: bool)
    | SpuriousWakeup
    | StoreStop
    | NotifyAll
    | Restart

  function Wake(d: Decoder): Decoder {
    if d.Blocked? then Woken else d
  }

  function RequesterStep(s: Cam, r: Id): Cam
    requires r in s.reqs
  {
    match s.reqs[r]
    case WantLock => if s.mutex.Nobody? then s.(mutex := Caller(r), reqs := s.reqs[r := Store]) else s
    case Store => s.(requested := true, reqs := s.reqs[r := Release], log := s.log + [Stored(r)])
    case Release => s.(mutex := Nobody, reqs := s.reqs[r := Notify])
    case Notify => s.(dec := Wake(s.dec), reqs := s.reqs[r := Returned])
    case Returned => s
  }

  function DecoderStep(s: Cam, alive: bool): Cam {
    match s.dec
    case Idle => s
    case LoopTest => s.(dec := if s.stop then Idle else WantMutex)
    case WantMutex => if s.mutex.Nobody? then s.(mutex := DecodeThread, dec := ReadStop) else s
    case ReadStop => s.(dec := if s.stop then Unlock else ReadFlag)
    case ReadFlag => s.(dec := if s.requested then Unlock else Park)
    case Park => s.(mutex := Nobody, dec := Blocked)
    case Blocked => s
    case Woken => if s.mutex.Nobody? then s.(mutex := DecodeThread, dec := ReadStop) else s
    case Unlock => s.(mutex := Nobody, dec := CheckStop)
    case CheckStop => s.(dec := if s.stop then Idle else ClearFlag)
    case ClearFlag => s.(requested := false, dec := Attempt, log := s.log + [Cleared])
    case Attempt => s.(dec := LoopTest, log := s.log + [Attempted(alive)])
  }

  function Step(s: Cam, mv: Move): Cam {
    match mv
    case Call(r) => if r in s.reqs then s else s.(reqs := s.reqs[r := WantLock])
    case StepRequester(r) => if r in s.reqs then RequesterStep(s, r) else s
    case StepDecoder(alive) => DecoderStep(s, alive)
    case SpuriousWakeup => s.(dec := Wake(s.dec))
    case StoreStop => s.(stop := true, log := s.log + [Stopped])
    case NotifyAll => s.(dec := Wake(s.dec))
    case Restart => if s.dec.Idle? then s.(stop := false, dec := LoopTest) else s
  }

  ghost function Exec(s: Cam, mvs: seq<Move>): Cam
    decreases |mvs|
  {
    if mvs == [] then s else Exec(Step(s, mvs[0]), mvs[1..])
  }

  // ----- reading the history

  /** The flag's value according to the history: the last store or clear decides. */
  ghost predicate Flagged(log: seq<Event>) {
    log != [] && match log[|log| - 1]
                 case Stored(_) => true
                 case Cleared => false
                 case _ => Flagged(log[..|log| - 1])
  }

  /** A clear whose pull attempt has not started yet. */
  ghost predicate Owed(log: seq<Event>) {
    log != [] && match log[|log| - 1]
                 case Cleared => true
                 case Attempted(_) => false
                 case _ => Owed(log[..|log| - 1])
  }

  ghost function Requests(log: seq<Event>): nat {
    if log == [] then 0 else Requests(log[..|log| - 1]) + if log[|log| - 1].Stored? then 1 else 0
  }

  ghost function Clears(log: seq<Event>): nat {
    if log == [] then 0 else Clears(log[..|log| - 1]) + if log[|log| - 1].Cleared? then 1 else 0
  }

  ghost function Attempts(log: seq<Event>): nat {
    if log == [] then 0 else Attempts(log[..|log| - 1]) + if log[|log| - 1].Attempted? then 1 else 0
  }

  lemma Appended(log: seq<Event>, e: Event)
    ensures var l := log + [e];
            && l[..|l| - 1] == log && l[|l| - 1] == e
            && Flagged(l) == (e.Stored? || (!e.Cleared? && Flagged(log)))
            && Owed(l) == (e.Cleared? || (!e.Attempted? && Owed(log)))
            && Requests(l) == Requests(log) + (if e.Stored? then 1 else 0)
            && Clears(l) == Clears(log) + (if e.Cleared? then 1 else 0)
            && Attempts(l) == Attempts(log) + (if e.Attempted? then 1 else 0)
  {
    assert (log + [e])[..|log|] == log;
  }

  // ----- invariant

  predicate Notifying(q: Requester) {
    q.Release? || q.Notify?
  }

  /** Mutex and flags: the flag is set only under the mutex, and whoever sets it notifies. */
  ghost predicate Synchronised(s: Cam) {
    && (s.mutex.DecodeThread? <==> s.dec.ReadStop? || s.dec.ReadFlag? || s.dec.Park? || s.dec.Unlock?)
    && (forall r :: r in s.reqs ==> (s.mutex == Caller(r) <==> s.reqs[r].Store? || s.reqs[r].Release?))
    && (s.mutex.Caller? ==> s.mutex.id in s.reqs)
    && (s.dec.Park? ==> !s.requested)
    && (s.dec.Blocked? && s.requested ==> exists r :: r in s.reqs && Notifying(s.reqs[r]))
    && (s.dec.Unlock? || s.dec.CheckStop? ==> s.requested || s.stop)
    && (s.dec.ClearFlag? ==> s.requested)
  }

  /** The history accounts for the flag and for every attempt. */
  ghost predicate Accounted(s: Cam) {
    && s.requested == Flagged(s.log)
    && s.dec.Attempt? == Owed(s.log)
    && Clears(s.log) == Attempts(s.log) + (if s.dec.Attempt? then 1 else 0)
    && Clears(s.log) + (if s.requested then 1 else 0) <= Requests(s.log)
  }

  /** A caller past its store has stored. */
  ghost predicate StoresLogged(s: Cam) {
    forall r :: r in s.reqs && (Notifying(s.reqs[r]) || s.reqs[r].Returned?) ==> Stored(r) in s.log
  }

  ghost predicate Inv(s: Cam) {
    Synchronised(s) && Accounted(s) && StoresLogged(s)
  }

  lemma RequesterKeeps(s: Cam, r: Id)
    requires Inv(s) && r in s.reqs
    ensures Synchronised(RequesterStep(s, r))
  {
    var t := RequesterStep(s, r);
    assert t.dec.Blocked? && t.requested ==> exists q :: q in t.reqs && Notifying(t.reqs[q]) by {
      if t.dec.Blocked? && t.requested {
        if s.requested {
          var q :| q in s.reqs && Notifying(s.reqs[q]);
          assert q in t.reqs;
          if q != r { assert t.reqs[q] == s.reqs[q]; } else { assert Notifying(t.reqs[r]); }
        } else {
          assert Notifying(t.reqs[r]);
        }
      }
    }
  }

  lemma RequesterAccounts(s: Cam, r: Id)
    requires Inv(s) && r in s.reqs
    ensures Accounted(RequesterStep(s, r))
  {
    Appended(s.log, Stored(r));
  }

  lemma DecoderKeeps(s: Cam, alive: bool)
    requires Inv(s)
    ensures Synchronised(DecoderStep(s, alive))
  {
  }

  lemma DecoderAccounts(s: Cam, alive: bool)
    requires Inv(s)
    ensures Accounted(DecoderStep(s, alive))
  {
    if s.dec.ClearFlag? { Appended(s.log, Cleared); }
    if s.dec.Attempt? { Appended(s.log, Attempted(alive)); }
  }

  lemma CallKeeps(s: Cam, r: Id)
    requires Inv(s) && r !in s.reqs
    ensures Synchronised(s.(reqs := s.reqs[r := WantLock]))
  {
    var t := s.(reqs := s.reqs[r := WantLock]);
    if s.dec.Blocked? && s.requested {
      var q :| q in s.reqs && Notifying(s.reqs[q]);
      assert q in t.reqs && t.reqs[q] == s.reqs[q];
    }
  }

  lemma StepAccounts(s: Cam, mv: Move)
    requires Inv(s)
    ensures Synchronised(Step(s, mv)) && Accounted(Step(s, mv))
  {
    match mv
    case StepRequester(r) => if r in s.reqs { RequesterKeeps(s, r); RequesterAccounts(s, r); }
    case StepDecoder(alive) => DecoderKeeps(s, alive); DecoderAccounts(s, alive);
    case StoreStop => Appended(s.log, Stopped);
    case Call(r) => if r !in s.reqs { CallKeeps(s, r); }
    case _ =>
  }

  lemma LogKept(s: Cam, t: Cam)
    requires StoresLogged(s) && s.log <= t.log
    requires forall r :: r in t.reqs && (Notifying(t.reqs[r]) || t.reqs[r].Returned?) ==>
                           Stored(r) in t.log || (r in s.reqs && (Notifying(s.reqs[r]) || s.reqs[r].Returned?))
    ensures StoresLogged(t)
  {
    assert forall e :: e in s.log ==> e in t.log;
  }

  lemma StepLogs(s: Cam, mv: Move)
    requires StoresLogged(s)
    ensures StoresLogged(Step(s, mv))
  {
    if mv.StepRequester? && mv.id in s.reqs {
      var t := RequesterStep(s, mv.id);
      assert s.reqs[mv.id] == Store ==> t.log[|s.log|] == Stored(mv.id);
      LogKept(s, t);
    } else {
      assert s.log <= Step(s, mv).log;
      LogKept(s, Step(s, mv));
    }
  }

  lemma StepKeeps(s: Cam, mv: Move)
    requires Inv(s)
    ensures Inv(Step(s, mv))
  {
    StepAccounts(s, mv);
    StepLogs(s, mv);
  }

  lemma {:induction false} ExecKeeps(s: Cam, mvs: seq<Move>)
    requires Inv(s)
    ensures Inv(Exec(s, mvs))
    decreases |mvs|
  {
    if mvs != [] {
      StepKeeps(s, mvs[0]);
      ExecKeeps(Step(s, mvs[0]), mvs[1..]);
    }
  }

  // ----- what every run guarantees

  /** The decode thread never sleeps on a set flag unless some caller has still to notify. */
  lemma NoLostWakeup(mvs: seq<Move>)
    ensures var s := Exec(INIT, mvs);
            s.dec.Blocked? && s.requested ==> exists r :: r in s.reqs && Notifying(s.reqs[r])
  {
    ExecKeeps(INIT, mvs);
  }

  lemma {:induction false} StoredThenCleared(log: seq<Event>, i: nat)
    requires i < |log| && log[i].Stored?
    ensures Flagged(log) || exists j :: i < j < |log| && log[j].Cleared?
    decreases |log|
  {
    var n := |log| - 1;
    if i < n && !log[n].Stored? && !log[n].Cleared? {
      StoredThenCleared(log[..n], i);
      if !Flagged(log[..n]) {
        var j :| i < j < n && log[..n][j].Cleared?;
        assert log[j].Cleared?;
      }
    }
  }

  lemma {:induction false} ClearedThenAttempted(log: seq<Event>, i: nat)
    requires i < |log| && log[i].Cleared?
    ensures Owed(log) || exists j :: i < j < |log| && log[j].Attempted?
    decreases |log|
  {
    var n := |log| - 1;
    if i < n && !log[n].Cleared? && !log[n].Attempted? {
      ClearedThenAttempted(log[..n], i);
      if !Owed(log[..n]) {
        var j :| i < j < n && log[..n][j].Attempted?;
        assert log[j].Attempted?;
      }
    }
  }

  /** Every request is still flagged, or its pull attempt is the decode thread's next step,
      or a pull attempt started after it. Shutdown never drops one silently. */
  lemma NoLostRequest(mvs: seq<Move>, i: nat)
    requires i < |Exec(INIT, mvs).log| && Exec(INIT, mvs).log[i].Stored?
    ensures var s := Exec(INIT, mvs);
            s.requested || s.dec.Attempt? || exists j :: i < j < |s.log| && s.log[j].Attempted?
  {
    var s := Exec(INIT, mvs);
    ExecKeeps(INIT, mvs);
    StoredThenCleared(s.log, i);
    if !s.requested {
      var j :| i < j < |s.log| && s.log[j].Cleared?;
      ClearedThenAttempted(s.log, j);
    }
  }

  /** At rest, with every caller returned and the decode thread asleep, every request was
      followed by a pull attempt. */
  lemma AtRestAllServed(mvs: seq<Move>, i: nat)
    requires var s := Exec(INIT, mvs);
             && s.dec.Blocked? && (forall r :: r in s.reqs ==> s.reqs[r].Returned?)
             && i < |s.log| && s.log[i].Stored?
    ensures var s := Exec(INIT, mvs); exists j :: i < j < |s.log| && s.log[j].Attempted?
  {
    NoLostWakeup(mvs);
    NoLostRequest(mvs, i);
  }

  /** Requests coalesce but are never multiplied: pull attempts do not outnumber them. */
  lemma AttemptsBounded(mvs: seq<Move>)
    ensures var s := Exec(INIT, mvs); Attempts(s.log) <= Clears(s.log) <= Requests(s.log)
  {
    ExecKeeps(INIT, mvs);
  }

  // ----- progress

  /** In every run, a caller that is past its store has its request in the history. */
  lemma RequestsAreStored(mvs: seq<Move>, r: Id)
    ensures var s := Exec(INIT, mvs);
            r in s.reqs && (Notifying(s.reqs[r]) || s.reqs[r].Returned?) ==> Stored(r) in s.log
  {
    ExecKeeps(INIT, mvs);
  }

  /** The decode thread alone, `alives` telling at each step whether the container lives. */
  ghost function Decode(s: Cam, alives: seq<bool>): Cam
    decreases |alives|
  {
    if alives == [] then s else Decode(Step(s, StepDecoder(alives[0])), alives[1..])
  }

  /** Its steps up to and including the next pull attempt, if it need not sleep. */
  function Due(d: Decoder): nat {
    match d
    case Attempt => 1
    case ClearFlag => 2
    case CheckStop => 3
    case Unlock => 4
    case ReadFlag => 5
    case ReadStop => 6
    case WantMutex => 7
    case Woken => 7
    case LoopTest => 8
    case _ => 0
  }

  /** Not blocked, with something to do and nothing in its way. */
  ghost predicate Ready(s: Cam) {
    && !s.stop && !s.mutex.Caller? && Due(s.dec) > 0
    && (s.requested || s.dec.Attempt?)
    && (s.mutex.DecodeThread? <==> s.dec.ReadStop? || s.dec.ReadFlag? || s.dec.Unlock?)
  }

  /** Progress: an awake decode thread with a request clears the flag and makes the attempt
      within 8 steps of its own, pulling a frame exactly if the container lives. */
  lemma {:induction false} DecoderServes(s: Cam, alives: seq<bool>)
    requires Ready(s) && |alives| == Due(s.dec)
    ensures var r := Decode(s, alives);
            && r.log == s.log + (if s.dec.Attempt? then [] else [Cleared]) + [Attempted(alives[|alives| - 1])]
            && r.dec == LoopTest && r.requested == (s.dec.Attempt? && s.requested)
            && !r.mutex.DecodeThread? && r.reqs == s.reqs && !r.stop
    decreases |alives|
  {
    var next := DecoderStep(s, alives[0]);
    if s.dec.Attempt? {
      assert alives[1..] == [] && Decode(s, alives) == Decode(next, []);
      assert s.log + [] == s.log;
    } else {
      DecoderServes(next, alives[1..]);
      assert alives[1..][|alives| - 2] == alives[|alives| - 1];
      if s.dec.ClearFlag? { assert next.log + [] == next.log; }
    }
  }

  /** From every reachable state in which a request is flagged, no stop is asked for, no caller
      holds the mutex and the thread is neither asleep nor gone, the attempt comes within 8
      steps of the thread. */
  lemma FlaggedRequestIsServed(mvs: seq<Move>, alives: seq<bool>)
    requires var s := Exec(INIT, mvs);
             && s.requested && !s.stop && !s.mutex.Caller? && !s.dec.Idle? && !s.dec.Blocked?
             && |alives| == Due(s.dec)
    ensures var s := Exec(INIT, mvs);
            && 1 <= Due(s.dec) <= 8
            && Decode(s, alives).log
               == s.log + (if s.dec.Attempt? then [] else [Cleared]) + [Attempted(alives[|alives| - 1])]
            && Attempts(Decode(s, alives).log) == Attempts(s.log) + 1
  {
    var s := Exec(INIT, mvs);
    ExecKeeps(INIT, mvs);
    assert Synchronised(s);
    DecoderServes(s, alives);
    var mid := s.log + if s.dec.Attempt? then [] else [Cleared];
    Appended(s.log, Cleared);
    Appended(mid, Attempted(alives[|alives| - 1]));
    assert s.log + [] == s.log;
  }

  /** A sleeping thread with a request is woken by the pending notification, and then makes
      its attempt within 7 steps. */
  lemma NotifiedRequestIsServed(mvs: seq<Move>, r: Id, alives: seq<bool>)
    requires var s := Exec(INIT, mvs);
             && s.requested && !s.stop && s.dec.Blocked? && r in s.reqs && Notifying(s.reqs[r])
             && (s.mutex.Nobody? || s.mutex == Caller(r)) && |alives| == 7
    ensures var s := Exec(INIT, mvs);
            var woken := Exec(s, [StepRequester(r), StepRequester(r)]);
            && woken.dec == Woken && r in woken.reqs && woken.reqs[r] == Returned
            && Decode(woken, alives).log == s.log + [Cleared] + [Attempted(alives[6])]
  {
    var s := Exec(INIT, mvs);
    ExecKeeps(INIT, mvs);
    assert Synchronised(s);
    var s1 := Step(s, StepRequester(r));
    var s2 := Step(s1, StepRequester(r));
    var two := [StepRequester(r), StepRequester(r)];
    assert two[1..] == [StepRequester(r)] && Exec(s, two) == Exec(s1, two[1..]) == Exec(s2, []) == s2;
    DecoderServes(s2, alives);
  }

  /** A call that finds the mutex free stores its request, releases, notifies and returns. */
  lemma CallAlone(s: Cam, r: Id)
    requires s.mutex.Nobody? && r in s.reqs && s.reqs[r] == WantLock
    ensures var call := [StepRequester(r), StepRequester(r), StepRequester(r), StepRequester(r)];
            Exec(s, call) == Cam(s.stop, true, Nobody, Wake(s.dec), s.reqs[r := Returned], s.log + [Stored(r)])
  {
    var call := [StepRequester(r), StepRequester(r), StepRequester(r), StepRequester(r)];
    var s1 := RequesterStep(s, r);
    var s2 := RequesterStep(s1, r);
    var s3 := RequesterStep(s2, r);
    var s4 := RequesterStep(s3, r);
    assert call[1..] == call[..3] && call[1..][1..] == call[..2] && call[1..][1..][1..] == call[..1];
    assert call[..1][1..] == [] && call[..2][1..] == call[..1] && call[..3][1..] == call[..2];
    assert Exec(s, call) == Exec(s1, call[..3]) == Exec(s2, call[..2]) == Exec(s3, call[..1]) == Exec(s4, []) == s4;
    assert s4.reqs == s.reqs[r := Returned];
  }

  /** Steps to the exit of a thread that will see the stop flag. */
  function ToExit(d: Decoder): nat {
    match d
    case Idle => 0
    case LoopTest => 1
    case CheckStop => 1
    case Unlock => 2
    case ReadStop => 3
    case ReadFlag => 3
    case WantMutex => 4
    case Woken => 4
    case Attempt => 2
    case ClearFlag => 3
    case _ => 0
  }

  /** A stop that is seen: an awake thread exits within 4 steps, finishing at most the attempt
      it had begun. It is not seen by a thread about to park, which may sleep on. */
  lemma {:induction false} StopIsObeyed(s: Cam, alives: seq<bool>)
    requires s.stop && !s.mutex.Caller? && !s.dec.Blocked? && !s.dec.Park? && (s.dec.ReadFlag? ==> s.requested)
    requires s.mutex.DecodeThread? <==> s.dec.ReadStop? || s.dec.ReadFlag? || s.dec.Unlock?
    requires |alives| == ToExit(s.dec)
    ensures var r := Decode(s, alives);
            && r.dec == Idle && r.mutex.Nobody?
            && (if s.dec.Attempt? || s.dec.ClearFlag? then Attempts(r.log) <= Attempts(s.log) + 1 else r.log == s.log)
    decreases |alives|
  {
    if !s.dec.Idle? {
      var next := DecoderStep(s, alives[0]);
      if s.dec.ClearFlag? { Appended(s.log, Cleared); }
      if s.dec.Attempt? { Appended(s.log, Attempted(alives[0])); }
      StopIsObeyed(next, alives[1..]);
    }
  }

  /** Shutdown of a sleeping thread: the notification wakes it and it exits without a pull. */
  lemma ShutdownWakes(s: Cam, alives: seq<bool>)
    requires s.dec.Blocked? && s.mutex.Nobody? && |alives| == 4
    ensures var told := Exec(s, [StoreStop, NotifyAll]);
            told.stop && told.dec == Woken
            && Decode(told, alives).dec == Idle && Decode(told, alives).log == s.log + [Stopped]
  {
    var told := Step(Step(s, StoreStop), NotifyAll);
    assert [StoreStop, NotifyAll][1..] == [NotifyAll] && [NotifyAll][1..] == [];
    assert Exec(s, [StoreStop, NotifyAll]) == Exec(Step(s, StoreStop), [NotifyAll]) == Exec(told, []) == told;
    StopIsObeyed(told, alives);
  }

  /** A thread starts only when none runs, with the stop flag down. */
  lemma RestartStarts(s: Cam)
    ensures Step(s, Restart) == if s.dec.Idle? then s.(stop := false, dec := LoopTest) else s
    ensures s.dec.Idle? && s.requested && s.mutex.Nobody? ==> Ready(Step(s, Restart))
  {
  }

  // ----- from the start, and back to sleep

  lemma DecodeFour(s: Cam, alive: bool)
    ensures Decode(s, [alive, alive, alive, alive])
            == DecoderStep(DecoderStep(DecoderStep(DecoderStep(s, alive), alive), alive), alive)
  {
    var a, b, c, d := [alive, alive, alive, alive], [alive, alive, alive], [alive, alive], [alive];
    assert a[1..] == b && b[1..] == c && c[1..] == d && d[1..] == [];
    var t1 := DecoderStep(s, alive);
    var t2 := DecoderStep(t1, alive);
    var t3 := DecoderStep(t2, alive);
    assert Decode(s, a) == Decode(t1, b) == Decode(t2, c) == Decode(t3, d) == Decode(DecoderStep(t3, alive), []);
  }

  /** A thread woken for nothing looks, and goes back to sleep, changing nothing. */
  lemma SpuriousWakeupIsHarmless(s: Cam, alive: bool)
    requires s.dec.Blocked? && !s.requested && !s.stop && s.mutex.Nobody?
    ensures Step(s, SpuriousWakeup).dec == Woken
    ensures Decode(Step(s, SpuriousWakeup), [alive, alive, alive, alive]) == s
  {
    DecodeFour(Step(s, SpuriousWakeup), alive);
  }

  /** From the start: a started thread with nothing to do falls asleep; one call then gets
      exactly one attempt, which pulls a frame exactly if the container lives. */
  lemma OneRequestOneAttempt(alive: bool, r: Id)
    ensures var asleep := Step(Decode(Step(INIT, Restart), [alive, alive, alive, alive]), StepDecoder(alive));
            && asleep == Cam(false, false, Nobody, Blocked, map[], [])
            && var called := Step(asleep, Call(r));
               && r in called.reqs && called.reqs[r] == WantLock
               && var stored := Exec(called, [StepRequester(r), StepRequester(r), StepRequester(r), StepRequester(r)]);
                  Decode(stored, [alive, alive, alive, alive, alive, alive, alive]).log
                  == [Stored(r), Cleared, Attempted(alive)]
  {
    DecodeFour(Step(INIT, Restart), alive);
    var asleep := Cam(false, false, Nobody, Blocked, map[], []);
    var called := Step(asleep, Call(r));
    CallAlone(called, r);
    var stored := Cam(false, true, Nobody, Woken, called.reqs[r := Returned], [Stored(r)]);
    var alives := [alive, alive, alive, alive, alive, alive, alive];
    assert asleep.log + [Stored(r)] == [Stored(r)];
    DecoderServes(stored, alives);
    assert alives[|alives| - 1] == alive;
    assert [Stored(r)] + [Cleared] + [Attempted(alive)] == [Stored(r), Cleared, Attempted(alive)];
  }
}
