/** The server's session registry: client ids, the session map and the published events. The
    I/O thread inserts or erases a session and then publishes the event; `stop` may clear the
    map from another thread between the two. */
module Sessions {
  import opened Lists

  type Id = nat

  datatype Event = Connected(id: Id) | Disconnected(id: Id)

  /** `unpublished` holds the event the I/O thread has yet to publish, if any. */
  datatype State = State(nextId: Id, sessions: set<Id>, unpublished: seq<Event>, log: seq<Event>)

  const INIT := State(1, {}, [], [])

  datatype Move = Accept | Remove(id: Id) | Publish | Stop

  function Step(s: State, mv: Move): State {
    match mv
    case Accept =>
      if s.unpublished != [] then s
      else s.(nextId := s.nextId + 1, sessions := s.sessions + {s.nextId}, unpublished := [Connected(s.nextId)])
    case Remove(id) =>
      if s.unpublished != [] || id !in s.sessions then s
      else s.(sessions := s.sessions - {id}, unpublished := [Disconnected(id)])
    case Publish => s.(unpublished := [], log := s.log + s.unpublished)
    case Stop => s.(sessions := {})
  }

  ghost function Run(s: State, mvs: seq<Move>): State
    decreases |mvs|
  {
    if mvs == [] then s else Run(Step(s, mvs[0]), mvs[1..])
  }

  /** The events about one client, in order. */
  ghost function About(log: seq<Event>, id: Id): seq<Event> {
    if log == [] then [] else (if log[0].id == id then [log[0]] else []) + About(log[1..], id)
  }

  lemma {:induction false} AboutConcat(a: seq<Event>, b: seq<Event>, id: Id)
    ensures About(a + b, id) == About(a, id) + About(b, id)
  {
    if a == [] {
      assert a + b == b;
    } else {
      assert (a + b)[1..] == a[1..] + b;
      AboutConcat(a[1..], b, id);
      Assoc(if a[0].id == id then [a[0]] else [], About(a[1..], id), About(b, id));
    }
  }

  /** A client's life as far as it was announced. */
  ghost predicate LifeOk(s: State, id: Id) {
    var life := About(s.log + s.unpublished, id);
    if id >= s.nextId then life == []
    else if id == 0 then life == []
    else life == [Connected(id)] || (id !in s.sessions && life == [Connected(id), Disconnected(id)])
  }

  ghost predicate Inv(s: State) {
    && (forall id: Id :: LifeOk(s, id))
    && (forall id :: id in s.sessions ==> id < s.nextId && About(s.log + s.unpublished, id) == [Connected(id)])
    && |s.unpublished| <= 1 && s.nextId >= 1
  }

  lemma AppendEvent(log: seq<Event>, e: Event, id: Id)
    ensures About(log + [e], id) == if e.id == id then About(log, id) + [e] else About(log, id)
  {
    AboutConcat(log, [e], id);
    assert About([e], id) == (if e.id == id then [e] else []) + About([], id);
  }

  lemma AcceptKeeps(s: State)
    requires Inv(s) && s.unpublished == []
    ensures Inv(Step(s, Accept))
  {
    var r := Step(s, Accept);
    assert s.log + [] == s.log;
    forall id: Id ensures LifeOk(r, id) {
      assert LifeOk(s, id);
      AppendEvent(s.log, Connected(s.nextId), id);
    }
    forall id | id in r.sessions ensures About(r.log + r.unpublished, id) == [Connected(id)] {
      assert LifeOk(s, id);
      AppendEvent(s.log, Connected(s.nextId), id);
    }
  }

  lemma RemoveKeeps(s: State, gone: Id)
    requires Inv(s) && s.unpublished == [] && gone in s.sessions
    ensures Inv(Step(s, Remove(gone)))
  {
    var r := Step(s, Remove(gone));
    assert s.log + [] == s.log;
    forall id: Id ensures LifeOk(r, id) {
      assert LifeOk(s, id);
      AppendEvent(s.log, Disconnected(gone), id);
    }
    forall id | id in r.sessions ensures About(r.log + r.unpublished, id) == [Connected(id)] {
      AppendEvent(s.log, Disconnected(gone), id);
    }
  }

  lemma StepKeeps(s: State, mv: Move)
    requires Inv(s)
    ensures Inv(Step(s, mv))
  {
    var r := Step(s, mv);
    match mv
    case Accept => if s.unpublished == [] { AcceptKeeps(s); }
    case Remove(id) => if s.unpublished == [] && id in s.sessions { RemoveKeeps(s, id); }
    case Publish =>
      assert r.log + r.unpublished == s.log + s.unpublished;
      forall id: Id ensures LifeOk(r, id) { assert LifeOk(s, id); }
    case Stop =>
      forall id: Id ensures LifeOk(r, id) { assert LifeOk(s, id); }
  }

  lemma {:induction false} RunKeeps(s: State, mvs: seq<Move>)
    requires Inv(s)
    ensures Inv(Run(s, mvs))
    decreases |mvs|
  {
    if mvs != [] {
      StepKeeps(s, mvs[0]);
      RunKeeps(Step(s, mvs[0]), mvs[1..]);
    }
  }

  /** Over every run, a client id logs nothing, Connected, or Connected then Disconnected;
      ids are never reused; a registered client has not been announced as gone. */
  lemma LifeOfAClient(mvs: seq<Move>, id: Id)
    ensures var s := Run(INIT, mvs);
            && About(s.log, id) <= [Connected(id), Disconnected(id)]
            && (id >= s.nextId ==> About(s.log, id) == [])
            && (id in s.sessions ==> id < s.nextId && Disconnected(id) !in About(s.log, id))
  {
    forall k: Id ensures LifeOk(INIT, k) { assert About([] + [], k) == []; }
    RunKeeps(INIT, mvs);
    var s := Run(INIT, mvs);
    assert LifeOk(s, id);
    AboutConcat(s.log, s.unpublished, id);
    assert About(s.log, id) <= About(s.log + s.unpublished, id);
  }

  /** What each handler announces: an accepted client its connection, a removed one its end,
      and nobody else anything; `stop` announces nothing and leaves no session. */
  lemma HandlersAnnounce(mvs: seq<Move>, id: Id)
    requires Run(INIT, mvs).unpublished == []
    ensures var s := Run(INIT, mvs);
            var r := Step(Step(s, Remove(id)), Publish);
            if id in s.sessions then
              r.sessions == s.sessions - {id} && r.log == s.log + [Disconnected(id)]
              && About(r.log, id) == [Connected(id), Disconnected(id)]
            else r == s
    ensures var s := Run(INIT, mvs);
            var r := Step(Step(s, Accept), Publish);
            && r.log == s.log + [Connected(s.nextId)] && About(r.log, s.nextId) == [Connected(s.nextId)]
            && s.nextId !in s.sessions && r.sessions == s.sessions + {s.nextId} && r.nextId > s.nextId
    ensures var s := Run(INIT, mvs); Step(s, Stop).sessions == {} && Step(s, Stop).log == s.log
  {
    forall k: Id ensures LifeOk(INIT, k) { assert About([] + [], k) == []; }
    RunKeeps(INIT, mvs);
    var s := Run(INIT, mvs);
    assert s.log + [] == s.log;
    assert LifeOk(s, id) && LifeOk(s, s.nextId);
    AppendEvent(s.log, Disconnected(id), id);
    AppendEvent(s.log, Connected(s.nextId), s.nextId);
  }

  class Registry {
    var nextId: Id
    var sessions: set<Id>
    var log: seq<Event>

    ghost function Value(): State
      reads this
    {
      State(nextId, sessions, [], log)
    }

    constructor ()
      ensures Value() == INIT
    {
      nextId, sessions, log := 1, {}, [];
    }

    /** The accept handler and `register_session`. */
    method AcceptClient() returns (id: Id)
      modifies this
      ensures Value() == Step(Step(old(Value()), Accept), Publish)
      ensures id == old(nextId)
    {
      id := nextId;
      nextId := nextId + 1;
      sessions := sessions + {id};
      log := log + [Connected(id)];
    }

    method RemoveSession(id: Id)
      modifies this
      ensures Value() == Step(Step(old(Value()), Remove(id)), Publish)
    {
      if id !in sessions {
        assert log + [] == log;
        return;
      }
      sessions := sessions - {id};
      log := log + [Disconnected(id)];
    }

    method StopServer()
      modifies this
      ensures Value() == Step(old(Value()), Stop)
    {
      sessions := {};
    }
  }
}
