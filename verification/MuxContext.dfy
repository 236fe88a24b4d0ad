/** The container writer: a context that may be open, a header flag, and the log of what
    reached the container. Outcomes of the library calls are inputs. */
module MuxContext {

  datatype Op = Header | Packet(id: nat) | Trailer

  /** `current` is the log of the open file, `files` the logs of the files closed so far. */
  datatype State = State(open: bool, headerWritten: bool, current: seq<Op>, files: seq<seq<Op>>)

  const INIT := State(false, false, [], [])

  datatype Call =
    | Open(contextMade: bool, ioOpened: bool)
    | WriteHeader(accepted: bool)
    | WritePacket(id: nat, accepted: bool)
    | Close

  function Closed(s: State): State {
    if !s.open then s
    else State(false, false, [], s.files + [if s.headerWritten then s.current + [Trailer] else s.current])
  }

  function Step(s: State, call: Call): State {
    match call
    case Open(contextMade, ioOpened) => if contextMade && ioOpened then Closed(s).(open := true) else Closed(s)
    case WriteHeader(accepted) =>
      if s.open && !s.headerWritten && accepted then s.(headerWritten := true, current := s.current + [Header]) else s
    case WritePacket(id, accepted) =>
      if s.open && s.headerWritten && accepted then s.(current := s.current + [Packet(id)]) else s
    case Close => Closed(s)
  }

  ghost function Run(s: State, calls: seq<Call>): State
    decreases |calls|
  {
    if calls == [] then s else Run(Step(s, calls[0]), calls[1..])
  }

  /** A header followed by packets only. */
  ghost predicate Started(ops: seq<Op>) {
    ops != [] && ops[0] == Header && forall i :: 1 <= i < |ops| ==> ops[i].Packet?
  }

  /** A closed file: nothing at all, or header, packets, one trailer. */
  ghost predicate Complete(ops: seq<Op>) {
    ops == [] || (ops[|ops| - 1] == Trailer && Started(ops[..|ops| - 1]))
  }

  ghost predicate Inv(s: State) {
    && (s.headerWritten ==> s.open && Started(s.current))
    && (!s.headerWritten ==> s.current == [])
    && forall i :: 0 <= i < |s.files| ==> Complete(s.files[i])
  }

  lemma CloseKeeps(s: State)
    requires Inv(s)
    ensures Inv(Closed(s)) && !Closed(s).open && Closed(s).current == []
  {
    if s.open && s.headerWritten {
      assert (s.current + [Trailer])[..|s.current|] == s.current;
      assert Complete(s.current + [Trailer]);
    }
  }

  lemma StepKeeps(s: State, call: Call)
    requires Inv(s)
    ensures Inv(Step(s, call))
  {
    CloseKeeps(s);
  }

  lemma {:induction false} RunKeeps(s: State, calls: seq<Call>)
    requires Inv(s)
    ensures Inv(Run(s, calls))
    decreases |calls|
  {
    if calls != [] {
      StepKeeps(s, calls[0]);
      RunKeeps(Step(s, calls[0]), calls[1..]);
    }
  }

  lemma {:induction false} RunSnoc(s: State, calls: seq<Call>, call: Call)
    ensures Run(s, calls + [call]) == Step(Run(s, calls), call)
    decreases |calls|
  {
    if calls == [] {
      assert calls + [call] == [call];
    } else {
      assert (calls + [call])[1..] == calls[1..] + [call];
      RunSnoc(Step(s, calls[0]), calls[1..], call);
    }
  }

  /** Whatever is called in whatever order, with any library failures: after a final `close`
      every file ever opened is empty or well-formed, and nothing is left open. */
  lemma EveryFileIsComplete(calls: seq<Call>)
    ensures var s := Run(INIT, calls + [Close]);
            !s.open && !s.headerWritten && s.current == [] && forall i :: 0 <= i < |s.files| ==> Complete(s.files[i])
    ensures Run(INIT, calls).headerWritten ==> Run(INIT, calls).open
  {
    RunKeeps(INIT, calls);
    RunSnoc(INIT, calls, Close);
    CloseKeeps(Run(INIT, calls));
  }

  /** The packets accepted by `calls`, in order. */
  ghost function AcceptedPackets(calls: seq<Call>): seq<Op> {
    if calls == [] then []
    else
      (if calls[0].WritePacket? && calls[0].accepted then [Packet(calls[0].id)] else []) + AcceptedPackets(calls[1..])
  }

  /** What a file should hold after these calls and a `close`: nothing before a header is
      accepted, then that header, the packets accepted since, and the trailer. */
  ghost function Wanted(calls: seq<Call>): seq<Op> {
    if calls == [] then []
    else if calls[0] == WriteHeader(true) then [Header] + AcceptedPackets(calls[1..]) + [Trailer]
    else Wanted(calls[1..])
  }

  ghost predicate OnOneFile(calls: seq<Call>) {
    forall i :: 0 <= i < |calls| ==> !calls[i].Open? && !calls[i].Close?
  }

  lemma HeaderStep(s: State, call: Call)
    requires s.open && s.headerWritten && !call.Open? && !call.Close?
    ensures Step(s, call) == s.(current := s.current + AcceptedPackets([call]))
  {
    assert AcceptedPackets([call])
        == (if call.WritePacket? && call.accepted then [Packet(call.id)] else []) + AcceptedPackets([]);
    assert s.current + [] == s.current;
  }

  lemma {:induction false} AfterHeader(s: State, calls: seq<Call>)
    requires s.open && s.headerWritten && OnOneFile(calls)
    ensures Run(s, calls) == s.(current := s.current + AcceptedPackets(calls))
    decreases |calls|
  {
    if calls == [] {
      assert s.current + [] == s.current;
    } else {
      var head, tail := AcceptedPackets([calls[0]]), AcceptedPackets(calls[1..]);
      HeaderStep(s, calls[0]);
      AfterHeader(s.(current := s.current + head), calls[1..]);
      assert AcceptedPackets(calls) == head + tail;
      assert s.current + head + tail == s.current + (head + tail);
    }
  }

  lemma {:induction false} BeforeHeader(s: State, calls: seq<Call>)
    requires s.open && !s.headerWritten && s.current == [] && OnOneFile(calls)
    ensures Closed(Run(s, calls)) == State(false, false, [], s.files + [Wanted(calls)])
    decreases |calls|
  {
    if calls != [] {
      var r := Step(s, calls[0]);
      if calls[0] == WriteHeader(true) {
        AfterHeader(r, calls[1..]);
        assert r.current == [Header] && Run(s, calls) == Run(r, calls[1..]);
      } else {
        BeforeHeader(r, calls[1..]);
      }
    }
  }

  /** Content: opening a file, writing to it and closing it closes what was open before and
      adds exactly one file, holding the accepted packets since its header, in order. A failed
      opening leaves nothing open and adds no file of its own. */
  lemma FileHoldsWhatWasAccepted(s: State, calls: seq<Call>)
    requires Inv(s) && OnOneFile(calls)
    ensures Run(Step(s, Open(true, true)), calls + [Close])
            == State(false, false, [], Closed(s).files + [Wanted(calls)])
    ensures forall made, io :: !(made && io) ==> Step(s, Open(made, io)) == Closed(s) && !Closed(s).open
    ensures Closed(s).files == s.files + if !s.open then [] else [if s.headerWritten then s.current + [Trailer] else []]
  {
    CloseKeeps(s);
    RunSnoc(Step(s, Open(true, true)), calls, Close);
    BeforeHeader(Step(s, Open(true, true)), calls);
  }

  /** The source's object: the context pointer and header flag, with the log beside them. */
  class FFmpegMuxContext {
    var formatContext: bool
    var headerWritten: bool
    var current: seq<Op>
    var files: seq<seq<Op>>

    ghost function Value(): State
      reads this
    {
      State(formatContext, headerWritten, current, files)
    }

    constructor ()
      ensures Value() == INIT
    {
      formatContext, headerWritten, current, files := false, false, [], [];
    }

    method CloseContext()
      requires Inv(Value())
      modifies this
      ensures Value() == Step(old(Value()), Close) && Inv(Value())
    {
      CloseKeeps(Value());
      if !formatContext { return; }
      if headerWritten {
        current := current + [Trailer];
        headerWritten := false;
      }
      files := files + [current];
      current := [];
      formatContext := false;
    }

    method OpenContext(contextMade: bool, ioOpened: bool) returns (ok: bool)
      requires Inv(Value())
      modifies this
      ensures Value() == Step(old(Value()), Open(contextMade, ioOpened)) && Inv(Value())
      ensures ok == formatContext
    {
      CloseContext();
      formatContext := contextMade;
      if !formatContext { return false; }
      if !ioOpened {
        formatContext := false;
        return false;
      }
      ok := true;
    }

    method WriteHeaderOp(accepted: bool) returns (ok: bool)
      requires Inv(Value())
      modifies this
      ensures Value() == Step(old(Value()), WriteHeader(accepted)) && Inv(Value())
      ensures ok <==> |current| > |old(current)|
    {
      StepKeeps(Value(), WriteHeader(accepted));
      if !formatContext || headerWritten || !accepted { return false; }
      current := current + [Header];
      headerWritten := true;
      ok := true;
    }

    method WritePacketOp(id: nat, accepted: bool) returns (ok: bool)
      requires Inv(Value())
      modifies this
      ensures Value() == Step(old(Value()), WritePacket(id, accepted)) && Inv(Value())
      ensures ok <==> |current| > |old(current)|
    {
      StepKeeps(Value(), WritePacket(id, accepted));
      if !formatContext || !headerWritten || !accepted { return false; }
      current := current + [Packet(id)];
      ok := true;
    }
  }
}
