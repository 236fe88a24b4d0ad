/** How a client session turns the chunks it reads into messages: the block buffer, its size
    cap, trimming and dispatch. */
module LineFraming {
  import opened JsonReply
  import opened Lists

  const MAX_BLOCK: nat := 1024 * 1024
  const AT: Byte := 0x40

  /** What a completed read can do to the buffered bytes: close a block, or discard them. */
  datatype Item = Block(bytes: seq<Byte>) | Oversize(bytes: seq<Byte>)

  datatype Dispatch = Control(text: seq<Byte>) | Message(text: seq<Byte>)

  predicate IsEol(b: Byte) {
    b == NEWLINE || b == RETURN
  }

  function Trim(s: seq<Byte>): seq<Byte> {
    if s != [] && IsEol(s[|s| - 1]) then Trim(s[..|s| - 1]) else s
  }

  function Dispatched(block: seq<Byte>): seq<Dispatch> {
    var text := Trim(block);
    if text == [] then [] else if text[0] == AT then [Control(text[1..])] else [Message(text)]
  }

  /** Items and remaining buffer after one read. */
  function Feed(buf: seq<Byte>, chunk: seq<Byte>): (seq<Item>, seq<Byte>)
    requires chunk != []
  {
    var b := buf + chunk;
    if |b| > MAX_BLOCK then ([Oversize(b)], [])
    else if b[|b| - 1] == NEWLINE then ([Block(b)], [])
    else ([], b)
  }

  predicate NonEmpty(chunks: seq<seq<Byte>>) {
    forall i :: 0 <= i < |chunks| ==> chunks[i] != []
  }

  ghost function Run(buf: seq<Byte>, chunks: seq<seq<Byte>>): (seq<Item>, seq<Byte>)
    requires NonEmpty(chunks)
    decreases |chunks|
  {
    if chunks == [] then ([], buf)
    else
      var step := Feed(buf, chunks[0]);
      var rest := Run(step.1, chunks[1..]);
      (step.0 + rest.0, rest.1)
  }

  ghost function BytesOf(items: seq<Item>): seq<seq<Byte>> {
    if items == [] then [] else [items[0].bytes] + BytesOf(items[1..])
  }

  /** The retained buffer is within the cap and never ends in a newline. */
  predicate Retained(buf: seq<Byte>) {
    |buf| <= MAX_BLOCK && (buf != [] ==> buf[|buf| - 1] != NEWLINE)
  }

  predicate ItemOk(item: Item) {
    match item
    case Block(b) => 0 < |b| <= MAX_BLOCK && b[|b| - 1] == NEWLINE
    case Oversize(b) => |b| > MAX_BLOCK
  }

  lemma {:induction false} BytesOfConcat(a: seq<Item>, b: seq<Item>)
    ensures BytesOf(a + b) == BytesOf(a) + BytesOf(b)
  {
    if a == [] {
      assert a + b == b;
    } else {
      assert (a + b)[1..] == a[1..] + b;
      BytesOfConcat(a[1..], b);
      Assoc([a[0].bytes], BytesOf(a[1..]), BytesOf(b));
    }
  }

  /** `input` is the items' bytes followed by the buffer, and both are as they should be. */
  ghost predicate Accounted(out: (seq<Item>, seq<Byte>), input: seq<Byte>) {
    && Flatten(BytesOf(out.0)) + out.1 == input
    && Retained(out.1)
    && forall i :: 0 <= i < |out.0| ==> ItemOk(out.0[i])
  }

  lemma FeedConserves(buf: seq<Byte>, chunk: seq<Byte>)
    requires chunk != [] && Retained(buf)
    ensures Accounted(Feed(buf, chunk), buf + chunk)
  {
    var b := buf + chunk;
    OneItem(Oversize(b));
    OneItem(Block(b));
    NoItem(b);
  }

  lemma NoItem(b: seq<Byte>)
    ensures Retained(b) ==> Accounted(([], b), b)
  {
    assert Flatten(BytesOf([])) + b == b;
  }

  lemma OneItem(item: Item)
    ensures ItemOk(item) ==> Accounted(([item], []), item.bytes)
  {
    assert item.bytes + [] == item.bytes;
    assert BytesOf([item]) == [item.bytes] + BytesOf([]);
    assert Flatten([item.bytes]) == item.bytes + Flatten([]);
  }

  lemma JoinAccounts(x: (seq<Item>, seq<Byte>), input: seq<Byte>, y: (seq<Item>, seq<Byte>), tail: seq<Byte>)
    requires Accounted(x, input) && Accounted(y, x.1 + tail)
    ensures Accounted((x.0 + y.0, y.1), input + tail)
  {
    BytesOfConcat(x.0, y.0);
    FlattenConcat(BytesOf(x.0), BytesOf(y.0));
    Regroup(Flatten(BytesOf(x.0)), Flatten(BytesOf(y.0)), y.1, x.1, input, tail);
  }

  /** Over every sequence of reads, the received bytes are exactly the closed blocks, the
      oversize discards and the current buffer, in order; blocks end in a newline and stay
      within the cap; the buffer is within the cap and never ends in a newline. */
  lemma {:induction false} BytesAccountedFor(buf: seq<Byte>, chunks: seq<seq<Byte>>)
    requires NonEmpty(chunks) && Retained(buf)
    ensures Accounted(Run(buf, chunks), buf + Flatten(chunks))
    decreases |chunks|
  {
    if chunks == [] {
      assert buf + Flatten(chunks) == buf;
    } else {
      var step := Feed(buf, chunks[0]);
      var tail := Flatten(chunks[1..]);
      assert buf + Flatten(chunks) == buf + chunks[0] + tail;
      FeedConserves(buf, chunks[0]);
      BytesAccountedFor(step.1, chunks[1..]);
      JoinAccounts(step, buf + chunks[0], Run(step.1, chunks[1..]), tail);
    }
  }

  /** Trimming removes exactly the trailing CR and LF bytes. */
  lemma {:induction false} TrimIs(s: seq<Byte>)
    ensures Trim(s) <= s
    ensures forall i :: |Trim(s)| <= i < |s| ==> IsEol(s[i])
    ensures Trim(s) != [] ==> !IsEol(Trim(s)[|Trim(s)| - 1])
  {
    if s != [] && IsEol(s[|s| - 1]) { TrimIs(s[..|s| - 1]); }
  }

  /** A dispatched text: the block minus its trailing carriage returns and line feeds, never
      empty before the control marker is removed, and never ending in either. */
  lemma DispatchIsTrimmedBlock(block: seq<Byte>)
    ensures |Dispatched(block)| <= 1
    ensures forall d :: d in Dispatched(block) ==>
              var whole := if d.Control? then [0x40] + d.text else d.text;
              && whole != [] && whole[|whole| - 1] !in {NEWLINE, RETURN} && whole <= block
              && (forall i :: |whole| <= i < |block| ==> block[i] in {NEWLINE, RETURN})
              && (d.Control? <==> whole[0] == 0x40)
    ensures Dispatched(block) == [] <==> forall i :: 0 <= i < |block| ==> block[i] in {NEWLINE, RETURN}
  {
    TrimIs(block);
    var t := Trim(block);
    if t != [] && t[0] == AT { assert [AT] + t[1..] == t; }
    if t != [] { assert t[|t| - 1] == block[|t| - 1]; }
  }

  // ----- framing and lines

  function FirstNewline(s: seq<Byte>): (k: nat)
    requires NEWLINE in s
    ensures k < |s| && s[k] == NEWLINE
    ensures forall m :: 0 <= m < k ==> s[m] != NEWLINE
  {
    if s[0] == NEWLINE then 0 else FirstNewline(s[1..]) + 1
  }

  /** The complete lines of a stream, newline included, and what follows the last of them. */
  ghost function Lines(s: seq<Byte>): (seq<seq<Byte>>, seq<Byte>)
    decreases |s|
  {
    if NEWLINE !in s then ([], s)
    else
      var k := FirstNewline(s) + 1;
      var rest := Lines(s[k..]);
      ([s[..k]] + rest.0, rest.1)
  }

  ghost predicate NoOversize(items: seq<Item>) {
    forall i :: 0 <= i < |items| ==> items[i].Block?
  }

  ghost predicate NoInterior(chunk: seq<Byte>) {
    chunk != [] ==> NEWLINE !in chunk[..|chunk| - 1]
  }

  /** What was closed and what is buffered are the lines of the stream. */
  ghost predicate FramesLines(out: (seq<Item>, seq<Byte>), stream: seq<Byte>) {
    (BytesOf(out.0), out.1) == Lines(stream)
  }

  lemma LinesOfPrefix(line: seq<Byte>, tail: seq<Byte>)
    requires line != [] && line[|line| - 1] == NEWLINE && NEWLINE !in line[..|line| - 1]
    ensures Lines(line + tail) == ([line] + Lines(tail).0, Lines(tail).1)
  {
    var s := line + tail;
    assert s[|line| - 1] == NEWLINE;
    forall m | 0 <= m < |line| - 1 ensures s[m] != NEWLINE { assert line[..|line| - 1][m] == s[m]; }
    assert FirstNewline(s) == |line| - 1;
    assert s[..|line|] == line && s[|line|..] == tail;
  }

  /** A first item, if there is one, covers the whole first chunk. */
  lemma {:induction false} FirstItemCoversChunk(buf: seq<Byte>, chunks: seq<seq<Byte>>)
    requires NonEmpty(chunks) && chunks != []
    ensures var items := Run(buf, chunks).0; items != [] ==> |items[0].bytes| >= |buf| + |chunks[0]|
    decreases |chunks|
  {
    var (items, kept) := Feed(buf, chunks[0]);
    if items == [] && |chunks| > 1 { FirstItemCoversChunk(kept, chunks[1..]); }
  }

  lemma InteriorBreaksFraming(buf: seq<Byte>, chunks: seq<seq<Byte>>)
    requires NonEmpty(chunks) && chunks != [] && !NoInterior(chunks[0])
    ensures !FramesLines(Run(buf, chunks), buf + Flatten(chunks))
  {
    var c := chunks[0];
    var stream := buf + Flatten(chunks);
    var j :| 0 <= j < |c| - 1 && c[..|c| - 1][j] == NEWLINE;
    assert stream[|buf| + j] == NEWLINE;
    var k := FirstNewline(stream);
    assert k <= |buf| + j;
    assert |Lines(stream).0[0]| == k + 1 < |buf| + |c|;
    FirstItemCoversChunk(buf, chunks);
    var items := Run(buf, chunks).0;
    if items != [] { assert BytesOf(items)[0] == items[0].bytes; }
  }

  lemma NoOversizeStep(buf: seq<Byte>, chunks: seq<seq<Byte>>)
    requires NonEmpty(chunks) && chunks != [] && NoOversize(Run(buf, chunks).0)
    ensures |buf + chunks[0]| <= MAX_BLOCK
    ensures NoOversize(Run(Feed(buf, chunks[0]).1, chunks[1..]).0)
  {
    var items := Feed(buf, chunks[0]).0;
    var rest := Run(Feed(buf, chunks[0]).1, chunks[1..]).0;
    var all := Run(buf, chunks).0;
    assert all == items + rest;
    forall i | 0 <= i < |items| ensures items[i].Block? { assert all[i] == items[i]; }
    assert items != [] ==> items[0].Block?;
    forall i | 0 <= i < |rest| ensures rest[i].Block? { assert all[|items| + i] == rest[i]; }
  }

  /** Closing the block `b` first leaves the question to the rest of the stream. */
  lemma ClosedLineFirst(b: seq<Byte>, rest: (seq<Item>, seq<Byte>), tail: seq<Byte>)
    requires b != [] && b[|b| - 1] == NEWLINE && NEWLINE !in b[..|b| - 1]
    ensures FramesLines(([Block(b)] + rest.0, rest.1), b + tail) <==> FramesLines(rest, tail)
  {
    LinesOfPrefix(b, tail);
    BytesOfConcat([Block(b)], rest.0);
    assert BytesOf([Block(b)]) == [b] + BytesOf([]);
    assert ([b] + BytesOf(rest.0))[1..] == BytesOf(rest.0);
    assert ([b] + Lines(tail).0)[1..] == Lines(tail).0;
  }

  ghost predicate AllNoInterior(chunks: seq<seq<Byte>>) {
    forall c :: c in chunks ==> NoInterior(c)
  }

  /** As long as nothing is discarded, what a session closes are the lines of the stream if
      and only if no chunk carries a newline before its last byte. */
  lemma {:induction false} UncappedFramesIff(buf: seq<Byte>, chunks: seq<seq<Byte>>)
    requires NonEmpty(chunks) && NEWLINE !in buf && NoOversize(Run(buf, chunks).0)
    ensures FramesLines(Run(buf, chunks), buf + Flatten(chunks)) <==> AllNoInterior(chunks)
    decreases |chunks|
  {
    if chunks == [] {
      assert buf + Flatten(chunks) == buf;
    } else if !NoInterior(chunks[0]) {
      InteriorBreaksFraming(buf, chunks);
      assert chunks[0] in chunks;
    } else {
      var b := buf + chunks[0];
      var tail := Flatten(chunks[1..]);
      assert buf + Flatten(chunks) == b + tail;
      assert b[..|b| - 1] == buf + chunks[0][..|chunks[0]| - 1];
      assert chunks == [chunks[0]] + chunks[1..];
      NoOversizeStep(buf, chunks);
      if b[|b| - 1] == NEWLINE {
        assert [] + tail == tail;
        UncappedFramesIff([], chunks[1..]);
        ClosedLineFirst(b, Run([], chunks[1..]), tail);
      } else {
        assert b == b[..|b| - 1] + [b[|b| - 1]];
        UncappedFramesIff(b, chunks[1..]);
        assert [] + Run(b, chunks[1..]).0 == Run(b, chunks[1..]).0;
      }
    }
  }

  /** Every line, and what follows the last one, is within the cap. */
  ghost predicate LinesFit(stream: seq<Byte>) {
    (forall line :: line in Lines(stream).0 ==> |line| <= 1_048_576) && |Lines(stream).1| <= 1_048_576
  }

  lemma FirstLineFits(head: seq<Byte>, tail: seq<Byte>)
    requires LinesFit(head + tail)
    requires head != [] ==> NEWLINE !in head[..|head| - 1]
    ensures |head| <= MAX_BLOCK
    ensures head != [] && head[|head| - 1] == NEWLINE ==> LinesFit(tail)
  {
    var s := head + tail;
    if head != [] && head[|head| - 1] == NEWLINE {
      LinesOfPrefix(head, tail);
      assert Lines(s).0[0] == head && Lines(s).0[0] in Lines(s).0;
      forall line | line in Lines(tail).0 ensures |line| <= MAX_BLOCK { assert line in Lines(s).0; }
    } else if NEWLINE in s {
      var k := FirstNewline(s);
      assert head != [] ==> head == head[..|head| - 1] + [head[|head| - 1]];
      assert forall m :: 0 <= m < |head| ==> s[m] == head[m] && head[m] in head;
      assert Lines(s).0[0] == s[..k + 1] && Lines(s).0[0] in Lines(s).0;
    }
  }

  lemma KeptStep(buf: seq<Byte>, chunks: seq<seq<Byte>>)
    requires NonEmpty(chunks) && chunks != [] && |buf + chunks[0]| <= MAX_BLOCK
    requires NoOversize(Run(Feed(buf, chunks[0]).1, chunks[1..]).0)
    ensures NoOversize(Run(buf, chunks).0)
  {
    assert Run(buf, chunks).0 == Feed(buf, chunks[0]).0 + Run(Feed(buf, chunks[0]).1, chunks[1..]).0;
  }

  lemma {:induction false} ShortLinesAreKept(buf: seq<Byte>, chunks: seq<seq<Byte>>)
    requires NonEmpty(chunks) && NEWLINE !in buf && AllNoInterior(chunks) && LinesFit(buf + Flatten(chunks))
    ensures NoOversize(Run(buf, chunks).0)
    decreases |chunks|
  {
    if chunks != [] {
      var b, tail := buf + chunks[0], Flatten(chunks[1..]);
      var kept := ChunkFits(buf, chunks[0], tail) by {
        assert chunks[0] in chunks;
        assert buf + Flatten(chunks) == b + tail;
      }
      assert AllNoInterior(chunks[1..]);
      ShortLinesAreKept(kept, chunks[1..]);
      KeptStep(buf, chunks);
    }
  }

  /** A chunk that keeps to the lines of a stream that fits. */
  lemma ChunkFits(buf: seq<Byte>, chunk: seq<Byte>, tail: seq<Byte>) returns (kept: seq<Byte>)
    requires chunk != [] && NEWLINE !in buf && NoInterior(chunk) && LinesFit(buf + chunk + tail)
    ensures |buf + chunk| <= MAX_BLOCK
    ensures kept == Feed(buf, chunk).1 && NEWLINE !in kept && LinesFit(kept + tail)
  {
    var b := buf + chunk;
    assert b[..|b| - 1] == buf + chunk[..|chunk| - 1];
    FirstLineFits(b, tail);
    kept := Feed(buf, chunk).1;
    assert [] + tail == tail;
    assert b == b[..|b| - 1] + [b[|b| - 1]];
  }

  lemma FramedLinesFit(out: (seq<Item>, seq<Byte>), stream: seq<Byte>)
    requires NoOversize(out.0) && FramesLines(out, stream) && Retained(out.1)
    requires forall i :: 0 <= i < |out.0| ==> ItemOk(out.0[i])
    ensures LinesFit(stream)
  {
    forall line | line in Lines(stream).0 ensures |line| <= MAX_BLOCK {
      var i :| 0 <= i < |BytesOf(out.0)| && BytesOf(out.0)[i] == line;
      BytesOfAt(out.0, i);
    }
  }

  lemma {:induction false} BytesOfAt(items: seq<Item>, i: nat)
    requires i < |BytesOf(items)|
    ensures i < |items| && BytesOf(items)[i] == items[i].bytes
  {
    if i > 0 { BytesOfAt(items[1..], i - 1); }
  }

  /** Framing follows chunk boundaries, not newlines: a session closes exactly the lines of
      the stream, discarding nothing, if and only if no chunk carries a newline before its
      last byte and every line, the unfinished one included, is within the cap. */
  lemma {:induction false} FramesLinesIff(buf: seq<Byte>, chunks: seq<seq<Byte>>)
    requires NonEmpty(chunks) && NEWLINE !in buf && |buf| <= MAX_BLOCK
    ensures NoOversize(Run(buf, chunks).0) && FramesLines(Run(buf, chunks), buf + Flatten(chunks))
            <==> AllNoInterior(chunks) && LinesFit(buf + Flatten(chunks))
  {
    BytesAccountedFor(buf, chunks);
    if NoOversize(Run(buf, chunks).0) {
      UncappedFramesIff(buf, chunks);
      if FramesLines(Run(buf, chunks), buf + Flatten(chunks)) {
        FramedLinesFit(Run(buf, chunks), buf + Flatten(chunks));
      }
    } else if AllNoInterior(chunks) && LinesFit(buf + Flatten(chunks)) {
      ShortLinesAreKept(buf, chunks);
    }
  }

  // ----- what a session hands out

  /** The texts of the closed blocks, in order; a discard has none. */
  ghost function Texts(items: seq<Item>): seq<Dispatch> {
    if items == [] then [] else (if items[0].Block? then Dispatched(items[0].bytes) else []) + Texts(items[1..])
  }

  ghost function Controls(): iset<Dispatch> {
    iset d: Dispatch | d.Control?
  }

  /** Without a handler only control messages go anywhere. */
  ghost function Passed(hasHandler: bool, ds: seq<Dispatch>): seq<Dispatch> {
    if hasHandler then ds else Select(ds, Controls())
  }

  lemma {:induction false} TextsConcat(a: seq<Item>, b: seq<Item>)
    ensures Texts(a + b) == Texts(a) + Texts(b)
  {
    if a == [] {
      assert a + b == b;
    } else {
      assert (a + b)[1..] == a[1..] + b;
      TextsConcat(a[1..], b);
      Assoc(if a[0].Block? then Dispatched(a[0].bytes) else [], Texts(a[1..]), Texts(b));
    }
  }

  lemma PassedConcat(hasHandler: bool, a: seq<Dispatch>, b: seq<Dispatch>)
    ensures Passed(hasHandler, a + b) == Passed(hasHandler, a) + Passed(hasHandler, b)
  {
    SelectConcat(a, b, Controls());
  }

  /** What one closed block, or one discard, hands out. */
  lemma TextsOfOne(b: seq<Byte>, hasHandler: bool)
    ensures Texts([Oversize(b)]) == [] && Texts([]) == []
    ensures Texts([Block(b)]) == Dispatched(b)
    ensures var text := Trim(b);
            Passed(hasHandler, Dispatched(b))
            == if text == [] then []
               else if text[0] == AT then [Control(text[1..])]
               else if hasHandler then [Message(text)] else []
  {
    assert Texts([Block(b)]) == Dispatched(b) + Texts([]);
    var ds := Dispatched(b);
    if ds != [] {
      assert ds == [ds[0]];
      assert Select(ds, Controls()) == (if ds[0].Control? then [ds[0]] else []) + Select([], Controls());
    }
  }

  // ----- the session object

  class ClientSession {
    const hasHandler: bool
    var blockBuf: seq<Byte>
    var dispatched: seq<Dispatch>

    constructor (hasHandler: bool)
      ensures this.hasHandler == hasHandler && blockBuf == [] && dispatched == []
    {
      this.hasHandler := hasHandler;
      blockBuf, dispatched := [], [];
    }

    /** Pops trailing carriage returns and line feeds. */
    method TrimBuffer()
      modifies this`blockBuf
      ensures blockBuf == Trim(old(blockBuf))
    {
      while blockBuf != [] && IsEol(blockBuf[|blockBuf| - 1])
        invariant Trim(blockBuf) == Trim(old(blockBuf))
        decreases |blockBuf|
      {
        blockBuf := blockBuf[..|blockBuf| - 1];
      }
    }

    /** A successful read of `chunk`; reads complete with at least one byte. */
    method OnChunk(chunk: seq<Byte>)
      requires chunk != []
      modifies this`blockBuf, this`dispatched
      ensures blockBuf == Feed(old(blockBuf), chunk).1
      ensures dispatched == old(dispatched) + Passed(hasHandler, Texts(Feed(old(blockBuf), chunk).0))
    {
      assert dispatched + [] == dispatched;
      TextsOfOne(blockBuf + chunk, hasHandler);
      blockBuf := blockBuf + chunk;
      if |blockBuf| > MAX_BLOCK {
        blockBuf := [];
        return;
      }
      if blockBuf[|blockBuf| - 1] == NEWLINE {
        TrimBuffer();
        if blockBuf != [] {
          if blockBuf[0] == AT {
            dispatched := dispatched + [Control(blockBuf[1..])];
          } else if hasHandler {
            dispatched := dispatched + [Message(blockBuf)];
          }
        }
        blockBuf := [];
      }
    }
  }

  /** With `rest` still to be read, everything adds up to the whole session. */
  ghost predicate ToCome(hasHandler: bool, dispatched: seq<Dispatch>, rest: (seq<Item>, seq<Byte>),
                         before: seq<Dispatch>, whole: (seq<Item>, seq<Byte>)) {
    && dispatched + Passed(hasHandler, Texts(rest.0)) == before + Passed(hasHandler, Texts(whole.0))
    && rest.1 == whole.1
  }

  lemma ReadNext(hasHandler: bool, dispatched: seq<Dispatch>, buf: seq<Byte>, chunk: seq<Byte>, rest: seq<seq<Byte>>,
                 before: seq<Dispatch>, whole: (seq<Item>, seq<Byte>))
    requires chunk != [] && NonEmpty(rest) && NonEmpty([chunk] + rest)
    requires ToCome(hasHandler, dispatched, Run(buf, [chunk] + rest), before, whole)
    ensures var step := Feed(buf, chunk);
            ToCome(hasHandler, dispatched + Passed(hasHandler, Texts(step.0)), Run(step.1, rest), before, whole)
  {
    var step := Feed(buf, chunk);
    var more := Run(step.1, rest);
    assert ([chunk] + rest)[1..] == rest;
    TextsConcat(step.0, more.0);
    PassedConcat(hasHandler, Texts(step.0), Texts(more.0));
    Assoc(dispatched, Passed(hasHandler, Texts(step.0)), Passed(hasHandler, Texts(more.0)));
  }

  lemma NothingToCome(hasHandler: bool, dispatched: seq<Dispatch>, buf: seq<Byte>,
                      before: seq<Dispatch>, whole: (seq<Item>, seq<Byte>))
    requires ToCome(hasHandler, dispatched, Run(buf, []), before, whole)
    ensures dispatched == before + Passed(hasHandler, Texts(whole.0)) && buf == whole.1
  {
    assert dispatched + [] == dispatched;
  }

  method ReadOne(session: ClientSession, chunk: seq<Byte>, ghost rest: seq<seq<Byte>>,
                 ghost before: seq<Dispatch>, ghost whole: (seq<Item>, seq<Byte>))
    requires chunk != [] && NonEmpty(rest) && NonEmpty([chunk] + rest)
    requires ToCome(session.hasHandler, session.dispatched, Run(session.blockBuf, [chunk] + rest), before, whole)
    modifies session
    ensures ToCome(session.hasHandler, session.dispatched, Run(session.blockBuf, rest), before, whole)
  {
    ReadNext(session.hasHandler, session.dispatched, session.blockBuf, chunk, rest, before, whole);
    session.OnChunk(chunk);
  }

  /** The read loop of one session. With a handler it hands out exactly the texts of its closed
      blocks, in order; without one, exactly the control messages among them. */
  method ReadAll(session: ClientSession, chunks: seq<seq<Byte>>)
    requires NonEmpty(chunks)
    modifies session
    ensures var (items, kept) := Run(old(session.blockBuf), chunks);
            && session.blockBuf == kept
            && session.dispatched
               == old(session.dispatched)
                  + if session.hasHandler then Texts(items) else Select(Texts(items), Controls())
  {
    ghost var whole, before := Run(session.blockBuf, chunks), session.dispatched;
    var rest := chunks;
    while rest != []
      invariant NonEmpty(rest)
      invariant ToCome(session.hasHandler, session.dispatched, Run(session.blockBuf, rest), before, whole)
      decreases |rest|
    {
      var chunk := rest[0];
      assert rest == [chunk] + rest[1..];
      rest := rest[1..];
      ReadOne(session, chunk, rest, before, whole);
    }
    NothingToCome(session.hasHandler, session.dispatched, session.blockBuf, before, whole);
  }
}
