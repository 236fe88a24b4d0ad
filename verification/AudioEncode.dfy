/** Re-blocking of arbitrary input chunks into encoder frames: the sample FIFO, timestamps,
    and the padded final frame. One element of the FIFO is one PCM frame, that is one sample
    of every channel; conversion to the encoder's format is samplewise and left implicit. */
module AudioEncode {
  import opened Arith
  import opened Lists

  /** What the encoder receives. */
  datatype Frame<S> = Frame(samples: seq<S>, pts: nat)

  // ----- reference definitions

  /** The full blocks of `f` samples at the head of `s`, and what is left over. */
  function Blocks<S>(s: seq<S>, f: nat): seq<seq<S>>
    requires f > 0
    decreases |s|
  {
    if |s| < f then [] else [s[..f]] + Blocks(s[f..], f)
  }

  function Rest<S>(s: seq<S>, f: nat): (r: seq<S>)
    requires f > 0
    ensures |r| < f
    decreases |s|
  {
    if |s| < f then s else Rest(s[f..], f)
  }

  function Repeat<S>(x: S, n: nat): (r: seq<S>)
    ensures |r| == n && forall i :: 0 <= i < n ==> r[i] == x
  {
    if n == 0 then [] else [x] + Repeat(x, n - 1)
  }

  /** Bodies sent by one `encode_frames` call on FIFO content `s`, and what stays behind.
      Frame size 0 means the encoder takes everything at once. */
  function Emit<S>(s: seq<S>, f: nat): seq<seq<S>> {
    if f > 0 then Blocks(s, f) else if s == [] then [] else [s]
  }

  function Keep<S>(s: seq<S>, f: nat): (r: seq<S>)
    ensures f > 0 ==> |r| < f
  {
    if f > 0 then Rest(s, f) else []
  }

  /** Bodies sent by `drain`: the last one is filled up with silence. */
  function Flush<S>(s: seq<S>, f: nat, silence: S): seq<seq<S>> {
    if Keep(s, f) == [] then Emit(s, f)
    else Emit(s, f) + [Keep(s, f) + Repeat(silence, f - |Keep(s, f)|)]
  }

  /** Frames carrying `bodies`, each stamped with the number of samples before it. */
  function Stamped<S>(bodies: seq<seq<S>>, pts: nat): seq<Frame<S>> {
    if bodies == [] then [] else [Frame(bodies[0], pts)] + Stamped(bodies[1..], pts + |bodies[0]|)
  }

  // ----- laws of the reference

  lemma {:induction false} BlocksConserve<S>(s: seq<S>, f: nat)
    requires f > 0
    ensures Flatten(Blocks(s, f)) + Rest(s, f) == s
    decreases |s|
  {
    if |s| >= f {
      var head, tail := s[..f], s[f..];
      BlocksConserve(tail, f);
      FlattenCons(head, Blocks(tail, f));
      Assoc(head, Flatten(Blocks(tail, f)), Rest(tail, f));
      assert head + tail == s;
    }
  }

  lemma {:induction false} BlocksAreFull<S>(s: seq<S>, f: nat)
    requires f > 0
    ensures forall i :: 0 <= i < |Blocks(s, f)| ==> |Blocks(s, f)[i]| == f
    decreases |s|
  {
    if |s| >= f { BlocksAreFull(s[f..], f); }
  }

  lemma EmitConserves<S>(s: seq<S>, f: nat)
    ensures Flatten(Emit(s, f)) + Keep(s, f) == s
  {
    if f > 0 { BlocksConserve(s, f); }
    assert Flatten([s]) == s + Flatten([]);
  }

  /** Blocks can be cut off before the rest of the input is known. */
  lemma {:induction false} BlocksSplit<S>(s: seq<S>, t: seq<S>, f: nat)
    requires f > 0
    ensures Blocks(s + t, f) == Blocks(s, f) + Blocks(Rest(s, f) + t, f)
    ensures Rest(s + t, f) == Rest(Rest(s, f) + t, f)
    decreases |s|
  {
    if |s| >= f {
      assert (s + t)[..f] == s[..f] && (s + t)[f..] == s[f..] + t;
      BlocksSplit(s[f..], t, f);
    }
  }

  lemma {:induction false} StampedConcat<S>(a: seq<seq<S>>, b: seq<seq<S>>, pts: nat)
    ensures Stamped(a + b, pts) == Stamped(a, pts) + Stamped(b, pts + |Flatten(a)|)
    decreases |a|
  {
    if a == [] {
      assert a + b == b;
    } else {
      assert (a + b)[1..] == a[1..] + b;
      StampedConcat(a[1..], b, pts + |a[0]|);
      Assoc([Frame(a[0], pts)], Stamped(a[1..], pts + |a[0]|), Stamped(b, pts + |Flatten(a)|));
    }
  }

  /** A frame's timestamp is the total length of the frames before it. */
  lemma {:induction false} StampIsOffset<S>(bodies: seq<seq<S>>, pts: nat, k: nat)
    requires k < |bodies|
    ensures |Stamped(bodies, pts)| == |bodies|
    ensures Stamped(bodies, pts)[k] == Frame(bodies[k], pts + |Flatten(bodies[..k])|)
    decreases |bodies|
  {
    if k > 0 {
      StampIsOffset(bodies[1..], pts + |bodies[0]|, k - 1);
      assert bodies[..k][1..] == bodies[1..][..k - 1];
    } else if |bodies| > 1 {
      StampIsOffset(bodies[1..], pts + |bodies[0]|, 0);
    }
  }

  /** Samples one `send_fifo_frame` reads, and the silence that would complete its frame. */
  function TakeCount<S>(s: seq<S>, f: nat): (n: nat)
    ensures n <= |s|
  {
    if f == 0 || |s| < f then |s| else f
  }

  function Padding<S>(s: seq<S>, f: nat, silence: S): seq<S> {
    if f == 0 || f <= |s| then [] else Repeat(silence, f - |s|)
  }

  lemma EmitFirst<S>(s: seq<S>, f: nat)
    requires s != [] && f <= |s|
    ensures var n := TakeCount(s, f);
            Emit(s, f) == [s[..n]] + Emit(s[n..], f) && Keep(s, f) == Keep(s[n..], f)
  {
    if f == 0 { assert s[..|s|] == s; }
  }

  lemma FlushFirst<S>(s: seq<S>, f: nat, silence: S)
    requires s != []
    ensures var n := TakeCount(s, f);
            Flush(s, f, silence) == [s[..n] + Padding(s, f, silence)] + Flush(s[n..], f, silence)
  {
    var n := TakeCount(s, f);
    assert s[..n] + [] == s[..n];
    if f <= |s| {
      EmitFirst(s, f);
      var e := Emit(s[n..], f);
      var k := Keep(s, f);
      if k != [] {
        assert [s[..n]] + (e + [k + Repeat(silence, f - |k|)]) == [s[..n]] + e + [k + Repeat(silence, f - |k|)];
      }
    } else {
      assert s[..|s|] == s && s[|s|..] == [];
      assert Flush(s[n..], f, silence) == [];
    }
  }

  /** Sending one more body. */
  lemma AppendBody<S>(done: seq<seq<S>>, body: seq<S>, rest: seq<seq<S>>, pts: nat)
    ensures Stamped(done + [body], pts) == Stamped(done, pts) + [Frame(body, pts + |Flatten(done)|)]
    ensures |Flatten(done + [body])| == |Flatten(done)| + |body|
    ensures done + ([body] + rest) == done + [body] + rest
    ensures body + [] == body
  {
    StampedConcat(done, [body], pts);
    FlattenConcat(done, [body]);
    assert Flatten([body]) == body + Flatten([]);
    assert Stamped([body], pts + |Flatten(done)|)
        == [Frame(body, pts + |Flatten(done)|)] + Stamped([], pts + |Flatten(done)| + |body|);
  }

  /** One turn of the drain loop: the frame it sends, and what remains. */
  lemma FlushNext<S>(done: seq<seq<S>>, s: seq<S>, f: nat, silence: S, pts: nat)
    requires s != []
    ensures var n := TakeCount(s, f);
            var body := s[..n] + Padding(s, f, silence);
            && done + Flush(s, f, silence) == done + [body] + Flush(s[n..], f, silence)
            && Stamped(done + [body], pts) == Stamped(done, pts) + [Frame(body, pts + |Flatten(done)|)]
            && |Flatten(done + [body])| == |Flatten(done)| + |body|
  {
    var n := TakeCount(s, f);
    FlushFirst(s, f, silence);
    AppendBody(done, s[..n] + Padding(s, f, silence), Flush(s[n..], f, silence), pts);
  }

  // ----- the encoder object

  class AudioEncodeContext<S(==)> {
    const frameSize: nat  // codec_context->frame_size; 0 for PCM-like encoders
    const silence: S
    var valid: bool
    var fifo: seq<S>
    var pts: nat
    var sent: seq<Frame<S>>
    var flushed: bool

    constructor (frameSize: nat, silence: S)
      ensures this.frameSize == frameSize && this.silence == silence
      ensures valid && fifo == [] && pts == 0 && sent == [] && !flushed
    {
      this.frameSize, this.silence := frameSize, silence;
      valid, fifo, pts, sent, flushed := true, [], 0, [], false;
    }

    /** Takes one frame from the FIFO; a frame of no samples cannot be allocated. */
    method SendFifoFrame(pad: bool) returns (ok: bool)
      modifies this`fifo, this`pts, this`sent
      ensures ok <==> frameSize > 0 || old(fifo) != []
      ensures !ok ==> fifo == old(fifo) && sent == old(sent) && pts == old(pts)
      ensures ok ==>
                var read := TakeCount(old(fifo), frameSize);
                var body := old(fifo)[..read] + if pad then Padding(old(fifo), frameSize, silence) else [];
                fifo == old(fifo)[read..] && sent == old(sent) + [Frame(body, old(pts))] && pts == old(pts) + |body|
    {
      var size := if frameSize > 0 then frameSize else |fifo|;
      if size == 0 { return false; }
      var available := |fifo|;
      var read := if available < size then available else size;
      var samples := fifo[..read];
      fifo := fifo[read..];
      if pad && read < size {
        samples := samples + Repeat(silence, size - read);
      }
      assert samples + [] == samples;
      sent := sent + [Frame(samples, pts)];
      pts := pts + |samples|;
      ok := true;
    }

    /** `encode_frames`. A chunk of no samples is refused, since no conversion buffer of that
        size can be allocated. */
    method EncodeFrames(input: seq<S>) returns (ok: bool)
      modifies this`fifo, this`pts, this`sent
      ensures ok <==> valid && input != []
      ensures !ok ==> fifo == old(fifo) && pts == old(pts) && sent == old(sent)
      ensures ok ==>
                && sent == old(sent) + Stamped(Emit(old(fifo) + input, frameSize), old(pts))
                && fifo == Keep(old(fifo) + input, frameSize)
                && pts == old(pts) + |Flatten(Emit(old(fifo) + input, frameSize))|
    {
      if !valid || input == [] { return false; }
      fifo := fifo + input;
      ghost var all, p0, sent0 := fifo, pts, sent;
      var size := if frameSize > 0 then frameSize else |fifo|;
      ghost var done: seq<seq<S>> := [];
      while |fifo| >= size
        invariant size > 0 && valid && (frameSize > 0 ==> size == frameSize)
        invariant frameSize == 0 ==> |fifo| == size || fifo == []
        invariant Emit(all, frameSize) == done + Emit(fifo, frameSize)
        invariant Keep(all, frameSize) == Keep(fifo, frameSize)
        invariant sent == sent0 + Stamped(done, p0) && pts == p0 + |Flatten(done)|
        decreases |fifo|
      {
        ghost var body := fifo[..size];
        EmitFirst(fifo, frameSize);
        AppendBody(done, body, Emit(fifo[size..], frameSize), p0);
        var sentOk := SendFifoFrame(false);
        if !sentOk { return false; }
        done := done + [body];
      }
      assert done + [] == done;
      ok := true;
    }

    /** The loop of `drain`, which ends because every frame takes samples from the FIFO. */
    method FlushFifo()
      modifies this`fifo, this`pts, this`sent
      ensures fifo == []
      ensures sent == old(sent) + Stamped(Flush(old(fifo), frameSize, silence), old(pts))
      ensures pts == old(pts) + |Flatten(Flush(old(fifo), frameSize, silence))|
    {
      ghost var all, p0, sent0, done: seq<seq<S>> := fifo, pts, sent, [];
      while |fifo| > 0
        invariant Flush(all, frameSize, silence) == done + Flush(fifo, frameSize, silence)
        invariant sent == sent0 + Stamped(done, p0) && pts == p0 + |Flatten(done)|
        decreases |fifo|
      {
        ghost var read := TakeCount(fifo, frameSize);
        ghost var body := fifo[..read] + Padding(fifo, frameSize, silence);
        FlushNext(done, fifo, frameSize, silence, p0);
        var _ := SendFifoFrame(true);
        done := done + [body];
      }
      assert done + [] == done;
    }

    /** `drain`: empties the FIFO, padding the last frame, then signals end of stream. */
    method Drain() returns (ok: bool)
      modifies this`fifo, this`pts, this`sent, this`flushed
      ensures ok <==> valid
      ensures !ok ==> fifo == old(fifo) && pts == old(pts) && sent == old(sent) && flushed == old(flushed)
      ensures ok ==>
                && fifo == [] && flushed
                && sent == old(sent) + Stamped(Flush(old(fifo), frameSize, silence), old(pts))
                && pts == old(pts) + |Flatten(Flush(old(fifo), frameSize, silence))|
    {
      if !valid { return false; }
      FlushFifo();
      flushed := true;
      ok := true;
    }
  }

  // ----- whole sessions

  /** The frames and FIFO after the calls `encode_frames(chunks[0])`, `encode_frames(chunks[1])`, … */
  ghost function Session<S>(fifo: seq<S>, pts: nat, chunks: seq<seq<S>>, f: nat): (seq<Frame<S>>, seq<S>)
    decreases |chunks|
  {
    if chunks == [] then ([], fifo)
    else if chunks[0] == [] then Session(fifo, pts, chunks[1..], f)
    else
      var bodies := Emit(fifo + chunks[0], f);
      var rest := Session(Keep(fifo + chunks[0], f), pts + |Flatten(bodies)|, chunks[1..], f);
      (Stamped(bodies, pts) + rest.0, rest.1)
  }

  lemma SessionStep<S>(fifo: seq<S>, pts: nat, head: seq<S>, tail: seq<S>, f: nat)
    requires f > 0
    ensures var bodies, left := Emit(fifo + head, f), Keep(fifo + head, f);
            && Stamped(Blocks(fifo + (head + tail), f), pts)
               == Stamped(bodies, pts) + Stamped(Blocks(left + tail, f), pts + |Flatten(bodies)|)
            && Rest(fifo + (head + tail), f) == Rest(left + tail, f)
  {
    var first := fifo + head;
    var bodies, more := Emit(first, f), Blocks(Keep(first, f) + tail, f);
    Assoc(fifo, head, tail);
    BlocksSplit(first, tail, f);
    assert Blocks(first + tail, f) == bodies + more;
    StampedConcat(bodies, more, pts);
  }

  /** For a positive frame size the output depends only on the samples, not on how they were
      split over calls: it is the input cut into blocks, with the remainder in the FIFO. */
  lemma {:induction false} ChunkingIsInvisible<S>(fifo: seq<S>, pts: nat, chunks: seq<seq<S>>, f: nat)
    requires f > 0 && |fifo| < f
    ensures Session(fifo, pts, chunks, f)
            == (Stamped(Blocks(fifo + Flatten(chunks), f), pts), Rest(fifo + Flatten(chunks), f))
    decreases |chunks|
  {
    if chunks == [] {
      assert fifo + [] == fifo;
    } else {
      var head, tail := chunks[0], Flatten(chunks[1..]);
      assert Flatten(chunks) == head + tail;
      if head == [] {
        assert head + tail == tail;
        ChunkingIsInvisible(fifo, pts, chunks[1..], f);
      } else {
        var bodies, kept := Emit(fifo + head, f), Keep(fifo + head, f);
        var rest := Session(kept, pts + |Flatten(bodies)|, chunks[1..], f);
        assert Session(fifo, pts, chunks, f) == (Stamped(bodies, pts) + rest.0, rest.1);
        SessionStep(fifo, pts, head, tail, f);
        ChunkingIsInvisible(kept, pts + |Flatten(bodies)|, chunks[1..], f);
      }
    }
  }

  /** Two sessions fed the same samples send the same frames with the same timestamps. */
  lemma SameSamplesSameFrames<S>(chunks: seq<seq<S>>, others: seq<seq<S>>, f: nat)
    requires f > 0 && Flatten(chunks) == Flatten(others)
    ensures Session([], 0, chunks, f) == Session([], 0, others, f)
    ensures |Session([], 0, chunks, f).1| < f
  {
    ChunkingIsInvisible([], 0, chunks, f);
    ChunkingIsInvisible([], 0, others, f);
  }

  ghost function Bodies<S>(frames: seq<Frame<S>>): seq<seq<S>> {
    if frames == [] then [] else [frames[0].samples] + Bodies(frames[1..])
  }

  lemma {:induction false} BodiesStamped<S>(bodies: seq<seq<S>>, pts: nat)
    ensures Bodies(Stamped(bodies, pts)) == bodies
    decreases |bodies|
  {
    if bodies != [] {
      assert Stamped(bodies, pts)[1..] == Stamped(bodies[1..], pts + |bodies[0]|);
      BodiesStamped(bodies[1..], pts + |bodies[0]|);
    }
  }

  lemma {:induction false} BodiesConcat<S>(a: seq<Frame<S>>, b: seq<Frame<S>>)
    ensures Bodies(a + b) == Bodies(a) + Bodies(b)
  {
    if a == [] {
      assert a + b == b;
    } else {
      assert (a + b)[1..] == a[1..] + b;
      BodiesConcat(a[1..], b);
      Assoc([a[0].samples], Bodies(a[1..]), Bodies(b));
    }
  }

  ghost predicate Conserves<S>(out: (seq<Frame<S>>, seq<S>), input: seq<S>, f: nat) {
    Flatten(Bodies(out.0)) + out.1 == input && (f == 0 ==> out.1 == [])
  }

  /** Conservation at every frame size: samples in are samples sent plus samples kept, and
      nothing is kept at frame size 0. */
  lemma {:induction false} SamplesConserved<S>(fifo: seq<S>, pts: nat, chunks: seq<seq<S>>, f: nat)
    requires f == 0 ==> fifo == []
    ensures Conserves(Session(fifo, pts, chunks, f), fifo + Flatten(chunks), f)
    decreases |chunks|
  {
    if chunks == [] {
      assert fifo + Flatten(chunks) == fifo;
    } else {
      var head, tail := chunks[0], Flatten(chunks[1..]);
      assert Flatten(chunks) == head + tail;
      assert fifo + (head + tail) == fifo + head + tail;
      if head == [] {
        assert head + tail == tail;
        SamplesConserved(fifo, pts, chunks[1..], f);
      } else {
        var bodies, kept := Emit(fifo + head, f), Keep(fifo + head, f);
        var rest := Session(kept, pts + |Flatten(bodies)|, chunks[1..], f);
        SamplesConserved(kept, pts + |Flatten(bodies)|, chunks[1..], f);
        assert Session(fifo, pts, chunks, f) == (Stamped(bodies, pts) + rest.0, rest.1);
        ConserveCall(fifo + head, pts, rest, tail, f);
      }
    }
  }

  lemma ConserveCall<S>(input: seq<S>, pts: nat, rest: (seq<Frame<S>>, seq<S>), tail: seq<S>, f: nat)
    requires Conserves(rest, Keep(input, f) + tail, f)
    ensures Conserves((Stamped(Emit(input, f), pts) + rest.0, rest.1), input + tail, f)
  {
    var bodies := Emit(input, f);
    EmitConserves(input, f);
    BodiesStamped(bodies, pts);
    BodiesConcat(Stamped(bodies, pts), rest.0);
    FlattenConcat(bodies, Bodies(rest.0));
    Regroup(Flatten(bodies), Flatten(Bodies(rest.0)), rest.1, Keep(input, f), input, tail);
  }

  lemma {:induction false} RestIsRemainder<S>(s: seq<S>, f: nat)
    requires f > 0
    ensures |Rest(s, f)| == |s| % f
    decreases |s|
  {
    if |s| >= f {
      RestIsRemainder(s[f..], f);
      ModStep(|s|, f);
    } else {
      DivModUnique(|s|, f, 0, |s|);
    }
  }

  /** The number of silent samples `drain` adds to `n` input samples. */
  function SilenceAdded(n: nat, f: nat): nat {
    if f == 0 then 0 else (f - n % f) % f
  }

  lemma SilenceCompletes<S>(input: seq<S>, f: nat)
    ensures SilenceAdded(|input|, f) == if Keep(input, f) == [] then 0 else f - |Keep(input, f)|
    ensures f > 0 ==> SilenceAdded(|input|, f) < f
  {
    if f > 0 {
      RestIsRemainder(input, f);
      PadAmount(|Rest(input, f)|, f);
    }
  }

  /** After `drain`, the concatenated frames are the input followed by the least number of
      silent samples that completes the last frame: fewer than a frame, none at size 0. */
  lemma DrainedOutput<S>(input: seq<S>, f: nat, silence: S)
    ensures Flatten(Flush(input, f, silence)) == input + Repeat(silence, SilenceAdded(|input|, f))
    ensures f > 0 ==> SilenceAdded(|input|, f) < f
    ensures f > 0 ==> forall i :: 0 <= i < |Flush(input, f, silence)| ==> |Flush(input, f, silence)[i]| == f
  {
    EmitConserves(input, f);
    SilenceCompletes(input, f);
    if f > 0 { BlocksAreFull(input, f); }
    var kept := Keep(input, f);
    if kept == [] {
      assert input + [] == input && Flatten(Emit(input, f)) + [] == Flatten(Emit(input, f));
    } else {
      var pad := Repeat(silence, f - |kept|);
      FlattenConcat(Emit(input, f), [kept + pad]);
      assert Flatten([kept + pad]) == kept + pad + Flatten([]);
      assert Flatten(Emit(input, f)) + (kept + pad) == Flatten(Emit(input, f)) + kept + pad;
    }
  }

  /** A whole file: every split of the input over `encode_frames` calls followed by `drain`
      sends the frames that draining the undivided input would send. */
  lemma WholeFile<S>(chunks: seq<seq<S>>, f: nat, silence: S)
    requires f > 0
    ensures var (frames, left) := Session([], 0, chunks, f);
            frames + Stamped(Flush(left, f, silence), |Flatten(Bodies(frames))|)
            == Stamped(Flush(Flatten(chunks), f, silence), 0)
  {
    var input := Flatten(chunks);
    assert [] + input == input;
    ChunkingIsInvisible([], 0, chunks, f);
    var blocks, left := Blocks(input, f), Rest(input, f);
    BodiesStamped(blocks, 0);
    assert Blocks(left, f) == [] && Rest(left, f) == left;
    assert Flush(input, f, silence) == blocks + Flush(left, f, silence);
    StampedConcat(blocks, Flush(left, f, silence), 0);
  }

  /** The first non-empty chunk of a session. */
  lemma SessionHead<S>(fifo: seq<S>, pts: nat, chunks: seq<seq<S>>, f: nat)
    requires chunks != [] && chunks[0] != []
    ensures var bodies := Emit(fifo + chunks[0], f);
            var rest := Session(Keep(fifo + chunks[0], f), pts + |Flatten(bodies)|, chunks[1..], f);
            && Session(fifo, pts, chunks, f) == (Stamped(bodies, pts) + rest.0, rest.1)
            && Bodies(Session(fifo, pts, chunks, f).0) == bodies + Bodies(rest.0)
            && SamplesIn(Session(fifo, pts, chunks, f).0) == |Flatten(bodies)| + SamplesIn(rest.0)
  {
    var bodies := Emit(fifo + chunks[0], f);
    var rest := Session(Keep(fifo + chunks[0], f), pts + |Flatten(bodies)|, chunks[1..], f);
    BodiesStamped(bodies, pts);
    BodiesConcat(Stamped(bodies, pts), rest.0);
    FlattenConcat(bodies, Bodies(rest.0));
  }

  ghost function SamplesIn<S>(frames: seq<Frame<S>>): nat {
    |Flatten(Bodies(frames))|
  }

  lemma StampsJoin<S>(whole: seq<Frame<S>>, bodies: seq<seq<S>>, rest: seq<Frame<S>>, pts: nat)
    requires whole == Stamped(bodies, pts) + rest && Bodies(whole) == bodies + Bodies(rest)
    requires rest == Stamped(Bodies(rest), pts + |Flatten(bodies)|)
    ensures whole == Stamped(Bodies(whole), pts)
  {
    StampedConcat(bodies, Bodies(rest), pts);
  }

  /** At every frame size the timestamps of a session are offsets across its calls. */
  lemma {:induction false} SessionStamps<S>(fifo: seq<S>, pts: nat, chunks: seq<seq<S>>, f: nat)
    ensures Session(fifo, pts, chunks, f).0 == Stamped(Bodies(Session(fifo, pts, chunks, f).0), pts)
    decreases |chunks|
  {
    if chunks != [] {
      if chunks[0] == [] {
        SessionStamps(fifo, pts, chunks[1..], f);
      } else {
        var bodies := Emit(fifo + chunks[0], f);
        var kept := Keep(fifo + chunks[0], f);
        var rest := Session(kept, pts + |Flatten(bodies)|, chunks[1..], f);
        SessionHead(fifo, pts, chunks, f);
        SessionStamps(kept, pts + |Flatten(bodies)|, chunks[1..], f);
        StampsJoin(Session(fifo, pts, chunks, f).0, bodies, rest.0, pts);
      }
    }
  }

  ghost predicate NoEmptyChunk<S>(chunks: seq<seq<S>>) {
    forall i :: 0 <= i < |chunks| ==> chunks[i] != []
  }

  /** With `rest` still to come, the frames and samples add up to the whole session. */
  ghost predicate Remains<S>(sent: seq<Frame<S>>, pts: nat, rest: (seq<Frame<S>>, seq<S>),
                             sent0: seq<Frame<S>>, p0: nat, whole: (seq<Frame<S>>, seq<S>)) {
    && sent + rest.0 == sent0 + whole.0 && rest.1 == whole.1
    && pts + SamplesIn(rest.0) == p0 + SamplesIn(whole.0)
  }

  lemma RemainsNext<S>(sent: seq<Frame<S>>, fifo: seq<S>, pts: nat, chunks: seq<seq<S>>, f: nat,
                       sent0: seq<Frame<S>>, p0: nat, whole: (seq<Frame<S>>, seq<S>))
    requires chunks != [] && chunks[0] != [] && Remains(sent, pts, Session(fifo, pts, chunks, f), sent0, p0, whole)
    ensures var bodies := Emit(fifo + chunks[0], f);
            var pts' := pts + |Flatten(bodies)|;
            Remains(sent + Stamped(bodies, pts), pts', Session(Keep(fifo + chunks[0], f), pts', chunks[1..], f),
                sent0, p0, whole)
  {
    SessionHead(fifo, pts, chunks, f);
    var bodies := Emit(fifo + chunks[0], f);
    var pts' := pts + |Flatten(bodies)|;
    Assoc(sent, Stamped(bodies, pts), Session(Keep(fifo + chunks[0], f), pts', chunks[1..], f).0);
  }

  /** One queued chunk. */
  method EncodeNext<S(==)>(enc: AudioEncodeContext<S>, chunk: seq<S>, ghost rest: seq<seq<S>>,
                           ghost sent0: seq<Frame<S>>, ghost p0: nat, ghost whole: (seq<Frame<S>>, seq<S>))
    returns (ok: bool)
    requires enc.valid
        && Remains(enc.sent, enc.pts, Session(enc.fifo, enc.pts, [chunk] + rest, enc.frameSize), sent0, p0, whole)
    modifies enc`fifo, enc`pts, enc`sent
    ensures ok <==> chunk != []
    ensures Remains(enc.sent, enc.pts, Session(enc.fifo, enc.pts, rest, enc.frameSize), sent0, p0, whole)
  {
    assert ([chunk] + rest)[1..] == rest;
    if chunk != [] { RemainsNext(enc.sent, enc.fifo, enc.pts, [chunk] + rest, enc.frameSize, sent0, p0, whole); }
    ok := enc.EncodeFrames(chunk);
  }

  lemma NothingRemains<S>(sent: seq<Frame<S>>, fifo: seq<S>, pts: nat, f: nat,
                          sent0: seq<Frame<S>>, p0: nat, whole: (seq<Frame<S>>, seq<S>))
    requires Remains(sent, pts, Session(fifo, pts, [], f), sent0, p0, whole)
    ensures sent == sent0 + whole.0 && fifo == whole.1 && pts == p0 + SamplesIn(whole.0)
  {
    assert sent + [] == sent && SamplesIn<S>([]) == 0;
  }

  /** The writer's worker loop up to the end of the queue: encodes every chunk, going on after
      a refused one. */
  method EncodeQueue<S(==)>(enc: AudioEncodeContext<S>, chunks: seq<seq<S>>) returns (ok: bool)
    requires enc.valid
    modifies enc`fifo, enc`pts, enc`sent
    ensures ok <==> NoEmptyChunk(chunks)
    ensures var (frames, left) := old(Session(enc.fifo, enc.pts, chunks, enc.frameSize));
            enc.fifo == left && enc.sent == old(enc.sent) + frames && enc.pts == old(enc.pts) + SamplesIn(frames)
  {
    ghost var sent0, p0, whole := enc.sent, enc.pts, Session(enc.fifo, enc.pts, chunks, enc.frameSize);
    ok := true;
    var queue := chunks;
    while queue != []
      invariant ok && NoEmptyChunk(queue) <==> NoEmptyChunk(chunks)
      invariant Remains(enc.sent, enc.pts, Session(enc.fifo, enc.pts, queue, enc.frameSize), sent0, p0, whole)
      decreases |queue|
    {
      var chunk := queue[0];
      assert queue == [chunk] + queue[1..];
      assert NoEmptyChunk(queue) <==> chunk != [] && NoEmptyChunk(queue[1..]) by { NoEmptyHead(queue); }
      queue := queue[1..];
      var encoded := EncodeNext(enc, chunk, queue, sent0, p0, whole);
      ok := ok && encoded;
    }
    NothingRemains(enc.sent, enc.fifo, enc.pts, enc.frameSize, sent0, p0, whole);
  }

  lemma NoEmptyHead<S>(chunks: seq<seq<S>>)
    requires chunks != []
    ensures NoEmptyChunk(chunks) <==> chunks[0] != [] && NoEmptyChunk(chunks[1..])
  {
    assert chunks == [chunks[0]] + chunks[1..];
  }

  /** The whole loop: drains at the end only if no chunk was refused. */
  method EncodeAll<S(==)>(enc: AudioEncodeContext<S>, chunks: seq<seq<S>>) returns (ok: bool)
    requires enc.valid
    modifies enc
    ensures ok <==> NoEmptyChunk(chunks)
    ensures var (frames, left) := old(Session(enc.fifo, enc.pts, chunks, enc.frameSize));
            if ok then
              && enc.fifo == [] && enc.flushed
              && enc.sent == old(enc.sent) + frames
                  + Stamped(Flush(left, enc.frameSize, enc.silence), old(enc.pts) + SamplesIn(frames))
            else enc.fifo == left && enc.sent == old(enc.sent) + frames && enc.flushed == old(enc.flushed)
  {
    ok := EncodeQueue(enc, chunks);
    if ok { var _ := enc.Drain(); }
  }

  // ----- the zeroed byte range of a padded frame

  function PlaneWidth(planar: bool, channels: nat): nat {
    if planar then 1 else channels
  }

  function PadStart(planar: bool, channels: nat, bytesPerSample: nat, read: nat): nat {
    read * bytesPerSample * PlaneWidth(planar, channels)
  }

  function PadLength(planar: bool, channels: nat, bytesPerSample: nat, padSamples: nat): nat {
    (if planar then padSamples else padSamples * channels) * bytesPerSample
  }

  /** The cleared range starts at the first missing sample and ends at the frame's end, in
      both layouts. */
  lemma PadFillsFrame(planar: bool, channels: nat, bytesPerSample: nat, read: nat, frameSize: nat)
    requires read <= frameSize
    ensures PadStart(planar, channels, bytesPerSample, read)
              + PadLength(planar, channels, bytesPerSample, frameSize - read)
            == PadStart(planar, channels, bytesPerSample, frameSize)
  {
    var w := PlaneWidth(planar, channels);
    var pad := frameSize - read;
    assert PadLength(planar, channels, bytesPerSample, pad) == pad * w * bytesPerSample;
    calc {
      read * bytesPerSample * w + pad * w * bytesPerSample;
      { assert pad * w * bytesPerSample == pad * bytesPerSample * w; }
      read * bytesPerSample * w + pad * bytesPerSample * w;
      { assert (read + pad) * bytesPerSample == read * bytesPerSample + pad * bytesPerSample; }
      (read + pad) * bytesPerSample * w;
    }
  }

  /** Byte `k` of channel slot `c` of sample `i` within its plane. */
  function ByteOffset(width: nat, bytesPerSample: nat, i: nat, c: nat, k: nat): nat {
    (i * width + c) * bytesPerSample + k
  }

  /** A byte of the frame is cleared exactly when it belongs to a sample that was not read. */
  lemma PadClearsMissingSamples(planar: bool, channels: nat, bytesPerSample: nat, read: nat, frameSize: nat,
                                i: nat, c: nat, k: nat)
    requires read <= frameSize && i < frameSize && c < (if planar then 1 else channels) && k < bytesPerSample
    ensures var start := PadStart(planar, channels, bytesPerSample, read);
            var length := PadLength(planar, channels, bytesPerSample, frameSize - read);
            var at := if planar then i * bytesPerSample + k else (i * channels + c) * bytesPerSample + k;
            start <= at < start + length <==> read <= i
  {
    var w := PlaneWidth(planar, channels);
    PadFillsFrame(planar, channels, bytesPerSample, read, frameSize);
    SampleSpan(w, bytesPerSample, i, c, k);
    var unit := bytesPerSample * w;
    MulAssoc(read, bytesPerSample, w);
    MulAssoc(frameSize, bytesPerSample, w);
    MulMono(i + 1, frameSize, unit);
    if read <= i { MulMono(read, i, unit); } else { MulMono(i + 1, read, unit); }
  }

  lemma SampleSpan(w: nat, bytesPerSample: nat, i: nat, c: nat, k: nat)
    requires c < w && k < bytesPerSample
    ensures i * (bytesPerSample * w) <= ByteOffset(w, bytesPerSample, i, c, k) < (i + 1) * (bytesPerSample * w)
  {
    var unit := bytesPerSample * w;
    assert (i * w + c) * bytesPerSample == i * unit + c * bytesPerSample by {
      assert i * w * bytesPerSample == i * (w * bytesPerSample);
    }
    MulMono(c + 1, w, bytesPerSample);
    assert (c + 1) * bytesPerSample == c * bytesPerSample + bytesPerSample;
    assert (i + 1) * unit == i * unit + unit;
  }

  /** The padding loop over the frame's planes. Every plane holds a whole frame; bytes past it
      are allocator slack and stay untouched. */
  method PadPlanes(planes: seq<array<bv8>>, planar: bool, channels: nat, bytesPerSample: nat, read: nat, frameSize: nat)
    requires read <= frameSize && |planes| == if planar then channels else 1
    requires forall p, q :: 0 <= p < q < |planes| ==> planes[p] != planes[q]
    requires forall p :: 0 <= p < |planes| ==> PadStart(planar, channels, bytesPerSample, frameSize) <= planes[p].Length
    modifies planes
    ensures var unit := if planar then bytesPerSample else bytesPerSample * channels;
            forall p, k :: 0 <= p < |planes| && 0 <= k < planes[p].Length ==>
              planes[p][k] == if read * unit <= k < frameSize * unit then 0 else old(planes[p][k])
  {
    var padSamples := frameSize - read;
    var start := PadStart(planar, channels, bytesPerSample, read);
    var length := PadLength(planar, channels, bytesPerSample, padSamples);
    PadFillsFrame(planar, channels, bytesPerSample, read, frameSize);
    MulAssoc(read, bytesPerSample, PlaneWidth(planar, channels));
    MulAssoc(frameSize, bytesPerSample, PlaneWidth(planar, channels));
    var p := 0;
    while p < |planes|
      invariant 0 <= p <= |planes|
      invariant forall q, k :: 0 <= q < p && 0 <= k < planes[q].Length ==>
                  planes[q][k] == if start <= k < start + length then 0 else old(planes[q][k])
      invariant forall q, k :: p <= q < |planes| && 0 <= k < planes[q].Length ==> planes[q][k] == old(planes[q][k])
    {
      Memset(planes[p], start, length);
      p := p + 1;
    }
  }

  method Memset(a: array<bv8>, start: nat, length: nat)
    requires start + length <= a.Length
    modifies a
    ensures forall k :: 0 <= k < a.Length ==> a[k] == if start <= k < start + length then 0 else old(a[k])
  {
    var i := start;
    while i < start + length
      invariant start <= i <= start + length
      invariant forall k :: 0 <= k < a.Length ==> a[k] == if start <= k < i then 0 else old(a[k])
    {
      a[i] := 0;
      i := i + 1;
    }
  }
}
