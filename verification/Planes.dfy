/** Pixel reshuffles: splitting an interleaved image into planes with optional vertical flip,
    and copying a strided frame into a packed one. */
module Planes {
  import opened Arith

  // ----- EXRWriter::deinterleave

  /** The pixel `i` of a `w` by `h` image after mirroring it top to bottom. */
  function Mirror(w: nat, h: nat, i: nat): (m: nat)
    requires i < w * h
    ensures m < w * h
  {
    PixelSplit(w, h, i);
    PixelInRange(w, h, h - 1 - i / w, i % w);
    (h - 1 - i / w) * w + i % w
  }

  lemma PixelInRange(w: nat, h: nat, y: nat, x: nat)
    requires y < h && x < w
    ensures y * w + x < w * h
  {
    MulMono(y + 1, h, w);
    assert (y + 1) * w == y * w + w;
  }

  lemma PixelSplit(w: nat, h: nat, i: nat)
    requires i < w * h
    ensures w > 0 && i / w < h && i == (i / w) * w + i % w
  {
    if i / w >= h { MulMono(h, i / w, w); }
  }

  lemma MirrorAt(w: nat, h: nat, y: nat, x: nat)
    requires y < h && x < w
    ensures y * w + x < w * h && Mirror(w, h, y * w + x) == (h - 1 - y) * w + x
  {
    PixelInRange(w, h, y, x);
    DivModUnique(y * w + x, w, y, x);
  }

  lemma MirrorTwice(w: nat, h: nat, i: nat)
    requires i < w * h
    ensures Mirror(w, h, Mirror(w, h, i)) == i
  {
    PixelSplit(w, h, i);
    MirrorAt(w, h, h - 1 - i / w, i % w);
  }

  /** Where sample `c` of plane pixel `i` comes from. */
  function SourceIndex(w: nat, h: nat, channels: nat, flip: bool, c: nat, i: nat): (k: nat)
    requires i < w * h && c < channels
    ensures k < w * h * channels
  {
    var pixel := if flip then Mirror(w, h, i) else i;
    MulMono(pixel + 1, w * h, channels);
    assert (pixel + 1) * channels == pixel * channels + channels;
    pixel * channels + c
  }

  lemma SourceIndexAt(w: nat, h: nat, channels: nat, flip: bool, c: nat, y: nat, x: nat)
    requires y < h && x < w && c < channels
    ensures y * w + x < w * h
    ensures var row := if flip then h - 1 - y else y;
            SourceIndex(w, h, channels, flip, c, y * w + x) == row * w * channels + x * channels + c
  {
    MirrorAt(w, h, y, x);
    var row := if flip then h - 1 - y else y;
    assert (row * w + x) * channels == row * w * channels + x * channels;
  }

  /** The planes as values. */
  ghost function PlanesOf<T>(src: seq<T>, w: nat, h: nat, channels: nat, flip: bool): seq<seq<T>>
    requires w * h * channels <= |src|
  {
    seq(channels, c requires 0 <= c < channels =>
      seq(w * h, i requires 0 <= i < w * h => src[SourceIndex(w, h, channels, flip, c, i)]))
  }

  lemma SourceOfPixel<T>(src: seq<T>, w: nat, h: nat, channels: nat, flip: bool, y: nat, x: nat, i: nat, from: nat)
    requires w * h * channels <= |src| && y < h && x < w && i == y * w + x
    requires from == (if flip then h - 1 - y else y) * w * channels + x * channels
    ensures i < w * h && from + channels <= |src|
    ensures forall c :: 0 <= c < channels ==> PlanesOf(src, w, h, channels, flip)[c][i] == src[from + c]
  {
    PixelInRange(w, h, y, x);
    forall c | 0 <= c < channels ensures SourceIndex(w, h, channels, flip, c, i) == from + c {
      SourceIndexAt(w, h, channels, flip, c, y, x);
    }
    if channels > 0 {
      assert SourceIndex(w, h, channels, flip, channels - 1, i) < w * h * channels;
    } else {
      assert from == 0;
    }
  }

  /** The same for the planes `want`, with their shape. */
  lemma PixelReady<T>(src: seq<T>, w: nat, h: nat, channels: nat, flip: bool, y: nat, x: nat, i: nat, from: nat,
                      want: seq<seq<T>>)
    requires w * h * channels <= |src| && y < h && x < w && i == y * w + x
    requires from == (if flip then h - 1 - y else y) * w * channels + x * channels
    requires want == PlanesOf(src, w, h, channels, flip)
    ensures |want| == channels && i < w * h && from + channels <= |src|
    ensures forall c :: 0 <= c < channels ==> |want[c]| == w * h
    ensures forall c :: 0 <= c < channels ==> want[c][i] == src[from + c]
  {
    SourceOfPixel(src, w, h, channels, flip, y, x, i, from);
  }

  /** The first `upto` pixels of every plane are as wanted. */
  ghost predicate Filled<T>(planes: array2<T>, want: seq<seq<T>>, upto: nat)
    requires planes.Length0 == |want| && forall c :: 0 <= c < |want| ==> |want[c]| == planes.Length1
    reads planes
  {
    forall c, i :: 0 <= c < |want| && 0 <= i < upto && i < planes.Length1 ==> planes[c, i] == want[c][i]
  }

  /** `deinterleave`: three nested loops filling `channels` planes of `width * height`. */
  method Deinterleave<T(0)>(src: seq<T>, width: nat, height: nat, channels: nat, flip: bool) returns (planes: array2<T>)
    requires width * height * channels <= |src|
    ensures fresh(planes) && planes.Length0 == channels && planes.Length1 == width * height
    ensures forall c, i :: 0 <= c < channels && 0 <= i < width * height ==>
              planes[c, i] == src[SourceIndex(width, height, channels, flip, c, i)]
  {
    var pixelCount := width * height;
    planes := new T[channels, pixelCount];
    ghost var want := PlanesOf(src, width, height, channels, flip);
    var y := 0;
    while y < height
      invariant 0 <= y <= height
      invariant Filled(planes, want, y * width)
    {
      FillRow(planes, src, width, height, channels, flip, y, want);
      assert (y + 1) * width == y * width + width;
      y := y + 1;
    }
    forall c, i | 0 <= c < channels && 0 <= i < pixelCount ensures planes[c, i] == want[c][i] {}
  }

  method FillRow<T>(planes: array2<T>, src: seq<T>, width: nat, height: nat, channels: nat, flip: bool, y: nat,
                    ghost want: seq<seq<T>>)
    requires width * height * channels <= |src| && y < height
    requires planes.Length0 == channels && planes.Length1 == width * height
    requires want == PlanesOf(src, width, height, channels, flip) && Filled(planes, want, y * width)
    modifies planes
    ensures Filled(planes, want, y * width + width)
  {
    var srcRow := if flip then height - 1 - y else y;
    var srcRowOffset := srcRow * width * channels;
    var dstRowOffset := y * width;
    var x := 0;
    while x < width
      invariant 0 <= x <= width
      invariant Filled(planes, want, dstRowOffset + x)
    {
      PlacePixel(planes, src, width, height, channels, flip, y, x, srcRowOffset, dstRowOffset, want);
      x := x + 1;
    }
  }

  method PlacePixel<T>(planes: array2<T>, src: seq<T>, width: nat, height: nat, channels: nat, flip: bool,
                       y: nat, x: nat, srcRowOffset: nat, dstRowOffset: nat, ghost want: seq<seq<T>>)
    requires width * height * channels <= |src| && y < height && x < width
    requires planes.Length0 == channels && planes.Length1 == width * height
    requires want == PlanesOf(src, width, height, channels, flip)
    requires srcRowOffset == (if flip then height - 1 - y else y) * width * channels && dstRowOffset == y * width
    requires Filled(planes, want, dstRowOffset + x)
    modifies planes
    ensures Filled(planes, want, dstRowOffset + x + 1)
  {
    var srcPixel, dstPixel := srcRowOffset + x * channels, dstRowOffset + x;
    PixelReady(src, width, height, channels, flip, y, x, dstPixel, srcPixel, want);
    FillPixel(planes, src, channels, srcPixel, dstPixel, want);
  }

  method FillPixel<T>(planes: array2<T>, src: seq<T>, channels: nat, srcPixel: nat, dstPixel: nat,
                      ghost want: seq<seq<T>>)
    requires planes.Length0 == channels == |want| && forall c :: 0 <= c < channels ==> |want[c]| == planes.Length1
    requires dstPixel < planes.Length1 && srcPixel + channels <= |src|
    requires forall c :: 0 <= c < channels ==> want[c][dstPixel] == src[srcPixel + c]
    requires Filled(planes, want, dstPixel)
    modifies planes
    ensures Filled(planes, want, dstPixel + 1)
  {
    var c := 0;
    while c < channels
      invariant 0 <= c <= channels
      invariant Filled(planes, want, dstPixel)
      invariant forall d :: 0 <= d < c ==> planes[d, dstPixel] == want[d][dstPixel]
    {
      planes[c, dstPixel] := src[srcPixel + c];
      c := c + 1;
    }
  }

  /** The size test of `write` admits exactly the buffers in which every access of
      `deinterleave` is in bounds. */
  lemma GuardIff(w: nat, h: nat, channels: nat, flip: bool, length: nat)
    requires w > 0 && h > 0 && channels > 0
    ensures w * h * channels <= length
            <==> forall c, i :: 0 <= c < channels && 0 <= i < w * h ==> SourceIndex(w, h, channels, flip, c, i) < length
  {
    MulMono(1, h, w);
    var last := w * h - 1;
    var i := if flip then Mirror(w, h, last) else last;
    if flip { MirrorTwice(w, h, last); }
    assert last * channels == w * h * channels - channels;
    assert SourceIndex(w, h, channels, flip, channels - 1, i) == w * h * channels - 1;
  }

  ghost function Interleave<T>(planes: seq<seq<T>>, n: nat): seq<T>
    requires forall c :: 0 <= c < |planes| ==> |planes[c]| == n
  {
    seq(n * |planes|, k requires 0 <= k < n * |planes| => InterleaveAt(planes, n, k))
  }

  ghost function InterleaveAt<T>(planes: seq<seq<T>>, n: nat, k: nat): T
    requires k < n * |planes| && forall c :: 0 <= c < |planes| ==> |planes[c]| == n
  {
    PixelSplit(|planes|, n, k);
    planes[k % |planes|][k / |planes|]
  }

  lemma InterleaveSample<T>(planes: seq<seq<T>>, n: nat, c: nat, i: nat)
    requires forall d :: 0 <= d < |planes| ==> |planes[d]| == n
    requires c < |planes| && i < n
    ensures i * |planes| + c < n * |planes| && Interleave(planes, n)[i * |planes| + c] == planes[c][i]
  {
    MulMono(i + 1, n, |planes|);
    assert (i + 1) * |planes| == i * |planes| + |planes|;
    DivModUnique(i * |planes| + c, |planes|, i, c);
  }

  lemma InterleaveRestoresAt<T>(src: seq<T>, w: nat, h: nat, channels: nat, k: nat)
    requires w * h * channels <= |src| && k < w * h * channels
    ensures var all := Interleave(PlanesOf(src, w, h, channels, false), w * h); k < |all| && all[k] == src[k]
  {
    PixelSplit(channels, w * h, k);
    var i, c := k / channels, k % channels;
    InterleaveSample(PlanesOf(src, w, h, channels, false), w * h, c, i);
    assert SourceIndex(w, h, channels, false, c, i) == k;
  }

  /** Nothing is lost: interleaving unflipped planes restores the source samples. */
  lemma InterleaveRestores<T>(src: seq<T>, w: nat, h: nat, channels: nat)
    requires w * h * channels <= |src|
    ensures Interleave(PlanesOf(src, w, h, channels, false), w * h) == src[..w * h * channels]
  {
    var all := Interleave(PlanesOf(src, w, h, channels, false), w * h);
    forall k | 0 <= k < w * h * channels ensures all[k] == src[k] {
      InterleaveRestoresAt(src, w, h, channels, k);
    }
    assert |all| == w * h * channels;
  }

  /** Flipping twice is the identity: splitting the re-interleaved flipped image with another
      flip gives the planes of the unflipped source. */
  lemma FlipTwice<T>(src: seq<T>, w: nat, h: nat, channels: nat)
    requires w * h * channels <= |src|
    ensures var flipped := Interleave(PlanesOf(src, w, h, channels, true), w * h);
            && w * h * channels <= |flipped|
            && PlanesOf(flipped, w, h, channels, true) == PlanesOf(src, w, h, channels, false)
  {
    var planes := PlanesOf(src, w, h, channels, true);
    var flipped := Interleave(planes, w * h);
    forall c, i | 0 <= c < channels && 0 <= i < w * h
      ensures flipped[SourceIndex(w, h, channels, true, c, i)] == src[SourceIndex(w, h, channels, false, c, i)]
    {
      var m := Mirror(w, h, i);
      MirrorTwice(w, h, i);
      InterleaveSample(planes, w * h, c, m);
    }
    var twice, once := PlanesOf(flipped, w, h, channels, true), PlanesOf(src, w, h, channels, false);
    forall c | 0 <= c < channels ensures twice[c] == once[c] {}
  }

  // ----- the copy at the end of CameraReader::pull_frame

  /** The first `packed` bytes of each of `rows` rows that are `stride` apart. */
  ghost function PackedRows<T>(s: seq<T>, packed: nat, stride: nat, rows: nat): (r: seq<T>)
    requires packed <= stride && stride * rows <= |s|
    ensures |r| == packed * rows
    decreases rows
  {
    if rows == 0 then []
    else
      assert stride * rows == stride * (rows - 1) + stride;
      assert packed * rows == packed * (rows - 1) + packed;
      PackedRows(s, packed, stride, rows - 1) + s[stride * (rows - 1)..stride * (rows - 1) + packed]
  }

  /** With equal strides the rows are the buffer itself, which is what the single memcpy of
      the fast path relies on. */
  lemma {:induction false} PackedWhenStridesAgree<T>(s: seq<T>, packed: nat, rows: nat)
    requires packed * rows <= |s|
    ensures PackedRows(s, packed, packed, rows) == s[..packed * rows]
    decreases rows
  {
    if rows > 0 {
      assert packed * rows == packed * (rows - 1) + packed;
      PackedWhenStridesAgree(s, packed, rows - 1);
    }
  }

  /** Byte `j` of row `row` of the packed image is byte `j` of that row of the source. */
  lemma {:induction false} PackedByte<T>(s: seq<T>, packed: nat, stride: nat, rows: nat, row: nat, j: nat)
    requires packed <= stride && stride * rows <= |s| && row < rows && j < packed
    ensures packed * row + j < packed * rows && stride * row + j < |s|
    ensures PackedRows(s, packed, stride, rows)[packed * row + j] == s[stride * row + j]
    decreases rows
  {
    NextRow(packed, rows - 1, rows);
    NextRow(stride, rows - 1, rows);
    NextRow(packed, row, rows);
    NextRow(stride, row, rows);
    var most := PackedRows(s, packed, stride, rows - 1);
    var last := s[stride * (rows - 1)..stride * (rows - 1) + packed];
    assert PackedRows(s, packed, stride, rows) == most + last;
    if row < rows - 1 {
      PackedByte(s, packed, stride, rows - 1, row, j);
    } else {
      assert (most + last)[|most| + j] == last[j];
    }
  }

  method Memcpy<T>(dest: array<T>, at: nat, src: seq<T>)
    requires at + |src| <= dest.Length
    modifies dest
    ensures dest[..] == old(dest[..at]) + src + old(dest[at + |src|..])
  {
    var i := 0;
    while i < |src|
      invariant 0 <= i <= |src|
      invariant dest[..] == old(dest[..at]) + src[..i] + old(dest[at + i..])
    {
      dest[at + i] := src[i];
      i := i + 1;
    }
    assert src[..i] == src;
  }

  method CopyFrame<T>(dest: array<T>, sws: seq<T>, outWidth: nat, bytesPerPixel: nat, linesize: nat, outHeight: nat)
    requires outWidth * bytesPerPixel <= linesize && |sws| == linesize * outHeight
    requires outWidth * bytesPerPixel * outHeight <= dest.Length
    modifies dest
    ensures var size := outWidth * bytesPerPixel * outHeight;
            dest[..] == PackedRows(sws, outWidth * bytesPerPixel, linesize, outHeight) + old(dest[size..])
  {
    var packed := outWidth * bytesPerPixel;
    if linesize == packed {
      PackedWhenStridesAgree(sws, packed, outHeight);
      Memcpy(dest, 0, sws[..packed * outHeight]);
    } else {
      CopyRows(dest, sws, packed, linesize, outHeight);
    }
  }

  method CopyRows<T>(dest: array<T>, sws: seq<T>, packed: nat, linesize: nat, rows: nat)
    requires packed <= linesize && |sws| == linesize * rows && packed * rows <= dest.Length
    modifies dest
    ensures dest[..] == PackedRows(sws, packed, linesize, rows) + old(dest[packed * rows..])
  {
    ghost var was := dest[..];
    for row := 0 to rows
      invariant packed * row <= dest.Length == |was| && linesize * row <= |sws|
      invariant dest[..] == PackedRows(sws, packed, linesize, row) + was[packed * row..]
    {
      NextRow(packed, row, rows);
      NextRow(linesize, row, rows);
      CopyRow(dest, sws, packed, linesize, row, was);
    }
  }

  method CopyRow<T>(dest: array<T>, sws: seq<T>, packed: nat, linesize: nat, row: nat, ghost was: seq<T>)
    requires packed <= linesize && linesize * (row + 1) <= |sws|
    requires packed * (row + 1) <= dest.Length == |was| && linesize * row <= |sws| && packed * row <= |was|
    requires dest[..] == PackedRows(sws, packed, linesize, row) + was[packed * row..]
    modifies dest
    ensures dest[..] == PackedRows(sws, packed, linesize, row + 1) + was[packed * (row + 1)..]
  {
    var to, from := row * packed, row * linesize;
    assert packed * (row + 1) == to + packed && linesize * (row + 1) == from + linesize;
    var line := sws[from..from + packed];
    ReplaceRow(PackedRows(sws, packed, linesize, row), was, to, line);
    assert PackedRows(sws, packed, linesize, row + 1) == PackedRows(sws, packed, linesize, row) + line;
    Memcpy(dest, to, line);
  }

  lemma NextRow(width: nat, row: nat, rows: nat)
    requires row < rows
    ensures width * (row + 1) == width * row + width <= width * rows
  {
    MulMono(row + 1, rows, width);
  }

  lemma ReplaceRow<T>(done: seq<T>, was: seq<T>, at: nat, line: seq<T>)
    requires at == |done| && at + |line| <= |was|
    ensures var before := done + was[at..];
            |before| == |was| && before[..at] + line + before[at + |line|..] == done + line + was[at + |line|..]
  {
  }
}
