/** The private frame format of the RPC layer: one fixed-size frame carries a
    whole message or one numbered slice of it. `MakeReqBody` and `MakeRspBody`
    cut byte strings into frames, `Parse` reads one frame back. */
module Wire {

  type byte = b: int | 0 <= b < 256
  type Bytes = seq<byte>

  /** Go's `byte(x)` conversion keeps the low eight bits. */
  function Low8(x: int): byte { x % 256 }

  const FIRST_BYTE: byte := 1
  const SECOND_BYTE: byte := 0

  const WHOLE_DATA: byte := 0
  const BODY_START: byte := 1
  const REQ_MIDDLE: byte := 2
  const REQ_FINALLY: byte := 3
  const REQ_DATA_NIL: byte := 4
  const RESP_SUCCESS: byte := 11
  const RESP_FAILED: byte := 12
  const RESP_NO_FOUND: byte := 13
  const RESP_DATA_NIL: byte := 14
  const RESP_START: byte := 15
  const RESP_MIDDLE: byte := 16
  const RESP_FINALLY: byte := 17

  /** The limits of the header fields: a three-byte event id, and two bytes
      each for the function id and the number of frames. */
  const MAX_UUID := 0x100_0000
  const MAX_FUNC := 0x1_0000
  const MAX_BUCK := 0x1_0000

  /** The frame geometry (`NetworkBuffer`). */
  datatype NetworkBuffer = NetworkBuffer(totalSize: nat, bodyStart: nat, bodySplit: nat, finalByte: nat)

  /** A geometry the format works for: a 12-byte header, a body of at most 65535
      bytes and a 2-byte trailer. */
  type Geometry = n: NetworkBuffer |
    && n.bodyStart == 12
    && 0 < n.bodySplit <= 65535
    && n.finalByte == 12 + n.bodySplit
    && n.totalSize == n.bodySplit + 14
    witness TCP_SPLIT

  const TCP_SPLIT := NetworkBuffer(1444, 12, 1430, 1442)
  const UDP_SPLIT: Geometry := NetworkBuffer(534, 12, 520, 532)

  datatype Error =
    | WrongLength
    | WrongRule
    | Remote(message: Bytes)
    | RecvWrong
    | RecvBuckWrong

  /** What `parse` makes of one buffer. `OutOfRange` is Go's slice-bounds panic,
      which a length field larger than the frame provokes. */
  datatype Parsed =
    | Rejected(error: Error)
    | Failed(uuid: nat, fn: nat, message: Bytes)
    | Body(uuid: nat, fn: nat, buck: nat, sort: nat, data: Bytes)
    | OutOfRange

  function Zeros(n: nat): (z: Bytes)
    ensures |z| == n
  {
    seq(n, i => 0)
  }

  function Be16(b: Bytes, at: nat): nat
    requires at + 1 < |b|
  {
    b[at] as nat * 256 + b[at + 1] as nat
  }

  function Be24(b: Bytes, at: nat): nat
    requires at + 2 < |b|
  {
    b[at] as nat * 65536 + b[at + 1] as nat * 256 + b[at + 2] as nat
  }

  /** The twelve header bytes (`buffPrefix`). */
  function Prefix(num: nat, fid: nat, buck: nat, last: nat, model: byte): (p: Bytes)
    ensures |p| == 12
  {
    [FIRST_BYTE, SECOND_BYTE,
     Low8(num / 65536), Low8(num / 256), Low8(num),
     model,
     Low8(fid / 256), Low8(fid),
     Low8(buck / 256), Low8(buck),
     Low8(last / 256), Low8(last)]
  }

  /** The two frame delimiters: `[1, 0]` in front and `[0, 1]` behind. */
  predicate Delimited(b: Bytes)
    requires |b| >= 4
  {
    && b[0] == FIRST_BYTE && b[1] == SECOND_BYTE
    && b[|b| - 1] == FIRST_BYTE && b[|b| - 2] == SECOND_BYTE
  }

  function Parse(g: Geometry, b: Bytes): Parsed
  {
    if |b| != g.totalSize then Rejected(WrongLength)
    else if !Delimited(b) then Rejected(WrongRule)
    else
      var uuid, fn, model := Be24(b, 2), Be16(b, 6), b[5];
      if model == REQ_DATA_NIL || model == RESP_DATA_NIL then
        Body(uuid, fn, 1, 1, [])
      else if model == WHOLE_DATA || model == RESP_SUCCESS then
        var length := Be16(b, 10);
        if g.bodyStart + length > |b| then OutOfRange
        else Body(uuid, fn, 1, 1, b[g.bodyStart..g.bodyStart + length])
      else if model == RESP_FAILED then
        var length := Be16(b, 10);
        if g.bodyStart + length > |b| then OutOfRange
        else Failed(uuid, fn, b[g.bodyStart..g.bodyStart + length])
      else if model == BODY_START || model == RESP_START then
        Body(uuid, fn, Be16(b, 8), 1, b[g.bodyStart..g.finalByte])
      else if model == REQ_MIDDLE || model == RESP_MIDDLE then
        Body(uuid, fn, Be16(b, 8), Be16(b, 10), b[g.bodyStart..g.finalByte])
      else if model == REQ_FINALLY || model == RESP_FINALLY then
        var length := Be16(b, 10);
        if g.bodyStart + length > |b| then OutOfRange
        else Body(uuid, fn, Be16(b, 8), Be16(b, 8), b[g.bodyStart..g.bodyStart + length])
      else
        Body(uuid, fn, 0, 0, [])
  }

  /** The kinds of frame whose body length stands in the header. */
  const SIZED_KINDS: set<byte> := {WHOLE_DATA, RESP_SUCCESS, RESP_FAILED, REQ_FINALLY, RESP_FINALLY}

  /** Which bytes make `parse` slice beyond the frame: a well-delimited frame that
      claims a body longer than what follows the header, trailer included. */
  lemma OutOfRangeExactly(g: Geometry, b: Bytes)
    ensures Parse(g, b) == OutOfRange <==>
              |b| == g.totalSize && Delimited(b) && b[5] in SIZED_KINDS && Be16(b, 10) > g.bodySplit + 2
  {
  }

  /** Which bytes `parse` turns away: those of another length, or without the marks 1, 0
      in front and 0, 1 behind. */
  lemma RejectedExactly(g: Geometry, b: Bytes)
    ensures Parse(g, b) == Rejected(WrongLength) <==> |b| != g.totalSize
    ensures Parse(g, b).Rejected? <==>
              !(|b| == g.totalSize && b[0] == 1 && b[1] == 0 && b[|b| - 2] == 0 && b[|b| - 1] == 1)
  {
  }

  /** Frames of the reply kinds, which no one writes but for errors, read like those
      of the request kinds. */
  lemma KindsReadAlike(g: Geometry, b: Bytes)
    requires |b| == g.totalSize
    ensures Parse(g, b[5 := 14]) == Parse(g, b[5 := 4])
    ensures Parse(g, b[5 := 11]) == Parse(g, b[5 := 0])
    ensures Parse(g, b[5 := 15]) == Parse(g, b[5 := 1])
    ensures Parse(g, b[5 := 16]) == Parse(g, b[5 := 2])
    ensures Parse(g, b[5 := 17]) == Parse(g, b[5 := 3])
  {
    hide Parse;
    AlikeIn(g, b, 14, 4);
    AlikeIn(g, b, 11, 0);
    AlikeIn(g, b, 15, 1);
    AlikeIn(g, b, 16, 2);
    AlikeIn(g, b, 17, 3);
  }

  lemma AlikeIn(g: Geometry, b: Bytes, x: byte, y: byte)
    requires |b| == g.totalSize && (x, y) in {(14, 4), (11, 0), (15, 1), (16, 2), (17, 3)}
    ensures Parse(g, b[5 := x]) == Parse(g, b[5 := y])
  {
    var c, d := b[5 := x], b[5 := y];
    SameFields(b, x);
    SameFields(b, y);
    var end := g.bodyStart + Be16(b, 10);
    if end <= |b| {
      SameBody(b, x, y, end);
    }
    SameBody(b, x, y, g.finalByte);
    hide Be16, Be24, Delimited;
  }

  /** The kind stands outside all other fields. */
  lemma SameFields(b: Bytes, x: byte)
    requires |b| > 14
    ensures var c := b[5 := x];
            && c[5] == x && (Delimited(c) <==> Delimited(b)) && Be24(c, 2) == Be24(b, 2)
            && Be16(c, 6) == Be16(b, 6) && Be16(c, 8) == Be16(b, 8) && Be16(c, 10) == Be16(b, 10)
  {
  }

  lemma SameBody(b: Bytes, x: byte, y: byte, to: nat)
    requires 12 <= to <= |b|
    ensures b[5 := x][12..to] == b[5 := y][12..to]
  {
  }

  /** The geometries that are shipped. */
  lemma ShippedGeometries()
    ensures TCP_SPLIT.totalSize == 1444 && TCP_SPLIT.bodyStart == 12
    ensures TCP_SPLIT.bodySplit == 1430 && TCP_SPLIT.finalByte == 1442
    ensures UDP_SPLIT.totalSize == 534 && UDP_SPLIT.bodyStart == 12
    ensures UDP_SPLIT.bodySplit == 520 && UDP_SPLIT.finalByte == 532
  {
  }

  // ---------------------------------------------------------------------------
  // Slicing a payload

  /** A payload cut into slices of `size` bytes, the last one possibly shorter. */
  ghost function Chunks(size: nat, data: Bytes): (c: seq<Bytes>)
    requires size > 0
    ensures |c| > 0
    decreases |data|
  {
    if |data| <= size then [data] else [data[..size]] + Chunks(size, data[size..])
  }

  ghost function Flatten(parts: seq<Bytes>): Bytes {
    if parts == [] then [] else parts[0] + Flatten(parts[1..])
  }

  /** max(1, ceil(n / size)), written the way `MakeReqBody` computes it. */
  function FrameCount(size: nat, n: nat): nat
    requires size > 0
  {
    if n <= size then 1 else n / size + (if n % size > 0 then 1 else 0)
  }

  lemma {:induction false} ChunksFlatten(size: nat, data: Bytes)
    requires size > 0
    ensures Flatten(Chunks(size, data)) == data
    decreases |data|
  {
    if |data| > size {
      ChunksFlatten(size, data[size..]);
      assert Chunks(size, data)[1..] == Chunks(size, data[size..]);
    } else {
      assert Chunks(size, data)[1..] == [];
    }
  }

  lemma MulAtLeast(size: nat, k: nat)
    requires k >= 1
    ensures size * k >= size
  {
    assert size * k == size * (k - 1) + size;
  }

  /** A quotient and remainder are determined by the equation they satisfy. */
  lemma DivUnique(size: nat, n: nat, q: nat, r: nat)
    requires size > 0 && r < size && n == size * q + r
    ensures n / size == q && n % size == r
  {
    var q', r' := n / size, n % size;
    assert n == size * q' + r';
    if q > q' {
      MulAtLeast(size, q - q');
    } else if q < q' {
      MulAtLeast(size, q' - q);
    }
  }

  lemma DivStep(size: nat, n: nat)
    requires 0 < size <= n
    ensures n / size == (n - size) / size + 1
    ensures n % size == (n - size) % size
  {
    var q, r := (n - size) / size, (n - size) % size;
    assert n - size == size * q + r;
    assert size * (q + 1) == size * q + size;
    DivUnique(size, n, q + 1, r);
  }

  lemma FrameCountStep(size: nat, n: nat)
    requires 0 < size < n
    ensures FrameCount(size, n) == FrameCount(size, n - size) + 1
  {
    DivStep(size, n);
    if n - size == size {
      assert size == size * 1 + 0;
      DivUnique(size, size, 1, 0);
    } else if n - size < size {
      assert n - size == size * 0 + (n - size);
      DivUnique(size, n - size, 0, n - size);
    }
  }

  lemma {:induction false} ChunkCount(size: nat, data: Bytes)
    requires size > 0
    ensures |Chunks(size, data)| == FrameCount(size, |data|)
    decreases |data|
  {
    if |data| > size {
      FrameCountStep(size, |data|);
      ChunkCount(size, data[size..]);
    }
  }

  /** `size * i`, as a sum. */
  ghost function Offset(size: nat, i: nat): nat {
    if i == 0 then 0 else Offset(size, i - 1) + size
  }

  lemma {:induction false} OffsetIsProduct(size: nat, i: nat)
    ensures Offset(size, i) == size * i
  {
    if i > 0 {
      OffsetIsProduct(size, i - 1);
      assert size * i == size * (i - 1) + size;
    }
  }

  /** Slice i starts at `size * i`, every slice but the last is full, and no
      slice of a nonempty payload is empty. */
  lemma {:induction false} ChunkAt(size: nat, data: Bytes, i: nat)
    requires size > 0
    requires i < |Chunks(size, data)|
    ensures Offset(size, i) + |Chunks(size, data)[i]| <= |data|
    ensures Chunks(size, data)[i] == data[Offset(size, i)..Offset(size, i) + |Chunks(size, data)[i]|]
    ensures i + 1 == |Chunks(size, data)| ==> Offset(size, i) + |Chunks(size, data)[i]| == |data|
    ensures i + 1 < |Chunks(size, data)| ==> |Chunks(size, data)[i]| == size
    ensures |Chunks(size, data)[i]| <= size
    ensures data != [] ==> 0 < |Chunks(size, data)[i]|
    decreases |data|
  {
    if |data| > size && i > 0 {
      var rest := data[size..];
      ChunkAt(size, rest, i - 1);
      assert Chunks(size, data)[i] == Chunks(size, rest)[i - 1];
    }
  }

  // ---------------------------------------------------------------------------
  // Building frames

  /** A frame: header, body padded with zeros to `bodySplit`, trailer. */
  function Seal(g: Geometry, prefix: Bytes, body: Bytes): (b: Bytes)
    requires |prefix| == 12 && |body| <= g.bodySplit
    ensures |b| == g.totalSize
  {
    prefix + body + Zeros(g.bodySplit - |body|) + [SECOND_BYTE, FIRST_BYTE]
  }

  /** Frame i of a payload that needs `count > 1` frames. The final frame carries
      the length of its slice where the others carry their sort number. */
  ghost function SliceFrame(g: Geometry, num: nat, fid: nat, count: nat, i: nat, slice: Bytes): Bytes
    requires |slice| <= g.bodySplit
  {
    Seal(g,
         if i + 1 == count then Prefix(num, fid, count, |slice|, REQ_FINALLY)
         else Prefix(num, fid, count, i + 1, if i == 0 then BODY_START else REQ_MIDDLE),
         slice)
  }

  ghost predicate Sliced(size: nat, chunks: seq<Bytes>) {
    forall i :: 0 <= i < |chunks| ==> |chunks[i]| <= size
  }

  lemma {:induction false} ChunksSliced(size: nat, data: Bytes)
    requires size > 0
    ensures Sliced(size, Chunks(size, data))
  {
    forall i | 0 <= i < |Chunks(size, data)| ensures |Chunks(size, data)[i]| <= size {
      ChunkAt(size, data, i);
    }
  }

  ghost function SliceFrames(g: Geometry, num: nat, fid: nat, chunks: seq<Bytes>): (f: seq<Bytes>)
    requires Sliced(g.bodySplit, chunks)
    ensures |f| == |chunks|
  {
    seq(|chunks|, i requires 0 <= i < |chunks| => SliceFrame(g, num, fid, |chunks|, i, chunks[i]))
  }

  ghost function ReqFrames(g: Geometry, bts: Bytes, num: nat, fid: nat): (f: seq<Bytes>)
    ensures |f| == |Chunks(g.bodySplit, bts)|
  {
    if bts == [] then [Seal(g, Prefix(num, fid, 0, 0, REQ_DATA_NIL), [])]
    else if |bts| <= g.bodySplit then [Seal(g, Prefix(num, fid, 1, |bts|, WHOLE_DATA), bts)]
    else
      ChunksSliced(g.bodySplit, bts);
      SliceFrames(g, num, fid, Chunks(g.bodySplit, bts))
  }

  /** The ten header bytes all slices of one payload share. */
  function SliceHead(num: nat, fid: nat, count: nat, model: byte): Bytes {
    [1, 0, Low8(num / 65536), Low8(num / 256), Low8(num),
     model, Low8(fid / 256), Low8(fid), Low8(count / 256), Low8(count)]
  }

  lemma AppendedIsSealed(g: Geometry, num: nat, fid: nat, count: nat, x: nat, model: byte, slice: Bytes)
    requires |slice| <= g.bodySplit
    ensures SliceHead(num, fid, count, model) + [Low8(x / 256), Low8(x)] + slice
            + Zeros(g.bodySplit - |slice|) + [0, 1] == Seal(g, Prefix(num, fid, count, x, model), slice)
  {
    assert SliceHead(num, fid, count, model) + [Low8(x / 256), Low8(x)] == Prefix(num, fid, count, x, model);
  }

  lemma PatchedKind(g: Geometry, num: nat, fid: nat, count: nat, x: nat, model: byte, model': byte, slice: Bytes)
    requires |slice| <= g.bodySplit
    ensures Seal(g, Prefix(num, fid, count, x, model), slice)[5 := model']
         == Seal(g, Prefix(num, fid, count, x, model'), slice)
  {
    assert Prefix(num, fid, count, x, model)[5 := model'] == Prefix(num, fid, count, x, model');
  }

  lemma PatchedNil(g: Geometry, num: nat, fid: nat)
    ensures (SliceHead(num, fid, 0, REQ_DATA_NIL)[..8] + Zeros(g.totalSize)[8..])[g.totalSize - 1 := FIRST_BYTE]
            == Seal(g, Prefix(num, fid, 0, 0, REQ_DATA_NIL), [])
  {
  }

  method MakeReqBody(g: Geometry, bts: Bytes, num: nat, fid: nat) returns (result: seq<Bytes>)
    ensures result == ReqFrames(g, bts, num, fid)
  {
    if |bts| == 0 {
      var b := SliceHead(num, fid, 0, REQ_DATA_NIL)[..8] + Zeros(g.totalSize)[8..];
      b := b[g.totalSize - 1 := FIRST_BYTE];
      PatchedNil(g, num, fid);
      result := [b];
    } else if |bts| <= g.bodySplit {
      var b := Prefix(num, fid, 1, |bts|, WHOLE_DATA);
      b := b + bts;
      b := b + Zeros(g.totalSize - |b| - 2);
      b := b + [0, 1];
      result := [b];
    } else {
      result := MakeSlices(g, bts, num, fid);
    }
  }

  /** The slicing loop: every slice but the last, all marked as middle frames. */
  method FullSlices(g: Geometry, bts: Bytes, num: nat, fid: nat, count: nat) returns (result: seq<Bytes>)
    requires count == |Chunks(g.bodySplit, bts)|
    ensures |result| == count - 1
    ensures forall k :: 0 <= k < count - 1 ==>
              && |Chunks(g.bodySplit, bts)[k]| <= g.bodySplit
              && result[k] == Seal(g, Prefix(num, fid, count, k + 1, REQ_MIDDLE), Chunks(g.bodySplit, bts)[k])
  {
    var size := g.bodySplit;
    ghost var chunks := Chunks(size, bts);
    ChunksSliced(size, bts);
    var tmp := SliceHead(num, fid, count, REQ_MIDDLE);
    result := [];
    for i := 1 to count
      invariant |result| == i - 1
      invariant forall k :: 0 <= k < i - 1 ==>
                  result[k] == Seal(g, Prefix(num, fid, count, k + 1, REQ_MIDDLE), chunks[k])
    {
      ChunkAt(size, bts, i - 1);
      OffsetIsProduct(size, i - 1);
      OffsetIsProduct(size, i);
      var b := tmp + [Low8(i / 256), Low8(i)];
      b := b + bts[size * (i - 1)..size * i];
      b := b + [0, 1];
      assert b == tmp + [Low8(i / 256), Low8(i)] + chunks[i - 1] + Zeros(0) + [0, 1];
      AppendedIsSealed(g, num, fid, count, i, REQ_MIDDLE, chunks[i - 1]);
      result := result + [b];
    }
  }

  /** The last slice: its length goes where the others have their sort number. */
  method FinalSlice(g: Geometry, bts: Bytes, num: nat, fid: nat, count: nat, last: nat) returns (b: Bytes)
    requires count == |Chunks(g.bodySplit, bts)|
    requires last == |Chunks(g.bodySplit, bts)[count - 1]| <= g.bodySplit
    ensures b == Seal(g, Prefix(num, fid, count, last, REQ_FINALLY), Chunks(g.bodySplit, bts)[count - 1])
  {
    var size := g.bodySplit;
    ChunkAt(size, bts, count - 1);
    OffsetIsProduct(size, count - 1);
    b := SliceHead(num, fid, count, REQ_MIDDLE) + [Low8(last / 256), Low8(last)];
    b := b + bts[size * (count - 1)..];
    b := b + Zeros(size - last);
    b := b + [0, 1];
    AppendedIsSealed(g, num, fid, count, last, REQ_MIDDLE, Chunks(size, bts)[count - 1]);
    PatchedKind(g, num, fid, count, last, REQ_MIDDLE, REQ_FINALLY, Chunks(size, bts)[count - 1]);
    b := b[5 := REQ_FINALLY];
  }

  /** The third branch of `MakeReqBody`. */
  method MakeSlices(g: Geometry, bts: Bytes, num: nat, fid: nat) returns (result: seq<Bytes>)
    requires |bts| > g.bodySplit
    ensures result == ReqFrames(g, bts, num, fid)
  {
    ghost var chunks := Chunks(g.bodySplit, bts);
    ChunksSliced(g.bodySplit, bts);
    ChunkCount(g.bodySplit, bts);
    LastChunk(g.bodySplit, bts);
    var count, last := |bts| / g.bodySplit, |bts| % g.bodySplit;
    if last > 0 {
      count := count + 1;
    } else {
      last := g.bodySplit;
    }
    result := FullSlices(g, bts, num, fid, count);
    PatchedKind(g, num, fid, count, 1, REQ_MIDDLE, BODY_START, chunks[0]);
    var first: Bytes := result[0][5 := BODY_START];
    result := result[0 := first];
    var b := FinalSlice(g, bts, num, fid, count, last);
    result := result + [b];
    Assembled(g, num, fid, chunks, result);
  }

  lemma Assembled(g: Geometry, num: nat, fid: nat, chunks: seq<Bytes>, result: seq<Bytes>)
    requires Sliced(g.bodySplit, chunks) && |result| == |chunks| > 1
    requires result[0] == Seal(g, Prefix(num, fid, |chunks|, 1, BODY_START), chunks[0])
    requires forall k :: 0 < k < |chunks| - 1 ==>
               result[k] == Seal(g, Prefix(num, fid, |chunks|, k + 1, REQ_MIDDLE), chunks[k])
    requires var z := |chunks| - 1;
             result[z] == Seal(g, Prefix(num, fid, |chunks|, |chunks[z]|, REQ_FINALLY), chunks[z])
    ensures result == SliceFrames(g, num, fid, chunks)
  {
  }

  /** The last slice holds the remainder, or a whole slice when there is none. */
  lemma {:induction false} LastChunk(size: nat, data: Bytes)
    requires 0 < size < |data|
    ensures |Chunks(size, data)| > 1
    ensures |Chunks(size, data)[|Chunks(size, data)| - 1]| == if |data| % size > 0 then |data| % size else size
    decreases |data|
  {
    DivStep(size, |data|);
    var rest := data[size..];
    assert Chunks(size, data) == [data[..size]] + Chunks(size, rest);
    if |rest| > size {
      LastChunk(size, rest);
    } else if |rest| == size {
      DivUnique(size, size, 1, 0);
    } else {
      DivUnique(size, |rest|, 0, |rest|);
    }
  }

  // ---------------------------------------------------------------------------
  // Replies

  /** What a handler returned: its output, or an error message. */
  datatype Outcome = Success(data: Bytes) | Failure(message: Bytes)

  const NOT_FOUND_TEXT: Bytes := Ascii("not found this server api by function id")

  function Ascii(text: string): (b: Bytes)
    ensures |b| == |text|
  {
    seq(|text|, i requires 0 <= i < |text| => Low8(text[i] as int))
  }

  /** An error message longer than one frame is cut. */
  function Cut(g: Geometry, message: Bytes): (m: Bytes)
    ensures |m| <= g.bodySplit && m <= message
    ensures |message| <= g.bodySplit ==> m == message
  {
    if |message| > g.bodySplit then message[..g.bodySplit] else message
  }

  ghost function RspFrames(g: Geometry, outcome: Outcome, num: nat, fid: nat): seq<Bytes>
  {
    if outcome.Failure? then
      [Seal(g, Prefix(num, fid, 1, |Cut(g, outcome.message)|, RESP_FAILED), Cut(g, outcome.message))]
    else if fid == 0 then
      [Seal(g, Prefix(num, fid, 1, |Cut(g, NOT_FOUND_TEXT)|, RESP_NO_FOUND), Cut(g, NOT_FOUND_TEXT))]
    else ReqFrames(g, outcome.data, num, fid)
  }

  /** The source does not cut the fixed "not found" text, so a geometry it does
      not fit into is outside what `MakeRspBody` can frame (Go's `make` would
      panic); both shipped geometries hold it. */
  method MakeRspBody(g: Geometry, outcome: Outcome, num: nat, fid: nat) returns (result: seq<Bytes>)
    requires outcome.Success? && fid == 0 ==> |NOT_FOUND_TEXT| <= g.bodySplit
    ensures result == RspFrames(g, outcome, num, fid)
  {
    if outcome.Failure? {
      var msg := outcome.message;
      if |msg| > g.bodySplit {
        msg := msg[..g.bodySplit];
      }
      var b := Prefix(num, fid, 1, |msg|, RESP_FAILED);
      b := b + msg;
      b := b + Zeros(g.bodySplit - |msg|);
      b := b + [0, 1];
      result := [b];
    } else if fid == 0 {
      var msg := NOT_FOUND_TEXT;
      var b := Prefix(num, fid, 1, |msg|, RESP_NO_FOUND);
      b := b + msg;
      b := b + Zeros(g.bodySplit - |msg|);
      b := b + [0, 1];
      result := [b];
    } else {
      result := MakeReqBody(g, outcome.data, num, fid);
    }
  }

  // ---------------------------------------------------------------------------
  // Round trips

  lemma SealFields(g: Geometry, num: nat, fid: nat, buck: nat, last: nat, model: byte, body: Bytes)
    requires |body| <= g.bodySplit
    ensures var b := Seal(g, Prefix(num, fid, buck, last, model), body);
            && Delimited(b) && b[5] == model
            && (num < MAX_UUID ==> Be24(b, 2) == num)
            && (fid < MAX_FUNC ==> Be16(b, 6) == fid)
            && (buck < MAX_BUCK ==> Be16(b, 8) == buck)
            && (last < 0x1_0000 ==> Be16(b, 10) == last)
            && b[12..12 + |body|] == body
  {
    var p := Prefix(num, fid, buck, last, model);
    var b := Seal(g, p, body);
    assert forall i :: 0 <= i < 12 ==> b[i] == p[i];
  }

  /** The part of the payload frame i stands for. */
  ghost function Piece(g: Geometry, bts: Bytes, i: nat): Bytes
    requires i < |Chunks(g.bodySplit, bts)|
  {
    Chunks(g.bodySplit, bts)[i]
  }

  /** The header fields a payload has to fit. */
  predicate Representable(g: Geometry, bts: Bytes, num: nat, fid: nat)
  {
    num < MAX_UUID && fid < MAX_FUNC && FrameCount(g.bodySplit, |bts|) < MAX_BUCK
  }

  /** A frame of a sliced payload. */
  lemma ParseSlice(g: Geometry, num: nat, fid: nat, count: nat, i: nat, piece: Bytes)
    requires num < MAX_UUID && fid < MAX_FUNC && i < count < MAX_BUCK
    requires |piece| <= g.bodySplit && (i + 1 < count ==> |piece| == g.bodySplit)
    ensures Parse(g, SliceFrame(g, num, fid, count, i, piece)) == Body(num, fid, count, i + 1, piece)
  {
    if i + 1 == count {
      SealFields(g, num, fid, count, |piece|, REQ_FINALLY, piece);
    } else {
      SealFields(g, num, fid, count, i + 1, if i == 0 then BODY_START else REQ_MIDDLE, piece);
    }
  }

  lemma ParseReqFrame(g: Geometry, bts: Bytes, num: nat, fid: nat, i: nat)
    requires Representable(g, bts, num, fid)
    requires i < |ReqFrames(g, bts, num, fid)|
    ensures Parse(g, ReqFrames(g, bts, num, fid)[i])
         == Body(num, fid, |ReqFrames(g, bts, num, fid)|, i + 1, Piece(g, bts, i))
  {
    ChunkCount(g.bodySplit, bts);
    if bts == [] {
      SealFields(g, num, fid, 0, 0, REQ_DATA_NIL, []);
    } else if |bts| <= g.bodySplit {
      SealFields(g, num, fid, 1, |bts|, WHOLE_DATA, bts);
    } else {
      ChunkAt(g.bodySplit, bts, i);
      ParseSlice(g, num, fid, |Chunks(g.bodySplit, bts)|, i, Piece(g, bts, i));
    }
  }

  /** The kinds of frame that `MakeReqBody` writes. */
  const REQ_KINDS: set<byte> := {REQ_DATA_NIL, WHOLE_DATA, BODY_START, REQ_MIDDLE, REQ_FINALLY}

  lemma FrameIsSealed(g: Geometry, bts: Bytes, num: nat, fid: nat, i: nat)
    returns (buck: nat, last: nat, model: byte, body: Bytes)
    requires i < |ReqFrames(g, bts, num, fid)|
    ensures |body| <= g.bodySplit && model in REQ_KINDS
    ensures ReqFrames(g, bts, num, fid)[i] == Seal(g, Prefix(num, fid, buck, last, model), body)
  {
    if bts == [] {
      buck, last, model, body := 0, 0, REQ_DATA_NIL, [];
    } else if |bts| <= g.bodySplit {
      buck, last, model, body := 1, |bts|, WHOLE_DATA, bts;
    } else {
      var chunks := Chunks(g.bodySplit, bts);
      ChunksSliced(g.bodySplit, bts);
      buck, body := |chunks|, chunks[i];
      last, model := if i + 1 == buck then |body| else i + 1,
        if i + 1 == buck then REQ_FINALLY else if i == 0 then BODY_START else REQ_MIDDLE;
    }
  }

  /** A frame byte by byte: the mark, the event id, the kind, the function id, two
      numbers, the body, zeros, and the mark reversed. */
  ghost predicate LaidOut(g: Geometry, b: Bytes, num: int, kind: int, fid: int, buck: int, last: int, body: Bytes) {
    && |b| == g.totalSize && 12 + |body| <= g.totalSize - 2
    && b[0] == 1 && b[1] == 0
    && b[2] as int * 65536 + b[3] as int * 256 + b[4] as int == num
    && b[5] == kind
    && b[6] as int * 256 + b[7] as int == fid
    && b[8] as int * 256 + b[9] as int == buck
    && b[10] as int * 256 + b[11] as int == last
    && b[12..12 + |body|] == body
    && (forall k :: 12 + |body| <= k < g.totalSize - 2 ==> b[k] == 0)
    && b[g.totalSize - 2] == 0 && b[g.totalSize - 1] == 1
  }

  lemma SealLayout(g: Geometry, num: nat, fid: nat, buck: nat, last: nat, model: byte, body: Bytes)
    requires |body| <= g.bodySplit && num < MAX_UUID && fid < MAX_FUNC && buck < MAX_BUCK && last < 0x1_0000
    ensures LaidOut(g, Seal(g, Prefix(num, fid, buck, last, model), body), num, model as int, fid, buck, last, body)
  {
    SealFields(g, num, fid, buck, last, model, body);
  }

  /** Frame i of a payload as it goes over the wire. An empty payload is a frame of kind
      4 without numbers. One that fits is of kind 0, with the count 1 and its length.
      The slices of any other are of kind 1, then 2, then 3, with their count, and
      with their sort number, or in the last one its length. */
  lemma FrameLayout(g: Geometry, bts: Bytes, num: nat, fid: nat, i: nat)
    requires Representable(g, bts, num, fid) && i < |ReqFrames(g, bts, num, fid)|
    ensures var b, n := ReqFrames(g, bts, num, fid)[i], |ReqFrames(g, bts, num, fid)|;
            if bts == [] then LaidOut(g, b, num, 4, fid, 0, 0, [])
            else if |bts| <= g.bodySplit then LaidOut(g, b, num, 0, fid, 1, |bts|, bts)
            else if i + 1 == n then LaidOut(g, b, num, 3, fid, n, |Piece(g, bts, i)|, Piece(g, bts, i))
            else LaidOut(g, b, num, if i == 0 then 1 else 2, fid, n, i + 1, Piece(g, bts, i))
  {
    var n := |ReqFrames(g, bts, num, fid)|;
    ChunkCount(g.bodySplit, bts);
    hide LaidOut, Seal;
    if bts == [] {
      SealLayout(g, num, fid, 0, 0, REQ_DATA_NIL, []);
    } else if |bts| <= g.bodySplit {
      SealLayout(g, num, fid, 1, |bts|, WHOLE_DATA, bts);
    } else {
      ChunkAt(g.bodySplit, bts, i);
      var piece := Piece(g, bts, i);
      if i + 1 == n {
        SealLayout(g, num, fid, n, |piece|, REQ_FINALLY, piece);
      } else {
        SealLayout(g, num, fid, n, i + 1, if i == 0 then BODY_START else REQ_MIDDLE, piece);
      }
    }
  }

  /** An error reply is one frame of kind 12, with its message, or as much of it as
      fits. */
  lemma FailureLayout(g: Geometry, message: Bytes, num: nat, fid: nat)
    requires num < MAX_UUID && fid < MAX_FUNC
    ensures |RspFrames(g, Failure(message), num, fid)| == 1
    ensures var n := if |message| <= g.bodySplit then |message| else g.bodySplit;
            LaidOut(g, RspFrames(g, Failure(message), num, fid)[0], num, 12, fid, 1, n, message[..n])
  {
    SealLayout(g, num, fid, 1, |Cut(g, message)|, RESP_FAILED, Cut(g, message));
    assert message[..|message|] == message;
  }

  ghost predicate RoundTrips(g: Geometry, bts: Bytes, num: nat, fid: nat)
  {
    var frames := ReqFrames(g, bts, num, fid);
    forall i :: 0 <= i < |frames| ==> Parse(g, frames[i]) == Body(num, fid, |frames|, i + 1, Piece(g, bts, i))
  }

  lemma ParsedBounds(g: Geometry, b: Bytes)
    ensures var p := Parse(g, b);
            p.Body? ==> p.uuid < MAX_UUID && p.fn < MAX_FUNC && p.buck < MAX_BUCK
  {
  }

  /** Every frame has the size of the geometry, their number is
      max(1, ceil(len / bodySplit)), and the slices make up the payload. */
  lemma FramesShape(g: Geometry, bts: Bytes, num: nat, fid: nat)
    ensures |ReqFrames(g, bts, num, fid)| == FrameCount(g.bodySplit, |bts|)
    ensures forall f :: f in ReqFrames(g, bts, num, fid) ==> |f| == g.totalSize
    ensures Flatten(Chunks(g.bodySplit, bts)) == bts
  {
    ChunkCount(g.bodySplit, bts);
    ChunksFlatten(g.bodySplit, bts);
    ChunksSliced(g.bodySplit, bts);
  }

  /** The codec law. Frame i of a payload reads back as its number, its share of
      the payload and the header fields exactly when those fields fit the header. */
  lemma CodecRoundTrip(g: Geometry, bts: Bytes, num: nat, fid: nat)
    ensures RoundTrips(g, bts, num, fid) <==> Representable(g, bts, num, fid)
  {
    var frames := ReqFrames(g, bts, num, fid);
    if Representable(g, bts, num, fid) {
      forall i | 0 <= i < |frames|
        ensures Parse(g, frames[i]) == Body(num, fid, |frames|, i + 1, Piece(g, bts, i))
      {
        ParseReqFrame(g, bts, num, fid, i);
      }
    }
    if RoundTrips(g, bts, num, fid) {
      ChunkCount(g.bodySplit, bts);
      ParsedBounds(g, frames[0]);
    }
  }

  /** The first id beyond three bytes comes back as 0, whatever the payload. */
  lemma WideNumberMisread(g: Geometry, bts: Bytes, fid: nat)
    ensures !RoundTrips(g, bts, MAX_UUID, fid)
    ensures |ReqFrames(g, bts, MAX_UUID, fid)[0]| == g.totalSize && Be24(ReqFrames(g, bts, MAX_UUID, fid)[0], 2) == 0
  {
    hide RoundTrips, ReqFrames, Seal;
    CodecRoundTrip(g, bts, MAX_UUID, fid);
    var buck, last, model, body := FrameIsSealed(g, bts, MAX_UUID, fid, 0);
    WidePrefix(g, fid, buck, last, model, body);
  }

  lemma WidePrefix(g: Geometry, fid: nat, buck: nat, last: nat, model: byte, body: Bytes)
    requires |body| <= g.bodySplit
    ensures Be24(Seal(g, Prefix(MAX_UUID, fid, buck, last, model), body), 2) == 0
  {
    assert Prefix(MAX_UUID, fid, buck, last, model) == Prefix(0, fid, buck, last, model);
    SealFields(g, 0, fid, buck, last, model, body);
  }

  /** An error reply reads back with its id and its message, cut to one frame. */
  lemma FailureRoundTrip(g: Geometry, message: Bytes, num: nat, fid: nat)
    requires num < MAX_UUID && fid < MAX_FUNC
    ensures |RspFrames(g, Failure(message), num, fid)| == 1
    ensures Parse(g, RspFrames(g, Failure(message), num, fid)[0]) == Failed(num, fid, Cut(g, message))
  {
    SealFields(g, num, fid, 1, |Cut(g, message)|, RESP_FAILED, Cut(g, message));
  }

  /** `parse` has no case for the "no such api" kind: it would read back as a body
      without slices and without its text. */
  lemma NotFoundIsUnread(g: Geometry, data: Bytes, num: nat)
    requires num < MAX_UUID
    ensures |RspFrames(g, Success(data), num, 0)| == 1
    ensures Parse(g, RspFrames(g, Success(data), num, 0)[0]) == Body(num, 0, 0, 0, [])
  {
    SealFields(g, num, 0, 1, |Cut(g, NOT_FOUND_TEXT)|, RESP_NO_FOUND, Cut(g, NOT_FOUND_TEXT));
  }
}
