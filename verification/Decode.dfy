/** `parse` on the buffer a frame was read into. What it returns it copies, so the
    buffer can go back to its pool. */
module Decode {
  import opened Common
  import opened Wire

  /** A byte slice in memory; `None` is Go's nil. */
  type Slice = Option<array<byte>>

  ghost function Storage(s: Slice): set<array<byte>> {
    if s.Some? then {s.value} else {}
  }

  ghost function Read(s: Slice): Bytes
    reads Storage(s)
  {
    if s.Some? then s.value[..] else []
  }

  /** A decoded frame (`JoinBodyData`), or why there is none. */
  datatype Decoded =
    | Wrong(error: Error)
    | Refused(uuid: nat, func: nat, message: Bytes)
    | JoinBodyData(uuid: nat, func: nat, buck: nat, sort: nat, data: Slice)
    | SliceBounds

  ghost function Copied(d: Decoded): set<array<byte>> {
    if d.JoinBodyData? then Storage(d.data) else {}
  }

  ghost function Meaning(d: Decoded): Parsed
    reads Copied(d)
  {
    match d
    case Wrong(error) => Rejected(error)
    case Refused(uuid, func, message) => Failed(uuid, func, message)
    case JoinBodyData(uuid, func, buck, sort, data) => Body(uuid, func, buck, sort, Read(data))
    case SliceBounds => OutOfRange
  }

  /** `append([]byte{}, b[from:to]...)` */
  method Copy(b: array<byte>, from: nat, to: nat) returns (data: array<byte>)
    requires from <= to <= b.Length
    ensures fresh(data) && data[..] == b[from..to]
  {
    data := new byte[to - from];
    for i := 0 to to - from
      invariant data[..i] == b[from..from + i]
    {
      data[i] := b[from + i];
    }
    assert data[..] == data[..to - from];
  }

  method ParseBuffer(g: Geometry, b: array<byte>) returns (d: Decoded)
    ensures Meaning(d) == Parse(g, b[..])
    ensures fresh(Copied(d))
  {
    if b.Length != g.totalSize {
      return Wrong(WrongLength);
    } else if b[0] != FIRST_BYTE || b[1] != SECOND_BYTE
              || b[b.Length - 1] != FIRST_BYTE || b[b.Length - 2] != SECOND_BYTE {
      return Wrong(WrongRule);
    }
    var uuid := b[2] as nat * 65536 + b[3] as nat * 256 + b[4] as nat;
    var func := b[6] as nat * 256 + b[7] as nat;
    var model := b[5];
    var length := b[10] as nat * 256 + b[11] as nat;
    var buck, sort := b[8] as nat * 256 + b[9] as nat, length;
    var from, to := g.bodyStart, g.finalByte;
    if model == REQ_DATA_NIL || model == RESP_DATA_NIL {
      return JoinBodyData(uuid, func, 1, 1, None);
    } else if model == WHOLE_DATA || model == RESP_SUCCESS {
      buck, sort, to := 1, 1, from + length;
    } else if model == RESP_FAILED {
      if from + length > b.Length {
        return SliceBounds;
      }
      return Refused(uuid, func, b[from..from + length]);
    } else if model == BODY_START || model == RESP_START {
      sort := 1;
    } else if model == REQ_FINALLY || model == RESP_FINALLY {
      sort, to := buck, from + length;
    } else if model != REQ_MIDDLE && model != RESP_MIDDLE {
      return JoinBodyData(uuid, func, 0, 0, None);
    }
    if to > b.Length {
      return SliceBounds;
    }
    var data := Copy(b, from, to);
    return JoinBodyData(uuid, func, buck, sort, Some(data));
  }
}
