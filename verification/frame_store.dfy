/**
 Publishing frames: the provider writes a frame to a temporary file and renames it into
 place; the relay does the same for every frame of its input. Every file operation may
 fail, and a failed write may have written any part.
 */
module FrameStores {
  import opened Environment
  import opened Bytes
  import opened FrameFormat

  datatype Contents = Missing | File(bytes: seq<byte>)

  /** The published file and the temporary beside it. */
  class FrameStore {
    var published: Contents
    var temporary: Contents
    /** What the published file has been after any operation so far. */
    ghost var shown: set<Contents>

    method OpenTemporary() returns (ok: bool)
      modifies this
      ensures published == old(published) && shown == old(shown) + {published}
      ensures temporary == if ok then File([]) else old(temporary)
    {
      ok := Arbitrary<bool>();
      if ok {
        temporary := File([]);
      }
      shown := shown + {published};
    }

    /** write_exact behind what the temporary holds. */
    method Write(bytes: seq<byte>) returns (ok: bool)
      requires temporary.File?
      modifies this
      ensures published == old(published) && shown == old(shown) + {published}
      ensures temporary.File? && (ok ==> temporary.bytes == old(temporary).bytes + bytes)
    {
      ok := Arbitrary<bool>();
      var written := if ok then |bytes| else 0;
      if !ok {
        var part := Arbitrary<nat>();
        written := if part < |bytes| then part else 0;
      }
      temporary := File(temporary.bytes + bytes[..written]);
      shown := shown + {published};
    }

    /** fchmod, fchown and close: they change no contents. */
    method Touch() returns (ok: bool)
      modifies this`shown
      ensures shown == old(shown) + {published}
    {
      ok := Arbitrary<bool>();
      shown := shown + {published};
    }

    /** rename over the published file, which is atomic. */
    method Rename() returns (ok: bool)
      modifies this
      ensures if ok then published == old(temporary) && temporary == Missing
              else published == old(published) && temporary == old(temporary)
      ensures shown == old(shown) + {published}
    {
      ok := Arbitrary<bool>();
      if ok {
        published, temporary := temporary, Missing;
      }
      shown := shown + {published};
    }

    method Unlink()
      modifies this
      ensures published == old(published) && temporary == Missing && shown == old(shown) + {published}
    {
      temporary := Missing;
      shown := shown + {published};
    }
  }

  // ---------------------------------------------------------------------------
  // publish_frame
  // ---------------------------------------------------------------------------

  predicate Plane(rows: seq<seq<byte>>, width: nat, height: nat) {
    |rows| == height && forall i | 0 <= i < |rows| :: |rows[i]| == width
  }

  /** The planes of an I420 picture. */
  datatype Picture = Picture(width: nat, height: nat, y: seq<seq<byte>>, cb: seq<seq<byte>>, cr: seq<seq<byte>>)

  predicate WellFormed(p: Picture) {
    && p.width <= MAX_UINT32 && p.height <= MAX_UINT32
    && Plane(p.y, p.width, p.height)
    && Plane(p.cb, p.width / 2, p.height / 2) && Plane(p.cr, p.width / 2, p.height / 2)
  }

  function Payload(p: Picture): nat {
    p.width * p.height + p.width * p.height / 2
  }

  function Header(p: Picture, sequence: nat): (r: seq<byte>)
    ensures |r| == HEADER_SIZE
  {
    YUV_MAGIC + LittleEndian(p.width, 4) + LittleEndian(p.height, 4) + LittleEndian(Payload(p), 4)
    + LittleEndian(sequence, 4)
  }

  function Pixels(p: Picture): seq<byte> {
    Flat(p.y) + Flat(p.cb) + Flat(p.cr)
  }

  /** The file publish_frame writes. */
  function FrameBytes(p: Picture, sequence: nat): seq<byte> {
    Header(p, sequence) + Pixels(p)
  }

  /** The rows of one plane, behind what is already written. */
  method WritePlane(store: FrameStore, rows: seq<seq<byte>>) returns (ok: bool)
    requires store.temporary.File?
    modifies store
    ensures store.temporary.File? && store.published == old(store.published)
    ensures store.shown <= old(store.shown) + {store.published}
    ensures ok ==> store.temporary.bytes == old(store.temporary).bytes + Flat(rows)
  {
    ghost var head := store.temporary.bytes;
    ok := true;
    var row := 0;
    while ok && row < |rows|
      invariant 0 <= row <= |rows| && store.temporary.File? && store.published == old(store.published)
      invariant store.shown <= old(store.shown) + {store.published}
      invariant ok ==> store.temporary.bytes == head + Flat(rows[..row])
      decreases if ok then |rows| - row else 0
    {
      ok := store.Write(rows[row]);
      row := row + 1;
      assert rows[..row][..row - 1] == rows[..row - 1];
    }
    if ok {
      assert rows[..row] == rows;
    }
  }

  /** The header, the modes and the three planes into the opened temporary. */
  method WriteFrame(store: FrameStore, p: Picture, sequence: nat) returns (ok: bool)
    requires store.temporary == File([])
    modifies store
    ensures store.temporary.File? && store.published == old(store.published)
    ensures store.shown <= old(store.shown) + {store.published}
    ensures ok ==> store.temporary.bytes == FrameBytes(p, sequence)
  {
    ok := store.Touch();
    if ok {
      ok := store.Write(Header(p, sequence));
    }
    if ok {
      ok := WritePlane(store, p.y);
    }
    if ok {
      ok := WritePlane(store, p.cb);
    }
    if ok {
      ok := WritePlane(store, p.cr);
      if ok {
        assert store.temporary.bytes == [] + Header(p, sequence) + Flat(p.y) + Flat(p.cb) + Flat(p.cr);
        assert store.temporary.bytes == FrameBytes(p, sequence);
      }
    }
  }

  /**
   publish_frame: the complete frame is in place, or the old one still is; at no step is
   anything else.
   */
  method PublishFrame(store: FrameStore, p: Picture, sequence: nat) returns (ok: bool)
    requires WellFormed(p)
    modifies store
    ensures store.published == if ok then File(FrameBytes(p, sequence)) else old(store.published)
    ensures store.shown <= old(store.shown) + {old(store.published), store.published}
  {
    if Payload(p) > MAX_UINT32 {
      return false;
    }
    ok := store.OpenTemporary();
    if !ok {
      return;
    }
    ok := WriteFrame(store, p, sequence);
    var closed := store.Touch();
    ok := ok && closed;
    if ok {
      ok := store.Rename();
    }
    if !ok {
      store.Unlink();
    }
  }

  // ---------------------------------------------------------------------------
  // The relay
  // ---------------------------------------------------------------------------

  datatype ReadResult = Got(bytes: seq<byte>) | Ended | Broken

  /** Standard input. */
  class FrameInput {
    var rest: seq<byte>

    /** read_exact: all the bytes, the end of the input, or a failure part-way. */
    method ReadExact(size: nat) returns (r: ReadResult)
      requires size > 0
      modifies this
      ensures match r
              case Got(bytes) => |bytes| == size && old(rest) == bytes + rest
              case Ended => old(rest) == [] == rest
              case Broken => |rest| <= |old(rest)|
    {
      if rest == [] {
        return Ended;
      }
      var fails := Arbitrary<bool>();
      if fails || |rest| < size {
        rest := [];
        return Broken;
      }
      r := Got(rest[..size]);
      rest := rest[size..];
    }
  }

  const BUFFER: nat := 256 * 1024

  /** The payload through the buffer into the temporary. */
  method Transfer(input: FrameInput, store: FrameStore, size: nat) returns (ok: bool, ghost payload: seq<byte>)
    requires store.temporary.File?
    modifies input, store
    ensures store.temporary.File? && store.published == old(store.published)
    ensures store.shown <= old(store.shown) + {store.published}
    ensures |input.rest| <= |old(input.rest)|
    ensures ok ==>
              && |payload| == size && old(input.rest) == payload + input.rest
              && store.temporary.bytes == old(store.temporary).bytes + payload
  {
    ghost var head, stream := store.temporary.bytes, input.rest;
    payload := [];
    ok := true;
    var remaining := size;
    while remaining > 0
      invariant 0 <= remaining <= size && |payload| == size - remaining
      invariant store.temporary.File? && store.published == old(store.published)
      invariant store.shown <= old(store.shown) + {store.published}
      invariant stream == payload + input.rest && store.temporary.bytes == head + payload
    {
      var chunk := if remaining < BUFFER then remaining else BUFFER;
      var part := input.ReadExact(chunk);
      if !part.Got? {
        ok := false;
        return;
      }
      var written := store.Write(part.bytes);
      if !written {
        ok := false;
        return;
      }
      payload := payload + part.bytes;
      remaining := remaining - chunk;
    }
  }

  /** One frame into place, behind its checked header. */
  method RelayFrame(input: FrameInput, store: FrameStore, header: seq<byte>) returns (code: nat, ghost frame: seq<byte>)
    requires Publishable(header)
    modifies input, store
    ensures |input.rest| <= |old(input.rest)|
    ensures code == 0 ==> Shown(frame) && header + old(input.rest) == frame + input.rest
    ensures store.published == if code == 0 then File(frame) else old(store.published)
    ensures store.shown <= old(store.shown) + {old(store.published), store.published}
  {
    frame := [];
    var ok := store.OpenTemporary();
    if !ok {
      return 4, frame;
    }
    ok := store.Touch();
    if ok {
      ok := store.Write(header);
    }
    if !ok {
      store.Unlink();
      return 5, frame;
    }
    ghost var payload;
    ok, payload := Transfer(input, store, Field(header, 16));
    if !ok {
      store.Unlink();
      return 6, frame;
    }
    frame := header + payload;
    assert [] + header == header;
    PublishedIsShown(header, payload);
    ok := store.Touch();
    if !ok {
      store.Unlink();
      return 7, frame;
    }
    ok := store.Rename();
    if !ok {
      store.Unlink();
      return 8, frame;
    }
    code := 0;
  }

  /** Every published content but the first is a frame the HAL shows. */
  ghost predicate AllShown(shown: set<Contents>, before: set<Contents>) {
    forall c | c in shown && c !in before :: c.File? && Shown(c.bytes)
  }

  /**
   The publisher's loop. Whatever happens, every content the published file ever gets is a
   complete frame the HAL shows; and if the loop ends well, the frames are the input, cut
   into pieces, none lost or changed, the last one in place.
   */
  method Relay(input: FrameInput, store: FrameStore) returns (code: nat, ghost frames: seq<seq<byte>>)
    modifies input, store
    ensures AllShown(store.shown, old(store.shown) + {old(store.published)})
    ensures forall f | f in frames :: Shown(f)
    ensures store.published == if frames == [] then old(store.published) else File(frames[|frames| - 1])
    ensures code == 0 ==> Flat(frames) == old(input.rest)
  {
    ghost var stream := input.rest;
    frames := [];
    while true
      invariant AllShown(store.shown, old(store.shown) + {old(store.published)})
      invariant forall f | f in frames :: Shown(f)
      invariant store.published == if frames == [] then old(store.published) else File(frames[|frames| - 1])
      invariant Flat(frames) + input.rest == stream
      decreases |input.rest|
    {
      var head := input.ReadExact(HEADER_SIZE);
      if head.Ended? {
        assert Flat(frames) + [] == Flat(frames);
        code := 0;
        return;
      }
      if head.Broken? || FormatOf(head.bytes).NoFormat? {
        code := 2;
        return;
      }
      if !Publishable(head.bytes) {
        code := 3;
        return;
      }
      ghost var frame;
      code, frame := RelayFrame(input, store, head.bytes);
      if code != 0 {
        return;
      }
      FlatLast(frames, frame, input.rest);
      frames := frames + [frame];
    }
  }

  lemma FlatLast(rows: seq<seq<byte>>, row: seq<byte>, rest: seq<byte>)
    ensures Flat(rows + [row]) + rest == Flat(rows) + (row + rest)
  {
    assert (rows + [row])[..|rows|] == rows;
  }
}
