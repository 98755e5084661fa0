/**
 filterAndroid14CameraStatusReply: rewrites the reply in place without the records of the
 internal camera IDs, or leaves it alone.
 */
module ListenerFilter {
  import opened Parcels
  import opened StatusReply

  /** The read succeeded exactly if the value is there, and ended behind it. */
  ghost predicate Got<T(!new)>(one: Reader<T>, d: seq<Item>, from: nat, r: Read<T>, to: nat) {
    r == one(d, from) && (r.Done? ==> to == r.next)
  }

  method ReadPresentText(parcel: Parcel) returns (r: Read<seq<char16>>)
    modifies parcel`position
    ensures Got(PresentText, parcel.data, old(parcel.position), r, parcel.position)
  {
    var text := parcel.ReadOptionalText();
    if text.Fail? || text.value.None? {
      return Fail;
    }
    r := Done(text.value.value, text.next);
  }

  function Joined<T>(done: seq<T>, r: Read<seq<T>>): Read<seq<T>> {
    match r case Fail => Fail case Done(xs, next) => Done(done + xs, next)
  }

  lemma JoinedNothing<T>(r: Read<seq<T>>)
    ensures Joined([], r) == r
  {
    if r.Done? {
      assert [] + r.value == r.value;
    }
  }

  /** One more of a row has been read, or could not be. */
  lemma JoinedStep<T(!new)>(one: Reader<T>, done: seq<T>, left: nat, d: seq<Item>, p: nat)
    requires left > 0
    ensures one(d, p).Fail? ==> Joined(done, Many(one, left, d, p)) == Fail
    ensures one(d, p).Done? ==>
              Joined(done, Many(one, left, d, p))
              == Joined(done + [one(d, p).value], Many(one, left - 1, d, one(d, p).next))
  {
    if one(d, p).Done? {
      var rest := Many(one, left - 1, d, one(d, p).next);
      if rest.Done? {
        assert done + ([one(d, p).value] + rest.value) == done + [one(d, p).value] + rest.value;
      }
    }
  }

  /** readString16Vector. */
  method ReadTextVector(parcel: Parcel) returns (r: Read<seq<seq<char16>>>)
    modifies parcel`position
    ensures r == TextVector(Text, parcel.data, old(parcel.position))
    ensures r.Done? ==> parcel.position == r.next
  {
    var count := parcel.ReadInt32();
    if count.Fail? || count.value < 0 {
      return Fail;
    }
    ghost var d, start := parcel.data, parcel.position;
    var texts: seq<seq<char16>> := [];
    JoinedNothing(Many(Text, count.value, d, start));
    var index := 0;
    while index < count.value
      invariant 0 <= index <= count.value && parcel.data == d
      invariant Many(Text, count.value, d, start) == Joined(texts, Many(Text, count.value - index, d, parcel.position))
    {
      JoinedStep(Text, texts, count.value - index, d, parcel.position);
      var text := parcel.ReadText();
      if text.Fail? {
        return Fail;
      }
      texts := texts + [text.value];
      index := index + 1;
    }
    r := Done(texts, parcel.position);
    assert texts + [] == texts;
  }

  /** readCameraStatusRecord. */
  method ReadRecord(parcel: Parcel) returns (r: Read<Record>)
    modifies parcel`position
    ensures Got(OneRecord, parcel.data, old(parcel.position), r, parcel.position)
  {
    var flag := parcel.ReadInt32();
    if flag.Fail? || flag.value != 1 {
      return Fail;
    }
    var id := ReadPresentText(parcel);
    if id.Fail? || |id.value| > MAX_ID_LENGTH {
      return Fail;
    }
    var status := parcel.ReadInt32();
    if status.Fail? {
      return Fail;
    }
    var ids := ReadTextVector(parcel);
    if ids.Fail? {
      return Fail;
    }
    var package := ReadPresentText(parcel);
    if package.Fail? {
      return Fail;
    }
    r := Done(Record(id.value, status.value, ids.value, package.value), package.next);
  }

  /** readCameraStatusRecord, by a reader that is `OneRecord`. */
  method NextRecord(parcel: Parcel, ghost one: Reader<Record>) returns (r: Read<Record>)
    requires forall d, p: nat {:trigger OneRecord(d, p)} :: one(d, p) == OneRecord(d, p)
    modifies parcel`position
    ensures r == one(parcel.data, old(parcel.position)) && (r.Done? ==> parcel.position == r.next)
  {
    r := ReadRecord(parcel);
  }

  /** The records of a reply; those of internal IDs are only counted. */
  method ReadRecords(parcel: Parcel, count: nat, ghost one: Reader<Record>)
    returns (ok: bool, visible: seq<Record>, filtered: nat, ghost records: seq<Record>)
    requires forall d, p: nat {:trigger OneRecord(d, p)} :: one(d, p) == OneRecord(d, p)
    modifies parcel`position
    ensures ok == Many(one, count, parcel.data, old(parcel.position)).Done?
    ensures ok ==>
              && Many(one, count, parcel.data, old(parcel.position)) == Done(records, parcel.position)
              && visible == Visible(records) && filtered == |records| - |visible|
  {
    ghost var d, start := parcel.data, parcel.position;
    visible, filtered, records := [], 0, [];
    JoinedNothing(Many(one, count, d, start));
    var index := 0;
    while index < count
      invariant 0 <= index <= count && parcel.data == d
      invariant Many(one, count, d, start) == Joined(records, Many(one, count - index, d, parcel.position))
      invariant visible == Visible(records) && filtered == |records| - |visible|
    {
      ghost var p := parcel.position;
      JoinedStep(one, records, count - index, d, p);
      var record := NextRecord(parcel, one);
      if record.Fail? {
        ok := false;
        return;
      }
      VisibleAppend(records, record.value);
      records := records + [record.value];
      if Internal(record.value.cameraId) {
        filtered := filtered + 1;
      } else {
        visible := visible + [record.value];
      }
      index := index + 1;
    }
    ok := true;
    assert records + [] == records;
  }

  lemma {:induction false} EncodedAppend<T>(encode: T -> seq<Item>, xs: seq<T>, x: T)
    ensures Encoded(encode, xs + [x]) == Encoded(encode, xs) + encode(x)
  {
    if xs == [] {
      assert xs + [x] == [x] && [x][1..] == [];
    } else {
      assert (xs + [x])[1..] == xs[1..] + [x];
      EncodedAppend(encode, xs[1..], x);
    }
  }

  lemma EncodedNext<T>(encode: T -> seq<Item>, xs: seq<T>, i: nat, head: seq<Item>)
    requires i < |xs|
    ensures head + Encoded(encode, xs[..i + 1]) == head + Encoded(encode, xs[..i]) + encode(xs[i])
  {
    EncodedAppend(encode, xs[..i], xs[i]);
    assert xs[..i] + [xs[i]] == xs[..i + 1];
  }

  /** writeCameraStatusRecord. */
  method WriteRecord(parcel: Parcel, record: Record)
    requires ValidRecord(record) && parcel.position == |parcel.data|
    modifies parcel
    ensures parcel.data == old(parcel.data) + EncodeRecord(record) && parcel.position == |parcel.data|
  {
    parcel.Append([Word(1)]);
    parcel.Append(EncodeText(record.cameraId));
    parcel.Append([Word(Unsigned(record.status))]);
    parcel.Append([Word(|record.unavailable|)]);
    var index := 0;
    ghost var head := parcel.data;
    while index < |record.unavailable|
      invariant 0 <= index <= |record.unavailable| && parcel.position == |parcel.data|
      invariant parcel.data == head + Encoded(EncodeText, record.unavailable[..index])
    {
      EncodedNext(EncodeText, record.unavailable, index, head);
      parcel.Append(EncodeText(record.unavailable[index]));
      index := index + 1;
    }
    assert record.unavailable[..index] == record.unavailable;
    parcel.Append(EncodeText(record.package));
    RecordPieces(record, old(parcel.data));
  }

  lemma RecordPieces(r: Record, before: seq<Item>)
    requires ValidRecord(r)
    ensures before + [Word(1)] + EncodeText(r.cameraId) + [Word(Unsigned(r.status))] + [Word(|r.unavailable|)]
            + Encoded(EncodeText, r.unavailable) + EncodeText(r.package)
            == before + EncodeRecord(r)
  {
  }

  /** The replacement reply: the status, the count and the visible records. */
  method WriteReply(visible: seq<Record>) returns (replacement: Parcel)
    requires |visible| <= MAX_RECORDS && forall r | r in visible :: ValidRecord(r)
    ensures fresh(replacement) && replacement.data == ReplyItems(visible)
  {
    replacement := new Parcel();
    replacement.Append([Word(0)]);
    replacement.Append([Word(|visible|)]);
    ghost var head := replacement.data;
    var index := 0;
    while index < |visible|
      invariant 0 <= index <= |visible| && fresh(replacement) && replacement.position == |replacement.data|
      invariant replacement.data == head + Encoded(EncodeRecord, visible[..index])
    {
      EncodedNext(EncodeRecord, visible, index, head);
      WriteRecord(replacement, visible[index]);
      index := index + 1;
    }
    assert visible[..index] == visible;
  }

  /** Everything up to the end of the list: nothing of the reply is changed but the cursor. */
  method ReadReply(reply: Parcel, status: StatusReader) returns (r: FilterStatus, visible: seq<Record>)
    modifies reply`position
    ensures match ReplyOf(status, reply.data)
            case Malformed => r == MalformedReply
            case Failed => r == ServiceError
            case Listed(records) =>
              visible == Visible(records) && r == if visible == records then Unchanged else Filtered
  {
    visible := [];
    var service := status(reply.data);
    if service.Unreadable? {
      return MalformedReply, [];
    }
    if service.Exception? {
      return ServiceError, [];
    }
    reply.position := service.next;
    var count := reply.ReadInt32();
    if count.Fail? || count.value < 0 || count.value > MAX_RECORDS {
      return MalformedReply, [];
    }
    var ok, filtered;
    ghost var records;
    ok, visible, filtered, records := ReadRecords(reply, count.value, OneRecord);
    if !ok || reply.position != |reply.data| {
      return MalformedReply, [];
    }
    VisibleIs(records);
    r := if filtered == 0 then Unchanged else Filtered;
  }

  /**
   filterAndroid14CameraStatusReply. Only a filtered reply changes, and then to the
   visible records.
   */
  method FilterStatusReply(reply: Parcel, status: StatusReader) returns (r: FilterStatus)
    modifies reply
    ensures match ReplyOf(status, old(reply.data))
            case Malformed => r == MalformedReply
            case Failed => r == ServiceError
            case Listed(records) =>
              && (r == Filtered || r == Unchanged) && (r == Unchanged <==> Visible(records) == records)
              && (r == Filtered ==>
                    && |Visible(records)| <= MAX_RECORDS
                    && reply.data == ReplyItems(Visible(records)) && reply.position == 0)
    ensures r != Filtered ==> reply.data == old(reply.data) && reply.position == old(reply.position)
  {
    var original := reply.position;
    reply.position := 0;
    var visible;
    r, visible := ReadReply(reply, status);
    if r != Filtered {
      reply.position := original;
      return;
    }
    ListedAreValid(status, reply.data);
    VisibleIs(ReplyOf(status, reply.data).records);
    var replacement := WriteReply(visible);
    reply.data := replacement.data;
    reply.position := 0;
  }
}
