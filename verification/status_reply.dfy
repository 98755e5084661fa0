/**
 The addListener reply: a status, a count and camera status records. Records of the
 virtual cameras' internal IDs are removed from it.
 */
module StatusReply {
  import opened Parcels

  const MAX_RECORDS: int := 1024
  const MAX_ID_LENGTH: int := 255

  /** "1000" and "1001" */
  const BACK_ID: seq<char16> := [49, 48, 48, 48]
  const FRONT_ID: seq<char16> := [49, 48, 48, 49]

  datatype Record = Record(cameraId: seq<char16>, status: int, unavailable: seq<seq<char16>>, package: seq<char16>)

  datatype FilterStatus = Filtered | Unchanged | ServiceError | MalformedReply

  /** What reading a binder status from the front of a reply gives. */
  datatype StatusRead = Unreadable | Exception | Fine(next: nat)

  type StatusReader = seq<Item> -> StatusRead

  /** A written success, one zero word, reads back as success. */
  ghost predicate ReadsSuccess(status: StatusReader) {
    forall rest: seq<Item> :: status([Word(0)] + rest) == Fine(1)
  }

  // ---------------------------------------------------------------------------
  // Reading
  // ---------------------------------------------------------------------------

  type Reader<T> = (seq<Item>, nat) -> Read<T>

  /** `count` values in a row, each read by `one`. */
  function Many<T>(one: Reader<T>, count: nat, d: seq<Item>, p: nat): Read<seq<T>>
    decreases count
  {
    if count == 0 then Done([], p)
    else match one(d, p)
         case Fail => Fail
         case Done(x, q) =>
           match Many(one, count - 1, d, q)
           case Fail => Fail
           case Done(xs, r) => Done([x] + xs, r)
  }

  /** readString16Vector: a count and that many strings, none of them null. */
  function TextVector(text: Reader<seq<char16>>, d: seq<Item>, p: nat): Read<seq<seq<char16>>> {
    match Int(d, p)
    case Fail => Fail
    case Done(n, q) => if n < 0 then Fail else Many(text, n, d, q)
  }

  /** A string read as optional that must be present. */
  function PresentText(d: seq<Item>, p: nat): Read<seq<char16>> {
    match OptionalText(d, p)
    case Fail => Fail
    case Done(t, q) => if t.None? then Fail else Done(t.value, q)
  }

  /** The status, the vector and the package of a record whose ID has been read. */
  function RecordTail(text: Reader<seq<char16>>, present: Reader<seq<char16>>, id: seq<char16>,
                      d: seq<Item>, p: nat): Read<Record> {
    match Int(d, p)
    case Fail => Fail
    case Done(status, q) =>
      match TextVector(text, d, q)
      case Fail => Fail
      case Done(ids, r) =>
        match present(d, r)
        case Fail => Fail
        case Done(package, s) => Done(Record(id, status, ids, package), s)
  }

  /** readCameraStatusRecord, with the given readers of strings. */
  function RecordAt(text: Reader<seq<char16>>, present: Reader<seq<char16>>, d: seq<Item>, p: nat): Read<Record> {
    match Int(d, p)
    case Fail => Fail
    case Done(flag, q) =>
      if flag != 1 then Fail
      else match present(d, q)
           case Fail => Fail
           case Done(id, r) => if |id| > MAX_ID_LENGTH then Fail else RecordTail(text, present, id, d, r)
  }

  function OneRecord(d: seq<Item>, p: nat): Read<Record> {
    RecordAt(Text, PresentText, d, p)
  }

  datatype Reply = Malformed | Failed | Listed(records: seq<Record>)

  /** The count and the records from `p` to the end. */
  function ListFrom(one: Reader<Record>, d: seq<Item>, p: nat): Reply {
    match Int(d, p)
    case Fail => Malformed
    case Done(count, q) =>
      if count < 0 || count > MAX_RECORDS then Malformed
      else match Many(one, count, d, q)
           case Fail => Malformed
           case Done(records, end) => if end == |d| then Listed(records) else Malformed
  }

  /** What a reply says. */
  function ReplyOf(status: StatusReader, d: seq<Item>): Reply {
    match status(d)
    case Unreadable => Malformed
    case Exception => Failed
    case Fine(p) => ListFrom(OneRecord, d, p)
  }

  // ---------------------------------------------------------------------------
  // Writing
  // ---------------------------------------------------------------------------

  predicate WritableText(t: seq<char16>) {
    |t| < MAX_INT32
  }

  /** A record that reading can yield. */
  predicate ValidRecord(r: Record) {
    && |r.cameraId| <= MAX_ID_LENGTH && MIN_INT32 <= r.status <= MAX_INT32
    && |r.unavailable| <= MAX_INT32 && WritableText(r.package)
    && forall t | t in r.unavailable :: WritableText(t)
  }

  function Unsigned(v: int): word
    requires MIN_INT32 <= v <= MAX_INT32
  {
    if v >= 0 then v else v + 0x1_0000_0000
  }

  /** What `encode` writes for each, in a row. */
  function Encoded<T>(encode: T -> seq<Item>, xs: seq<T>): seq<Item> {
    if xs == [] then [] else encode(xs[0]) + Encoded(encode, xs[1..])
  }

  function EncodeText(t: seq<char16>): seq<Item> {
    if WritableText(t) then TextItems(t) else []
  }

  /** The status, the vector and the package. */
  function TailItems(r: Record): seq<Item>
    requires ValidRecord(r)
  {
    [Word(Unsigned(r.status))]
    + ([Word(|r.unavailable|)] + (Encoded(EncodeText, r.unavailable) + EncodeText(r.package)))
  }

  /** writeCameraStatusRecord. */
  function RecordItems(r: Record): seq<Item>
    requires ValidRecord(r)
  {
    [Word(1)] + (EncodeText(r.cameraId) + TailItems(r))
  }

  function EncodeRecord(r: Record): seq<Item> {
    if ValidRecord(r) then RecordItems(r) else []
  }

  function ReplyItems(rs: seq<Record>): seq<Item>
    requires |rs| <= MAX_RECORDS
  {
    [Word(0)] + ([Word(|rs|)] + Encoded(EncodeRecord, rs))
  }

  predicate Internal(id: seq<char16>) {
    id == BACK_ID || id == FRONT_ID
  }

  /** The records that stay, in order. */
  function Visible(rs: seq<Record>): seq<Record> {
    if rs == [] then []
    else if Internal(rs[0].cameraId) then Visible(rs[1..])
    else [rs[0]] + Visible(rs[1..])
  }

  // ---------------------------------------------------------------------------
  // What was written reads back
  // ---------------------------------------------------------------------------

  /** Where `one` finds what `encode` writes for `x`, it reads `x`. */
  ghost predicate ReadsBack<T(!new)>(one: Reader<T>, encode: T -> seq<Item>, valid: T -> bool) {
    forall x, d, p: nat {:trigger Lies(encode(x), d, p)} | valid(x) && Lies(encode(x), d, p) ::
      one(d, p) == Done(x, p + |encode(x)|)
  }

  lemma {:induction false} ManyReadBack<T(!new)>(one: Reader<T>, encode: T -> seq<Item>, valid: T -> bool, xs: seq<T>,
                                                 d: seq<Item>, p: nat)
    requires ReadsBack(one, encode, valid) && Lies(Encoded(encode, xs), d, p)
    requires forall x | x in xs :: valid(x)
    ensures Many(one, |xs|, d, p) == Done(xs, p + |Encoded(encode, xs)|)
    decreases |xs|
  {
    if xs != [] {
      LiesSplit(encode(xs[0]), Encoded(encode, xs[1..]), d, p);
      ManyReadBack(one, encode, valid, xs[1..], d, p + |encode(xs[0])|);
      assert xs == [xs[0]] + xs[1..];
    }
  }

  lemma TextsReadBack()
    ensures ReadsBack(Text, EncodeText, WritableText) && ReadsBack(PresentText, EncodeText, WritableText)
  {
    forall x, d, p: nat | WritableText(x) && Lies(EncodeText(x), d, p)
      ensures Text(d, p) == Done(x, p + |EncodeText(x)|) && PresentText(d, p) == Done(x, p + |EncodeText(x)|)
    {
      TextLies(x, d, p);
    }
  }

  lemma WordLies(v: word, rest: seq<Item>, d: seq<Item>, p: nat)
    requires Lies([Word(v)] + rest, d, p)
    ensures Int(d, p) == Done(Signed(v), p + 1) && Lies(rest, d, p + 1)
  {
    LiesSplit([Word(v)], rest, d, p);
    assert d[p..p + 1][0] == Word(v);
  }

  lemma TailReadsBack(text: Reader<seq<char16>>, present: Reader<seq<char16>>, r: Record, d: seq<Item>, p: nat)
    requires ReadsBack(text, EncodeText, WritableText) && ReadsBack(present, EncodeText, WritableText)
    requires ValidRecord(r) && Lies(TailItems(r), d, p)
    ensures RecordTail(text, present, r.cameraId, d, p) == Done(r, p + |TailItems(r)|)
  {
    var ids, package := Encoded(EncodeText, r.unavailable), EncodeText(r.package);
    WordLies(Unsigned(r.status), [Word(|r.unavailable|)] + (ids + package), d, p);
    WordLies(|r.unavailable|, ids + package, d, p + 1);
    LiesSplit(ids, package, d, p + 2);
    ManyReadBack(text, EncodeText, WritableText, r.unavailable, d, p + 2);
  }

  lemma RecordReadsBack(text: Reader<seq<char16>>, present: Reader<seq<char16>>, r: Record, d: seq<Item>, p: nat)
    requires ReadsBack(text, EncodeText, WritableText) && ReadsBack(present, EncodeText, WritableText)
    requires ValidRecord(r) && Lies(RecordItems(r), d, p)
    ensures RecordAt(text, present, d, p) == Done(r, p + |RecordItems(r)|)
  {
    WordLies(1, EncodeText(r.cameraId) + TailItems(r), d, p);
    LiesSplit(EncodeText(r.cameraId), TailItems(r), d, p + 1);
    TailReadsBack(text, present, r, d, p + 1 + |EncodeText(r.cameraId)|);
  }

  lemma RecordsReadBack()
    ensures ReadsBack(OneRecord, EncodeRecord, ValidRecord)
  {
    TextsReadBack();
    forall r, d, p: nat | ValidRecord(r) && Lies(EncodeRecord(r), d, p)
      ensures OneRecord(d, p) == Done(r, p + |EncodeRecord(r)|)
    {
      RecordReadsBack(Text, PresentText, r, d, p);
    }
  }

  /** A written reply says what was written. */
  lemma ReplyReadsBack(status: StatusReader, rs: seq<Record>)
    requires ReadsSuccess(status) && |rs| <= MAX_RECORDS && forall r | r in rs :: ValidRecord(r)
    ensures ReplyOf(status, ReplyItems(rs)) == Listed(rs)
  {
    RecordsReadBack();
    ListReadsBack(OneRecord, EncodeRecord, ValidRecord, rs);
  }

  lemma ListReadsBack(one: Reader<Record>, encode: Record -> seq<Item>, valid: Record -> bool, rs: seq<Record>)
    requires ReadsBack(one, encode, valid) && |rs| <= MAX_RECORDS && forall r | r in rs :: valid(r)
    ensures ListFrom(one, [Word(0)] + ([Word(|rs|)] + Encoded(encode, rs)), 1) == Listed(rs)
  {
    var items := Encoded(encode, rs);
    var d := [Word(0)] + ([Word(|rs|)] + items);
    assert d[1..1 + |[Word(|rs|)] + items|] == [Word(|rs|)] + items;
    WordLies(|rs|, items, d, 1);
    ManyReadBack(one, encode, valid, rs, d, 2);
  }

  // ---------------------------------------------------------------------------
  // What reading yields
  // ---------------------------------------------------------------------------

  ghost predicate Yields<T(!new)>(one: Reader<T>, valid: T -> bool) {
    forall d, p: nat | one(d, p).Done? :: valid(one(d, p).value)
  }

  lemma {:induction false} ManyYield<T(!new)>(one: Reader<T>, valid: T -> bool, count: nat, d: seq<Item>, p: nat)
    requires Yields(one, valid) && Many(one, count, d, p).Done?
    ensures var xs := Many(one, count, d, p).value; |xs| == count && forall x | x in xs :: valid(x)
    decreases count
  {
    if count > 0 {
      ManyYield(one, valid, count - 1, d, one(d, p).next);
    }
  }

  lemma RecordsAreValid()
    ensures Yields(OneRecord, ValidRecord)
  {
    forall d, p: nat | Text(d, p).Done? ensures WritableText(Text(d, p).value) {
      TextEnds(d, p);
    }
    forall d, p: nat | PresentText(d, p).Done? ensures WritableText(PresentText(d, p).value) {
      TextEnds(d, p);
    }
    forall d, p: nat | OneRecord(d, p).Done? ensures ValidRecord(OneRecord(d, p).value) {
      RecordIsValid(Text, PresentText, d, p);
    }
  }

  lemma RecordIsValid(text: Reader<seq<char16>>, present: Reader<seq<char16>>, d: seq<Item>, p: nat)
    requires Yields(text, WritableText) && Yields(present, WritableText) && RecordAt(text, present, d, p).Done?
    ensures ValidRecord(RecordAt(text, present, d, p).value)
  {
    var q := present(d, p + 1).next;
    ManyYield(text, WritableText, Int(d, q + 1).value, d, q + 2);
  }

  lemma {:induction false} VisibleIs(rs: seq<Record>)
    ensures |Visible(rs)| <= |rs| && (|Visible(rs)| == |rs| ==> Visible(rs) == rs)
    ensures forall r | r in Visible(rs) :: r in rs && !Internal(r.cameraId)
  {
    if rs != [] {
      VisibleIs(rs[1..]);
      assert rs == [rs[0]] + rs[1..];
    }
  }

  /** Nothing else is lost or repeated: a record stays as often as it was there. */
  lemma {:induction false} VisibleKeeps(rs: seq<Record>, r: Record)
    ensures multiset(Visible(rs))[r] == if Internal(r.cameraId) then 0 else multiset(rs)[r]
  {
    if rs != [] {
      VisibleKeeps(rs[1..], r);
      assert rs == [rs[0]] + rs[1..];
    }
  }

  lemma {:induction false} VisibleStays(rs: seq<Record>)
    requires forall r | r in rs :: !Internal(r.cameraId)
    ensures Visible(rs) == rs
  {
    if rs != [] {
      assert rs[0] in rs;
      VisibleStays(rs[1..]);
    }
  }

  lemma {:induction false} VisibleAppend(rs: seq<Record>, r: Record)
    ensures Visible(rs + [r]) == Visible(rs) + if Internal(r.cameraId) then [] else [r]
  {
    if rs == [] {
      assert rs + [r] == [r] && [r][1..] == [];
    } else {
      assert (rs + [r])[1..] == rs[1..] + [r];
      VisibleAppend(rs[1..], r);
    }
  }

  /**
   Main result: a reply rewritten without the internal records says exactly the visible
   records, and filtering it again would change nothing.
   */
  lemma FilteredReplySays(status: StatusReader, d: seq<Item>)
    requires ReadsSuccess(status) && ReplyOf(status, d).Listed?
    ensures var rs := ReplyOf(status, d).records;
            && |Visible(rs)| <= MAX_RECORDS
            && ReplyOf(status, ReplyItems(Visible(rs))) == Listed(Visible(rs))
            && Visible(Visible(rs)) == Visible(rs)
  {
    ListedAreValid(status, d);
    var rs := ReplyOf(status, d).records;
    VisibleIs(rs);
    VisibleStays(Visible(rs));
    ReplyReadsBack(status, Visible(rs));
  }

  lemma ListedAreValid(status: StatusReader, d: seq<Item>)
    requires ReplyOf(status, d).Listed?
    ensures |ReplyOf(status, d).records| <= MAX_RECORDS
    ensures forall r | r in ReplyOf(status, d).records :: ValidRecord(r)
  {
    RecordsAreValid();
    var p := status(d).next;
    ManyYield(OneRecord, ValidRecord, Int(d, p).value, d, p + 1);
  }
}
