/**
 observeAndroid14CameraServiceParcel: finds the camera ID in an ICameraService request
 and puts the cursor back.
 */
module ParcelObserver {
  import opened Bytes
  import opened Parcels
  import opened CameraIds

  datatype Shape =
    | PassThrough
    | ConnectApi1
    | ConnectDevice
    | StringCameraId
    | IntegerCameraId
    | Listener
    | ListenerRemoval
    | ConcurrentIds
    | ConcurrentSessionConfiguration

  datatype ObservationStatus =
    | Observed
    | NotRoutedTransaction
    | MalformedHeader
    | WrongInterface
    | MalformedPayload
    | UnsupportedPayload

  datatype Observation = Observation(
    status: ObservationStatus,
    shape: Shape,
    cameraScoped: bool,
    cameraId: seq<byte>,
    packageName: seq<byte>,
    initialPosition: nat,
    start: nat,
    end: nat)

  // ---------------------------------------------------------------------------
  // Decimal numbers
  // ---------------------------------------------------------------------------

  const ZERO: byte := 48

  /** std::to_string of a non-negative number. */
  function Decimal(n: nat): seq<byte> {
    if n < 10 then [ZERO + n] else Decimal(n / 10) + [ZERO + n % 10]
  }

  predicate AllDigits(s: seq<byte>) {
    forall i | 0 <= i < |s| :: ZERO <= s[i] <= ZERO + 9
  }

  /** The number a digit string denotes. */
  function NumberOf(s: seq<byte>): nat
    requires AllDigits(s)
  {
    if s == [] then 0 else 10 * NumberOf(s[..|s| - 1]) + (s[|s| - 1] - ZERO)
  }

  lemma {:induction false} DecimalDenotes(n: nat)
    ensures Decimal(n) != [] && AllDigits(Decimal(n)) && NumberOf(Decimal(n)) == n
  {
    if n >= 10 {
      DecimalDenotes(n / 10);
      assert Decimal(n)[..|Decimal(n)| - 1] == Decimal(n / 10);
    } else {
      assert Decimal(n)[..0] == [];
    }
  }

  lemma {:induction false} PrefixIsNoLarger(s: seq<byte>, k: nat)
    requires AllDigits(s) && k <= |s|
    ensures NumberOf(s[..k]) <= NumberOf(s)
    decreases |s|
  {
    if k < |s| {
      var shorter := s[..|s| - 1];
      PrefixIsNoLarger(shorter, k);
      assert shorter[..k] == s[..k];
    } else {
      assert s[..k] == s;
    }
  }

  // ---------------------------------------------------------------------------
  // What an observation finds
  // ---------------------------------------------------------------------------

  /** An ASCII string of at most 255 characters, possibly empty. */
  function AsciiText(d: seq<Item>, p: nat): Read<seq<byte>> {
    match Text(d, p)
    case Fail => Fail
    case Done(t, next) => if |t| > 255 || !IsAscii(t) then Fail else Done(Narrowed(t), next)
  }

  /** An integer ID, rendered in decimal. */
  function IntegerId(d: seq<Item>, p: nat): Read<seq<byte>> {
    match Int(d, p)
    case Fail => Fail
    case Done(v, next) => if v < 0 then Fail else Done(Decimal(v), next)
  }

  predicate PresentBinder(d: seq<Item>, p: nat) {
    p < |d| && d[p].Binder? && d[p].handle != 0
  }

  predicate HasBinder(shape: Shape) { shape.ConnectApi1? || shape.ConnectDevice? }
  predicate HasInteger(shape: Shape) { shape.ConnectApi1? || shape.IntegerCameraId? }
  predicate HasCameraId(shape: Shape) { HasInteger(shape) || shape.ConnectDevice? || shape.StringCameraId? }

  datatype Payload = Payload(id: seq<byte>, package: seq<byte>, start: nat, end: nat)

  function ReadId(shape: Shape, d: seq<Item>, p: nat): Read<seq<byte>> {
    if HasInteger(shape) then IntegerId(d, p) else AsciiText(d, p)
  }

  /** The camera ID behind the binder, if there is one, and the package name behind it. */
  function Decode(shape: Shape, d: seq<Item>, p: nat): Option<Payload> {
    if !HasCameraId(shape) then Some(Payload([], [], 0, 0))
    else if HasBinder(shape) && !PresentBinder(d, p) then None
    else
      var start := if HasBinder(shape) then p + 1 else p;
      match ReadId(shape, d, start)
      case Fail => None
      case Done(id, end) =>
        if !HasBinder(shape) then Some(Payload(id, [], start, end))
        else match AsciiText(d, end)
             case Fail => None
             case Done(package, _) => Some(Payload(id, package, start, end))
  }

  /** The status an observation ends with. */
  function StatusOf(shape: Shape, d: seq<Item>, descriptor: seq<char16>): ObservationStatus {
    if shape.PassThrough? then NotRoutedTransaction
    else if !AllWords(d, 0, 3) then MalformedHeader
    else match Header(d, descriptor)
         case None => WrongInterface
         case Some(p) =>
           if shape.ConcurrentSessionConfiguration? then UnsupportedPayload
           else if Decode(shape, d, p).None? then MalformedPayload
           else Observed
  }

  /** The payload of an observed parcel. */
  function PayloadOf(shape: Shape, d: seq<Item>, descriptor: seq<char16>): Payload
    requires StatusOf(shape, d, descriptor) == Observed
  {
    Decode(shape, d, Header(d, descriptor).value).value
  }

  // ---------------------------------------------------------------------------
  // The observer
  // ---------------------------------------------------------------------------

  /** readAsciiString16. */
  method ReadAsciiText(parcel: Parcel) returns (r: Read<seq<byte>>)
    modifies parcel`position
    ensures r == AsciiText(parcel.data, old(parcel.position))
    ensures r.Done? ==> parcel.position == r.next
  {
    var text := parcel.ReadText();
    if text.Fail? || |text.value| > 255 {
      return Fail;
    }
    var value: seq<byte> := [];
    var index := 0;
    while index < |text.value|
      invariant 0 <= index <= |text.value| && |value| == index
      invariant forall i | 0 <= i < index :: text.value[i] <= 0x7f && value[i] == text.value[i]
    {
      if text.value[index] > 0x7f {
        return Fail;
      }
      value := value + [text.value[index]];
      index := index + 1;
    }
    assert value == Narrowed(text.value);
    r := Done(value, text.next);
  }

  /** readIntegerCameraId. */
  method ReadIntegerId(parcel: Parcel) returns (r: Read<seq<byte>>)
    modifies parcel`position
    ensures r == IntegerId(parcel.data, old(parcel.position))
    ensures r.Done? ==> parcel.position == r.next
  {
    var v := parcel.ReadInt32();
    if v.Fail? || v.value < 0 {
      return Fail;
    }
    r := Done(Decimal(v.value), v.next);
  }

  datatype HeaderStatus = HeaderOk | HeaderMalformed | HeaderWrong

  /** readAndCheckHeader. */
  method ReadAndCheckHeader(parcel: Parcel, descriptor: seq<char16>) returns (status: HeaderStatus)
    requires parcel.position == 0
    modifies parcel`position
    ensures status == HeaderMalformed <==> !AllWords(parcel.data, 0, 3)
    ensures status == HeaderOk <==> Header(parcel.data, descriptor).Some?
    ensures status == HeaderOk ==> Header(parcel.data, descriptor) == Some(parcel.position)
  {
    var policy := parcel.ReadInt32();
    if policy.Fail? {
      return HeaderMalformed;
    }
    var workSource := parcel.ReadInt32();
    if workSource.Fail? {
      return HeaderMalformed;
    }
    var header := parcel.ReadInt32();
    if header.Fail? {
      return HeaderMalformed;
    }
    assert AllWords(parcel.data, 0, 3);
    if header.value != SYSTEM_HEADER {
      return HeaderWrong;
    }
    var text := parcel.ReadText();
    status := if text.Done? && text.value == descriptor then HeaderOk else HeaderWrong;
  }

  /** The payload switch: reads what the shape carries. */
  method DecodePayload(parcel: Parcel, shape: Shape) returns (decoded: bool, payload: Payload)
    modifies parcel`position
    ensures decoded == Decode(shape, parcel.data, old(parcel.position)).Some?
    ensures decoded ==> Decode(shape, parcel.data, old(parcel.position)) == Some(payload)
  {
    decoded, payload := true, Payload([], [], 0, 0);
    if !HasCameraId(shape) {
      return;
    }
    if HasBinder(shape) {
      var binder := parcel.ReadBinder();
      if binder.Fail? || binder.value == 0 {
        return false, payload;
      }
    }
    var start := parcel.position;
    var id;
    if HasInteger(shape) {
      id := ReadIntegerId(parcel);
    } else {
      id := ReadAsciiText(parcel);
    }
    if id.Fail? {
      return false, payload;
    }
    var end := parcel.position;
    var package := Done([], end);
    if HasBinder(shape) {
      package := ReadAsciiText(parcel);
      if package.Fail? {
        return false, payload;
      }
    }
    payload := Payload(id.value, package.value, start, end);
  }

  /** observeAndroid14CameraServiceParcel: the parcel and its cursor are unchanged. */
  method Observe(parcel: Parcel, shape: Shape, cameraScoped: bool, descriptor: seq<char16>) returns (r: Observation)
    modifies parcel`position
    ensures parcel.position == old(parcel.position)
    ensures r.status == StatusOf(shape, parcel.data, descriptor) && r.shape == shape && r.cameraScoped == cameraScoped
    ensures r.status == Observed ==>
              var payload := PayloadOf(shape, parcel.data, descriptor);
              && r.initialPosition == old(parcel.position)
              && Payload(r.cameraId, r.packageName, r.start, r.end) == payload
  {
    r := Observation(NotRoutedTransaction, shape, cameraScoped, [], [], 0, 0, 0);
    if shape.PassThrough? {
      return;
    }
    var initial := parcel.position;
    r := r.(initialPosition := initial);
    parcel.position := 0;
    var header := ReadAndCheckHeader(parcel, descriptor);
    if header != HeaderOk {
      r := r.(status := if header == HeaderMalformed then MalformedHeader else WrongInterface);
    } else if shape.ConcurrentSessionConfiguration? {
      r := r.(status := UnsupportedPayload);
    } else {
      var decoded, payload := DecodePayload(parcel, shape);
      if decoded {
        r := r.(cameraId := payload.id, packageName := payload.package, start := payload.start, end := payload.end);
      }
      r := r.(status := if decoded then Observed else MalformedPayload);
    }
    parcel.position := initial;
  }
}
