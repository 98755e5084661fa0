/** Interface headers and camera IDs as they appear in parcels. */
module CameraIds {
  import opened Bytes
  import opened Parcels

  /** 'SYST' */
  const SYSTEM_HEADER: word := 0x53595354

  /** An interface header naming `descriptor`. */
  function Header(d: seq<Item>, descriptor: seq<char16>): Option<nat> {
    if !AllWords(d, 0, 3) || d[2].v != SYSTEM_HEADER then None
    else match Text(d, 3)
         case Fail => None
         case Done(t, next) => if t == descriptor then Some(next) else None
  }

  lemma HeaderIsLocal(a: seq<Item>, b: seq<Item>, descriptor: seq<char16>)
    requires Header(a, descriptor).Some? && Same(a, 0, b, 0, Header(a, descriptor).value)
    ensures 3 <= Header(a, descriptor).value && Header(b, descriptor) == Header(a, descriptor)
  {
    var n := Header(a, descriptor).value;
    TextEnds(a, 3);
    SameAt(a, 0, b, 0, n, 0);
    SameAt(a, 0, b, 0, n, 1);
    SameAt(a, 0, b, 0, n, 2);
    SameParts(a, 0, b, 0, 3, n);
    TextIsLocal(a, 3, b, 3);
  }

  predicate IsAscii(t: seq<char16>) {
    forall i | 0 <= i < |t| :: t[i] <= 0x7f
  }

  /** The code units as the bytes of a C++ string. */
  function Narrowed(t: seq<char16>): seq<byte>
    requires IsAscii(t)
  {
    seq(|t|, i requires 0 <= i < |t| => t[i])
  }

  /** What writeString16 writes for a C string: the bytes before the first NUL. */
  function Written(id: seq<byte>): seq<char16> {
    if id == [] || id[0] == 0 then [] else [id[0]] + Written(id[1..])
  }

  lemma {:induction false} WrittenIs(id: seq<byte>)
    ensures |Written(id)| <= |id| && Written(id) == id[..|Written(id)|]
    ensures Written(id) == id <==> 0 !in id
  {
    if id != [] && id[0] != 0 {
      WrittenIs(id[1..]);
      assert id == [id[0]] + id[1..];
    }
  }

  /** A device ID the rewriter takes. */
  predicate Writable(id: seq<byte>) {
    0 < |id| <= 255 && forall i | 0 <= i < |id| :: id[i] <= 0x7f
  }

  /** The items that replace an ID. */
  function Encoded(id: seq<byte>): seq<Item>
    requires Writable(id)
  {
    WrittenIs(id);
    TextItems(Written(id))
  }
}
