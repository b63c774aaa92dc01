/** Machine words, typed errors and modular frame numbers. */
module Core {

  const U8: int := 0x100
  const U16: int := 0x1_0000
  const U32: int := 0x1_0000_0000
  const U64: int := 0x1_0000_0000_0000_0000
  const HALF: int := 0x8000_0000
  const MAX_PACKET_BYTES: int := 1200

  type u8 = x: int | 0 <= x < 0x100
  type u16 = x: int | 0 <= x < 0x1_0000
  type u32 = x: int | 0 <= x < 0x1_0000_0000
  type u64 = x: int | 0 <= x < 0x1_0000_0000_0000_0000

  datatype Option<+T> = None | Some(value: T)

  datatype ErrorCode =
    | InvalidArgument
    | ArithmeticOverflow
    | FrameMismatch
    | CapacityExceeded
    | StaleFrame
    | RollbackWindowExceeded
    | InvalidMagic
    | UnsupportedVersion
    | UnknownPacketType
    | TruncatedData
    | InvalidLength
    | IntegrityMismatch
    | QueueOverflow
    | Timeout
    | ReplayMismatch
    | Desync
    | IoError

  /** The source's `Result<T>`: a value or a typed error. */
  datatype Result<+T> = Ok(value: T) | Err(error: ErrorCode) {
    predicate IsFailure() { Err? }
    function PropagateFailure<U>(): Result<U> requires Err? { Err(error) }
    function Extract(): T requires Ok? { value }
  }

  // ---- Frame numbers: 32-bit tags that wrap ----

  function Tag(frame: int): (r: u32) { frame % U32 }

  predicate FrameBefore(left: u32, right: u32) {
    0 < (right - left) % U32 < HALF
  }

  function FrameDistance(from: u32, to: u32): (r: u32) { (to - from) % U32 }

  function NextFrame(frame: u32): (r: u32) { (frame + 1) % U32 }

  /** The unbounded frame number nearest to `now` that carries the tag `frame`. */
  ghost function Nearest(now: int, frame: u32): int {
    var ahead := (frame - now) % U32;
    if ahead <= HALF then now + ahead else now + ahead - U32
  }

  /** Tags order, measure and count exactly like unbounded frame numbers on a span below 2^31, wrap included. */
  lemma TagsRefineFrames(left: int, right: int)
    requires -HALF < right - left < HALF
    ensures FrameBefore(Tag(left), Tag(right)) <==> left < right
    ensures left <= right ==> FrameDistance(Tag(left), Tag(right)) == right - left
    ensures Tag(left) == Tag(right) <==> left == right
    ensures NextFrame(Tag(left)) == Tag(left + 1)
    ensures Nearest(right, Tag(left)) == left
  {
    TagDifference(left, right);
    TagDifference(right, left);
    SmallMod(right - left);
    SmallMod(left - right);
    NextTag(left);
  }

  lemma TagOrder(left: int, right: int)
    requires -HALF < right - left < HALF
    ensures (Tag(right) == Tag(left) || FrameBefore(Tag(left), Tag(right))) <==> left <= right
  {
    TagsRefineFrames(left, right);
  }

  lemma NextTag(frame: int)
    ensures NextFrame(Tag(frame)) == Tag(frame + 1)
  {
    assert frame + 1 == (frame / U32) * U32 + (Tag(frame) + 1);
  }

  lemma SmallMod(x: int)
    requires -U32 <= x < U32
    ensures x % U32 == if x < 0 then x + U32 else x
  {
  }

  lemma SmallTag(frame: int)
    requires 0 <= frame < U32
    ensures Tag(frame) == frame
  {
  }

  lemma TagDifference(left: int, right: int)
    ensures (Tag(right) - Tag(left)) % U32 == (right - left) % U32
    ensures (Tag(right) - left) % U32 == (right - left) % U32
    ensures (right - left) % U32 == 0 <==> Tag(right) == Tag(left)
  {
    var l, r := left / U32, right / U32;
    assert left == l * U32 + Tag(left) && right == r * U32 + Tag(right);
  }

  /** The half-range bound is exact: two frames 2^31 apart are ordered neither way. */
  lemma HalfRangeIsAmbiguous(left: int)
    ensures !FrameBefore(Tag(left), Tag(left + HALF)) && !FrameBefore(Tag(left + HALF), Tag(left))
  {
    TagDifference(left, left + HALF);
    TagDifference(left + HALF, left);
  }
}
