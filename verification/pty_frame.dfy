/** The binary frames of a terminal stream, and the sequence numbers that keep them in order. */
module PtyFrame {
  import opened Wrappers
  import opened GoText

  type Octet = x: int | 0 <= x < 0x100
  type Uint64 = x: int | 0 <= x < 0x1_0000_0000_0000_0000

  const TWO_64: int := 0x1_0000_0000_0000_0000
  const MAGIC: seq<Octet> := [0x54, 0x41, 0x50, 0x31]
  const FRAME_VERSION: Octet := 1
  const DATA_INPUT: Octet := 1
  const DATA_OUTPUT: Octet := 2
  const HEADER_SIZE := 20
  const MAX_FRAME_DATA := 0x10000
  const MAX_REASON := 256

  // ---------- Big-endian numbers ----------

  function Power256(n: nat): (p: nat)
    ensures p > 0
  {
    if n == 0 then 1 else 256 * Power256(n - 1)
  }

  function BigEndian(value: nat, width: nat): (s: seq<Octet>)
    ensures |s| == width
  {
    if width == 0 then [] else BigEndian(value / 256, width - 1) + [value % 256]
  }

  function FromBigEndian(s: seq<Octet>): nat {
    if s == [] then 0 else 256 * FromBigEndian(s[..|s| - 1]) + s[|s| - 1]
  }

  lemma {:induction false} ReadsWhatWasPut(value: nat, width: nat)
    requires value < Power256(width)
    ensures FromBigEndian(BigEndian(value, width)) == value
  {
    if width > 0 {
      ReadsWhatWasPut(value / 256, width - 1);
      assert BigEndian(value, width)[..width - 1] == BigEndian(value / 256, width - 1);
    }
  }

  lemma {:induction false} PutsWhatWasRead(s: seq<Octet>)
    ensures FromBigEndian(s) < Power256(|s|) && BigEndian(FromBigEndian(s), |s|) == s
  {
    if s != [] {
      var n := |s| - 1;
      PutsWhatWasRead(s[..n]);
      assert FromBigEndian(s) / 256 == FromBigEndian(s[..n]) && FromBigEndian(s) % 256 == s[n];
      assert s == s[..n] + [s[n]];
    }
  }

  lemma Widths()
    ensures Power256(8) == TWO_64 && Power256(4) == 0x1_0000_0000
  {
    assert Power256(2) == 0x1_0000;
    assert Power256(4) == 0x1_0000_0000;
    assert Power256(6) == 0x1_0000_0000_0000;
  }

  // ---------- Data frames ----------

  datatype DataFrame = DataFrame(direction: Octet, sequence: Uint64, payload: seq<Octet>) {
    predicate Valid() {
      direction in {DATA_INPUT, DATA_OUTPUT} && sequence > 0 && |payload| <= MAX_FRAME_DATA
    }
  }

  datatype FrameError =
    | Truncated | WrongMagic | WrongVersion | ReservedNotZero | WrongDirection | WrongSequence | WrongLength

  /** The bytes of a frame: magic, version, direction, two zero bytes, sequence, length, payload. */
  function Frame(f: DataFrame): (data: seq<Octet>)
    ensures |data| == HEADER_SIZE + |f.payload|
  {
    MAGIC + [FRAME_VERSION, f.direction, 0, 0] + BigEndian(f.sequence, 8) + BigEndian(|f.payload|, 4) + f.payload
  }

  function Decode(data: seq<Octet>): Result<DataFrame, FrameError> {
    if |data| < HEADER_SIZE then Err(Truncated)
    else if data[..4] != MAGIC then Err(WrongMagic)
    else if data[4] != FRAME_VERSION then Err(WrongVersion)
    else if data[6] != 0 || data[7] != 0 then Err(ReservedNotZero)
    else if data[5] !in {DATA_INPUT, DATA_OUTPUT} then Err(WrongDirection)
    else
      Widths();
      PutsWhatWasRead(data[8..16]);
      var sequence := FromBigEndian(data[8..16]);
      if sequence == 0 then Err(WrongSequence) else
        var length := FromBigEndian(data[16..20]);
        if length > MAX_FRAME_DATA || length != |data| - HEADER_SIZE then Err(WrongLength)
        else Ok(DataFrame(data[5], sequence, data[HEADER_SIZE..]))
  }

  /** What a valid frame's bytes hold at each place. */
  lemma FrameFields(f: DataFrame)
    ensures var data := Frame(f);
      && data[..4] == MAGIC && data[4] == FRAME_VERSION && data[5] == f.direction && data[6] == data[7] == 0
      && data[8..16] == BigEndian(f.sequence, 8) && data[16..20] == BigEndian(|f.payload|, 4) && data[20..] == f.payload
  {
  }

  /** Decoding the bytes of a valid frame gives the frame back. */
  lemma DecodeFrame(f: DataFrame)
    requires f.Valid()
    ensures Decode(Frame(f)) == Ok(f)
  {
    FrameFields(f);
    Widths();
    ReadsWhatWasPut(f.sequence, 8);
    ReadsWhatWasPut(|f.payload|, 4);
  }

  /** Whatever the decoder accepts is, byte for byte, the encoding of the valid frame that it returns. */
  lemma FrameDecoded(data: seq<Octet>)
    requires Decode(data).Ok?
    ensures Decode(data).value.Valid() && Frame(Decode(data).value) == data
  {
    var f := Decode(data).value;
    PutsWhatWasRead(data[8..16]);
    PutsWhatWasRead(data[16..20]);
    assert data == data[..4] + [data[4], data[5], data[6], data[7]] + data[8..16] + data[16..20] + data[20..];
  }

  /** The decoder accepts exactly the encodings of valid frames, and two valid frames never share an encoding. */
  lemma CodecIsBijective(data: seq<Octet>)
    ensures Decode(data).Ok? <==> exists f: DataFrame :: f.Valid() && Frame(f) == data
    ensures forall f: DataFrame, g: DataFrame :: f.Valid() && g.Valid() && Frame(f) == Frame(g) ==> f == g
  {
    if Decode(data).Ok? { FrameDecoded(data); }
    forall f: DataFrame | f.Valid() && Frame(f) == data ensures Decode(data).Ok? { DecodeFrame(f); }
    forall f: DataFrame, g: DataFrame | f.Valid() && g.Valid() && Frame(f) == Frame(g) ensures f == g {
      DecodeFrame(f);
      DecodeFrame(g);
    }
  }

  /** A frame with one wrong byte in front of its numbers is refused for what is wrong with it. */
  lemma WrongByteIsNamed(f: DataFrame, i: nat, octet: Octet)
    requires f.Valid() && i < 8 && octet != Frame(f)[i] && (i == 5 ==> octet !in {1, 2})
    ensures Decode(Frame(f)[i := octet])
         == Err(if i < 4 then WrongMagic else if i == 4 then WrongVersion else if i == 5 then WrongDirection
                else ReservedNotZero)
  {
    FrameFields(f);
    var data := Frame(f)[i := octet];
    if i < 4 {
      assert data[..4][i] != MAGIC[i];
    } else {
      assert data[..4] == Frame(f)[..4];
    }
  }

  /** A frame that is cut off, or followed by anything, is refused. */
  lemma OtherLengthIsRefused(f: DataFrame, n: nat, extra: seq<Octet>)
    requires f.Valid() && n < |Frame(f)|
    ensures Decode(Frame(f)[..n]) == Err(if n < 20 then Truncated else WrongLength)
    ensures extra != [] ==> Decode(Frame(f) + extra) == Err(WrongLength)
  {
    hide BigEndian;
    FrameFields(f);
    Widths();
    ReadsWhatWasPut(f.sequence, 8);
    ReadsWhatWasPut(|f.payload|, 4);
    if n >= 20 { StartsAlike(Frame(f)[..n], f); }
    StartsAlike(Frame(f) + extra, f);
  }

  lemma StartsAlike(data: seq<Octet>, f: DataFrame)
    requires |data| >= 20 && (data <= Frame(f) || Frame(f) <= data)
    ensures data[..4] == Frame(f)[..4] && data[4..8] == Frame(f)[4..8]
    ensures data[4] == Frame(f)[4] && data[5] == Frame(f)[5] && data[6] == Frame(f)[6] && data[7] == Frame(f)[7]
    ensures data[8..16] == Frame(f)[8..16] && data[16..20] == Frame(f)[16..20]
  {
    hide Frame;
  }

  /** `s` with the bytes from `at` replaced by `part`. */
  function Splice(s: seq<Octet>, at: nat, part: seq<Octet>): seq<Octet>
    requires at + |part| <= |s|
  {
    s[..at] + part + s[at + |part|..]
  }

  method CopyInto(buffer: array<Octet>, at: nat, part: seq<Octet>)
    requires at + |part| <= buffer.Length
    modifies buffer
    ensures buffer[..] == Splice(old(buffer[..]), at, part)
  {
    forall i | 0 <= i < |part| {
      buffer[at + i] := part[i];
    }
  }

  lemma BigEndianOneMore(value: nat, width: nat, done: seq<Octet>)
    requires width > 0
    ensures BigEndian(value, width) + done == BigEndian(value / 256, width - 1) + ([value % 256] + done)
  {
  }

  lemma SpliceOneMore(s: seq<Octet>, at: nat, done: seq<Octet>, octet: Octet)
    requires at + 1 + |done| <= |s|
    ensures Splice(s, at + 1, done)[at := octet] == Splice(s, at, [octet] + done)
  {
  }

  method PutBigEndian(buffer: array<Octet>, at: nat, width: nat, value: nat)
    requires at + width <= buffer.Length && value < Power256(width)
    modifies buffer
    ensures buffer[..] == Splice(old(buffer[..]), at, BigEndian(value, width))
  {
    hide Splice, BigEndian, Power256;
    ghost var was := buffer[..];
    var left, i := value, width;
    ghost var done: seq<Octet> := [];
    assert BigEndian(value, width) == BigEndian(left, i) + done;
    SpliceNothing(was, at + width);
    while i > 0
      invariant 0 <= i <= width && |done| == width - i
      invariant BigEndian(value, width) == BigEndian(left, i) + done
      invariant buffer[..] == Splice(was, at + i, done)
    {
      BigEndianOneMore(left, i, done);
      i := i - 1;
      SpliceOneMore(was, at + i, done, left % 256);
      done := [left % 256] + done;
      buffer[at + i] := left % 256;
      left := left / 256;
    }
    assert BigEndian(left, 0) + done == done;
  }

  lemma SpliceNothing(s: seq<Octet>, at: nat)
    requires at <= |s|
    ensures Splice(s, at, []) == s
  {
  }

  /** Writing the fields one after the other into a cleared buffer gives the frame. */
  lemma FieldsMakeFrame(blank: seq<Octet>, f: DataFrame)
    requires |blank| == HEADER_SIZE + |f.payload| && forall i :: 0 <= i < |blank| ==> blank[i] == 0
    ensures var marked := Splice(blank, 0, MAGIC)[4 := FRAME_VERSION][5 := f.direction];
      var numbered := Splice(Splice(marked, 8, BigEndian(f.sequence, 8)), 16, BigEndian(|f.payload|, 4));
      Splice(numbered, HEADER_SIZE, f.payload) == Frame(f)
  {
    hide BigEndian;
    var marked := Splice(blank, 0, MAGIC)[4 := FRAME_VERSION][5 := f.direction];
    assert marked[..8] == MAGIC + [FRAME_VERSION, f.direction, 0, 0];
    var sequenced := Splice(marked, 8, BigEndian(f.sequence, 8));
    assert sequenced[..16] == marked[..8] + BigEndian(f.sequence, 8);
    var numbered := Splice(sequenced, 16, BigEndian(|f.payload|, 4));
    assert numbered[..20] == sequenced[..16] + BigEndian(|f.payload|, 4);
    assert Splice(numbered, HEADER_SIZE, f.payload) == numbered[..20] + f.payload;
  }

  method Encode(direction: Octet, sequence: Uint64, payload: seq<Octet>) returns (r: Result<seq<Octet>, FrameError>)
    ensures r.Ok? <==> DataFrame(direction, sequence, payload).Valid()
    ensures r.Ok? ==> r.value == Frame(DataFrame(direction, sequence, payload))
    ensures r.Err? ==> r.error == if direction !in {DATA_INPUT, DATA_OUTPUT} then WrongDirection
                                  else if sequence == 0 then WrongSequence else WrongLength
  {
    hide Splice, BigEndian, Power256, Frame;
    if direction != DATA_INPUT && direction != DATA_OUTPUT {
      return Err(WrongDirection);
    }
    if sequence == 0 {
      return Err(WrongSequence);
    }
    if |payload| > MAX_FRAME_DATA {
      return Err(WrongLength);
    }
    Widths();
    var frame := new Octet[HEADER_SIZE + |payload|](_ => 0);
    ghost var blank := frame[..];
    CopyInto(frame, 0, MAGIC);
    frame[4] := FRAME_VERSION;
    frame[5] := direction;
    PutBigEndian(frame, 8, 8, sequence);
    PutBigEndian(frame, 16, 4, |payload|);
    CopyInto(frame, HEADER_SIZE, payload);
    FieldsMakeFrame(blank, DataFrame(direction, sequence, payload));
    return Ok(frame[..]);
  }

  // ---------- Control frames ----------

  datatype ControlFrame = ControlFrame(version: Octet, kind: Text, sequence: Uint64, cols: nat, rows: nat, reason: Text) {
    predicate Valid() {
      && version == FRAME_VERSION && sequence > 0
      && if kind == "resize" then cols > 0 && rows > 0 && reason == ""
         else (kind == "close" || kind == "error") && cols == 0 && rows == 0 && |reason| <= MAX_REASON
    }
  }

  // ---------- Sequence numbers ----------

  datatype Acceptance = Fresh | Duplicate | Gap

  function Expected(next: Uint64): Uint64 { if next == 0 then 1 else next }

  /** The counter wraps around to zero, and zero counts as not started. */
  function AcceptStep(next: Uint64, value: Uint64): (Uint64, Acceptance) {
    var expected := Expected(next);
    if value < expected then (expected, Duplicate)
    else if value > expected then (expected, Gap)
    else ((expected + 1) % TWO_64, Fresh)
  }

  class PTYSequence {
    var next: Uint64

    constructor ()
      ensures next == 0
    {
      next := 0;
    }

    method Accept(value: Uint64) returns (r: Acceptance)
      modifies this
      ensures (next, r) == AcceptStep(old(next), value)
    {
      if next == 0 {
        next := 1;
      }
      if value < next {
        return Duplicate;
      }
      if value > next {
        return Gap;
      }
      next := (next + 1) % TWO_64;
      return Fresh;
    }
  }
}
