/** Frames of the block files: a head byte, the stored size and the stored bytes; what a reader of a
    file's frames is to report; and where a frame ends. */
module DiskFormat {
  import opened Memory
  import opened Options
  import opened Sequences

  const HEAD_SIZE := 16
  const TAIL_SIZE := 18
  // A head byte and the longest size
  const FRONT_SIZE := 10

  const HID_NONE := 0x0
  const HID_SNO_END := 0x6
  const HID_TAIL := 0x3F

  // Six bits of the head byte
  type Hid = h: nat | h < 64

  // What fits in memory: its length is a size_t.
  type Data = s: seq<Byte> | |s| < TWO_64

  // A compressor may decline; what it accepted comes back.
  datatype Codec = Codec(compress: Data -> Option<Data>, uncompress: Data -> Option<Data>)

  ghost predicate Lawful(c: Codec) {
    forall x: Data :: c.compress(x).Some? ==> c.uncompress(c.compress(x).value) == Some(x)
  }

  // A block as the writer is given it and as the reader reports it; a marker has no payload.
  datatype Block = Block(hid: Hid, payload: Option<Data>)

  /** Markers are the end-of-page marks; a block with data may carry any other hid but the tail's. */
  predicate WellFormed(b: Block) {
    if b.payload == None then b.hid == HID_SNO_END else b.hid != HID_SNO_END && b.hid != HID_TAIL
  }

  // fin : 1, zip : 1, hid : 6, from the lowest bit
  function HeadByte(zip: bool, hid: Hid): Byte { 1 + (if zip then 2 else 0) + 4 * hid }
  function ZipOf(head: Byte): bool { head / 2 % 2 == 1 }
  function HidOf(head: Byte): Hid { head / 4 }

  lemma HeadRoundTrip(zip: bool, hid: Hid)
    ensures ZipOf(HeadByte(zip, hid)) == zip && HidOf(HeadByte(zip, hid)) == hid
  {}

  // The payload as it goes to the file, and whether it is compressed.
  function Stored(codec: Codec, zipping: bool, payload: Data): (bool, Data) {
    if zipping && codec.compress(payload).Some? then (true, codec.compress(payload).value) else (false, payload)
  }

  function Frame(codec: Codec, zipping: bool, b: Block): seq<Byte> {
    match b.payload
    case None => [HeadByte(false, b.hid)]
    case Some(p) =>
      var (zip, stored) := Stored(codec, zipping, p);
      [HeadByte(zip, b.hid)] + SizeBytes(|stored|) + stored
  }

  // What stands in the file for a payload: what the compressor made of it, if it is there and accepts it
  function Body(codec: Codec, zipping: bool, payload: Data): Data {
    if !zipping then payload else
      match codec.compress(payload)
      case None => payload
      case Some(z) => z
  }

  /** The bytes of a block, one by one: the lowest bit of the first is set, the next tells whether what follows is
      compressed, and the other six are the hid; then, for a block with data, come the size of the body and the body. */
  ghost predicate BytesOf(codec: Codec, zipping: bool, b: Block, bytes: seq<Byte>) {
    match b.payload
    case None => bytes == [1 + 4 * b.hid]
    case Some(p) =>
      var body := Body(codec, zipping, p);
      && |bytes| > |body| && bytes[0] == 1 + (if zipping && codec.compress(p).Some? then 2 else 0) + 4 * b.hid
      && SizeStands(|body|, bytes[1..|bytes| - |body|]) && bytes[|bytes| - |body|..] == body
  }

  lemma FrameBytes(codec: Codec, zipping: bool, b: Block)
    ensures BytesOf(codec, zipping, b, Frame(codec, zipping, b))
  {
    if b.payload.Some? {
      var (zip, stored) := Stored(codec, zipping, b.payload.value);
      SizeBytesStand(|stored|);
      Parts(HeadByte(zip, b.hid), SizeBytes(|stored|), stored);
    }
  }

  lemma Parts(h: Byte, n: seq<Byte>, s: seq<Byte>)
    ensures var f := [h] + n + s; f[0] == h && f[1..|f| - |s|] == n && f[|f| - |s|..] == s
  {}

  function Frames(codec: Codec, zipping: bool, bs: seq<Block>): seq<Byte> {
    if bs == [] then [] else Frame(codec, zipping, bs[0]) + Frames(codec, zipping, bs[1..])
  }

  lemma {:induction false} FramesConcat(codec: Codec, zipping: bool, a: seq<Block>, b: seq<Block>)
    ensures Frames(codec, zipping, a + b) == Frames(codec, zipping, a) + Frames(codec, zipping, b)
  {
    if a == [] {
      EmptyLeft(b);
      EmptyLeft(Frames(codec, zipping, b));
    } else {
      FramesConcat(codec, zipping, a[1..], b);
      TailOfConcat(a, b);
      Assoc(Frame(codec, zipping, a[0]), Frames(codec, zipping, a[1..]), Frames(codec, zipping, b));
    }
  }

  lemma FramesPush(codec: Codec, zipping: bool, bs: seq<Block>, b: Block)
    ensures Frames(codec, zipping, bs + [b]) == Frames(codec, zipping, bs) + Frame(codec, zipping, b)
  {
    FramesConcat(codec, zipping, bs, [b]);
    assert Frames(codec, zipping, [b]) == Frame(codec, zipping, b) + Frames(codec, zipping, [b][1..]);
  }

  // ---------------------------------------------------------------------------
  // What a reader reports

  // Deleted blocks and blocks without data are passed over.
  predicate Reported(b: Block) {
    b.payload == None || (b.hid != HID_NONE && b.payload != Some([]))
  }

  function Reports(bs: seq<Block>): seq<Block> {
    if bs == [] then [] else (if Reported(bs[0]) then [bs[0]] else []) + Reports(bs[1..])
  }

  // A mark, or something under a hid that is not 0
  predicate Carries(b: Block) {
    match b.payload
    case None => true
    case Some(p) => b.hid != 0 && |p| > 0
  }

  /** Marks are reported, and blocks of any hid but 0 that have something in them; the order stays. */
  lemma {:induction false} ReportsAre(bs: seq<Block>)
    ensures forall b ::
      multiset(Reports(bs))[b] == if Carries(b) then multiset(bs)[b] else 0
    ensures forall i, j :: 0 <= i <= j <= |bs| ==> Reports(bs[i..j]) <= Reports(bs[i..])
  {
    if bs != [] {
      ReportsAre(bs[1..]);
      assert bs == [bs[0]] + bs[1..];
    }
    forall i, j | 0 <= i <= j <= |bs| ensures Reports(bs[i..j]) <= Reports(bs[i..]) {
      ReportsConcat(bs[i..j], bs[j..]);
      assert bs[i..] == bs[i..j] + bs[j..];
    }
  }

  // Hand blocks to a callback one by one; keepOn tells from what it has had whether it wants more.
  function Deliver(out: seq<Block>, bs: seq<Block>, keepOn: seq<Block> -> bool): (r: (seq<Block>, bool))
    decreases |bs|
  {
    if bs == [] then (out, false)
    else if !keepOn(out + [bs[0]]) then (out + [bs[0]], true)
    else Deliver(out + [bs[0]], bs[1..], keepOn)
  }

  /** A callback that never stops is handed everything, in order. */
  lemma {:induction false} DeliverAll(out: seq<Block>, bs: seq<Block>, keepOn: seq<Block> -> bool)
    requires forall s :: keepOn(s)
    ensures Deliver(out, bs, keepOn) == (out + bs, false)
    decreases |bs|
  {
    if bs != [] {
      DeliverAll(out + [bs[0]], bs[1..], keepOn);
      assert out + [bs[0]] + bs[1..] == out + bs;
    } else {
      assert out + bs == out;
    }
  }

  lemma {:induction false} DeliverConcat(out: seq<Block>, a: seq<Block>, b: seq<Block>, keepOn: seq<Block> -> bool)
    ensures Deliver(out, a + b, keepOn) ==
      var (mid, stopped) := Deliver(out, a, keepOn); if stopped then (mid, true) else Deliver(mid, b, keepOn)
    decreases |a|
  {
    if a == [] {
      EmptyLeft(b);
    } else {
      TailOfConcat(a, b);
      DeliverConcat(out + [a[0]], a[1..], b, keepOn);
    }
  }

  lemma {:induction false} ReportsConcat(a: seq<Block>, b: seq<Block>)
    ensures Reports(a + b) == Reports(a) + Reports(b)
  {
    if a == [] {
      EmptyLeft(b);
      EmptyLeft(Reports(b));
    } else {
      ReportsConcat(a[1..], b);
      TailOfConcat(a, b);
      Assoc(if Reported(a[0]) then [a[0]] else [], Reports(a[1..]), Reports(b));
    }
  }

  // ---------------------------------------------------------------------------
  // Parsing

  predicate IsTail(t: seq<Byte>) {
    |t| == TAIL_SIZE && HidOf(t[0]) == HID_TAIL
  }

  // The frames still to come and the file's tail.
  function Rest(codec: Codec, zipping: bool, bs: seq<Block>, tail: seq<Byte>): seq<Byte> {
    Frames(codec, zipping, bs) + tail
  }

  /** What is left of a file while it is read: the frames bs and its tail; between a frame's size and
      its bytes the rest starts with what was stored. */
  ghost predicate Ahead(codec: Codec, zipping: bool, rest: seq<Byte>, bs: seq<Block>, tail: seq<Byte>,
                        lineEnd: bool, head: Byte, size: nat)
  {
    if lineEnd then size == 0 && rest == Rest(codec, zipping, bs, tail) else
      && bs != [] && bs[0].payload.Some? && HidOf(head) == bs[0].hid
      && var (zip, stored) := Stored(codec, zipping, bs[0].payload.value);
         ZipOf(head) == zip && size == |stored| && rest == stored + Rest(codec, zipping, bs[1..], tail)
  }

  // A size is read from the bytes at hand only.
  lemma SizeFromPrefix(have: seq<Byte>, more: seq<Byte>)
    requires |have| >= 9
    ensures (have + more)[0] == have[0] && |have| > Extra(have[0]) && SizeOf(have + more) == SizeOf(have)
  {
    var k := 1 + Extra(have[0]);
    assert (have + more)[1..k] == have[1..k];
  }

  lemma SizeAtFront(have: seq<Byte>, more: seq<Byte>, n: nat, after: seq<Byte>)
    requires have + more == SizeBytes(n) + after && |have| >= 9 && n < TWO_64
    ensures |have| > Extra(have[0]) && SizeOf(have) == n && have[1 + Extra(have[0])..] + more == after
  {
    SizeRoundTrip(n, after);
    SizeFromPrefix(have, more);
    var k := 1 + Extra(have[0]);
    assert have[k..] + more == (have + more)[k..];
    assert (SizeBytes(n) + after)[k..] == after;
  }

  lemma FrameSplits(codec: Codec, zipping: bool, bs: seq<Block>, tail: seq<Byte>)
    requires bs != [] && bs[0].payload.Some?
    ensures var (zip, stored) := Stored(codec, zipping, bs[0].payload.value);
      Rest(codec, zipping, bs, tail) ==
        [HeadByte(zip, bs[0].hid)] + (SizeBytes(|stored|) + (stored + Rest(codec, zipping, bs[1..], tail)))
  {
    var (zip, stored) := Stored(codec, zipping, bs[0].payload.value);
    Regroup([HeadByte(zip, bs[0].hid)], SizeBytes(|stored|), stored, Frames(codec, zipping, bs[1..]), tail);
  }

  lemma Regroup(h: seq<Byte>, n: seq<Byte>, s: seq<Byte>, f: seq<Byte>, t: seq<Byte>)
    ensures h + n + s + f + t == h + (n + (s + (f + t)))
  {}

  lemma DropFirst(have: seq<Byte>, more: seq<Byte>, h: Byte, after: seq<Byte>)
    requires have + more == [h] + after && |have| > 0
    ensures have[0] == h && have[1..] + more == after
  {
    assert have[0] == (have + more)[0] && have[1..] + more == (have + more)[1..];
    assert ([h] + after)[1..] == after;
  }

  /** With ten bytes of the rest at hand, a frame's head and size can be read; after them comes
      what was stored, and then the other frames. */
  lemma FrontOfRest(codec: Codec, zipping: bool, bs: seq<Block>, tail: seq<Byte>, have: seq<Byte>, more: seq<Byte>)
    requires have + more == Rest(codec, zipping, bs, tail) && IsTail(tail) && |have| >= FRONT_SIZE
    requires forall b :: b in bs ==> WellFormed(b)
    ensures HidOf(have[0]) == if bs == [] then HID_TAIL else bs[0].hid
    ensures bs != [] && bs[0].payload == None ==> have[1..] + more == Rest(codec, zipping, bs[1..], tail)
    ensures bs != [] && bs[0].payload.Some? ==>
      var (zip, stored) := Stored(codec, zipping, bs[0].payload.value);
      && ZipOf(have[0]) == zip
      && |have[1..]| > Extra(have[1])
      && SizeOf(have[1..]) == |stored|
      && have[1..][1 + Extra(have[1])..] + more == stored + Rest(codec, zipping, bs[1..], tail)
  {
    if bs == [] {
      assert Rest(codec, zipping, bs, tail) == tail && have[0] == (have + more)[0];
    } else if bs[0].payload == None {
      MarkerSplits(codec, zipping, bs, tail);
      HeadRoundTrip(false, bs[0].hid);
      DropFirst(have, more, HeadByte(false, bs[0].hid), Rest(codec, zipping, bs[1..], tail));
    } else {
      var (zip, stored) := Stored(codec, zipping, bs[0].payload.value);
      FrameSplits(codec, zipping, bs, tail);
      FrontOfFrame(have, more, zip, bs[0].hid, stored, Rest(codec, zipping, bs[1..], tail));
    }
  }

  lemma MarkerSplits(codec: Codec, zipping: bool, bs: seq<Block>, tail: seq<Byte>)
    requires bs != [] && bs[0].payload == None
    ensures Rest(codec, zipping, bs, tail) == [HeadByte(false, bs[0].hid)] + Rest(codec, zipping, bs[1..], tail)
  {
    Regroup([HeadByte(false, bs[0].hid)], [], [], Frames(codec, zipping, bs[1..]), tail);
  }

  lemma FrontOfFrame(have: seq<Byte>, more: seq<Byte>, zip: bool, hid: Hid, stored: Data, after: seq<Byte>)
    requires have + more == [HeadByte(zip, hid)] + (SizeBytes(|stored|) + (stored + after)) && |have| > 9
    ensures HidOf(have[0]) == hid && ZipOf(have[0]) == zip
    ensures |have[1..]| > Extra(have[1]) && SizeOf(have[1..]) == |stored|
    ensures have[1..][1 + Extra(have[1])..] + more == stored + after
  {
    HeadRoundTrip(zip, hid);
    DropFirst(have, more, HeadByte(zip, hid), SizeBytes(|stored|) + (stored + after));
    SizeAtFront(have[1..], more, |stored|, stored + after);
  }
}
