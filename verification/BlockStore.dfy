/** The streaming reader of src/core/disk/sis_disk_files.c, for file styles that end in a tail record:
    a file is read in chunks of any length and reported block by block. */
module BlockStore {
  import opened DiskFormat
  import opened Memory
  import opened Options
  import opened Sequences

  method Uncompress(codec: Codec, zipping: bool, zip: bool, input: Data, out: Buffer) returns (n: nat)
    requires out.Valid()
    modifies out, out.data
    ensures out.Valid() && (out.data == old(out.data) || fresh(out.data))
    ensures if zip && zipping then
              match codec.uncompress(input)
              case Some(x) => out.Contents() == x && n == |x|
              case None => n == 0
            else out.Contents() == old(out.Contents()) + input && n == |input|
  {
    if zip && zipping {
      var x := codec.uncompress(input);
      if x == None {
        return 0;
      }
      out.Clear();
      out.Cat(x.value);
      return |x.value|;
    }
    out.Cat(input);
    n := |input|;
  }

  class Reader {
    const codec: Codec
    const zipping: bool
    const keepOn: seq<Block> -> bool
    const imem: Buffer
    const omem: Buffer
    var lineEnd: bool
    var head: Byte
    var size: nat
    var reports: seq<Block>
    var stopped: bool
    // The blocks of the current file whose frames have not been passed
    ghost var left: seq<Block>

    ghost predicate Valid()
      reads this, imem, omem
    {
      imem.Valid() && omem.Valid() && imem != omem && imem.data != omem.data
    }

    constructor (codec: Codec, zipping: bool, keepOn: seq<Block> -> bool)
      ensures Valid() && fresh(imem) && fresh(omem) && fresh(imem.data) && fresh(omem.data)
      ensures this.codec == codec && this.zipping == zipping && this.keepOn == keepOn
      ensures reports == [] && !stopped && omem.Contents() == []
    {
      this.codec, this.zipping, this.keepOn := codec, zipping, keepOn;
      imem := new Buffer(CHUNK + 1);
      omem := new Buffer(255);
      lineEnd, head, size, reports, stopped := true, 0, 0, [], false;
      left := [];
    }

    // The callback, handed a block; it stops the reading by a negative answer.
    method Report(b: Block)
      modifies this`reports, this`stopped
      ensures reports == old(reports) + [b] && stopped == !keepOn(reports)
    {
      reports := reports + [b];
      stopped := !keepOn(reports);
    }

    // What the reader knows of the file: the bytes in memory and those not yet read are what is left.
    ghost predicate Reading(tail: seq<Byte>, more: seq<Byte>)
      reads this, imem, imem.data, omem, omem.data
    {
      && Valid() && IsTail(tail) && omem.Contents() == []
      && (forall b :: b in left ==> WellFormed(b))
      && Ahead(codec, zipping, imem.Contents() + more, left, tail, lineEnd, head, size)
    }

    // What is to be reported in all, from here on.
    ghost function Outcome(): (seq<Block>, bool)
      reads this
    {
      if stopped then (reports, true) else Deliver(reports, Reports(left), keepOn)
    }

    // Head byte and size of the frame at the front of the buffer; no size follows a mark or the tail.
    method TakeFront()
      requires Valid() && |imem.Contents()| >= TAIL_SIZE && size == 0
      modifies this`head, this`size, imem`offset
      ensures Valid() && head == old(imem.Contents())[0]
      ensures if HidOf(head) == HID_SNO_END || HidOf(head) == HID_TAIL then
                imem.Contents() == old(imem.Contents())[1..] && size == 0
              else
                && |old(imem.Contents())[1..]| > Extra(old(imem.Contents())[1])
                && size == SizeOf(old(imem.Contents())[1..])
                && imem.Contents() == old(imem.Contents())[1..][1 + Extra(old(imem.Contents())[1])..]
    {
      head := imem.data[imem.offset];
      imem.Move(1);
      if HidOf(head) != HID_SNO_END && HidOf(head) != HID_TAIL {
        size := imem.TakeSize();
      }
    }

    // Expand the stored bytes and hand them on, unless nothing comes of them.
    method ReportPayload(input: Data)
      requires Valid() && !stopped && omem.Contents() == []
      modifies this`reports, this`stopped, omem, omem.data
      ensures Valid() && (omem.data == old(omem.data) || fresh(omem.data))
      ensures var x := Expanded(codec, zipping, ZipOf(head), input);
        if x.Some? && x.value != [] then
          reports == old(reports) + [Block(HidOf(head), x)] && stopped == !keepOn(reports) && omem.Contents() == []
        else reports == old(reports) && !stopped && (x.Some? ==> omem.Contents() == [])
    {
      var n := Uncompress(codec, zipping, ZipOf(head), input, omem);
      if n > 0 {
        var payload := omem.data[omem.offset..omem.size];
        assert old(omem.Contents()) + input == input;
        assert Some(payload) == Expanded(codec, zipping, ZipOf(head), input);
        Report(Block(HidOf(head), Some(payload)));
        // the callback takes what it was handed out of the buffer
        omem.Clear();
      }
    }

    method ReportMark()
      requires !stopped && left != [] && left[0] == Block(HidOf(head), None)
      modifies this`reports, this`stopped, this`left
      ensures Outcome() == old(Outcome()) && left == old(left)[1..]
    {
      DeliverNext(reports, left, keepOn);
      Report(Block(HidOf(head), None));
      left := left[1..];
    }

    // The front taken, and what is ahead then
    method PassFront(ghost tail: seq<Byte>, ghost more: seq<Byte>)
      requires Reading(tail, more) && lineEnd && |imem.Contents()| >= TAIL_SIZE
      modifies this`head, this`size, imem`offset
      ensures Valid() && imem.size - imem.offset < old(imem.size - imem.offset)
      ensures HidOf(head) == HID_TAIL ==> left == []
      ensures HidOf(head) == HID_SNO_END ==>
        left != [] && left[0] == Block(HidOf(head), None) &&
        Ahead(codec, zipping, imem.Contents() + more, left[1..], tail, true, head, size)
      ensures HidOf(head) != HID_TAIL && HidOf(head) != HID_SNO_END ==>
        Ahead(codec, zipping, imem.Contents() + more, left, tail, false, head, size)
    {
      ghost var have := imem.Contents();
      FrontAhead(codec, zipping, left, tail, have, more);
      TakeFront();
    }

    /** The front of a frame; a marker is reported at once. */
    method ReadFront(ghost tail: seq<Byte>, ghost more: seq<Byte>) returns (front: Front)
      requires Reading(tail, more) && lineEnd && !stopped && |imem.Contents()| >= TAIL_SIZE
      modifies this, imem`offset
      ensures Valid() && Outcome() == old(Outcome())
      ensures front == TailRead ==> left == []
      ensures front == MarkerRead && !stopped ==> Reading(tail, more) && lineEnd
      ensures front == FrameRead ==> Reading(tail, more) && !lineEnd && !stopped
      ensures imem.size - imem.offset < old(imem.size - imem.offset)
    {
      PassFront(tail, more);
      if HidOf(head) == HID_SNO_END {
        ReportMark();
        return MarkerRead;
      }
      if HidOf(head) == HID_TAIL {
        return TailRead;
      }
      lineEnd := false;
      return FrameRead;
    }

    // Report the bytes of a frame, unless it is a deleted one, and pass them.
    method PassPayload()
      requires Valid() && !stopped && omem.Contents() == [] && size <= |imem.Contents()| && size < TWO_64
      modifies this`reports, this`stopped, this`size, this`lineEnd, imem`offset, omem, omem.data
      ensures Valid() && (omem.data == old(omem.data) || fresh(omem.data))
      ensures var x := Expanded(codec, zipping, ZipOf(head), old(imem.Contents()[..size]));
        && (HidOf(head) == HID_NONE || x.Some? ==> omem.Contents() == [])
        && if HidOf(head) != HID_NONE && x.Some? && x.value != [] then
             reports == old(reports) + [Block(HidOf(head), x)] && stopped == !keepOn(reports)
           else reports == old(reports) && !stopped
      ensures !stopped ==> imem.Contents() == old(imem.Contents()[size..]) && size == 0 && lineEnd
      ensures imem.size - imem.offset <= old(imem.size - imem.offset)
    {
      var input := Peek(size);
      if HidOf(head) != HID_NONE {
        ReportPayload(input);
        if stopped {
          return;
        }
      }
      imem.Move(size);
      size, lineEnd := 0, true;
    }

    /** The bytes of a frame, all in memory. */
    method ReadPayload(ghost tail: seq<Byte>, ghost more: seq<Byte>)
      requires Reading(tail, more) && !lineEnd && !stopped && size <= |imem.Contents()| && Lawful(codec)
      modifies this, imem`offset, omem, omem.data
      ensures Valid() && Outcome() == old(Outcome()) && (omem.data == old(omem.data) || fresh(omem.data))
      ensures !stopped ==> Reading(tail, more) && lineEnd
      ensures imem.size - imem.offset <= old(imem.size - imem.offset)
    {
      PayloadAhead(codec, zipping, imem.Contents(), more, left, tail, head, size);
      DeliverNext(reports, left, keepOn);
      ghost var b, after := left[0], left[1..];
      PassPayload();
      left := after;
    }

    // The next bytes in memory, left where they are.
    method Peek(n: nat) returns (bytes: seq<Byte>)
      requires imem.Valid() && n <= |imem.Contents()|
      ensures bytes == imem.Contents()[..n]
    {
      bytes := imem.data[imem.offset..imem.offset + n];
    }

    /** All whole frames in memory are reported; false once the tail or the callback ended the reading. */
    method ParseAll(ghost tail: seq<Byte>, ghost more: seq<Byte>) returns (goOn: bool)
      requires Reading(tail, more) && !stopped && Lawful(codec)
      requires lineEnd || size <= |imem.Contents()|
      modifies this, imem`offset, omem, omem.data
      ensures Valid() && Outcome() == old(Outcome()) && (omem.data == old(omem.data) || fresh(omem.data))
      ensures goOn ==> !stopped && Reading(tail, more)
      ensures goOn ==> |imem.Contents()| < TAIL_SIZE || (!lineEnd && |imem.Contents()| < size)
      ensures !goOn && !stopped ==> left == [] && omem.Contents() == []
    {
      while imem.size - imem.offset >= TAIL_SIZE
        invariant Reading(tail, more) && !stopped && Outcome() == old(Outcome())
        invariant lineEnd || size <= |imem.Contents()|
        invariant omem.data == old(omem.data) || fresh(omem.data)
        decreases imem.size - imem.offset, !lineEnd
      {
        if lineEnd {
          var front := ReadFront(tail, more);
          if stopped || front == TailRead {
            return false;
          }
          if front == MarkerRead {
            continue;
          }
          if imem.size - imem.offset < size {
            return true;
          }
        }
        ReadPayload(tail, more);
        if stopped {
          return false;
        }
      }
      return true;
    }

    // Some more bytes of the file, none at its end.
    method ReadChunk(rest: seq<Byte>, ghost tail: seq<Byte>) returns (n: nat)
      requires Reading(tail, rest) && !stopped
      modifies imem, imem.data
      ensures n <= |rest| && (n == 0 <==> rest == [])
      ensures Reading(tail, rest[n..])
      ensures imem.data == old(imem.data) || fresh(imem.data)
      ensures n == 0 ==> |imem.Contents()| >= TAIL_SIZE && |imem.Contents()| >= size
    {
      ghost var have := imem.Contents();
      n := imem.ReadFrom(rest, CHUNK);
      assert have + rest[..n] + rest[n..] == have + rest;
      if n == 0 {
        WholeRestAtHand(codec, zipping, imem.Contents(), left, tail, lineEnd, head, size);
      }
    }

    // The reading of a file that is to come to the outcome, going on or over.
    ghost predicate Underway(tail: seq<Byte>, rest: seq<Byte>, goOn: bool, outcome: (seq<Block>, bool))
      reads this, imem, imem.data, omem, omem.data
    {
      && Valid()
      && if goOn then !stopped && Reading(tail, rest) && Outcome() == outcome
         else (reports, stopped) == outcome && (!stopped ==> omem.Contents() == [])
    }

    // A chunk is read and parsed as far as it goes; false once the reading of the file is over.
    method ReadAndParse(rest: seq<Byte>, ghost tail: seq<Byte>, ghost outcome: (seq<Block>, bool))
      returns (n: nat, goOn: bool)
      requires Underway(tail, rest, true, outcome) && Lawful(codec)
      modifies this, imem, imem.data, omem, omem.data
      ensures n <= |rest| && (n == 0 ==> !goOn)
      ensures Underway(tail, rest[n..], goOn, outcome)
      ensures imem.data == old(imem.data) || fresh(imem.data)
      ensures omem.data == old(omem.data) || fresh(omem.data)
    {
      n := ReadChunk(rest, tail);
      if imem.size - imem.offset < size {
        return n, true;
      }
      goOn := ParseAll(tail, rest[n..]);
      if goOn && n == 0 {
        WholeRestAtHand(codec, zipping, imem.Contents(), left, tail, lineEnd, head, size);
      }
    }

    method StartFile(ghost rest: seq<Byte>, ghost bs: seq<Block>, ghost tail: seq<Byte>)
      requires Valid() && omem.Contents() == [] && IsTail(tail) && rest == Rest(codec, zipping, bs, tail)
      requires forall b :: b in bs ==> WellFormed(b)
      modifies this`lineEnd, this`size, this`left, imem`size, imem`offset
      ensures Reading(tail, rest) && left == bs
    {
      imem.Clear();
      lineEnd, size, left := true, 0, bs;
      EmptyLeft(rest);
    }

    /** One file: chunks are read until the tail, and parsed as far as they go. */
    method ReadFile(data: seq<Byte>, ghost bs: seq<Block>, ghost tail: seq<Byte>)
      requires Valid() && !stopped && omem.Contents() == [] && Lawful(codec) && IsTail(tail)
      requires forall b :: b in bs ==> WellFormed(b)
      requires |data| >= HEAD_SIZE && data[HEAD_SIZE..] == Rest(codec, zipping, bs, tail)
      modifies this, imem, imem.data, omem, omem.data
      ensures Valid() && (reports, stopped) == Deliver(old(reports), Reports(bs), keepOn)
      ensures imem.data == old(imem.data) || fresh(imem.data)
      ensures omem.data == old(omem.data) || fresh(omem.data)
      ensures !stopped ==> omem.Contents() == []
    {
      ghost var outcome := Deliver(reports, Reports(bs), keepOn);
      StartFile(data[HEAD_SIZE..], bs, tail);
      ReadChunks(data[HEAD_SIZE..], tail, outcome);
    }

    method ReadChunks(data: seq<Byte>, ghost tail: seq<Byte>, ghost outcome: (seq<Block>, bool))
      requires Underway(tail, data, true, outcome) && Lawful(codec)
      modifies this, imem, imem.data, omem, omem.data
      ensures Valid() && (reports, stopped) == outcome
      ensures imem.data == old(imem.data) || fresh(imem.data)
      ensures omem.data == old(omem.data) || fresh(omem.data)
      ensures !stopped ==> omem.Contents() == []
    {
      var rest := data;
      var goOn := true;
      while goOn
        invariant Underway(tail, rest, goOn, outcome)
        invariant imem.data == old(imem.data) || fresh(imem.data)
        invariant omem.data == old(omem.data) || fresh(omem.data)
        decreases |rest|, goOn
      {
        var n;
        n, goOn := ReadAndParse(rest, tail, outcome);
        rest := rest[n..];
      }
    }
  }

  datatype Front = MarkerRead | TailRead | FrameRead

  // At the end of the file what is in memory holds a whole frame or the tail.
  lemma WholeRestAtHand(codec: Codec, zipping: bool, have: seq<Byte>, bs: seq<Block>, tail: seq<Byte>, lineEnd: bool,
      head: Byte, size: nat)
    requires Ahead(codec, zipping, have + [], bs, tail, lineEnd, head, size) && IsTail(tail)
    ensures |have| >= TAIL_SIZE && |have| >= size
  {
    EmptyRight(have);
  }

  // What the front of the next frame tells of what is left.
  lemma FrontAhead(codec: Codec, zipping: bool, bs: seq<Block>, tail: seq<Byte>, have: seq<Byte>, more: seq<Byte>)
    requires Ahead(codec, zipping, have + more, bs, tail, true, 0, 0) && IsTail(tail) && |have| >= TAIL_SIZE
    requires forall b :: b in bs ==> WellFormed(b)
    ensures HidOf(have[0]) == HID_TAIL ==> bs == []
    ensures HidOf(have[0]) == HID_SNO_END ==>
      bs != [] && bs[0] == Block(HID_SNO_END, None) &&
        Ahead(codec, zipping, have[1..] + more, bs[1..], tail, true, have[0], 0)
    ensures HidOf(have[0]) != HID_TAIL && HidOf(have[0]) != HID_SNO_END ==>
      && |have[1..]| > Extra(have[1])
      && Ahead(codec, zipping, have[1..][1 + Extra(have[1])..] + more, bs, tail, false, have[0], SizeOf(have[1..]))
  {
    FrontOfRest(codec, zipping, bs, tail, have, more);
    assert bs != [] ==> bs[0] in bs;
  }

  // Handing on the first block to be reported, if it is the first block of all.
  lemma DeliverNext(out: seq<Block>, bs: seq<Block>, keepOn: seq<Block> -> bool)
    requires bs != []
    ensures Deliver(out, Reports(bs), keepOn) ==
      if !Reported(bs[0]) then Deliver(out, Reports(bs[1..]), keepOn)
      else if !keepOn(out + [bs[0]]) then (out + [bs[0]], true)
      else Deliver(out + [bs[0]], Reports(bs[1..]), keepOn)
  {
    if Reported(bs[0]) {
      assert ([bs[0]] + Reports(bs[1..]))[1..] == Reports(bs[1..]);
    } else {
      EmptyLeft(Reports(bs[1..]));
    }
  }

  function Expanded(codec: Codec, zipping: bool, zip: bool, input: Data): Option<Data> {
    if zip && zipping then codec.uncompress(input) else Some(input)
  }

  // The stored bytes of the frame expand to the block's payload, and after them come the other frames.
  lemma PayloadAhead(codec: Codec, zipping: bool, have: seq<Byte>, more: seq<Byte>, bs: seq<Block>, tail: seq<Byte>,
      head: Byte, size: nat)
    requires Ahead(codec, zipping, have + more, bs, tail, false, head, size) && size <= |have| && Lawful(codec)
    ensures size < TWO_64 && Expanded(codec, zipping, ZipOf(head), have[..size]) == bs[0].payload
    ensures have[size..] + more == Rest(codec, zipping, bs[1..], tail)
  {
    var (zip, stored) := Stored(codec, zipping, bs[0].payload.value);
    assert have[..size] == (have + more)[..size] == stored;
    assert have[size..] + more == (have + more)[size..];
  }
}
