/** A set of block files written in one CREATE session, closed, and read back (src/core/disk/sis_disk_files.c). */
module FileSet {
  import opened BlockStore
  import opened DiskFormat
  import opened FileVolumes
  import opened Memory
  import opened Options
  import opened Sequences

  lemma Middle(h: seq<Byte>, a: seq<Byte>, f: seq<Byte>, c: seq<Byte>, more: seq<Byte>)
    ensures var data := h + (a + (f + c)) + more;
      |h| + |a| + |f| <= |data| && data[|h| + |a|..|h| + |a| + |f|] == f
  {
    assert h + (a + (f + c)) + more == (h + a) + f + (c + more);
  }

  lemma DropHead(h: seq<Byte>, f: seq<Byte>, t: seq<Byte>)
    ensures (h + f + t)[|h|..] == f + t
  {
    assert h + f + t == h + (f + t);
  }

  /** The bytes of a file at a block's place are the block's frame. */
  lemma FrameAtPlace(codec: Codec, zipping: bool, bs: seq<Block>, j: nat, head: seq<Byte>, more: seq<Byte>)
    requires j < |bs| && |head| == HEAD_SIZE
    ensures var data, from, n := head + Frames(codec, zipping, bs) + more, FrameStart(codec, zipping, bs, j),
      |Frame(codec, zipping, bs[j])|;
      from + n <= |data| && data[from..from + n] == Frame(codec, zipping, bs[j])
  {
    assert bs == bs[..j] + bs[j..] && bs[j..][0] == bs[j];
    FramesConcat(codec, zipping, bs[..j], bs[j..]);
    Middle(head, Frames(codec, zipping, bs[..j]), Frame(codec, zipping, bs[j]), Frames(codec, zipping, bs[j..][1..]),
      more);
  }

  /** A frame's parts: head byte, size, and bytes that expand to the payload. */
  lemma FrameReads(codec: Codec, zipping: bool, b: Block)
    requires b.payload.Some? && Lawful(codec)
    ensures var f := Frame(codec, zipping, b);
      var stored := Stored(codec, zipping, b.payload.value).1;
      && |f| > 1 && HidOf(f[0]) == b.hid
      && |f[1..]| > Extra(f[1])
      && SizeOf(f[1..]) == |stored|
      && f[1..][1 + Extra(f[1])..] == stored
      && Expanded(codec, zipping, ZipOf(f[0]), stored) == b.payload
  {
    var (zip, stored) := Stored(codec, zipping, b.payload.value);
    var f, n := Frame(codec, zipping, b), SizeBytes(|stored|);
    HeadRoundTrip(zip, b.hid);
    SizeRoundTrip(|stored|, stored);
    assert f == [HeadByte(zip, b.hid)] + (n + stored);
    assert f[1..] == n + stored && (n + stored)[|n|..] == stored;
  }

  class Files {
    const codec: Codec
    const zipping: bool
    const head: seq<Byte>
    const crc: seq<Byte>
    // 0 for no limit
    const maxFile: nat
    var units: seq<Unit>
    // One byte
    var cur: nat
    // The session's blocks, by files in the order they were begun
    ghost var written: seq<seq<Block>>

    ghost predicate Shaped()
      reads this
    {
      && |head| == HEAD_SIZE && |crc| == TAIL_SIZE - 2 && Lawful(codec)
      && |units| == |written|
      && forall i, b :: 0 <= i < |written| && b in written[i] ==> WellFormed(b)
    }

    // A file holding blocks, during the session and after it.
    function OpenUnit(bs: seq<Block>): Unit {
      var data := head + Frames(codec, zipping, bs);
      Unit(data, |data|, true)
    }

    function ClosedUnit(bs: seq<Block>, count: nat): Unit {
      Unit(head + Frames(codec, zipping, bs) + Tail(count), 0, false)
    }

    function Tail(count: nat): seq<Byte> {
      [HeadByte(false, HID_TAIL), count % 256] + crc
    }

    // The files when they are still open, and when they are closed
    ghost predicate AllOpen(us: seq<Unit>, bss: seq<seq<Block>>) {
      |us| == |bss| && forall i :: 0 <= i < |us| ==> us[i] == if i < FILES_LIMIT then OpenUnit(Held(bss)[i]) else NEVER
    }

    ghost predicate AllClosed(us: seq<Unit>, bss: seq<seq<Block>>) {
      |us| == |bss| && forall i :: 0 <= i < |us| ==>
        us[i] == if i < FILES_LIMIT then ClosedUnit(Held(bss)[i], |us|) else NEVER
    }

    /** During the session: every file is its head and the frames of the blocks it holds. */
    ghost predicate Writing()
      reads this
    {
      Shaped() && |units| > 0 && cur == (|units| - 1) % FILES_LIMIT && AllOpen(units, written)
    }

    /** After it: a tail that counts the files closes each. */
    ghost predicate Closed()
      reads this
    {
      Shaped() && |units| > 0 && AllClosed(units, written)
    }

    // sis_files_open for a CREATE session
    constructor (codec: Codec, zipping: bool, head: seq<Byte>, crc: seq<Byte>, maxFile: nat)
      requires |head| == HEAD_SIZE && |crc| == TAIL_SIZE - 2 && Lawful(codec)
      ensures Writing() && written == [[]]
      ensures this.codec == codec && this.zipping == zipping && this.maxFile == maxFile
    {
      this.codec, this.zipping, this.head, this.crc, this.maxFile := codec, zipping, head, crc, maxFile;
      units, cur := [Unit(head, HEAD_SIZE, true)], 0;
      written := [[]];
      assert head + Frames(codec, zipping, []) == head;
    }

    // sis_write at the current offset of the current file
    method Append(bytes: seq<Byte>)
      requires cur < |units| && units[cur].offset == |units[cur].data|
      modifies this`units
      ensures var u := old(units)[cur];
        units == old(units)[cur := Unit(u.data + bytes, u.offset + |bytes|, u.open)]
    {
      var u := units[cur];
      units := units[cur := Unit(u.data[..u.offset] + bytes, u.offset + |bytes|, u.open)];
      assert u.data[..u.offset] == u.data;
    }

    // sis_files_inc_unit and sis_files_open_create: one file more is listed; the one whose number the byte then holds
    // is created, which takes away what was in it.
    method OpenNext()
      requires Writing()
      modifies this`units, this`cur, this`written
      ensures Writing() && written == old(written) + [[]]
      ensures cur == |old(units)| % FILES_LIMIT && units == Begins(old(units), head)
    {
      OneMoreOpen(units, written);
      units, cur := units + [NEVER], |units| % FILES_LIMIT;
      units := units[cur := Unit(head, HEAD_SIZE, true)];
      written := written + [[]];
    }

    lemma OneMoreOpen(us: seq<Unit>, bss: seq<seq<Block>>)
      requires |head| == HEAD_SIZE && AllOpen(us, bss)
      ensures AllOpen((us + [NEVER])[|us| % FILES_LIMIT := Unit(head, HEAD_SIZE, true)], bss + [[]])
    {
      HeldPush(bss, []);
      assert head + Frames(codec, zipping, []) == head;
      var us', cur := (us + [NEVER])[|us| % FILES_LIMIT := Unit(head, HEAD_SIZE, true)], |us| % FILES_LIMIT;
      if |us| < FILES_LIMIT {
        SmallModulo(|us|);
      }
      forall i | 0 <= i < |us'| ensures us'[i] == if i < FILES_LIMIT then OpenUnit(Held(bss + [[]])[i]) else NEVER {
        assert i < |us| && i != cur ==> us'[i] == us[i];
      }
    }

    method FrontBytes(zip: bool, hid: Hid, n: nat) returns (front: seq<Byte>)
      requires n < TWO_64
      ensures front == [HeadByte(zip, hid)] + SizeBytes(n)
    {
      var memory := new Buffer(255);
      memory.Cat([HeadByte(zip, hid)]);
      EmptyLeft([HeadByte(zip, hid)]);
      var written := memory.CatSize(n);
      front := memory.data[memory.offset..memory.size];
    }

    // Head, size and stored bytes go to the current file.
    method WriteFrame(zip: bool, hid: Hid, stored: Data, ghost f: seq<Byte>) returns (size: nat, place: Place)
      requires cur < |units| && units[cur].offset == |units[cur].data|
      requires f == [HeadByte(zip, hid)] + SizeBytes(|stored|) + stored
      modifies this`units
      ensures size == |f| && place == Place(cur, old(units)[cur].offset, |f|) && Grown(old(units), units, cur, f)
    {
      var front := FrontBytes(zip, hid, |stored|);
      size := |front| + |stored|;
      place := Place(cur, units[cur].offset, size);
      ghost var u := units[cur];
      Append(front);
      Append(stored);
      Assoc(u.data, front, stored);
    }

    // The current file has just been given the frame of a block.
    ghost method NoteWritten(b: Block, before: seq<Unit>)
      requires Shaped() && WellFormed(b) && |before| > 0 && cur == (|before| - 1) % FILES_LIMIT &&
        AllOpen(before, written)
      requires Grown(before, units, cur, Frame(codec, zipping, b))
      modifies this`written
      ensures Writing() && written == Appended(old(written), b, false)
    {
      var was := written;
      AppendedInPlace(was, b);
      OpenStays(before, was, b);
      written := was[|was| - 1 := was[|was| - 1] + [b]];
      Reformed(was, b);
    }

    lemma Reformed(bss: seq<seq<Block>>, b: Block)
      requires bss != [] && WellFormed(b) && forall i, x :: 0 <= i < |bss| && x in bss[i] ==> WellFormed(x)
      ensures forall i, x :: 0 <= i < |bss| && x in Appended(bss, b, false)[i] ==> WellFormed(x)
    {}

    // With one block more in the current file, every file still is what it should be.
    lemma OpenStays(us: seq<Unit>, bss: seq<seq<Block>>, b: Block)
      requires us != [] && AllOpen(us, bss)
      ensures var cur, n := (|us| - 1) % FILES_LIMIT, |bss|;
        && cur < |us|
        && forall us' :: Grown(us, us', cur, Frame(codec, zipping, b)) ==> AllOpen(us', bss[n - 1 := bss[n - 1] + [b]])
    {
      var last := bss[|bss| - 1];
      HeldLast(bss, last + [b]);
      OpenUnitPush(last, b);
    }

    // The file being written to, as the session sees it
    lemma CurrentUnit()
      requires Writing()
      ensures cur < |units| && units[cur] == OpenUnit(written[|written| - 1])
    {
      HeldLast(written, []);
    }

    lemma OpenUnitPush(bs: seq<Block>, b: Block)
      ensures var u, f := OpenUnit(bs), Frame(codec, zipping, b);
        OpenUnit(bs + [b]) == Unit(u.data + f, u.offset + |f|, true)
    {
      FramesPush(codec, zipping, bs, b);
      assert head + (Frames(codec, zipping, bs) + Frame(codec, zipping, b)) ==
        head + Frames(codec, zipping, bs) + Frame(codec, zipping, b);
    }

    /** Write a block: a marker is one byte in the current file; data that would push the file past the
        limit opens a new one. The place is where the block's frame then stands. */
    method Write(b: Block) returns (size: nat, place: Option<Place>)
      requires Writing() && WellFormed(b)
      modifies this
      ensures Writing() && size == |Frame(codec, zipping, b)|
      ensures AppendedNext(codec, zipping, maxFile, old(written), b, written, place)
      ensures WriteDone(codec, zipping, maxFile, head, old(units), old(cur), units, cur, b, size, place)
      ensures cur < |units| && (b.payload.Some? && maxFile > 0 ==>
        units[cur].offset <= Max(maxFile, HEAD_SIZE + |Stored(codec, zipping, b.payload.value).1|) + 10)
    {
      FrameBytes(codec, zipping, b);
      if b.payload == None {
        size := WriteMarker(b);
        GivenDone(codec, zipping, maxFile, head, old(units), old(cur), units, cur, b, Frame(codec, zipping, b), None);
        return size, None;
      }
      var p;
      size, p := WriteData(b);
      GivenDone(codec, zipping, maxFile, head, old(units), old(cur), units, cur, b, Frame(codec, zipping, b), Some(p));
      return size, Some(p);
    }

    method WriteData(b: Block) returns (size: nat, place: Place)
      requires Writing() && WellFormed(b) && b.payload.Some?
      modifies this
      ensures Writing() && size == |Frame(codec, zipping, b)|
      ensures written == Appended(old(written), b, Rolls(codec, zipping, maxFile, old(written), b))
      ensures Some(place) == LastPlace(codec, zipping, written, b)
      ensures cur < |units| && (maxFile > 0 ==>
        units[cur].offset <= Max(maxFile, HEAD_SIZE + |Stored(codec, zipping, b.payload.value).1|) + 10)
      ensures old(cur) < |old(units)| && var newFile := GoesOver(codec, zipping, maxFile, old(units[cur].offset), b);
        && Given(old(units), old(cur), units, cur, newFile, head, Frame(codec, zipping, b))
        && place == Place(cur, if newFile then |head| else |old(units[cur].data)|, size)
    {
      CurrentUnit();
      var zip, stored := Zip(b.payload.value);
      AppendedToNew(written, b);
      MakeRoom(|stored|);
      size, place := WriteBody(b, zip, stored);
    }

    method Zip(payload: Data) returns (zip: bool, stored: Data)
      ensures (zip, stored) == Stored(codec, zipping, payload)
    {
      zip, stored := false, payload;
      if zipping {
        var zipped := codec.compress(payload);
        if zipped.Some? {
          zip, stored := true, zipped.value;
        }
      }
    }

    // A file the bytes would push past the limit is left for a new one.
    method MakeRoom(n: nat)
      requires Writing()
      modifies this`units, this`cur, this`written
      ensures Writing()
      ensures var last := old(written)[|old(written)| - 1];
        written == if maxFile > 0 && HEAD_SIZE + |Frames(codec, zipping, last)| + n > maxFile then old(written) + [[]]
          else old(written)
      ensures cur < |units| && (maxFile > 0 ==> units[cur].offset + n <= Max(maxFile, HEAD_SIZE + n))
      ensures old(cur) < |old(units)| &&
        if maxFile > 0 && old(units[cur].offset) + n > maxFile then
          cur == |old(units)| % FILES_LIMIT && units == Begins(old(units), head)
        else cur == old(cur) && units == old(units)
    {
      CurrentUnit();
      if maxFile > 0 && units[cur].offset + n > maxFile {
        OpenNext();
        CurrentUnit();
        assert head + Frames(codec, zipping, []) == head;
      }
    }

    // A marker is its head byte.
    method WriteMarker(b: Block) returns (size: nat)
      requires Writing() && WellFormed(b) && b.payload == None
      modifies this`units, this`written
      ensures Writing() && size == |Frame(codec, zipping, b)| && written == Appended(old(written), b, false)
      ensures old(cur) < |old(units)| && Grown(old(units), units, cur, Frame(codec, zipping, b))
    {
      CurrentUnit();
      ghost var before := units;
      Append([HeadByte(false, b.hid)]);
      NoteWritten(b, before);
      return 1;
    }

    // The frame of a block with data goes to the current file.
    method WriteBody(b: Block, zip: bool, stored: Data) returns (size: nat, place: Place)
      requires Writing() && WellFormed(b) && b.payload.Some? && (zip, stored) == Stored(codec, zipping, b.payload.value)
      modifies this`units, this`written
      ensures Writing() && size == |Frame(codec, zipping, b)| && written == Appended(old(written), b, false)
      ensures Placed(codec, zipping, written, b, place)
      ensures Grown(old(units), units, cur, Frame(codec, zipping, b)) &&
        place == Place(cur, |old(units)[cur].data|, size)
      ensures cur < |units| == |old(units)| && units[cur].offset <= old(units)[cur].offset + |stored| + 10
    {
      CurrentUnit();
      PlaceOfLast(codec, zipping, written, b);
      FrameSize(codec, zipping, b);
      ghost var before, f := units, Frame(codec, zipping, b);
      assert f == [HeadByte(zip, b.hid)] + SizeBytes(|stored|) + stored;
      size, place := WriteFrame(zip, b.hid, stored, f);
      NoteWritten(b, before);
    }

    /** Close every open file with a tail. */
    method Close()
      requires Writing()
      modifies this
      ensures Closed() && written == old(written) && |units| == |old(units)|
      ensures forall i :: 0 <= i < |units| && i < FILES_LIMIT ==> Ended(units[i].data, |units|)
    {
      var i := 0;
      while i < |units|
        invariant 0 <= i <= |units| && |units| == |written| && written == old(written)
        invariant forall j :: 0 <= j < |units| ==>
          units[j] == if j >= FILES_LIMIT then NEVER else if j < i then ClosedUnit(Held(written)[j], |units|)
            else OpenUnit(Held(written)[j])
      {
        var u := units[i];
        if u.open {
          units := units[i := Unit(u.data[..u.offset] + Tail(|units|), 0, false)];
          assert u.data[..u.offset] == u.data;
        }
        i := i + 1;
      }
      forall j | 0 <= j < |units| && j < FILES_LIMIT ensures Ended(units[j].data, |units|) {
        ClosedEnds(Held(written)[j], |units|);
      }
    }

    // The last 18 bytes of a file: head byte, the count's low byte, and the check bytes
    ghost predicate Ended(data: seq<Byte>, count: nat) {
      |data| >= 34 && data[|data| - 18] == 0xFD && data[|data| - 17] == count % 0x100 && data[|data| - 16..] == crc
    }

    lemma ClosedEnds(bs: seq<Block>, count: nat)
      requires |head| == HEAD_SIZE && |crc| == TAIL_SIZE - 2
      ensures Ended(ClosedUnit(bs, count).data, count)
    {
      var data := head + Frames(codec, zipping, bs);
      assert data + Tail(count) == data + [0xFD, count % 256] + crc;
    }

    /** sis_files_open for reading, of a set listed with so many files: each has to be there, and one at least. */
    method OpenToRead(count: nat) returns (ok: bool)
      requires Closed() && count <= |units|
      ensures ok <==> 0 < count <= FILES_LIMIT
    {
      var i := 0;
      while i < count
        invariant 0 <= i <= count && i <= FILES_LIMIT
      {
        if |units[i].data| < HEAD_SIZE {
          return false;
        }
        i := i + 1;
      }
      return count > 0;
    }

    lemma ClosedRest(bs: seq<Block>, count: nat)
      requires |head| == HEAD_SIZE && |crc| == TAIL_SIZE - 2
      ensures var data := ClosedUnit(bs, count).data;
        |data| >= HEAD_SIZE && data[HEAD_SIZE..] == Rest(codec, zipping, bs, Tail(count)) && IsTail(Tail(count))
    {
      HeadRoundTrip(false, HID_TAIL);
      DropHead(head, Frames(codec, zipping, bs), Tail(count));
    }

    // What is left to report of the files bss once i are read
    ghost function FromFile(bss: seq<seq<Block>>, reports: seq<Block>, i: nat,
        keepOn: seq<Block> -> bool): (seq<Block>, bool)
      requires i <= |bss|
    {
      Deliver(reports, Reports(Flatten(bss[i..])), keepOn)
    }

    lemma FileByFile(bss: seq<seq<Block>>, reports: seq<Block>, i: nat, keepOn: seq<Block> -> bool)
      requires i < |bss|
      ensures var (out, stop) := Deliver(reports, Reports(bss[i]), keepOn);
        FromFile(bss, reports, i, keepOn) == if stop then (out, true) else FromFile(bss, out, i + 1, keepOn)
    {
      assert bss[i..][1..] == bss[i + 1..];
      ReportsConcat(bss[i], Flatten(bss[i + 1..]));
      DeliverConcat(reports, Reports(bss[i]), Reports(Flatten(bss[i + 1..])), keepOn);
    }

    lemma HeldFormed()
      requires Shaped()
      ensures forall i, b :: 0 <= i < |Held(written)| && b in Held(written)[i] ==> WellFormed(b)
    {
      HeldFrom(written);
    }

    /** sis_files_read_fulltext over so many files, till the callback stops it. */
    method ReadAll(count: nat, keepOn: seq<Block> -> bool) returns (reports: seq<Block>)
      requires Closed() && count <= |units| && count <= FILES_LIMIT
      ensures reports == Deliver([], Reports(Flatten(Held(written)[..count])), keepOn).0
    {
      var reader := new Reader(codec, zipping, keepOn);
      var i := 0;
      ghost var bss := Held(written)[..count];
      ghost var all := Deliver([], Reports(Flatten(bss)), keepOn);
      assert bss[0..] == bss;
      HeldFormed();
      while i < count && !reader.stopped
        invariant 0 <= i <= count && reader.Valid()
        invariant fresh(reader) && fresh(reader.imem) && fresh(reader.omem) && fresh(reader.imem.data) &&
          fresh(reader.omem.data)
        invariant !reader.stopped ==> reader.omem.Contents() == []
        invariant all == if reader.stopped then (reader.reports, true) else FromFile(bss, reader.reports, i, keepOn)
      {
        ClosedRest(bss[i], |units|);
        FileByFile(bss, reader.reports, i, keepOn);
        reader.ReadFile(units[i].data, bss[i], Tail(|units|));
        i := i + 1;
      }
      reports := reader.reports;
      assert i == count ==> bss[i..] == [];
    }

    /** sis_files_read: a whole block from its place, when the system's read gives all the bytes asked for;
        got says how many it gives. */
    method ReadBlock(place: Place, got: nat, ghost j: nat) returns (r: Option<Block>)
      requires Closed() && place.fidx < |Held(written)| && j < |Held(written)[place.fidx]| && got <= place.size
      requires place == PlaceOf(codec, zipping, Held(written), place.fidx, j) &&
        Held(written)[place.fidx][j].payload.Some?
      ensures r == if got == place.size then Some(Held(written)[place.fidx][j]) else None
    {
      ghost var b := Held(written)[place.fidx][j];
      PlaceBytes(place.fidx, j);
      var memory := new Buffer(255);
      memory.Cat(units[place.fidx].data[place.offset..place.offset + got]);
      if got != place.size {
        return None;
      }
      EmptyLeft(units[place.fidx].data[place.offset..place.offset + got]);
      var block := ReadFrame(memory, b);
      return Some(block);
    }

    // What stands in a closed file at a block's place
    lemma PlaceBytes(i: nat, j: nat)
      requires Closed() && i < |Held(written)| && j < |Held(written)[i]|
      ensures i < |units|
      ensures var data, p := units[i].data, PlaceOf(codec, zipping, Held(written), i, j);
        p.offset + p.size <= |data| && data[p.offset..p.offset + p.size] == Frame(codec, zipping, Held(written)[i][j])
    {
      FrameAtPlace(codec, zipping, Held(written)[i], j, head, Tail(|units|));
    }

    method ReadFrame(memory: Buffer, ghost b: Block) returns (r: Block)
      requires memory.Valid() && b.payload.Some? && Lawful(codec)
      requires memory.Contents() == Frame(codec, zipping, b)
      modifies memory`offset
      ensures r == b
    {
      FrameReads(codec, zipping, b);
      var h := memory.data[memory.offset];
      memory.Move(1);
      var size := memory.TakeSize();
      var stored := memory.data[memory.offset..memory.offset + size];
      assert stored == memory.Contents();
      var payload := Expand(h, stored);
      return Block(HidOf(h), Some(payload));
    }

    method Expand(h: Byte, stored: Data) returns (payload: Data)
      requires Expanded(codec, zipping, ZipOf(h), stored).Some?
      ensures Some(payload) == Expanded(codec, zipping, ZipOf(h), stored)
    {
      var out := new Buffer(255);
      var m := Uncompress(codec, zipping, ZipOf(h), stored, out);
      EmptyLeft(stored);
      payload := out.data[out.offset..out.size];
    }
  }

  function Max(a: nat, b: nat): nat { if a < b then b else a }

  // ---------------------------------------------------------------------------
  // A whole session

  // A session writes its blocks, over as many files as they take, and is closed.
  method WriteSession(codec: Codec, zipping: bool, head: seq<Byte>, crc: seq<Byte>, maxFile: nat, blocks: seq<Block>)
    returns (files: Files, places: seq<Option<Place>>, ghost spots: seq<Spot>)
    requires |head| == HEAD_SIZE && |crc| == TAIL_SIZE - 2 && Lawful(codec)
    requires forall b :: b in blocks ==> WellFormed(b)
    ensures files.Closed() && files.written == Volumes(codec, zipping, maxFile, blocks) &&
      Flatten(files.written) == blocks
    ensures files.codec == codec && files.zipping == zipping &&
      Indexed(codec, zipping, files.written, blocks, places, spots)
  {
    files := new Files(codec, zipping, head, crc, maxFile);
    places, spots := WriteAll(files, blocks);
    files.Close();
  }

  /** Whatever blocks a session writes, over up to 256 files, closing it and reading it all back reports the
      blocks that carry anything, in order, however the reads are cut; a longer session cannot be opened for
      reading. The places recorded at the writes are those of the files as they were begun. */
  method WriteAndReadBack(codec: Codec, zipping: bool, head: seq<Byte>, crc: seq<Byte>, maxFile: nat,
      blocks: seq<Block>)
    returns (files: Files, reports: Option<seq<Block>>, places: seq<Option<Place>>, ghost spots: seq<Spot>)
    requires |head| == HEAD_SIZE && |crc| == TAIL_SIZE - 2 && Lawful(codec)
    requires forall b :: b in blocks ==> WellFormed(b)
    ensures files.Closed() && files.written == Volumes(codec, zipping, maxFile, blocks)
    ensures files.codec == codec && files.zipping == zipping &&
      Indexed(codec, zipping, files.written, blocks, places, spots)
    ensures reports == if |Volumes(codec, zipping, maxFile, blocks)| <= FILES_LIMIT then Some(Reports(blocks)) else None
    ensures reports.Some? && (forall b :: b in blocks ==> Reported(b)) ==> reports == Some(blocks)
  {
    files, places, spots := WriteSession(codec, zipping, head, crc, maxFile, blocks);
    reports := ReadBack(files, blocks);
    if forall b :: b in blocks ==> Reported(b) {
      ReportsAll(blocks);
    }
  }

  method ReadBack(files: Files, ghost blocks: seq<Block>) returns (reports: Option<seq<Block>>)
    requires files.Closed() && Flatten(files.written) == blocks
    ensures reports == if |files.written| <= FILES_LIMIT then Some(Reports(blocks)) else None
  {
    var ok := files.OpenToRead(|files.units|);
    if !ok {
      return None;
    }
    HeldAll(files.written);
    assert files.written[..|files.units|] == files.written;
    DeliverAll([], Reports(blocks), s => true);
    EmptyLeft(Reports(blocks));
    var all := files.ReadAll(|files.units|, s => true);
    return Some(all);
  }

  // The session's blocks, one after the other, and the index of them
  method WriteAll(files: Files, blocks: seq<Block>) returns (places: seq<Option<Place>>, ghost spots: seq<Spot>)
    requires files.Writing() && files.written == [[]] && forall b :: b in blocks ==> WellFormed(b)
    modifies files
    ensures files.Writing() && SoFar(files.codec, files.zipping, files.maxFile, files.written, blocks, places, spots)
  {
    FlattenOne([]);
    var i := 0;
    places, spots := [], [];
    ghost var done: seq<Block> := [];
    while i < |blocks|
      invariant 0 <= i <= |blocks| && files.Writing() && FirstOnes(done, blocks, i)
      invariant SoFar(files.codec, files.zipping, files.maxFile, files.written, done, places, spots)
    {
      FirstOnesNext(done, blocks, i);
      places, spots := WriteNext(files, done, blocks[i], places, spots);
      done := done + [blocks[i]];
      i := i + 1;
    }
    FirstOnesNext(done, blocks, i);
  }

  method WriteNext(files: Files, ghost done: seq<Block>, b: Block, places: seq<Option<Place>>, ghost spots: seq<Spot>)
    returns (places': seq<Option<Place>>, ghost spots': seq<Spot>)
    requires files.Writing() && WellFormed(b)
    requires SoFar(files.codec, files.zipping, files.maxFile, files.written, done, places, spots)
    modifies files
    ensures files.Writing()
    ensures SoFar(files.codec, files.zipping, files.maxFile, files.written, done + [b], places', spots')
  {
    ghost var was := files.written;
    var size, place := files.Write(b);
    spots' := NextSoFar(files.codec, files.zipping, files.maxFile, was, done, places, spots, b, files.written, place);
    places' := places + [place];
  }

  /** The index agrees with the scan: read from the place recorded when it was written, a block whose file was not
      begun anew is the block the scan reports, with its hid and payload. */
  method ReadByIndex(files: Files, blocks: seq<Block>, places: seq<Option<Place>>, k: nat, got: nat,
      ghost spots: seq<Spot>)
    returns (r: Option<Block>)
    requires files.Closed() && Indexed(files.codec, files.zipping, files.written, blocks, places, spots)
    requires k < |blocks| && places[k].Some? && got <= places[k].value.size && StillHeld(files.written, spots[k])
    ensures r == if got == places[k].value.size then Some(blocks[k]) else None
  {
    EntryHeld(files.codec, files.zipping, files.written, blocks[k], places[k], spots[k]);
    r := files.ReadBlock(places[k].value, got, spots[k].1);
  }

  // ---------------------------------------------------------------------------
  // Opening a set anew: the number of files is one byte of the first file's tail

  // sis_files_init
  function FilesCounted(first: seq<Byte>): nat
    requires |first| >= TAIL_SIZE
  {
    first[|first| - TAIL_SIZE + 1]
  }

  /** The count comes back modulo 256. */
  lemma CountWraps(files: Files)
    requires files.Closed()
    ensures |files.units[0].data| >= TAIL_SIZE && FilesCounted(files.units[0].data) == |files.units| % 256
  {
    var u, t := files.units[0], files.Tail(|files.units|);
    assert u.data[|u.data| - |t|..] == t;
    assert u.data[|u.data| - TAIL_SIZE + 1] == t[1];
  }

  // A set opened anew and read to its end
  method ReadAnew(files: Files) returns (reports: Option<seq<Block>>)
    requires files.Closed()
    ensures reports == LastRound(files.written)
  {
    CountWraps(files);
    var count := FilesCounted(files.units[0].data);
    var ok := files.OpenToRead(count);
    if !ok {
      return None;
    }
    HeldFront(files.written);
    ghost var blocks := Flatten(files.written[|files.written| - count..]);
    DeliverAll([], Reports(blocks), s => true);
    EmptyLeft(Reports(blocks));
    var all := files.ReadAll(count, s => true);
    return Some(all);
  }

  /** Written, and opened anew and read, a session is reported if and only if the last incomplete round of 256 files
      was begun and nothing before it carries anything; where every block carries something, if and only if there are
      fewer than 256 files. */
  method WriteAndReadAnew(codec: Codec, zipping: bool, head: seq<Byte>, crc: seq<Byte>, maxFile: nat,
      blocks: seq<Block>)
    returns (reports: Option<seq<Block>>)
    requires |head| == HEAD_SIZE && |crc| == TAIL_SIZE - 2 && Lawful(codec)
    requires forall b :: b in blocks ==> WellFormed(b)
    ensures ToldAnew(Volumes(codec, zipping, maxFile, blocks), blocks, reports)
    ensures (forall b :: b in blocks ==> Reported(b)) ==>
      (reports == Some(Reports(blocks)) <==> |Volumes(codec, zipping, maxFile, blocks)| < FILES_LIMIT)
  {
    var files, places, spots := WriteSession(codec, zipping, head, crc, maxFile, blocks);
    reports := ReadAnew(files);
    LastRoundTells(files.written);
    if forall b :: b in blocks ==> Reported(b) {
      ToldExactly(codec, zipping, maxFile, blocks, files.written, reports);
    }
  }
}
