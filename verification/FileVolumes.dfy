/** How the blocks of a session are spread over files (src/core/disk/sis_disk_files.c), where each then stands, and
    what is still there at the end. The number of the file written to is kept in one byte, so that the 257th file
    takes the place of the first, and so on. */
module FileVolumes {
  import opened BlockStore
  import opened DiskFormat
  import opened Memory
  import opened Options
  import opened Sequences

  // How many file numbers there are
  const FILES_LIMIT := 256

  // A file: its bytes on disk, where the next write goes, and whether it is still open.
  datatype Unit = Unit(data: seq<Byte>, offset: nat, open: bool)

  // What is there of a file that was never opened
  const NEVER := Unit([], 0, false)

  // The file written to has been given bytes.
  ghost predicate Grown(us: seq<Unit>, us': seq<Unit>, cur: nat, f: seq<Byte>) {
    cur < |us| && us' == us[cur := Unit(us[cur].data + f, us[cur].offset + |f|, us[cur].open)]
  }

  /** What a write does to the files, byte by byte: the current file is given the bytes, or one listed anew, with
      a head, in the place its number names. */
  ghost predicate Given(us: seq<Unit>, cur: nat, us': seq<Unit>, cur': nat, newFile: bool, head: seq<Byte>,
      bytes: seq<Byte>)
  {
    && cur' == (if newFile then |us| % FILES_LIMIT else cur) && cur < |us| && cur' < |us'|
    && var u := if newFile then Unit(head, |head|, true) else us[cur];
       Grown(if newFile then Begins(us, head) else us, us', cur', bytes) && us'[cur'].data == u.data + bytes
  }

  // One file more is listed, and the one whose number the byte then holds is nothing but a head.
  function Begins(us: seq<Unit>, head: seq<Byte>): seq<Unit> {
    (us + [NEVER])[|us| % FILES_LIMIT := Unit(head, |head|, true)]
  }

  // Whether the bytes of a block with data go over the limit of the current file
  predicate GoesOver(codec: Codec, zipping: bool, maxFile: nat, offset: nat, b: Block) {
    b.payload.Some? && maxFile > 0 && offset + |Body(codec, zipping, b.payload.value)| > maxFile
  }

  ghost predicate WriteDone(codec: Codec, zipping: bool, maxFile: nat, head: seq<Byte>, us: seq<Unit>, cur: nat,
      us': seq<Unit>, cur': nat, b: Block, size: nat, place: Option<Place>)
  {
    && cur < |us| && cur' < |us'|
    && var newFile := GoesOver(codec, zipping, maxFile, us[cur].offset, b);
       var from := if newFile then |head| else |us[cur].data|;
       && from + size == |us'[cur'].data|
       && BytesOf(codec, zipping, b, us'[cur'].data[from..])
       && Given(us, cur, us', cur', newFile, head, us'[cur'].data[from..])
       && place == if b.payload == None then None else Some(Place(cur', from, size))
  }

  lemma GivenDone(codec: Codec, zipping: bool, maxFile: nat, head: seq<Byte>, us: seq<Unit>, cur: nat, us': seq<Unit>,
      cur': nat, b: Block, bytes: seq<Byte>, place: Option<Place>)
    requires cur < |us| && Given(us, cur, us', cur', GoesOver(codec, zipping, maxFile, us[cur].offset, b), head, bytes)
    requires BytesOf(codec, zipping, b, bytes)
    requires b.payload == None ==> place == None
    requires b.payload.Some? ==> var newFile := GoesOver(codec, zipping, maxFile, us[cur].offset, b);
      place == Some(Place(cur', if newFile then |head| else |us[cur].data|, |bytes|))
    ensures WriteDone(codec, zipping, maxFile, head, us, cur, us', cur', b, |bytes|, place)
  {
    var u := if GoesOver(codec, zipping, maxFile, us[cur].offset, b) then Unit(head, |head|, true) else us[cur];
    assert (u.data + bytes)[|u.data|..] == bytes;
  }

  // Where a block went.
  datatype Place = Place(fidx: nat, offset: nat, size: nat)

  function Flatten(bss: seq<seq<Block>>): seq<Block> {
    if bss == [] then [] else bss[0] + Flatten(bss[1..])
  }

  lemma {:induction false} FlattenConcat(a: seq<seq<Block>>, b: seq<seq<Block>>)
    ensures Flatten(a + b) == Flatten(a) + Flatten(b)
  {
    if a == [] {
      EmptyLeft(b);
      EmptyLeft(Flatten(b));
    } else {
      FlattenConcat(a[1..], b);
      TailOfConcat(a, b);
      Assoc(a[0], Flatten(a[1..]), Flatten(b));
    }
  }

  // The blocks of the session when one more goes to the last file, or to a new one.
  function Appended(bss: seq<seq<Block>>, b: Block, newFile: bool): seq<seq<Block>>
    requires bss != []
  {
    if newFile then bss + [[b]] else bss[..|bss| - 1] + [bss[|bss| - 1] + [b]]
  }

  lemma AppendedFlat(bss: seq<seq<Block>>, b: Block, newFile: bool)
    requires bss != []
    ensures Flatten(Appended(bss, b, newFile)) == Flatten(bss) + [b]
  {
    var last := bss[|bss| - 1];
    assert Flatten([[b]]) == [b] && Flatten([last]) == last && Flatten([last + [b]]) == last + [b] by {
      assert [[b]][1..] == [] && [last][1..] == [] && [last + [b]][1..] == [];
    }
    assert bss == bss[..|bss| - 1] + [last];
    FlattenConcat(bss, [[b]]);
    FlattenConcat(bss[..|bss| - 1], [last]);
    FlattenConcat(bss[..|bss| - 1], [last + [b]]);
  }

  lemma AppendedToNew(bss: seq<seq<Block>>, b: Block)
    requires bss != []
    ensures Appended(bss + [[]], b, false) == Appended(bss, b, true)
  {
    var bss' := bss + [[]];
    assert bss'[..|bss|] == bss && bss'[|bss|] + [b] == [b];
  }

  lemma AppendedInPlace(bss: seq<seq<Block>>, b: Block)
    requires bss != []
    ensures bss[|bss| - 1 := bss[|bss| - 1] + [b]] == Appended(bss, b, false)
  {}

  // Where block j of a file starts and how long it is there.
  function FrameStart(codec: Codec, zipping: bool, bs: seq<Block>, j: nat): nat
    requires j <= |bs|
  {
    HEAD_SIZE + |Frames(codec, zipping, bs[..j])|
  }

  function PlaceOf(codec: Codec, zipping: bool, bss: seq<seq<Block>>, i: nat, j: nat): Place
    requires i < |bss| && j < |bss[i]|
  {
    Place(i % FILES_LIMIT, FrameStart(codec, zipping, bss[i], j), |Frame(codec, zipping, bss[i][j])|)
  }

  // Whether a block's bytes would push the last file past the limit
  predicate Rolls(codec: Codec, zipping: bool, maxFile: nat, bss: seq<seq<Block>>, b: Block) {
    && bss != [] && b.payload.Some? && maxFile > 0
    && HEAD_SIZE + |Frames(codec, zipping, bss[|bss| - 1])| + |Stored(codec, zipping, b.payload.value).1| > maxFile
  }

  /** How the blocks of a session are spread over files as these are begun. */
  function Volumes(codec: Codec, zipping: bool, maxFile: nat, blocks: seq<Block>): (r: seq<seq<Block>>)
    ensures r != []
  {
    if blocks == [] then [[]] else
      var before, b := Volumes(codec, zipping, maxFile, blocks[..|blocks| - 1]), blocks[|blocks| - 1];
      Appended(before, b, Rolls(codec, zipping, maxFile, before, b))
  }

  // The place of the block written last
  ghost function LastPlace(codec: Codec, zipping: bool, bss: seq<seq<Block>>, b: Block): Option<Place> {
    if b.payload == None || bss == [] || bss[|bss| - 1] == [] then None
    else Some(PlaceOf(codec, zipping, bss, |bss| - 1, |bss[|bss| - 1]| - 1))
  }

  ghost predicate Placed(codec: Codec, zipping: bool, bss: seq<seq<Block>>, b: Block, place: Place) {
    Some(place) == LastPlace(codec, zipping, bss, b)
  }

  lemma PlaceOfLast(codec: Codec, zipping: bool, bss: seq<seq<Block>>, b: Block)
    requires bss != [] && b.payload.Some?
    ensures Placed(codec, zipping, Appended(bss, b, false), b,
      Place((|bss| - 1) % FILES_LIMIT, HEAD_SIZE + |Frames(codec, zipping, bss[|bss| - 1])|,
        |Frame(codec, zipping, b)|))
  {
    var bss' := Appended(bss, b, false);
    assert bss'[|bss| - 1] == bss[|bss| - 1] + [b];
    PlaceAtEnd(codec, zipping, bss', |bss| - 1, bss[|bss| - 1], b);
  }

  lemma PlaceAtEnd(codec: Codec, zipping: bool, bss: seq<seq<Block>>, i: nat, bs: seq<Block>, b: Block)
    requires i < |bss| && bss[i] == bs + [b]
    ensures PlaceOf(codec, zipping, bss, i, |bs|) ==
      Place(i % FILES_LIMIT, HEAD_SIZE + |Frames(codec, zipping, bs)|, |Frame(codec, zipping, b)|)
  {
    assert (bs + [b])[..|bs|] == bs && (bs + [b])[|bs|] == b;
  }

  lemma FrameSize(codec: Codec, zipping: bool, b: Block)
    requires b.payload.Some?
    ensures |Frame(codec, zipping, b)| <= |Stored(codec, zipping, b.payload.value).1| + 10
  {
    SizeRoundTrip(|Stored(codec, zipping, b.payload.value).1|, []);
  }

  /** Within a file the recorded ranges follow one another without gap or overlap. */
  lemma PlacesInOrder(codec: Codec, zipping: bool, bss: seq<seq<Block>>, i: nat, j: nat, k: nat)
    requires i < |bss| && j < k < |bss[i]|
    ensures var p, q := PlaceOf(codec, zipping, bss, i, j), PlaceOf(codec, zipping, bss, i, k);
      p.size > 0 && p.offset + p.size <= q.offset && (k == j + 1 ==> p.offset + p.size == q.offset)
  {
    FramesGrow(codec, zipping, bss[i], j, k);
  }

  lemma {:induction false} FramesGrow(codec: Codec, zipping: bool, bs: seq<Block>, j: nat, k: nat)
    requires j < k <= |bs|
    ensures |Frame(codec, zipping, bs[j])| > 0
    ensures |Frames(codec, zipping, bs[..j])| + |Frame(codec, zipping, bs[j])| <= |Frames(codec, zipping, bs[..k])|
    ensures k == j + 1 ==>
      |Frames(codec, zipping, bs[..j])| + |Frame(codec, zipping, bs[j])| == |Frames(codec, zipping, bs[..k])|
    decreases k
  {
    FramesPush(codec, zipping, bs[..k - 1], bs[k - 1]);
    assert bs[..k] == bs[..k - 1] + [bs[k - 1]];
    if j < k - 1 {
      FramesGrow(codec, zipping, bs, j, k - 1);
    }
  }

  // What files hold when what is begun n-th goes to file n modulo the limit and takes away what was there
  function Begun(held: seq<seq<Block>>, n: nat, x: seq<Block>): (r: seq<seq<Block>>)
    requires |held| == if n < FILES_LIMIT then n else FILES_LIMIT
    ensures |r| == if n + 1 < FILES_LIMIT then n + 1 else FILES_LIMIT
  {
    if n < FILES_LIMIT then held + [x] else held[n % FILES_LIMIT := x]
  }

  /** What is still held, file by file */
  function Held(bss: seq<seq<Block>>): (r: seq<seq<Block>>)
    ensures |r| == if |bss| < FILES_LIMIT then |bss| else FILES_LIMIT
  {
    if bss == [] then [] else
      Begun(Held(bss[..|bss| - 1]), |bss| - 1, bss[|bss| - 1])
  }

  lemma HeldPush(bss: seq<seq<Block>>, x: seq<Block>)
    ensures Held(bss + [x]) == Begun(Held(bss), |bss|, x)
  {
    assert (bss + [x])[..|bss|] == bss;
  }

  // The file written to holds what was begun last.
  lemma HeldLast(bss: seq<seq<Block>>, x: seq<Block>)
    requires bss != []
    ensures var n, cur := |bss|, (|bss| - 1) % FILES_LIMIT;
      cur < |Held(bss)| && Held(bss)[cur] == bss[n - 1] && Held(bss[n - 1 := x]) == Held(bss)[cur := x]
  {
    var front := bss[..|bss| - 1];
    assert bss == front + [bss[|bss| - 1]] && bss[|bss| - 1 := x] == front + [x];
    HeldLastOf(front, bss[|bss| - 1], x);
  }

  lemma HeldLastOf(front: seq<seq<Block>>, x: seq<Block>, y: seq<Block>)
    ensures var cur := |front| % FILES_LIMIT;
      cur < |Held(front + [x])| && Held(front + [x])[cur] == x && Held(front + [y]) == Held(front + [x])[cur := y]
  {
    HeldPush(front, x);
    HeldPush(front, y);
    BegunAt(Held(front), |front|, x, y);
  }

  lemma BegunAt(held: seq<seq<Block>>, n: nat, x: seq<Block>, y: seq<Block>)
    requires |held| == if n < FILES_LIMIT then n else FILES_LIMIT
    ensures var cur := n % FILES_LIMIT;
      cur < |Begun(held, n, x)| && Begun(held, n, x)[cur] == x && Begun(held, n, y) == Begun(held, n, x)[cur := y]
  {
    if n < FILES_LIMIT {
      assert n % FILES_LIMIT == n;
    }
  }

  // What was begun among the last 256 is held in its file.
  lemma {:induction false} HeldThere(bss: seq<seq<Block>>, v: nat)
    requires v < |bss| <= v + FILES_LIMIT
    ensures v % FILES_LIMIT < |Held(bss)| && Held(bss)[v % FILES_LIMIT] == bss[v]
    decreases |bss|
  {
    var n := |bss| - 1;
    if v < n {
      HeldThere(bss[..n], v);
      OtherFile(v, n);
    }
  }

  lemma OtherFile(v: nat, n: nat)
    requires v < n < v + FILES_LIMIT
    ensures v % FILES_LIMIT != n % FILES_LIMIT && (n < FILES_LIMIT ==> v % FILES_LIMIT == v)
  {}

  lemma {:induction false} HeldFrom(bss: seq<seq<Block>>)
    ensures forall i :: 0 <= i < |Held(bss)| ==> Held(bss)[i] in bss
    decreases |bss|
  {
    if bss != [] {
      HeldFrom(bss[..|bss| - 1]);
      assert forall x :: x in bss[..|bss| - 1] ==> x in bss;
    }
  }

  lemma SmallModulo(n: nat)
    requires n < FILES_LIMIT
    ensures n % FILES_LIMIT == n
  {}

  // Up to the limit nothing is taken away.
  lemma HeldAll(bss: seq<seq<Block>>)
    requires |bss| <= FILES_LIMIT
    ensures Held(bss) == bss
  {
    forall i | 0 <= i < |bss| ensures Held(bss)[i] == bss[i] {
      HeldThere(bss, i);
      SmallModulo(i);
    }
  }

  // The last 256
  function Late(bss: seq<seq<Block>>): (r: seq<seq<Block>>)
    requires |bss| > FILES_LIMIT
    ensures |r| == FILES_LIMIT
  {
    bss[|bss| - FILES_LIMIT..]
  }

  // The files hold the round that is not complete, and then the rest of the one before.
  lemma HeldRounds(bss: seq<seq<Block>>)
    requires |bss| > FILES_LIMIT
    ensures var m := FILES_LIMIT - |bss| % FILES_LIMIT; Held(bss) == Late(bss)[m..] + Late(bss)[..m]
  {
    var m, late := FILES_LIMIT - |bss| % FILES_LIMIT, Late(bss);
    forall i | 0 <= i < FILES_LIMIT
      ensures Held(bss)[i] == if i < FILES_LIMIT - m then late[m + i] else late[i - (FILES_LIMIT - m)]
    {
      HeldAt(bss, i);
    }
    SwappedIs(Held(bss), late, m);
  }

  lemma SwappedIs(held: seq<seq<Block>>, late: seq<seq<Block>>, m: nat)
    requires |held| == |late| && m <= |late|
    requires forall i :: 0 <= i < |late| ==> held[i] == if i < |late| - m then late[m + i] else late[i - (|late| - m)]
    ensures held == late[m..] + late[..m]
  {}

  lemma HeldAt(bss: seq<seq<Block>>, i: nat)
    requires |bss| > FILES_LIMIT && i < FILES_LIMIT
    ensures var c := |bss| % FILES_LIMIT;
      Held(bss)[i] == Late(bss)[if i < c then FILES_LIMIT - c + i else i - c]
  {
    var n, c := |bss|, |bss| % FILES_LIMIT;
    var v := if i < c then n - c + i else n - c - FILES_LIMIT + i;
    Round(n, c, i);
    HeldThere(bss, v);
    assert bss[v] == Late(bss)[v - (n - FILES_LIMIT)];
  }

  lemma Round(n: nat, c: nat, i: nat)
    requires c == n % FILES_LIMIT && i < FILES_LIMIT < n
    ensures (n - c + i) % FILES_LIMIT == i && n - c >= FILES_LIMIT && (n - c - FILES_LIMIT + i) % FILES_LIMIT == i
  {}

  // The files that are counted when the set is opened anew hold what was begun last.
  lemma HeldFront(bss: seq<seq<Block>>)
    ensures var n, c := |bss|, |bss| % FILES_LIMIT; c <= |Held(bss)| && (c > 0 ==> Held(bss)[..c] == bss[n - c..])
  {
    if |bss| <= FILES_LIMIT {
      FrontOfFew(bss);
    } else {
      FrontOfLate(bss);
    }
  }

  lemma FrontOfFew(bss: seq<seq<Block>>)
    requires |bss| <= FILES_LIMIT
    ensures var n, c := |bss|, |bss| % FILES_LIMIT; c <= |Held(bss)| && (c > 0 ==> Held(bss)[..c] == bss[n - c..])
  {
    HeldAll(bss);
    if |bss| < FILES_LIMIT {
      SmallModulo(|bss|);
      assert bss[..|bss|] == bss && bss[0..] == bss;
    }
  }

  lemma FrontOfLate(bss: seq<seq<Block>>)
    requires |bss| > FILES_LIMIT
    ensures var n, c := |bss|, |bss| % FILES_LIMIT; c <= |Held(bss)| && Held(bss)[..c] == bss[n - c..]
  {
    var m, late := FILES_LIMIT - |bss| % FILES_LIMIT, Late(bss);
    HeldRounds(bss);
    FrontPart(late[m..], late[..m]);
    DropDrop(bss, |bss| - FILES_LIMIT, m);
  }

  lemma FrontPart(a: seq<seq<Block>>, b: seq<seq<Block>>)
    ensures (a + b)[..|a|] == a
  {}

  lemma {:induction false} ReportsAll(bs: seq<Block>)
    requires forall b :: b in bs ==> Reported(b)
    ensures Reports(bs) == bs
  {
    if bs != [] {
      ReportsAll(bs[1..]);
      assert bs == [bs[0]] + bs[1..];
    }
  }

  lemma FlattenOne(last: seq<Block>)
    ensures Flatten([last]) == last
  {
    assert [last][1..] == [];
  }

  lemma NextVolumes(codec: Codec, zipping: bool, maxFile: nat, blocks: seq<Block>, b: Block)
    ensures var bss := Volumes(codec, zipping, maxFile, blocks);
      Volumes(codec, zipping, maxFile, blocks + [b]) == Appended(bss, b, Rolls(codec, zipping, maxFile, bss, b))
  {
    assert (blocks + [b])[..|blocks|] == blocks;
  }

  /** Which blocks the index still finds: those of the last 256 files begun, whether the set can be opened or not. */
  ghost predicate StillHeld(written: seq<seq<Block>>, spot: Spot) {
    spot.0 < |written| <= spot.0 + FILES_LIMIT
  }

  // ---------------------------------------------------------------------------
  // The index

  // Where block k went: the file and its number there
  type Spot = (nat, nat)

  ghost predicate Stands(written: seq<seq<Block>>, spot: Spot, b: Block) {
    spot.0 < |written| && spot.1 < |written[spot.0]| && written[spot.0][spot.1] == b
  }

  /** The places recorded while writing are the places in the finished set. */
  ghost predicate Indexed(codec: Codec, zipping: bool, written: seq<seq<Block>>, blocks: seq<Block>,
      places: seq<Option<Place>>, spots: seq<Spot>)
  {
    && |places| == |spots| == |blocks| && Listed(written, spots)
    && forall k :: 0 <= k < |blocks| ==> Entry(codec, zipping, written, blocks[k], places[k], spots[k])
  }

  // No block is missing.
  ghost predicate Listed(written: seq<seq<Block>>, spots: seq<Spot>) {
    forall i, j :: 0 <= i < |written| && 0 <= j < |written[i]| ==> (i, j) in spots
  }

  lemma ListedGrows(bss: seq<seq<Block>>, b: Block, newFile: bool, spots: seq<Spot>)
    requires bss != [] && Listed(bss, spots)
    ensures var bss' := Appended(bss, b, newFile); Listed(bss', spots + [(|bss'| - 1, |bss'[|bss'| - 1]| - 1)])
  {}

  ghost predicate Entry(codec: Codec, zipping: bool, written: seq<seq<Block>>, b: Block, place: Option<Place>,
      spot: Spot)
  {
    && Stands(written, spot, b)
    && place == if b.payload == None then None else Some(PlaceOf(codec, zipping, written, spot.0, spot.1))
  }

  // A later write moves no block.
  lemma PlaceStays(codec: Codec, zipping: bool, bss: seq<seq<Block>>, b: Block, newFile: bool, spot: Spot, x: Block)
    requires bss != [] && Stands(bss, spot, x)
    ensures var bss' := Appended(bss, b, newFile);
      Stands(bss', spot, x) && PlaceOf(codec, zipping, bss', spot.0, spot.1) ==
        PlaceOf(codec, zipping, bss, spot.0, spot.1)
  {
    assert Appended(bss, b, newFile)[spot.0][..spot.1] == bss[spot.0][..spot.1];
  }

  lemma LastEntry(codec: Codec, zipping: bool, bss: seq<seq<Block>>, b: Block, newFile: bool) returns (spot: Spot)
    requires bss != []
    ensures var bss' := Appended(bss, b, newFile);
      Entry(codec, zipping, bss', b, LastPlace(codec, zipping, bss', b), spot) &&
        spot == (|bss'| - 1, |bss'[|bss'| - 1]| - 1)
  {
    var bss' := Appended(bss, b, newFile);
    spot := (|bss'| - 1, |bss'[|bss'| - 1]| - 1);
  }

  lemma EntryStays(codec: Codec, zipping: bool, bss: seq<seq<Block>>, b: Block, newFile: bool, x: Block,
      place: Option<Place>, spot: Spot)
    requires bss != [] && Entry(codec, zipping, bss, x, place, spot)
    ensures Entry(codec, zipping, Appended(bss, b, newFile), x, place, spot)
  {
    PlaceStays(codec, zipping, bss, b, newFile, spot, x);
  }

  lemma IndexPush(codec: Codec, zipping: bool, bss: seq<seq<Block>>, blocks: seq<Block>, places: seq<Option<Place>>,
      spots: seq<Spot>,
      b: Block, place: Option<Place>, spot: Spot)
    requires |places| == |spots| == |blocks| && Listed(bss, spots + [spot]) &&
      Entry(codec, zipping, bss, b, place, spot)
    requires forall k :: 0 <= k < |blocks| ==> Entry(codec, zipping, bss, blocks[k], places[k], spots[k])
    ensures Indexed(codec, zipping, bss, blocks + [b], places + [place], spots + [spot])
  {}

  lemma IndexGrows(codec: Codec, zipping: bool, bss: seq<seq<Block>>, blocks: seq<Block>, places: seq<Option<Place>>,
      spots: seq<Spot>,
      b: Block, newFile: bool) returns (spots': seq<Spot>)
    requires bss != [] && Indexed(codec, zipping, bss, blocks, places, spots)
    ensures var bss' := Appended(bss, b, newFile);
      Indexed(codec, zipping, bss', blocks + [b], places + [LastPlace(codec, zipping, bss', b)], spots')
  {
    var bss' := Appended(bss, b, newFile);
    forall k | 0 <= k < |blocks| ensures Entry(codec, zipping, bss', blocks[k], places[k], spots[k]) {
      EntryStays(codec, zipping, bss, b, newFile, blocks[k], places[k], spots[k]);
    }
    var spot := LastEntry(codec, zipping, bss, b, newFile);
    ListedGrows(bss, b, newFile, spots);
    IndexPush(codec, zipping, bss', blocks, places, spots, b, LastPlace(codec, zipping, bss', b), spot);
    spots' := spots + [spot];
  }

  lemma OneMore(codec: Codec, zipping: bool, bss: seq<seq<Block>>, bss': seq<seq<Block>>, blocks: seq<Block>,
      places: seq<Option<Place>>,
      spots: seq<Spot>, b: Block, newFile: bool, place: Option<Place>) returns (spots': seq<Spot>)
    requires bss != [] && Indexed(codec, zipping, bss, blocks, places, spots) && Flatten(bss) == blocks
    requires bss' == Appended(bss, b, newFile) && place == LastPlace(codec, zipping, bss', b)
    ensures Indexed(codec, zipping, bss', blocks + [b], places + [place], spots') && Flatten(bss') == blocks + [b]
  {
    AppendedFlat(bss, b, newFile);
    spots' := IndexGrows(codec, zipping, bss, blocks, places, spots, b, newFile);
  }

  // After some blocks: how they are spread, and the index
  ghost predicate SoFar(codec: Codec, zipping: bool, maxFile: nat, bss: seq<seq<Block>>, blocks: seq<Block>,
      places: seq<Option<Place>>, spots: seq<Spot>)
  {
    && bss == Volumes(codec, zipping, maxFile, blocks) && Flatten(bss) == blocks
    && Indexed(codec, zipping, bss, blocks, places, spots)
  }

  ghost predicate AppendedNext(codec: Codec, zipping: bool, maxFile: nat, bss: seq<seq<Block>>, b: Block,
      bss': seq<seq<Block>>, place: Option<Place>)
  {
    bss != [] && bss' == Appended(bss, b, Rolls(codec, zipping, maxFile, bss, b)) &&
      place == LastPlace(codec, zipping, bss', b)
  }

  lemma NextSoFar(codec: Codec, zipping: bool, maxFile: nat, bss: seq<seq<Block>>, blocks: seq<Block>,
      places: seq<Option<Place>>, spots: seq<Spot>, b: Block, bss': seq<seq<Block>>, place: Option<Place>)
    returns (spots': seq<Spot>)
    requires SoFar(codec, zipping, maxFile, bss, blocks, places, spots)
    requires AppendedNext(codec, zipping, maxFile, bss, b, bss', place)
    ensures SoFar(codec, zipping, maxFile, bss', blocks + [b], places + [place], spots')
  {
    NextVolumes(codec, zipping, maxFile, blocks, b);
    spots' := OneMore(codec, zipping, bss, bss', blocks, places, spots, b, Rolls(codec, zipping, maxFile, bss, b),
      place);
  }

  // A block that is still held stands where the index says.
  lemma EntryHeld(codec: Codec, zipping: bool, bss: seq<seq<Block>>, b: Block, place: Option<Place>, spot: Spot)
    requires Entry(codec, zipping, bss, b, place, spot) && StillHeld(bss, spot) && place.Some?
    ensures var held, i, j := Held(bss), place.value.fidx, spot.1;
      && i < |held| && j < |held[i]| && held[i][j] == b && b.payload.Some?
      && place.value == PlaceOf(codec, zipping, held, i, j)
  {
    var i := spot.0 % FILES_LIMIT;
    HeldThere(bss, spot.0);
    SmallModulo(i);
    SamePlace(codec, zipping, bss, Held(bss), spot.0, i, spot.1);
  }

  lemma SamePlace(codec: Codec, zipping: bool, bss: seq<seq<Block>>, held: seq<seq<Block>>, v: nat, i: nat, j: nat)
    requires v < |bss| && i < |held| && held[i] == bss[v] && j < |bss[v]| && i == v % FILES_LIMIT == i % FILES_LIMIT
    ensures PlaceOf(codec, zipping, bss, v, j) == PlaceOf(codec, zipping, held, i, j)
  {}

  // ---------------------------------------------------------------------------
  // What is reported at the end

  // What is behind a place reports everything exactly when nothing before it carries anything.
  lemma PartReports(bss: seq<seq<Block>>, m: nat)
    requires m <= |bss|
    ensures Reports(Flatten(bss[m..])) == Reports(Flatten(bss)) <==> Reports(Flatten(bss[..m])) == []
    ensures |Reports(Flatten(bss))| == |Reports(Flatten(bss[..m]))| + |Reports(Flatten(bss[m..]))|
  {
    assert bss == bss[..m] + bss[m..];
    FlattenConcat(bss[..m], bss[m..]);
    ReportsConcat(Flatten(bss[..m]), Flatten(bss[m..]));
    var a, b := Reports(Flatten(bss[..m])), Reports(Flatten(bss[m..]));
    if a == [] {
      EmptyLeft(b);
    } else {
      assert |a + b| > |b|;
    }
  }

  /** Every file but the first begins with the block it was begun for. */
  lemma {:induction false} VolumesBegin(codec: Codec, zipping: bool, maxFile: nat, blocks: seq<Block>, i: nat)
    requires 0 < i < |Volumes(codec, zipping, maxFile, blocks)|
    ensures var bs := Volumes(codec, zipping, maxFile, blocks)[i]; bs != [] && bs[0].payload.Some? && bs[0] in blocks
    decreases |blocks|
  {
    if blocks != [] {
      var front, b := blocks[..|blocks| - 1], blocks[|blocks| - 1];
      var before := Volumes(codec, zipping, maxFile, front);
      if i < |before| {
        VolumesBegin(codec, zipping, maxFile, front, i);
        assert forall x :: x in front ==> x in blocks;
      }
    }
  }

  lemma FlattenHas(bss: seq<seq<Block>>, i: nat, b: Block)
    requires i < |bss| && b in bss[i]
    ensures b in Flatten(bss)
  {
    assert bss == bss[..i] + [bss[i]] + bss[i + 1..];
    FlattenOne(bss[i]);
    FlattenConcat(bss[..i], [bss[i]]);
    FlattenConcat(bss[..i] + [bss[i]], bss[i + 1..]);
  }

  lemma {:induction false} ReportsHas(bs: seq<Block>, b: Block)
    requires b in bs && Reported(b)
    ensures b in Reports(bs)
  {
    if bs[0] != b {
      assert bs == [bs[0]] + bs[1..];
      ReportsHas(bs[1..], b);
    }
  }

  lemma AllCarry(codec: Codec, zipping: bool, maxFile: nat, blocks: seq<Block>, bss: seq<seq<Block>>, m: nat)
    requires bss == Volumes(codec, zipping, maxFile, blocks) && m <= |bss| && forall b :: b in blocks ==> Reported(b)
    ensures m > 1 ==> Reports(Flatten(bss[..m])) != []
  {
    if m > 1 {
      VolumesBegin(codec, zipping, maxFile, blocks, 1);
      var b := bss[1][0];
      assert bss[..m][1] == bss[1];
      FlattenHas(bss[..m], 1, b);
      ReportsHas(Flatten(bss[..m]), b);
    }
  }

  // In whatever order two parts stand, they report as much.
  lemma SwappedReports(bss: seq<seq<Block>>, m: nat)
    requires m <= |bss|
    ensures |Reports(Flatten(bss[m..] + bss[..m]))| == |Reports(Flatten(bss))|
  {
    PartReports(bss, m);
    FlattenConcat(bss[m..], bss[..m]);
    ReportsConcat(Flatten(bss[m..]), Flatten(bss[..m]));
  }

  // When a set opened anew reports everything, if every block carries something
  lemma AnewExactly(codec: Codec, zipping: bool, maxFile: nat, blocks: seq<Block>, bss: seq<seq<Block>>)
    requires bss == Volumes(codec, zipping, maxFile, blocks) && forall b :: b in blocks ==> Reported(b)
    ensures var n, c := |bss|, |bss| % FILES_LIMIT; c > 0 && Reports(Flatten(bss[..n - c])) == [] <==> n < FILES_LIMIT
  {
    AllCarry(codec, zipping, maxFile, blocks, bss, |bss| - |bss| % FILES_LIMIT);
    AnewWhenCarried(bss);
  }

  /** What reading a set opened anew reports: all of it if and only if a round of 256 files is not complete and nothing
      before that round carries anything. */
  ghost predicate ToldAnew(bss: seq<seq<Block>>, blocks: seq<Block>, reports: Option<seq<Block>>) {
    var n, c := |bss|, |bss| % FILES_LIMIT;
    reports == Some(Reports(blocks)) <==> c > 0 && Reports(Flatten(bss[..n - c])) == []
  }

  function LastRound(bss: seq<seq<Block>>): Option<seq<Block>> {
    var n, c := |bss|, |bss| % FILES_LIMIT;
    if c == 0 then None else Some(Reports(Flatten(bss[n - c..])))
  }

  lemma LastRoundTells(bss: seq<seq<Block>>)
    ensures ToldAnew(bss, Flatten(bss), LastRound(bss))
  {
    PartReports(bss, |bss| - |bss| % FILES_LIMIT);
  }

  lemma ToldExactly(codec: Codec, zipping: bool, maxFile: nat, blocks: seq<Block>, bss: seq<seq<Block>>,
      reports: Option<seq<Block>>)
    requires bss == Volumes(codec, zipping, maxFile, blocks) && (forall b :: b in blocks ==> Reported(b)) &&
      ToldAnew(bss, blocks, reports)
    ensures reports == Some(Reports(blocks)) <==> |bss| < FILES_LIMIT
  {
    AnewExactly(codec, zipping, maxFile, blocks, bss);
  }

  lemma AnewWhenCarried(bss: seq<seq<Block>>)
    requires bss != [] && (|bss| - |bss| % FILES_LIMIT > 1 ==>
      Reports(Flatten(bss[..|bss| - |bss| % FILES_LIMIT])) != [])
    ensures var n, c := |bss|, |bss| % FILES_LIMIT; c > 0 && Reports(Flatten(bss[..n - c])) == [] <==> n < FILES_LIMIT
  {
    AnewParts(bss);
  }

  lemma AnewParts(bss: seq<seq<Block>>)
    requires bss != []
    ensures var n, c := |bss|, |bss| % FILES_LIMIT;
      if n < FILES_LIMIT then c > 0 && Reports(Flatten(bss[..n - c])) == [] else n - c > 1
  {
    if |bss| < FILES_LIMIT {
      SmallModulo(|bss|);
      NothingBefore(bss);
    } else {
      WholeRound(|bss|, |bss| % FILES_LIMIT);
    }
  }

  lemma NothingBefore(bss: seq<seq<Block>>)
    ensures Reports(Flatten(bss[..0])) == []
  {}

  lemma WholeRound(n: nat, c: nat)
    requires n >= FILES_LIMIT && c == n % FILES_LIMIT
    ensures n - c >= FILES_LIMIT
  {}

  /** The files together still hold all that carries anything if and only if there are at most 256 of them, or what
      was begun before the last 256 carries nothing. */
  lemma HeldExactly(bss: seq<seq<Block>>)
    ensures |Reports(Flatten(Held(bss)))| == |Reports(Flatten(bss))| <==>
      |bss| <= FILES_LIMIT || Reports(Flatten(bss[..|bss| - FILES_LIMIT])) == []
  {
    if |bss| > FILES_LIMIT {
      HeldReports(bss);
      PartReports(bss, |bss| - FILES_LIMIT);
    } else {
      HeldAll(bss);
    }
  }

  lemma HeldReports(bss: seq<seq<Block>>)
    requires |bss| > FILES_LIMIT
    ensures |Reports(Flatten(Held(bss)))| == |Reports(Flatten(bss[|bss| - FILES_LIMIT..]))|
  {
    HeldRounds(bss);
    SwappedReports(Late(bss), FILES_LIMIT - |bss| % FILES_LIMIT);
  }

  ghost predicate WithinFiles(places: seq<Option<Place>>, count: nat) {
    forall k :: 0 <= k < |places| && places[k].Some? ==> places[k].value.fidx < count
  }

  // What an entry says of the file
  ghost predicate Filed(bss: seq<seq<Block>>, place: Option<Place>, spot: Spot) {
    && spot.0 < |bss| && spot.1 < |bss[spot.0]|
    && (place.Some? <==> bss[spot.0][spot.1].payload.Some?)
    && (place.Some? ==> place.value.fidx == spot.0 % FILES_LIMIT)
  }

  ghost predicate AllFiled(bss: seq<seq<Block>>, places: seq<Option<Place>>, spots: seq<Spot>) {
    |places| == |spots| && forall k :: 0 <= k < |places| ==> Filed(bss, places[k], spots[k])
  }

  lemma EntryFiled(codec: Codec, zipping: bool, bss: seq<seq<Block>>, b: Block, place: Option<Place>, spot: Spot)
    requires Entry(codec, zipping, bss, b, place, spot)
    ensures Filed(bss, place, spot)
  {}

  lemma IndexFiled(codec: Codec, zipping: bool, bss: seq<seq<Block>>, blocks: seq<Block>, places: seq<Option<Place>>,
      spots: seq<Spot>)
    requires Indexed(codec, zipping, bss, blocks, places, spots)
    ensures AllFiled(bss, places, spots) && Listed(bss, spots)
  {
    forall k | 0 <= k < |places| ensures Filed(bss, places[k], spots[k]) {
      EntryFiled(codec, zipping, bss, blocks[k], places[k], spots[k]);
    }
  }

  /** Opened anew, the set has all the files the index speaks of if and only if there are fewer than 256. */
  lemma IndexListed(codec: Codec, zipping: bool, maxFile: nat, blocks: seq<Block>, places: seq<Option<Place>>,
      spots: seq<Spot>)
    requires Indexed(codec, zipping, Volumes(codec, zipping, maxFile, blocks), blocks, places, spots)
    ensures var n := |Volumes(codec, zipping, maxFile, blocks)|;
      WithinFiles(places, n % FILES_LIMIT) <==> n < FILES_LIMIT
  {
    var bss := Volumes(codec, zipping, maxFile, blocks);
    IndexFiled(codec, zipping, bss, blocks, places, spots);
    if |bss| >= FILES_LIMIT {
      VolumesBegin(codec, zipping, maxFile, blocks, FILES_LIMIT - 1);
    }
    FilesNamed(bss, places, spots);
  }

  lemma FilesNamed(bss: seq<seq<Block>>, places: seq<Option<Place>>, spots: seq<Spot>)
    requires AllFiled(bss, places, spots) && Listed(bss, spots)
    requires |bss| >= FILES_LIMIT ==> bss[FILES_LIMIT - 1] != [] && bss[FILES_LIMIT - 1][0].payload.Some?
    ensures WithinFiles(places, |bss| % FILES_LIMIT) <==> |bss| < FILES_LIMIT
  {
    if |bss| >= FILES_LIMIT {
      assert (FILES_LIMIT - 1, 0) in spots;
      var k :| 0 <= k < |spots| && spots[k] == (FILES_LIMIT - 1, 0);
      assert Filed(bss, places[k], spots[k]);
    } else {
      forall k | 0 <= k < |places| && places[k].Some? ensures places[k].value.fidx < |bss| {
        assert Filed(bss, places[k], spots[k]);
      }
    }
  }

  ghost predicate AllHeld(bss: seq<seq<Block>>, places: seq<Option<Place>>, spots: seq<Spot>)
    requires |places| == |spots|
  {
    forall k :: 0 <= k < |places| && places[k].Some? ==> StillHeld(bss, spots[k])
  }

  /** Every block the index speaks of is still held in its file if and only if there are at most 256 files, or just
      one more and the first one had no data in it. */
  lemma IndexHeldExactly(codec: Codec, zipping: bool, maxFile: nat, blocks: seq<Block>, places: seq<Option<Place>>,
      spots: seq<Spot>)
    requires Indexed(codec, zipping, Volumes(codec, zipping, maxFile, blocks), blocks, places, spots)
    ensures var bss := Volumes(codec, zipping, maxFile, blocks);
      AllHeld(bss, places, spots) <==> |bss| <= FILES_LIMIT || (|bss| == FILES_LIMIT + 1 && NoData(bss[0]))
  {
    var bss := Volumes(codec, zipping, maxFile, blocks);
    IndexFiled(codec, zipping, bss, blocks, places, spots);
    if |bss| > 1 {
      VolumesBegin(codec, zipping, maxFile, blocks, 1);
    }
    HeldBySpots(bss, places, spots);
  }

  predicate NoData(bs: seq<Block>) { forall j :: 0 <= j < |bs| ==> bs[j].payload == None }

  lemma HeldBySpots(bss: seq<seq<Block>>, places: seq<Option<Place>>, spots: seq<Spot>)
    requires AllFiled(bss, places, spots) && Listed(bss, spots) && bss != []
    requires |bss| > 1 ==> bss[1] != [] && bss[1][0].payload.Some?
    ensures AllHeld(bss, places, spots) <==> |bss| <= FILES_LIMIT || (|bss| == FILES_LIMIT + 1 && NoData(bss[0]))
  {
    if |bss| > FILES_LIMIT + 1 {
      SpotGone(bss, places, spots, 1, 0);
    } else if |bss| == FILES_LIMIT + 1 && !NoData(bss[0]) {
      var j :| 0 <= j < |bss[0]| && bss[0][j].payload.Some?;
      SpotGone(bss, places, spots, 0, j);
    } else {
      forall k | 0 <= k < |places| && places[k].Some? ensures StillHeld(bss, spots[k]) {
        assert Filed(bss, places[k], spots[k]);
      }
    }
  }

  lemma SpotGone(bss: seq<seq<Block>>, places: seq<Option<Place>>, spots: seq<Spot>, i: nat, j: nat)
    requires AllFiled(bss, places, spots) && Listed(bss, spots) && i + FILES_LIMIT < |bss|
    requires j < |bss[i]| && bss[i][j].payload.Some?
    ensures !AllHeld(bss, places, spots)
  {
    assert (i, j) in spots;
    var k :| 0 <= k < |spots| && spots[k] == (i, j);
    assert Filed(bss, places[k], spots[k]);
  }

  // With a limit of one byte each block of data begins a file.
  lemma {:induction false} FileForEach(codec: Codec, blocks: seq<Block>)
    requires AllData(blocks)
    ensures EachAlone(Volumes(codec, false, 1, blocks), blocks)
    decreases |blocks|
  {
    if blocks != [] {
      var front, b := blocks[..|blocks| - 1], blocks[|blocks| - 1];
      FileForEach(codec, front);
      NextAlone(codec, front, b);
      assert front + [b] == blocks;
    }
  }

  lemma NextAlone(codec: Codec, blocks: seq<Block>, b: Block)
    requires EachAlone(Volumes(codec, false, 1, blocks), blocks) && b.payload.Some?
    ensures EachAlone(Volumes(codec, false, 1, blocks + [b]), blocks + [b])
  {
    var bss := Volumes(codec, false, 1, blocks);
    RollsAlways(codec, bss, b);
    NextVolumes(codec, false, 1, blocks, b);
    OneMoreAlone(bss, blocks, b);
  }

  lemma RollsAlways(codec: Codec, bss: seq<seq<Block>>, b: Block)
    requires bss != [] && b.payload.Some?
    ensures Rolls(codec, false, 1, bss, b)
  {}

  predicate AllData(blocks: seq<Block>) { forall i :: 0 <= i < |blocks| ==> blocks[i].payload.Some? }

  ghost predicate EachAlone(bss: seq<seq<Block>>, blocks: seq<Block>) {
    |bss| == |blocks| + 1 && bss[0] == [] && forall i :: 0 <= i < |blocks| ==> bss[i + 1] == [blocks[i]]
  }

  lemma OneMoreAlone(bss: seq<seq<Block>>, blocks: seq<Block>, b: Block)
    requires EachAlone(bss, blocks)
    ensures EachAlone(Appended(bss, b, true), blocks + [b])
  {}

  /** So with 257 blocks the first file begun for a block is begun anew for the last, and the first block is gone; the
      256th stands in front of all others. */
  lemma FirstBlockLost(codec: Codec, blocks: seq<Block>)
    requires |blocks| == 257 && AllData(blocks)
    ensures var bss := Volumes(codec, false, 1, blocks);
      |bss| == 258 && bss[1] == [blocks[0]] && Held(bss)[0] == [blocks[255]] && Held(bss)[1] == [blocks[256]]
  {
    var bss := Volumes(codec, false, 1, blocks);
    FileForEach(codec, blocks);
    LostInFirst(bss, blocks);
  }

  lemma LostInFirst(bss: seq<seq<Block>>, blocks: seq<Block>)
    requires |blocks| == 257 && EachAlone(bss, blocks)
    ensures bss[1] == [blocks[0]] && Held(bss)[0] == [blocks[255]] && Held(bss)[1] == [blocks[256]]
  {
    HeldThere(bss, 256);
    HeldThere(bss, 257);
  }
}
