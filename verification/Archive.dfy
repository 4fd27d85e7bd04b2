/**
 The folder archive: Combiner's length-prefixed reversed chunks, and the loops of
 Folder::compression and Folder::decompression that pack and unpack a list of files.
 */
module Archive {
  import opened Types

  /** A file by its path relative to the folder, as bytes. */
  datatype Entry = Entry(path: seq<Byte>, content: seq<Byte>)

  const SIZE32: int := 0x1_0000_0000
  const SIZE64: int := 0x1_0000_0000_0000_0000

  /** No std::vector is longer. */
  const LONGEST: int := 0x8000_0000_0000_0000

  // ---------------------------------------------------------------------------------------
  // Sizes and reversal
  // ---------------------------------------------------------------------------------------

  /** The low k bytes of n, least significant first, as memcpy lays out a size_t. */
  function LittleEndian(n: nat, k: nat): (s: seq<Byte>)
    ensures |s| == k
  {
    if k == 0 then [] else [n % 256] + LittleEndian(n / 256, k - 1)
  }

  function FromLittleEndian(s: seq<Byte>): nat {
    if s == [] then 0 else s[0] + 256 * FromLittleEndian(s[1..])
  }

  function Limit(k: nat): nat {
    if k == 0 then 1 else 256 * Limit(k - 1)
  }

  lemma {:induction false} SizeRoundTrip(n: nat, k: nat)
    requires n < Limit(k)
    ensures FromLittleEndian(LittleEndian(n, k)) == n
  {
    if k > 0 {
      SizeRoundTrip(n / 256, k - 1);
    }
  }

  function Header(n: nat): (s: seq<Byte>)
    requires n < SIZE64
    ensures |s| == 8 && FromLittleEndian(s) == n
  {
    assert Limit(8) == SIZE64;
    SizeRoundTrip(n, 8);
    LittleEndian(n, 8)
  }

  function Reverse(s: seq<Byte>): (r: seq<Byte>)
    ensures |r| == |s| && forall i :: 0 <= i < |s| ==> r[i] == s[|s| - 1 - i]
  {
    seq(|s|, i requires 0 <= i < |s| => s[|s| - 1 - i])
  }

  lemma ReverseTwice(s: seq<Byte>)
    ensures Reverse(Reverse(s)) == s
  {
  }

  // ---------------------------------------------------------------------------------------
  // Combiner
  // ---------------------------------------------------------------------------------------

  function Chunk(source: seq<Byte>): seq<Byte>
    requires |source| < SIZE64
  {
    Header(|source|) + Reverse(source)
  }

  method Append(buffer: seq<Byte>, source: seq<Byte>) returns (grown: seq<Byte>)
    requires |source| < SIZE64
    ensures grown == buffer + Chunk(source)
  {
    grown := buffer + Header(|source|);
    if |source| == 0 {
      return;
    }
    grown := grown + Reverse(source);
  }

  /** The frame of the two bytes 7 and 8: the size least significant byte first, then the bytes backwards. */
  lemma ChunkExample()
    ensures Chunk([7, 8]) == [2, 0, 0, 0, 0, 0, 0, 0, 8, 7]
    ensures FromLittleEndian([3, 2, 1]) == 3 + 256 * 2 + 65536
  {
    assert Reverse([7, 8]) == [8, 7];
    assert LittleEndian(2, 8) == [2, 0, 0, 0, 0, 0, 0, 0];
  }

  datatype Piece = Piece(bytes: seq<Byte>, next: nat)

  /** A sum of two 64-bit numbers, in 64 bits. */
  function Wrapped(sum: nat): nat {
    if sum >= SIZE64 then sum - SIZE64 else sum
  }

  /** One call of divide: the piece and where the index ends up. None stands for undefined behaviour: a wrapping
      sum lets an index or a size pass the check, and the bytes are taken from outside the source. */
  function Divided(source: seq<Byte>, index: nat): (r: Option<Piece>)
    ensures r.Some? && r.value.bytes != [] ==> index + 8 < r.value.next <= |source|
    ensures r.Some? && r.value.bytes != [] ==> r.value.next == index + 8 + |r.value.bytes|
    ensures r.Some? && index <= |source| ==> index <= r.value.next <= |source|
  {
    if source == [] || |source| < Wrapped(index + 8) then Some(Piece([], index))
    else if index + 8 >= SIZE64 then None
    else
      var size, start := FromLittleEndian(source[index..index + 8]), index + 8;
      if start + size >= SIZE64 then None
      else if size == 0 || |source| < start + size then Some(Piece([], start))
      else Some(Piece(Reverse(source[start..start + size]), start + size))
  }

  method Divide(source: seq<Byte>, index: nat) returns (r: Option<Piece>)
    requires |source| < LONGEST && index < SIZE64
    ensures r == Divided(source, index)
  {
    if source == [] {
      return Some(Piece([], index));
    }
    if |source| < (index + 8) % SIZE64 {
      return Some(Piece([], index));
    }
    if index + 8 >= SIZE64 {
      return None;
    }
    var size := FromLittleEndian(source[index..index + 8]);
    var at := index + 8;
    if at + size >= SIZE64 {
      return None;
    }
    if size == 0 || |source| < at + size {
      return Some(Piece([], at));
    }
    var bytes := Reverse(source[at..at + size]);
    at := at + size;
    return Some(Piece(bytes, at));
  }

  /** divide undoes append wherever the chunk lies in a longer buffer, empty chunks included. */
  lemma DivideChunk(source: seq<Byte>, index: nat, bytes: seq<Byte>)
    requires |source| < LONGEST && index + 8 + |bytes| <= |source|
    requires source[index..index + 8 + |bytes|] == Chunk(bytes)
    ensures Divided(source, index) == Some(Piece(bytes, index + 8 + |bytes|))
  {
    hide Reverse, FromLittleEndian;
    var all := source[index..index + 8 + |bytes|];
    assert source[index..index + 8] == all[..8] == Header(|bytes|);
    assert source[index + 8..index + 8 + |bytes|] == all[8..] == Reverse(bytes);
    ReverseTwice(bytes);
  }

  // ---------------------------------------------------------------------------------------
  // Packing
  // ---------------------------------------------------------------------------------------

  /** Small enough for the sizes the source computes. */
  predicate InMemory(e: Entry) {
    16 + |e.path| + |e.content| < LONGEST
  }

  predicate AllInMemory(es: seq<Entry>) {
    forall e :: e in es ==> InMemory(e)
  }

  function Record(e: Entry): seq<Byte>
    requires InMemory(e)
  {
    Reverse(Chunk(e.path) + Chunk(e.content))
  }

  /** write_bytes casts the length it writes to 32 bits; the header keeps the full length. */
  function Framed(e: Entry): seq<Byte>
    requires InMemory(e)
  {
    var record := Record(e);
    Header(|record|) + record[..|record| % SIZE32]
  }

  function Packed(es: seq<Entry>): seq<Byte>
    requires AllInMemory(es)
  {
    if es == [] then [] else Framed(es[0]) + Packed(es[1..])
  }

  /** One round of the loop of Folder::compression. */
  method PackOne(file: seq<Byte>, e: Entry) returns (grown: seq<Byte>)
    requires InMemory(e)
    ensures grown == file + Framed(e)
  {
    hide Header, Reverse;
    var record := Append([], e.path);
    record := Append(record, e.content);
    assert record == Chunk(e.path) + Chunk(e.content);
    record := Reverse(record);
    grown := file + Header(|record|);
    grown := grown + record[..|record| % SIZE32];
  }

  lemma PackedFrom(es: seq<Entry>, i: nat)
    requires AllInMemory(es) && i <= |es|
    ensures AllInMemory(es[i..])
    ensures i < |es| ==>
      InMemory(es[i]) && AllInMemory(es[i + 1..]) && Packed(es[i..]) == Framed(es[i]) + Packed(es[i + 1..])
  {
  }

  method Pack(es: seq<Entry>) returns (file: seq<Byte>)
    requires AllInMemory(es)
    ensures file == Packed(es)
  {
    hide Framed, InMemory, AllInMemory, Packed;
    PackedFrom(es, 0);
    assert es[0..] == es;
    file := [];
    for i := 0 to |es|
      invariant AllInMemory(es[i..]) && file + Packed(es[i..]) == Packed(es)
    {
      PackedFrom(es, i);
      file := PackOne(file, es[i]);
    }
    assert es[|es|..] == [] && Packed(es[|es|..]) == [] by { PackedNone(es[|es|..]); }
  }

  lemma PackedNone(es: seq<Entry>)
    requires es == []
    ensures Packed(es) == []
  {
  }

  // ---------------------------------------------------------------------------------------
  // Unpacking
  // ---------------------------------------------------------------------------------------

  predicate StartsWithBom(s: seq<Byte>) {
    |s| >= 3 && s[0] == 0xef && s[1] == 0xbb && s[2] == 0xbf
  }

  /** Converter::to_string drops two of the three bytes of a byte order mark. */
  function ToText(s: seq<Byte>): seq<Byte> {
    if StartsWithBom(s) then s[2..] else s
  }

  method ToString(value: seq<Byte>) returns (text: seq<Byte>)
    ensures text == ToText(value)
  {
    if value == [] {
      return [];
    }
    if |value| >= 3 && value[0] == 0xef && value[1] == 0xbb && value[2] == 0xbf {
      return value[2..];
    }
    return value;
  }

  function ReadEntry(record: seq<Byte>): Option<Entry> {
    match Divided(record, 0)
    case None => None
    case Some(path) =>
      match Divided(record, path.next)
      case None => None
      case Some(content) => Some(Entry(ToText(path.bytes), content.bytes))
  }

  function Unpacked(data: seq<Byte>, index: nat): Option<seq<Entry>>
    decreases |data| - index
  {
    match Divided(data, index)
    case None => None
    case Some(piece) =>
      if piece.bytes == [] then Some([])
      else
        match (ReadEntry(piece.bytes), Unpacked(data, piece.next))
        case (Some(e), Some(rest)) => Some([e] + rest)
        case _ => None
  }

  function After(done: seq<Entry>, r: Option<seq<Entry>>): Option<seq<Entry>> {
    if r.None? then None else Some(done + r.value)
  }

  lemma AfterNone(r: Option<seq<Entry>>)
    ensures After([], r) == r
  {
    if r.Some? {
      assert [] + r.value == r.value;
    }
  }

  lemma AfterOne(done: seq<Entry>, e: Entry, r: Option<seq<Entry>>)
    ensures After(done, After([e], r)) == After(done + [e], r)
  {
    if r.Some? {
      assert done + ([e] + r.value) == (done + [e]) + r.value;
    }
  }

  /** The loop of Folder::decompression: it ends because the index strictly advances. None as in Divided. */
  method Unpack(data: seq<Byte>) returns (r: Option<seq<Entry>>)
    requires |data| < LONGEST
    ensures r == Unpacked(data, 0)
  {
    var index, es := 0, [];
    AfterNone(Unpacked(data, 0));
    while true
      invariant 0 <= index <= |data|
      invariant After(es, Unpacked(data, index)) == Unpacked(data, 0)
      decreases |data| - index
    {
      var parsed := Divide(data, index);
      if parsed.None? {
        return None;
      }
      var record := parsed.value.bytes;
      if record == [] {
        break;
      }
      index := parsed.value.next;
      var path := Divide(record, 0);
      if path.None? {
        return None;
      }
      var content := Divide(record, path.value.next);
      if content.None? {
        return None;
      }
      var text := ToString(path.value.bytes);
      var e := Entry(text, content.value.bytes);
      AfterOne(es, e, Unpacked(data, index));
      es := es + [e];
    }
    assert es + [] == es;
    r := Some(es);
  }

  // ---------------------------------------------------------------------------------------
  // Round trip
  // ---------------------------------------------------------------------------------------

  predicate Small(e: Entry) {
    16 + |e.path| + |e.content| < SIZE32
  }

  /** What comes back for a packed file. */
  function Stripped(e: Entry): Entry {
    Entry(ToText(e.path), e.content)
  }

  function AllStripped(es: seq<Entry>): seq<Entry> {
    seq(|es|, i requires 0 <= i < |es| => Stripped(es[i]))
  }

  lemma ReadRecord(e: Entry)
    requires InMemory(e)
    ensures ReadEntry(Reverse(Record(e))) == Some(Stripped(e))
  {
    hide Header, Reverse, Divided;
    var record := Chunk(e.path) + Chunk(e.content);
    ReverseTwice(record);
    assert record[0..8 + |e.path|] == Chunk(e.path);
    DivideChunk(record, 0, e.path);
    assert record[8 + |e.path|..16 + |e.path| + |e.content|] == Chunk(e.content);
    DivideChunk(record, 8 + |e.path|, e.content);
  }

  /** A small entry is framed like any other chunk, by its record reversed. */
  lemma FramedIsChunk(e: Entry)
    requires InMemory(e) && Small(e)
    ensures Framed(e) == Chunk(Reverse(Record(e)))
  {
    hide Header;
    ReverseTwice(Record(e));
  }

  /** Unpacking what was packed at any position gives the list back, but for the byte order marks. */
  lemma {:induction false} UnpackPacked(data: seq<Byte>, index: nat, es: seq<Entry>)
    requires AllInMemory(es) && (forall e :: e in es ==> Small(e))
    requires |data| < LONGEST && index <= |data| && data[index..] == Packed(es)
    ensures Unpacked(data, index) == Some(AllStripped(es))
    decreases |es|
  {
    hide Divided, ReadEntry, Framed, Record, Chunk, Header, Reverse;
    if es == [] {
      NothingLeft(data, index);
    } else {
      var e := es[0];
      FramedIsChunk(e);
      var bytes := Reverse(Record(e));
      RecordLength(e);
      ChunkLength(bytes);
      assert data[index..] == Chunk(bytes) + Packed(es[1..]);
      assert data[index..index + 8 + |bytes|] == Chunk(bytes);
      DivideChunk(data, index, bytes);
      ReadRecord(e);
      assert data[index + 8 + |bytes|..] == Packed(es[1..]);
      UnpackPacked(data, index + 8 + |bytes|, es[1..]);
      assert AllStripped(es) == [Stripped(e)] + AllStripped(es[1..]);
    }
  }

  lemma ChunkLength(bytes: seq<Byte>)
    requires |bytes| < SIZE64
    ensures |Chunk(bytes)| == 8 + |bytes|
  {
  }

  lemma RecordLength(e: Entry)
    requires InMemory(e)
    ensures |Record(e)| == 16 + |e.path| + |e.content|
  {
  }

  lemma NothingLeft(data: seq<Byte>, index: nat)
    requires index == |data| < LONGEST
    ensures Divided(data, index) == Some(Piece([], index))
  {
  }

  lemma StrippedIff(es: seq<Entry>)
    ensures AllStripped(es) == es <==> forall e :: e in es ==> !StartsWithBom(e.path)
  {
  }

  /** For files under 4 GiB the round trip holds exactly when no path starts with a byte order mark. */
  lemma RoundTripIff(es: seq<Entry>)
    requires AllInMemory(es) && |Packed(es)| < LONGEST && forall e :: e in es ==> Small(e)
    ensures Unpacked(Packed(es), 0) == Some(es) <==> forall e :: e in es ==> !StartsWithBom(e.path)
  {
    assert Packed(es)[0..] == Packed(es);
    UnpackPacked(Packed(es), 0, es);
    StrippedIff(es);
  }

  // ---------------------------------------------------------------------------------------
  // Files of 4 GiB and more
  // ---------------------------------------------------------------------------------------

  /** A piece that reads as e is at least this long, unless e is empty. */
  lemma PieceNeeds(record: seq<Byte>, e: Entry)
    requires ReadEntry(record) == Some(e)
    ensures e.path != [] ==> |record| >= 8 + |e.path|
    ensures e.content != [] ==> |record| >= 16 + |e.path| + |e.content|
  {
    hide Header, Reverse, FromLittleEndian;
    var path := Divided(record, 0).value;
    assert |ToText(path.bytes)| <= |path.bytes|;
  }

  lemma {:induction false} TrailingZero(s: seq<Byte>)
    ensures FromLittleEndian(s + [0]) == FromLittleEndian(s)
  {
    if s == [] {
      assert (s + [0])[1..] == [];
    } else {
      assert (s + [0])[1..] == s[1..] + [0];
      TrailingZero(s[1..]);
    }
  }

  /** A size read d bytes too late, with zeros behind it, is at least 256 times too small. */
  lemma {:induction false} SizeReadLate(s: seq<Byte>, d: nat)
    requires 1 <= d && |s| == 8 + d && forall i :: 8 <= i < 8 + d ==> s[i] == 0
    ensures FromLittleEndian(s[d..]) <= FromLittleEndian(s[..8]) / 256
    decreases d
  {
    hide FromLittleEndian;
    var before := s[d - 1..|s| - 1];
    LowByteDropped(before);
    TrailingZero(before[1..]);
    assert s[d..] == before[1..] + [0];
    if d == 1 {
      assert before == s[..8];
    } else {
      var shorter := s[..|s| - 1];
      SizeReadLate(shorter, d - 1);
      assert shorter[d - 1..] == before;
      assert shorter[..8] == s[..8];
    }
  }

  lemma LowByteDropped(s: seq<Byte>)
    requires s != []
    ensures FromLittleEndian(s[1..]) == FromLittleEndian(s) / 256
  {
  }

  lemma {:induction false} ZeroBytes(k: nat)
    ensures forall i :: 0 <= i < k ==> LittleEndian(0, k)[i] == 0
  {
    if k > 0 {
      ZeroBytes(k - 1);
    }
  }

  /** Behind its header the frame of an entry without content goes on with zeros. */
  lemma EmptyContentFrame(e: Entry)
    requires InMemory(e) && Small(e) && e.content == []
    ensures |Framed(e)| == 24 + |e.path| && FromLittleEndian(Framed(e)[..8]) == 16 + |e.path|
    ensures forall i :: 8 <= i < 16 ==> Framed(e)[i] == 0
    ensures e.path == [] ==> forall i :: 16 <= i < 24 ==> Framed(e)[i] == 0
  {
    hide FromLittleEndian, LittleEndian;
    ZeroBytes(8);
    var chunks := Chunk(e.path) + Chunk(e.content);
    assert Chunk([]) == LittleEndian(0, 8);
    assert |chunks| == 16 + |e.path|;
    assert Framed(e) == Header(|chunks|) + Reverse(chunks);
    forall i | 8 <= i < 16
      ensures Framed(e)[i] == 0
    {
      assert Framed(e)[i] == chunks[|chunks| - 1 - (i - 8)] == Chunk([])[15 - i];
    }
  }

  lemma WindowInside(data: seq<Byte>, start: nat, f: seq<Byte>, d: nat)
    requires start + |f| <= |data| && data[start..start + |f|] == f && d + 8 <= |f|
    ensures data[start + d..start + d + 8] == f[d..d + 8]
  {
    var a, b := data[start + d..start + d + 8], f[d..d + 8];
    forall j | 0 <= j < 8
      ensures a[j] == b[j]
    {
      assert data[start..start + |f|][d + j] == data[start + (d + j)];
    }
    assert a == b;
  }

  /** The size read a little into the frame of an entry without content. */
  lemma SizeInsideFrame(data: seq<Byte>, start: nat, index: nat, e: Entry)
    requires InMemory(e) && Small(e) && e.content == []
    requires start + |Framed(e)| <= |data| && data[start..start + |Framed(e)|] == Framed(e)
    requires start < index <= start + if e.path == [] then 16 else 8
    ensures |Framed(e)| == 24 + |e.path|
    ensures FromLittleEndian(data[index..index + 8]) <= (16 + |e.path|) / 256
  {
    hide Framed, FromLittleEndian;
    EmptyContentFrame(e);
    var f, d := Framed(e), index - start;
    var s := f[..8 + d];
    SizeReadLate(s, d);
    assert s[..8] == f[..8];
    assert s[d..] == f[d..d + 8];
    WindowInside(data, start, f, d);
  }

  /** No entry can be read from within its own frame at any other place than its beginning. */
  lemma NotInsideOwnFrame(data: seq<Byte>, start: nat, index: nat, e: Entry)
    requires InMemory(e) && start < index && start + |Framed(e)| <= |data| &&
      data[start..start + |Framed(e)|] == Framed(e)
    requires Divided(data, index).Some? && Divided(data, index).value.bytes != []
    requires ReadEntry(Divided(data, index).value.bytes) == Some(e)
    ensures Divided(data, index).value.next > start + |Framed(e)|
  {
    hide Header, Reverse, ReadEntry, FromLittleEndian, Record;
    PieceNeeds(Divided(data, index).value.bytes, e);
    RecordLength(e);
    if Small(e) && e.content == [] && index <= start + if e.path == [] then 16 else 8 {
      SizeInsideFrame(data, start, index, e);
    }
  }

  /** Once the reading position is past the frame of the next entry to come, it never gets back in step. */
  lemma {:induction false} NeverBackInStep(data: seq<Byte>, start: nat, index: nat, es: seq<Entry>)
    requires AllInMemory(es) && start < index <= |data| && data[start..] == Packed(es)
    ensures Unpacked(data, index) != Some(es)
    decreases |es|
  {
    hide Divided, ReadEntry, Framed;
    if es != [] && Unpacked(data, index) == Some(es) {
      var piece, e := Divided(data, index).value, es[0];
      var rest := Unpacked(data, piece.next).value;
      assert es == [ReadEntry(piece.bytes).value] + rest;
      assert rest == es[1..];
      var end := start + |Framed(e)|;
      assert data[start..end] == Framed(e) && data[end..] == Packed(es[1..]);
      NotInsideOwnFrame(data, start, index, e);
      NeverBackInStep(data, end, piece.next, es[1..]);
    }
  }

  /** A list that comes back held no record of 2^32 bytes or more. */
  lemma {:induction false} OnlySmallComeBack(data: seq<Byte>, index: nat, es: seq<Entry>)
    requires AllInMemory(es) && |data| < LONGEST && index <= |data| && data[index..] == Packed(es)
    requires Unpacked(data, index) == Some(es)
    ensures forall e :: e in es ==> Small(e)
    decreases |es|
  {
    hide Divided, ReadEntry, Framed, InMemory, Small;
    if es != [] {
      var piece, e := Divided(data, index).value, es[0];
      var rest := Unpacked(data, piece.next).value;
      assert es == [ReadEntry(piece.bytes).value] + rest;
      assert rest == es[1..];
      var end := index + |Framed(e)|;
      assert data[index..end] == Framed(e) && data[end..] == Packed(es[1..]);
      FrameRead(data, index, e);
      if !Small(e) {
        NeverBackInStep(data, end, piece.next, es[1..]);
      } else {
        OnlySmallComeBack(data, end, es[1..]);
      }
    }
  }

  /** Reading at the beginning of a frame ends with the frame, or past it if the record was cut. */
  lemma FrameRead(data: seq<Byte>, index: nat, e: Entry)
    requires InMemory(e) && index + |Framed(e)| <= |data| && data[index..index + |Framed(e)|] == Framed(e)
    requires Divided(data, index).Some? && Divided(data, index).value.bytes != []
    ensures var next := Divided(data, index).value.next;
            if Small(e) then next == index + |Framed(e)| else next > index + |Framed(e)|
  {
    hide Reverse, FromLittleEndian;
    RecordLength(e);
    assert data[index..index + 8] == Framed(e)[..8] == Header(|Record(e)|);
  }

  /** Unpacking returns the packed list exactly when every record, that is path, content and their two
      size fields, is under 2^32 bytes and no path starts with a byte order mark. */
  lemma RoundTripExactly(es: seq<Entry>)
    requires AllInMemory(es) && |Packed(es)| < LONGEST
    ensures Unpacked(Packed(es), 0) == Some(es) <==> forall e :: e in es ==>
      && 16 + |e.path| + |e.content| < 0x1_0000_0000
      && !(|e.path| >= 3 && e.path[0] == 0xef && e.path[1] == 0xbb && e.path[2] == 0xbf)
  {
    assert Packed(es)[0..] == Packed(es);
    if forall e :: e in es ==> Small(e) {
      RoundTripIff(es);
    } else if Unpacked(Packed(es), 0) == Some(es) {
      OnlySmallComeBack(Packed(es), 0, es);
    }
  }
}
