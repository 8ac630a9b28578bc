/** RIFF chunks: how they are laid out, and the walk that collects the format and the data. */
module Riff {
  import opened Bits
  import opened LittleEndian
  import opened Options

  /** Everything the walk can reject is a malformed file. */
  datatype Result<T> = Malformed | Ok(value: T)

  /** A chunk; a body of odd length is followed by one pad byte. */
  datatype Chunk = Chunk(id: seq<Byte>, body: seq<Byte>, pad: seq<Byte>)

  predicate WellFormed(c: Chunk)
  {
    |c.id| == 4 && |c.body| < 0x1_0000_0000 && |c.pad| == |c.body| % 2
  }

  function Encode(c: Chunk): (r: seq<Byte>)
    requires WellFormed(c)
    ensures |r| == 8 + |c.body| + |c.pad|
  {
    c.id + Le32(|c.body|) + c.body + c.pad
  }

  predicate AllWellFormed(chunks: seq<Chunk>)
  {
    forall i :: 0 <= i < |chunks| ==> WellFormed(chunks[i])
  }

  /** Chunks one after another, nothing between them. */
  function Tile(chunks: seq<Chunk>): seq<Byte>
    requires AllWellFormed(chunks)
  {
    if chunks == [] then [] else Encode(chunks[0]) + Tile(chunks[1..])
  }

  /** The first chunk of a body, if it is all there. */
  function First(b: seq<Byte>): Option<Chunk>
  {
    if |b| < 8 then None else
    var length := U32At(b, 4);
    var end := 8 + length + length % 2;
    if end > |b| then None else Some(Chunk(b[..4], b[8..8 + length], b[8 + length..end]))
  }

  function Size(c: Chunk): nat
  {
    8 + |c.body| + |c.pad|
  }

  lemma FirstSize(b: seq<Byte>)
    requires First(b).Some?
    ensures WellFormed(First(b).value) && 8 <= Size(First(b).value) <= |b|
  {
  }

  /** The chunks of a body, when it is tiled by them exactly. */
  function Split(b: seq<Byte>): Option<seq<Chunk>>
    decreases |b|
  {
    if b == [] then Some([]) else
    match First(b)
    case None => None
    case Some(c) =>
      FirstSize(b);
      match Split(b[Size(c)..])
      case None => None
      case Some(rest) => Some([c] + rest)
  }

  lemma FirstOfEncoded(c: Chunk, rest: seq<Byte>)
    requires WellFormed(c)
    ensures First(Encode(c) + rest) == Some(c) && (Encode(c) + rest)[Size(c)..] == rest
  {
    var b, n := Encode(c) + rest, |c.body|;
    assert b[4..8] == Le32(n);
    Read32(b, 4, n);
    assert b[..4] == c.id && b[8..8 + n] == c.body && b[8 + n..8 + n + n % 2] == c.pad;
  }

  lemma EncodedFirst(b: seq<Byte>)
    requires First(b).Some?
    ensures WellFormed(First(b).value) && b == Encode(First(b).value) + b[Size(First(b).value)..]
  {
    var c := First(b).value;
    Read32(b, 4, |c.body|);
    assert b == b[..4] + b[4..8] + b[8..8 + |c.body|] + b[8 + |c.body|..Size(c)] + b[Size(c)..];
  }

  /** A body splits into chunks exactly when it is tiled by them, and then into no others. */
  lemma {:induction false} SplitOfTile(chunks: seq<Chunk>)
    requires AllWellFormed(chunks)
    ensures Split(Tile(chunks)) == Some(chunks)
  {
    if chunks != [] {
      FirstOfEncoded(chunks[0], Tile(chunks[1..]));
      SplitOfTile(chunks[1..]);
      assert [chunks[0]] + chunks[1..] == chunks;
    }
  }

  lemma {:induction false} TileOfSplit(b: seq<Byte>)
    requires Split(b).Some?
    ensures AllWellFormed(Split(b).value) && Tile(Split(b).value) == b
    decreases |b|
  {
    if b != [] {
      var c := First(b).value;
      EncodedFirst(b);
      FirstSize(b);
      TileOfSplit(b[Size(c)..]);
      var chunks := Split(b).value;
      assert chunks[1..] == Split(b[Size(c)..]).value;
    }
  }

  // What the walk looks for.

  datatype Format = Format(codec: nat, channels: nat, rate: nat, byteRate: nat, blockAlign: nat, bits: nat)

  datatype Found = Found(format: Option<Format>, data: Option<seq<Byte>>)

  // "fmt " and "data"
  const FMT: seq<Byte> := [102, 109, 116, 32]
  const DATA: seq<Byte> := [100, 97, 116, 97]

  function FormatOf(b: seq<Byte>): Format
    requires |b| >= 16
  {
    Format(U16At(b, 0), U16At(b, 2), U32At(b, 4), U32At(b, 8), U16At(b, 12), U16At(b, 14))
  }

  /** One chunk: the first format and the first data are kept, a second of either is an error. */
  function Note(found: Found, c: Chunk): Result<Found>
  {
    if c.id == FMT then
      if found.format.Some? || |c.body| < 16 then Malformed else Ok(found.(format := Some(FormatOf(c.body))))
    else if c.id == DATA then
      if found.data.Some? then Malformed else Ok(found.(data := Some(c.body)))
    else Ok(found)
  }

  function Collect(found: Found, chunks: seq<Chunk>): Result<Found>
    decreases chunks
  {
    if chunks == [] then Ok(found) else
    match Note(found, chunks[0])
    case Malformed => Malformed
    case Ok(found') => Collect(found', chunks[1..])
  }

  lemma {:induction false} SecondIsRejected(found: Found, chunks: seq<Chunk>, j: nat)
    requires j < |chunks|
    requires (chunks[j].id == FMT && found.format.Some?) || (chunks[j].id == DATA && found.data.Some?)
    ensures Collect(found, chunks).Malformed?
    decreases chunks
  {
    var noted := Note(found, chunks[0]);
    if j > 0 && noted.Ok? {
      SecondIsRejected(noted.value, chunks[1..], j - 1);
    }
  }

  /** Two format chunks, or two data chunks, are an error wherever they stand. */
  lemma {:induction false} DuplicateIsRejected(found: Found, chunks: seq<Chunk>, i: nat, j: nat)
    requires i < j < |chunks| && chunks[i].id == chunks[j].id && (chunks[i].id == FMT || chunks[i].id == DATA)
    ensures Collect(found, chunks).Malformed?
    decreases chunks
  {
    var noted := Note(found, chunks[0]);
    if noted.Ok? {
      if i == 0 {
        SecondIsRejected(noted.value, chunks[1..], j - 1);
      } else {
        DuplicateIsRejected(noted.value, chunks[1..], i - 1, j - 1);
      }
    }
  }

  /** What a body holds: nothing, unless it is tiled exactly. */
  function Scan(found: Found, b: seq<Byte>): Result<Found>
  {
    match Split(b)
    case None => Malformed
    case Some(chunks) => Collect(found, chunks)
  }

  const NOTHING := Found(None, None)

  /** The walk over the body of a RIFF file, as the kernel makes it. */
  method Walk(bytes: seq<Byte>) returns (r: Result<Found>)
    requires |bytes| >= 12
    ensures r == Scan(NOTHING, bytes[12..])
  {
    var cursor := 12;
    var found := NOTHING;
    while cursor < |bytes|
      invariant 12 <= cursor <= |bytes|
      invariant Scan(NOTHING, bytes[12..]) == Scan(found, bytes[cursor..])
    {
      var taken := TakeChunk(bytes, cursor, found);
      if taken.Stopped? {
        return Malformed;
      }
      found, cursor := taken.found, taken.cursor;
    }
    assert bytes[cursor..] == [];
    return Ok(found);
  }

  datatype Taken = Stopped | Moved(found: Found, cursor: nat)

  /** One pass of the walk: the chunk at the cursor is noted, or the file is malformed. */
  method TakeChunk(bytes: seq<Byte>, cursor: nat, found: Found) returns (taken: Taken)
    requires cursor < |bytes|
    ensures taken.Stopped? ==> Scan(found, bytes[cursor..]).Malformed?
    ensures taken.Moved? ==> cursor < taken.cursor <= |bytes|
    ensures taken.Moved? ==> Scan(found, bytes[cursor..]) == Scan(taken.found, bytes[taken.cursor..])
  {
    ghost var b := bytes[cursor..];
    if cursor + 8 > |bytes| {
      return Stopped;
    }
    var length := U32At(bytes, cursor + 4);
    assert U32At(b, 4) == length;
    var start := cursor + 8;
    var end := start + length;
    var paddedEnd := end + length % 2;
    if paddedEnd > |bytes| {
      return Stopped;
    }
    ghost var c := First(b).value;
    assert First(b).Some? && bytes[start..end] == c.body && bytes[cursor..cursor + 4] == c.id;
    FirstSize(b);
    ScanStep(found, b);
    assert bytes[paddedEnd..] == b[Size(c)..];
    var id := bytes[cursor..cursor + 4];
    if id == FMT {
      if found.format.Some? || length < 16 {
        return Stopped;
      }
      FormatInPlace(bytes, start, c.body);
      var format := Format(U16At(bytes, start), U16At(bytes, start + 2), U32At(bytes, start + 4),
                           U32At(bytes, start + 8), U16At(bytes, start + 12), U16At(bytes, start + 14));
      return Moved(found.(format := Some(format)), paddedEnd);
    }
    if id == DATA {
      if found.data.Some? {
        return Stopped;
      }
      return Moved(found.(data := Some(bytes[start..end])), paddedEnd);
    }
    return Moved(found, paddedEnd);
  }

  lemma FormatInPlace(bytes: seq<Byte>, start: nat, body: seq<Byte>)
    requires |body| >= 16 && start + |body| <= |bytes| && bytes[start..start + |body|] == body
    ensures FormatOf(body) == Format(U16At(bytes, start), U16At(bytes, start + 2), U32At(bytes, start + 4),
                                     U32At(bytes, start + 8), U16At(bytes, start + 12), U16At(bytes, start + 14))
  {
    assert forall i :: 0 <= i < 16 ==> body[i] == bytes[start + i];
  }

  lemma ScanStep(found: Found, b: seq<Byte>)
    requires b != [] && First(b).Some?
    ensures var c := First(b).value;
      && Size(c) <= |b|
      && Scan(found, b)
         == match Note(found, c) case Malformed => Malformed case Ok(found') => Scan(found', b[Size(c)..])
  {
    FirstSize(b);
    var c := First(b).value;
    if Split(b[Size(c)..]).Some? {
      assert ([c] + Split(b[Size(c)..]).value)[1..] == Split(b[Size(c)..]).value;
    }
  }

  // Unknown chunks.

  lemma {:induction false} CollectAppend(found: Found, a: seq<Chunk>, b: seq<Chunk>)
    ensures Collect(found, a + b)
            == match Collect(found, a) case Malformed => Malformed case Ok(found') => Collect(found', b)
    decreases a
  {
    if a == [] {
      assert a + b == b;
    } else {
      assert (a + b)[1..] == a[1..] + b;
      match Note(found, a[0])
      case Malformed =>
      case Ok(found') => CollectAppend(found', a[1..], b);
    }
  }

  /** A chunk that is neither format nor data may stand anywhere. */
  lemma UnknownChunkIsIgnored(before: seq<Chunk>, unknown: Chunk, after: seq<Chunk>)
    requires AllWellFormed(before) && WellFormed(unknown) && AllWellFormed(after)
    requires unknown.id != FMT && unknown.id != DATA
    ensures Scan(NOTHING, Tile(before + [unknown] + after)) == Scan(NOTHING, Tile(before + after))
  {
    SplitOfTile(before + [unknown] + after);
    SplitOfTile(before + after);
    CollectAppend(NOTHING, before + [unknown], after);
    CollectAppend(NOTHING, before, [unknown]);
    CollectAppend(NOTHING, before, after);
  }
}
