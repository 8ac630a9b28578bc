/** The UEFI loader's kernel ELF: validation, then zeroing and copying the segments into low memory. */
module ElfLoader {
  import opened Bits
  import opened LittleEndian
  import opened Slices

  datatype Segment = Segment(kind: nat, flags: nat, offset: nat, vaddr: nat, paddr: nat, filesz: nat, memsz: nat)

  datatype Error = InvalidElf | UnsafeSegment | OverlappingSegments | InvalidEntry | NoMemory

  datatype Result = Ok(bottom: nat, top: nat) | Err(error: Error)

  // Field offsets of the 64-bit ELF header and program header.

  function Entry(file: seq<Byte>): nat
    requires |file| >= 64
  {
    U64At(file, 24)
  }

  function Phoff(file: seq<Byte>): nat
    requires |file| >= 64
  {
    U64At(file, 32)
  }

  function Phnum(file: seq<Byte>): nat
    requires |file| >= 64
  {
    U16At(file, 56)
  }

  /** A 64-bit little-endian x86-64 executable whose program headers all lie inside the file. */
  predicate HeaderOk(file: seq<Byte>)
  {
    && |file| >= 64
    && file[..6] == [0x7f, 'E' as int, 'L' as int, 'F' as int, 2, 1]
    && U16At(file, 16) == 2
    && U16At(file, 18) == 62
    && U16At(file, 54) == 56
    && Phnum(file) != 0
    && Phoff(file) + 56 * Phnum(file) <= |file|
  }

  function SegmentAt(file: seq<Byte>, o: nat): Segment
    requires o + 56 <= |file|
  {
    Segment(U32At(file, o), U32At(file, o + 4), U64At(file, o + 8), U64At(file, o + 16),
            U64At(file, o + 24), U64At(file, o + 32), U64At(file, o + 40))
  }

  /** The program header table. */
  function Segments(file: seq<Byte>): (segments: seq<Segment>)
    requires HeaderOk(file)
    ensures |segments| == Phnum(file)
  {
    seq(Phnum(file), i requires 0 <= i < Phnum(file) => SegmentAt(file, Phoff(file) + 56 * i))
  }

  predicate Load(s: Segment) { s.kind == 1 }

  /** Inside the file, identity mapped, and inside [1 MiB, 1 GiB). */
  predicate Safe(s: Segment, length: nat)
  {
    && s.filesz <= s.memsz
    && s.offset + s.filesz <= length
    && s.vaddr == s.paddr
    && 0x10_0000 <= s.paddr < 0x4000_0000
    && s.paddr + s.memsz <= 0x4000_0000
  }

  predicate Holds(s: Segment, address: nat)
  {
    s.paddr <= address < s.paddr + s.memsz
  }

  /** The address is a byte of the file placed by an executable segment. */
  predicate EntersAt(s: Segment, entry: nat)
  {
    Load(s) && s.flags % 2 == 1 && s.paddr <= entry < s.paddr + s.filesz
  }

  ghost predicate AllSafe(segments: seq<Segment>, length: nat)
  {
    forall i :: 0 <= i < |segments| && Load(segments[i]) ==> Safe(segments[i], length)
  }

  ghost predicate Shared(s: Segment, t: Segment)
  {
    exists a: nat :: Holds(s, a) && Holds(t, a)
  }

  /** No address belongs to two loaded segments, whichever comes first. */
  ghost predicate Disjoint(segments: seq<Segment>)
  {
    forall i, j :: 0 <= i < |segments| && 0 <= j < |segments| && i != j && Load(segments[i]) && Load(segments[j])
      ==> !Shared(segments[i], segments[j])
  }

  ghost predicate HasEntry(segments: seq<Segment>, entry: nat)
  {
    exists i :: 0 <= i < |segments| && EntersAt(segments[i], entry)
  }

  ghost predicate Acceptable(file: seq<Byte>)
  {
    && HeaderOk(file)
    && AllSafe(Segments(file), |file|)
    && Disjoint(Segments(file))
    && HasEntry(Segments(file), Entry(file))
  }

  function Floor(a: nat): nat { a - a % 4096 }
  function Ceiling(a: nat): nat { Floor(a + 4095) }

  predicate Occupies(s: Segment) { Load(s) && s.memsz > 0 }

  /** Every loaded byte lies in [bottom, top). */
  ghost predicate Covers(segments: seq<Segment>, bottom: nat, top: nat)
  {
    forall i :: 0 <= i < |segments| && Occupies(segments[i])
      ==> bottom <= segments[i].paddr && segments[i].paddr + segments[i].memsz <= top
  }

  /** The lowest page of a segment, or still the largest 64-bit number. */
  ghost predicate BottomOf(segments: seq<Segment>, bottom: nat)
  {
    || bottom == 0xFFFF_FFFF_FFFF_FFFF
    || exists i :: 0 <= i < |segments| && Occupies(segments[i]) && bottom == Floor(segments[i].paddr)
  }

  /** The end of the last page of a segment, or still zero. */
  ghost predicate TopOf(segments: seq<Segment>, top: nat)
  {
    || top == 0
    || exists i :: 0 <= i < |segments| && Occupies(segments[i])
                   && top == Ceiling(segments[i].paddr + segments[i].memsz)
  }

  /** The least page range around the loaded bytes. */
  ghost predicate Bounds(segments: seq<Segment>, bottom: nat, top: nat)
  {
    Covers(segments, bottom, top) && BottomOf(segments, bottom) && TopOf(segments, top)
  }

  /** The header checks, with the division that keeps the table bound from overflowing. */
  method CheckHeader(file: seq<Byte>) returns (ok: bool)
    ensures ok <==> HeaderOk(file)
  {
    if |file| < 64 {
      return false;
    }
    ok := !(|| file[0] != 0x7f || file[1] != 'E' as int || file[2] != 'L' as int || file[3] != 'F' as int
            || file[4] != 2 || file[5] != 1 || U16At(file, 16) != 2 || U16At(file, 18) != 62
            || U16At(file, 54) != 56 || Phnum(file) == 0
            || Phoff(file) > |file| || Phnum(file) > (|file| - Phoff(file)) / 56);
  }

  /** The checks on one segment. */
  method CheckSegment(s: Segment, length: nat) returns (safe: bool)
    ensures safe <==> Safe(s, length)
  {
    safe := !(|| s.filesz > s.memsz || s.offset > length || s.filesz > length - s.offset
              || s.vaddr != s.paddr || s.paddr < 0x10_0000 || s.paddr >= 0x4000_0000
              || s.memsz > 0x4000_0000 - s.paddr);
  }

  /** Two intervals that the loader's comparison keeps apart share no address, and conversely. */
  lemma Intersects(s: Segment, t: Segment)
    requires s.memsz > 0 && t.memsz > 0
    ensures (s.paddr < t.paddr + t.memsz && t.paddr < s.paddr + s.memsz) <==> Shared(s, t)
  {
    if s.paddr < t.paddr + t.memsz && t.paddr < s.paddr + s.memsz {
      var a := if s.paddr < t.paddr then t.paddr else s.paddr;
      assert Holds(s, a) && Holds(t, a);
    }
  }

  /** The inner loop: does a segment meet an earlier loaded one? The sums are 64-bit and do not wrap. */
  method MeetsEarlier(p: Segment, earlier: seq<Segment>, ghost length: nat) returns (meets: bool)
    requires AllSafe(earlier, length) && Safe(p, length) && Occupies(p)
    ensures meets <==> exists j :: 0 <= j < |earlier| && Load(earlier[j]) && Shared(p, earlier[j])
  {
    for j := 0 to |earlier|
      invariant forall k :: 0 <= k < j && Load(earlier[k]) ==> !Shared(p, earlier[k])
    {
      var previous := earlier[j];
      if previous.kind == 1 && previous.memsz != 0 {
        Intersects(p, previous);
        if p.paddr < Wrap64(previous.paddr + previous.memsz) && previous.paddr < Wrap64(p.paddr + p.memsz) {
          return true;
        }
      }
    }
    return false;
  }

  /** Widens the page range by one segment. */
  method Widen(segments: seq<Segment>, p: Segment, bottom0: nat, top0: nat, ghost length: nat)
    returns (bottom: nat, top: nat)
    requires Occupies(p) && Safe(p, length) && Bounds(segments, bottom0, top0)
    ensures Bounds(segments + [p], bottom, top)
  {
    bottom, top := bottom0, top0;
    if Floor(p.paddr) < bottom {
      bottom := Floor(p.paddr);
    }
    var end := Floor(Wrap64(p.paddr + p.memsz + 4095));
    if end > top {
      top := end;
    }
    WidenBottom(segments, p, bottom0, bottom);
    WidenTop(segments, p, top0, top);
  }

  lemma WidenBottom(segments: seq<Segment>, p: Segment, bottom0: nat, bottom: nat)
    requires Occupies(p) && BottomOf(segments, bottom0)
    requires bottom == if Floor(p.paddr) < bottom0 then Floor(p.paddr) else bottom0
    ensures BottomOf(segments + [p], bottom)
  {
    var longer := segments + [p];
    if bottom == bottom0 && bottom0 != 0xFFFF_FFFF_FFFF_FFFF {
      var i :| 0 <= i < |segments| && Occupies(segments[i]) && bottom0 == Floor(segments[i].paddr);
      assert longer[i] == segments[i];
    } else if bottom != bottom0 {
      assert longer[|segments|] == p;
    }
  }

  lemma WidenTop(segments: seq<Segment>, p: Segment, top0: nat, top: nat)
    requires Occupies(p) && TopOf(segments, top0)
    requires top == if Ceiling(p.paddr + p.memsz) > top0 then Ceiling(p.paddr + p.memsz) else top0
    ensures TopOf(segments + [p], top)
  {
    var longer := segments + [p];
    if top == top0 && top0 != 0 {
      var i :| 0 <= i < |segments| && Occupies(segments[i]) && top0 == Ceiling(segments[i].paddr + segments[i].memsz);
      assert longer[i] == segments[i];
    } else if top != top0 {
      assert longer[|segments|] == p;
    }
  }

  lemma DisjointStep(segments: seq<Segment>, p: Segment)
    requires Disjoint(segments)
    ensures Disjoint(segments + [p])
            <==> (Load(p) ==> forall j :: 0 <= j < |segments| && Load(segments[j]) ==> !Shared(p, segments[j]))
  {
    var longer, n := segments + [p], |segments|;
    if Load(p) && Disjoint(longer) {
      forall j | 0 <= j < n && Load(segments[j]) ensures !Shared(p, segments[j]) {
        assert longer[j] == segments[j] && longer[n] == p;
      }
    }
  }

  /** What the validation loop has established about the headers it has passed. */
  ghost predicate Passed(segments: seq<Segment>, length: nat, entry: nat, bottom: nat, top: nat, entryValid: bool)
  {
    && AllSafe(segments, length)
    && Disjoint(segments)
    && Bounds(segments, bottom, top)
    && (entryValid <==> HasEntry(segments, entry))
  }

  lemma EntryStep(segments: seq<Segment>, p: Segment, entry: nat)
    ensures HasEntry(segments + [p], entry) <==> HasEntry(segments, entry) || EntersAt(p, entry)
  {
    var longer := segments + [p];
    if HasEntry(segments, entry) {
      var i :| 0 <= i < |segments| && EntersAt(segments[i], entry);
      assert longer[i] == segments[i];
    }
    assert longer[|segments|] == p;
  }

  /** A header that loads no bytes changes nothing. */
  lemma PassEmpty(segments: seq<Segment>, p: Segment, length: nat, entry: nat, bottom: nat, top: nat, entryValid: bool)
    requires Passed(segments, length, entry, bottom, top, entryValid)
    requires !Load(p) || (Safe(p, length) && p.memsz == 0)
    ensures Passed(segments + [p], length, entry, bottom, top, entryValid)
  {
    DisjointStep(segments, p);
    EntryStep(segments, p, entry);
    BoundsEmpty(segments, p, bottom, top);
  }

  lemma BoundsEmpty(segments: seq<Segment>, p: Segment, bottom: nat, top: nat)
    requires Bounds(segments, bottom, top) && !Occupies(p)
    ensures Bounds(segments + [p], bottom, top)
  {
    if BottomOf(segments, bottom) && bottom != 0xFFFF_FFFF_FFFF_FFFF {
      var i :| 0 <= i < |segments| && Occupies(segments[i]) && bottom == Floor(segments[i].paddr);
      assert (segments + [p])[i] == segments[i];
    }
    if TopOf(segments, top) && top != 0 {
      var i :| 0 <= i < |segments| && Occupies(segments[i]) && top == Ceiling(segments[i].paddr + segments[i].memsz);
      assert (segments + [p])[i] == segments[i];
    }
  }

  datatype Verdict = Pass(bottom: nat, top: nat, entryValid: bool) | Reject(error: Error)

  /** One pass of the outer loop. */
  method PassHeader(segments: seq<Segment>, p: Segment, length: nat, entry: nat,
                    bottom: nat, top: nat, entryValid: bool)
    returns (v: Verdict)
    requires Passed(segments, length, entry, bottom, top, entryValid)
    ensures v.Reject? ==> v.error == UnsafeSegment || v.error == OverlappingSegments
    ensures v == Reject(UnsafeSegment) ==> Load(p) && !Safe(p, length)
    ensures v == Reject(OverlappingSegments) ==> !Disjoint(segments + [p])
    ensures v.Pass? ==> Passed(segments + [p], length, entry, v.bottom, v.top, v.entryValid)
  {
    if p.kind != 1 {
      PassEmpty(segments, p, length, entry, bottom, top, entryValid);
      return Pass(bottom, top, entryValid);
    }
    var safe := CheckSegment(p, length);
    if !safe {
      return Reject(UnsafeSegment);
    }
    if p.memsz == 0 {
      PassEmpty(segments, p, length, entry, bottom, top, entryValid);
      return Pass(bottom, top, entryValid);
    }
    var meets := MeetsEarlier(p, segments, length);
    DisjointStep(segments, p);
    if meets {
      return Reject(OverlappingSegments);
    }
    var enters := p.flags % 2 == 1 && entry >= p.paddr && entry - p.paddr < p.filesz;
    EntryStep(segments, p, entry);
    var bottom', top' := Widen(segments, p, bottom, top, length);
    return Pass(bottom', top', entryValid || enters);
  }

  method Validate(file: seq<Byte>) returns (r: Result)
    ensures r.Ok? <==> Acceptable(file)
    ensures r.Ok? ==> Bounds(Segments(file), r.bottom, r.top) && r.bottom < r.top
    ensures r == Err(InvalidElf) <==> !HeaderOk(file)
    ensures r == Err(UnsafeSegment) ==> HeaderOk(file) && !AllSafe(Segments(file), |file|)
    ensures r == Err(OverlappingSegments) ==> HeaderOk(file) && !Disjoint(Segments(file))
    ensures r == Err(InvalidEntry) ==> HeaderOk(file) && !HasEntry(Segments(file), Entry(file))
    ensures r != Err(NoMemory)
  {
    var headerOk := CheckHeader(file);
    if !headerOk {
      return Err(InvalidElf);
    }
    var segments := Segments(file);
    r := ValidateSegments(segments, |file|, Entry(file));
  }

  method ValidateSegments(segments: seq<Segment>, length: nat, entry: nat) returns (r: Result)
    ensures r.Ok? <==> AllSafe(segments, length) && Disjoint(segments) && HasEntry(segments, entry)
    ensures r.Ok? ==> Bounds(segments, r.bottom, r.top) && r.bottom < r.top
    ensures r == Err(UnsafeSegment) ==> !AllSafe(segments, length)
    ensures r == Err(OverlappingSegments) ==> !Disjoint(segments)
    ensures r == Err(InvalidEntry) ==> !HasEntry(segments, entry)
    ensures r != Err(InvalidElf) && r != Err(NoMemory)
  {
    var bottom, top, entryValid := 0xFFFF_FFFF_FFFF_FFFF, 0, false;
    for i := 0 to |segments|
      invariant Passed(segments[..i], length, entry, bottom, top, entryValid)
    {
      assert segments[..i] + [segments[i]] == segments[..i + 1];
      var v := PassHeader(segments[..i], segments[i], length, entry, bottom, top, entryValid);
      if v.Reject? {
        DisjointPrefix(segments, i + 1);
        return Err(v.error);
      }
      bottom, top, entryValid := v.bottom, v.top, v.entryValid;
    }
    assert segments[..|segments|] == segments;
    if entryValid {
      EntryIsCovered(segments, length, entry, bottom, top);
    }
    if !entryValid || bottom >= top {
      return Err(InvalidEntry);
    }
    return Ok(bottom, top);
  }

  lemma DisjointPrefix(segments: seq<Segment>, n: nat)
    requires n <= |segments|
    ensures Disjoint(segments) ==> Disjoint(segments[..n])
  {
    var prefix := segments[..n];
    forall i, j | 0 <= i < n && 0 <= j < n && i != j && Load(prefix[i]) && Load(prefix[j]) && Disjoint(segments)
      ensures !Shared(prefix[i], prefix[j])
    {
      assert prefix[i] == segments[i] && prefix[j] == segments[j];
    }
  }

  lemma EntryIsCovered(segments: seq<Segment>, length: nat, entry: nat, bottom: nat, top: nat)
    requires AllSafe(segments, length) && Covers(segments, bottom, top) && HasEntry(segments, entry)
    ensures bottom <= entry < top
  {
    var i :| 0 <= i < |segments| && EntersAt(segments[i], entry);
    assert Safe(segments[i], length) && Occupies(segments[i]);
  }

  // Zeroing and copying.

  /** The byte at an address once memory has been zeroed and the first n headers copied, later copies on top. */
  function ImageByte(file: seq<Byte>, segments: seq<Segment>, n: nat, a: nat): Byte
    requires n <= |segments| && AllSafe(segments, |file|)
  {
    if n == 0 then 0
    else
      var s := segments[n - 1];
      if Load(s) && s.paddr <= a < s.paddr + s.filesz then file[s.offset + (a - s.paddr)]
      else ImageByte(file, segments, n - 1, a)
  }

  /** What loading a kernel makes of memory: its image in the least page range below 1 GiB, and nothing else changed. */
  ghost predicate Leaves(file: seq<Byte>, bottom: nat, top: nat, before: seq<Byte>, after: seq<Byte>)
    requires Acceptable(file)
  {
    && Bounds(Segments(file), bottom, top) && bottom < top <= |before| == |after| == 0x4000_0000
    && forall a :: 0 <= a < |after| ==>
         after[a] == if bottom <= a < top then ImageByte(file, Segments(file), |Segments(file)|, a) else before[a]
  }

  /** Validates, reserves the pages, zeroes them and copies every segment. */
  method LoadKernel(file: seq<Byte>, memory: array<Byte>, reserved: bool) returns (r: Result)
    requires memory.Length == 0x4000_0000
    modifies memory
    ensures r.Ok? <==> Acceptable(file) && reserved
    ensures !r.Ok? ==> memory[..] == old(memory[..])
    ensures r.Ok? ==> Leaves(file, r.bottom, r.top, old(memory[..]), memory[..])
  {
    r := Validate(file);
    if r.Err? {
      return;
    }
    if !reserved {
      return Err(NoMemory);
    }
    var segments := Segments(file);
    TopIsLow(segments, |file|, r.top);
    LoadSegments(file, segments, memory, r.bottom, r.top);
  }

  /** The body of the loader once everything has been accepted. */
  method LoadSegments(file: seq<Byte>, segments: seq<Segment>, memory: array<Byte>, bottom: nat, top: nat)
    requires memory.Length == 0x4000_0000 && bottom <= top <= memory.Length
    requires AllSafe(segments, |file|) && Covers(segments, bottom, top)
    modifies memory
    ensures forall a :: 0 <= a < memory.Length ==>
      memory[a] == if bottom <= a < top then ImageByte(file, segments, |segments|, a) else old(memory[a])
  {
    forall a | bottom <= a < top {
      memory[a] := 0;
    }
    CopySegments(file, segments, memory, bottom, top);
  }

  method CopySegments(file: seq<Byte>, segments: seq<Segment>, memory: array<Byte>, ghost bottom: nat, ghost top: nat)
    requires memory.Length == 0x4000_0000 && bottom <= top <= memory.Length
    requires AllSafe(segments, |file|) && Covers(segments, bottom, top)
    requires forall a :: bottom <= a < top ==> memory[a] == 0
    modifies memory
    ensures forall a :: 0 <= a < memory.Length ==>
      memory[a] == if bottom <= a < top then ImageByte(file, segments, |segments|, a) else old(memory[a])
  {
    for i := 0 to |segments|
      invariant forall a :: 0 <= a < memory.Length ==>
        memory[a] == if bottom <= a < top then ImageByte(file, segments, i, a) else old(memory[a])
    {
      var p := segments[i];
      if p.kind == 1 && p.filesz != 0 {
        assert Safe(p, |file|) && Occupies(p);
        CopyInto(memory, p.paddr, file[p.offset..p.offset + p.filesz]);
      }
    }
  }

  lemma TopIsLow(segments: seq<Segment>, length: nat, top: nat)
    requires AllSafe(segments, length) && TopOf(segments, top)
    ensures top <= 0x4000_0000
  {
    if top != 0 {
      var i :| 0 <= i < |segments| && Occupies(segments[i]) && top == Ceiling(segments[i].paddr + segments[i].memsz);
      assert Safe(segments[i], length);
    }
  }

  /** Program loading: every segment's memory is its file bytes and then zeros, wherever its header stands. */
  lemma SegmentIsLoaded(file: seq<Byte>, i: nat, k: nat)
    requires Acceptable(file) && i < |Segments(file)| && Load(Segments(file)[i]) && k < Segments(file)[i].memsz
    ensures var s := Segments(file)[i];
      ImageByte(file, Segments(file), |Segments(file)|, s.paddr + k) == if k < s.filesz then file[s.offset + k] else 0
  {
    OnlyOneWrites(file, Segments(file), |Segments(file)|, i, Segments(file)[i].paddr + k);
  }

  lemma {:induction false} OnlyOneWrites(file: seq<Byte>, segments: seq<Segment>, n: nat, i: nat, a: nat)
    requires n <= |segments| && i < |segments| && AllSafe(segments, |file|) && Disjoint(segments)
    requires Load(segments[i]) && Holds(segments[i], a)
    ensures var s := segments[i];
      ImageByte(file, segments, n, a) == if i < n && a < s.paddr + s.filesz then file[s.offset + (a - s.paddr)] else 0
  {
    if n > 0 {
      var s := segments[n - 1];
      if Load(s) && s.paddr <= a < s.paddr + s.filesz && n - 1 != i {
        assert Safe(s, |file|);
        assert Shared(s, segments[i]) by { assert Holds(s, a); }
      }
      OnlyOneWrites(file, segments, n - 1, i, a);
    }
  }

  function FileBytes(file: seq<Byte>, s: Segment): seq<Byte>
    requires Safe(s, |file|)
  {
    file[s.offset..s.offset + s.filesz]
  }

  /** Every loaded segment of one table has a counterpart in the other: the same bytes at the same place.
      `where[i]` is the position of the counterpart of segment i. */
  ghost predicate PlacedBy(file: seq<Byte>, segments: seq<Segment>, file': seq<Byte>, segments': seq<Segment>,
                           where: seq<nat>)
    requires AllSafe(segments, |file|) && AllSafe(segments', |file'|)
  {
    && |where| == |segments|
    && forall i :: 0 <= i < |segments| && Load(segments[i]) ==>
         && where[i] < |segments'| && Load(segments'[where[i]])
         && segments[i].paddr == segments'[where[i]].paddr && segments[i].memsz == segments'[where[i]].memsz
         && FileBytes(file, segments[i]) == FileBytes(file', segments'[where[i]])
  }

  /** Header order is irrelevant: two kernels with the same placements have the same image. */
  lemma OrderIsIrrelevant(file: seq<Byte>, segments: seq<Segment>, file': seq<Byte>, segments': seq<Segment>,
                          there: seq<nat>, back: seq<nat>, a: nat)
    requires AllSafe(segments, |file|) && Disjoint(segments)
    requires AllSafe(segments', |file'|) && Disjoint(segments')
    requires PlacedBy(file, segments, file', segments', there) && PlacedBy(file', segments', file, segments, back)
    ensures ImageByte(file, segments, |segments|, a) == ImageByte(file', segments', |segments'|, a)
  {
    if i :| 0 <= i < |segments| && Load(segments[i]) && Holds(segments[i], a) {
      SameByte(file, segments, file', segments', i, there[i], a);
    } else if j :| 0 <= j < |segments'| && Load(segments'[j]) && Holds(segments'[j], a) {
      SameByte(file', segments', file, segments, j, back[j], a);
    } else {
      NobodyWrites(file, segments, |segments|, a);
      NobodyWrites(file', segments', |segments'|, a);
    }
  }

  lemma FloorIsGreatest(p: nat, a: nat)
    requires Floor(p) <= a
    ensures Floor(p) <= Floor(a)
  {
  }

  lemma CeilingIsLeast(p: nat, a: nat)
    requires a <= Ceiling(p)
    ensures Ceiling(a) <= Ceiling(p)
  {
  }

  /** The least range of one table starts no later than that of the other. */
  lemma BottomReaches(segments: seq<Segment>, i: nat, bottom: nat)
    requires i < |segments| && Occupies(segments[i]) && bottom <= segments[i].paddr && BottomOf(segments, bottom)
    requires bottom < 0xFFFF_FFFF_FFFF_FFFF
    ensures bottom <= Floor(segments[i].paddr)
  {
    var k :| 0 <= k < |segments| && Occupies(segments[k]) && bottom == Floor(segments[k].paddr);
    FloorIsGreatest(segments[k].paddr, segments[i].paddr);
  }

  lemma TopReaches(segments: seq<Segment>, i: nat, top: nat)
    requires i < |segments| && Occupies(segments[i]) && TopOf(segments, top)
    requires 0 < segments[i].paddr + segments[i].memsz <= top
    ensures Ceiling(segments[i].paddr + segments[i].memsz) <= top
  {
    var k :| 0 <= k < |segments| && Occupies(segments[k]) && top == Ceiling(segments[k].paddr + segments[k].memsz);
    CeilingIsLeast(segments[k].paddr + segments[k].memsz, segments[i].paddr + segments[i].memsz);
  }

  /** A page range around the placements of one table reaches at least as far as the least one of the other. */
  lemma BoundsContain(file: seq<Byte>, segments: seq<Segment>, file': seq<Byte>, segments': seq<Segment>,
                      back: seq<nat>, bottom: nat, top: nat, bottom': nat, top': nat)
    requires AllSafe(segments, |file|) && AllSafe(segments', |file'|)
    requires PlacedBy(file', segments', file, segments, back)
    requires Bounds(segments, bottom, top) && bottom < top <= 0x4000_0000
    requires Bounds(segments', bottom', top') && bottom' < top' <= 0x4000_0000
    ensures bottom <= bottom' && top' <= top
  {
    var i :| 0 <= i < |segments'| && Occupies(segments'[i]) && bottom' == Floor(segments'[i].paddr);
    assert Occupies(segments[back[i]]);
    BottomReaches(segments, back[i], bottom);
    var j :| 0 <= j < |segments'| && Occupies(segments'[j])
             && top' == Ceiling(segments'[j].paddr + segments'[j].memsz);
    assert Occupies(segments[back[j]]);
    TopReaches(segments, back[j], top);
  }

  /** Two kernels with the same placements reserve the same pages and leave the same memory. */
  lemma SamePlacementsSameMemory(file: seq<Byte>, file': seq<Byte>, there: seq<nat>, back: seq<nat>,
                                 bottom: nat, top: nat, bottom': nat, top': nat,
                                 before: seq<Byte>, after: seq<Byte>, after': seq<Byte>)
    requires Acceptable(file) && Acceptable(file')
    requires PlacedBy(file, Segments(file), file', Segments(file'), there)
    requires PlacedBy(file', Segments(file'), file, Segments(file), back)
    requires Leaves(file, bottom, top, before, after) && Leaves(file', bottom', top', before, after')
    ensures bottom == bottom' && top == top' && after == after'
  {
    var s, s' := Segments(file), Segments(file');
    BoundsContain(file, s, file', s', back, bottom, top, bottom', top');
    BoundsContain(file', s', file, s, there, bottom', top', bottom, top);
    forall a: nat ensures ImageByte(file, s, |s|, a) == ImageByte(file', s', |s'|, a) {
      OrderIsIrrelevant(file, s, file', s', there, back, a);
    }
    SameImageSameMemory(file, file', bottom, top, before, after, after');
  }

  lemma SameImageSameMemory(file: seq<Byte>, file': seq<Byte>, bottom: nat, top: nat,
                            before: seq<Byte>, after: seq<Byte>, after': seq<Byte>)
    requires Acceptable(file) && Acceptable(file')
    requires Leaves(file, bottom, top, before, after) && Leaves(file', bottom, top, before, after')
    requires forall a: nat ::
      ImageByte(file, Segments(file), |Segments(file)|, a) == ImageByte(file', Segments(file'), |Segments(file')|, a)
    ensures after == after'
  {
  }

  lemma SameByte(file: seq<Byte>, segments: seq<Segment>, file': seq<Byte>, segments': seq<Segment>, i: nat, j: nat,
                 a: nat)
    requires AllSafe(segments, |file|) && Disjoint(segments)
    requires AllSafe(segments', |file'|) && Disjoint(segments')
    requires i < |segments| && Load(segments[i]) && Holds(segments[i], a)
    requires j < |segments'| && Load(segments'[j])
    requires segments[i].paddr == segments'[j].paddr && segments[i].memsz == segments'[j].memsz
    requires FileBytes(file, segments[i]) == FileBytes(file', segments'[j])
    ensures ImageByte(file, segments, |segments|, a) == ImageByte(file', segments', |segments'|, a)
  {
    WrittenByte(file, segments, i, a);
    WrittenByte(file', segments', j, a);
  }

  /** The byte at an address of a segment, in terms of the segment's bytes in the file. */
  lemma WrittenByte(file: seq<Byte>, segments: seq<Segment>, i: nat, a: nat)
    requires AllSafe(segments, |file|) && Disjoint(segments)
    requires i < |segments| && Load(segments[i]) && Holds(segments[i], a)
    ensures var bytes, k := FileBytes(file, segments[i]), a - segments[i].paddr;
      ImageByte(file, segments, |segments|, a) == if k < |bytes| then bytes[k] else 0
  {
    OnlyOneWrites(file, segments, |segments|, i, a);
  }

  /** Memory that no segment claims stays zero. */
  lemma {:induction false} NobodyWrites(file: seq<Byte>, segments: seq<Segment>, n: nat, a: nat)
    requires n <= |segments| && AllSafe(segments, |file|)
    requires forall i :: 0 <= i < |segments| && Load(segments[i]) ==> !Holds(segments[i], a)
    ensures ImageByte(file, segments, n, a) == 0
  {
    if n > 0 {
      assert Load(segments[n - 1]) ==> Safe(segments[n - 1], |file|);
      NobodyWrites(file, segments, n - 1, a);
    }
  }
}
