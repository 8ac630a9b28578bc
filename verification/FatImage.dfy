/** Reading a FAT16 volume, as the Microsoft FAT specification describes the layout. */
module FatReader {
  import opened Bits
  import opened LittleEndian
  import opened Options

  /** The fields of the boot sector that locate everything else. */
  datatype Volume = Volume(sectorBytes: nat, clusterSectors: nat, reserved: nat, fats: nat,
                           rootEntries: nat, fatSectors: nat, totalSectors: nat)

  datatype Entry = Entry(name: seq<Byte>, attributes: nat, cluster: nat, size: nat)

  function VolumeOf(image: seq<Byte>): Volume
    requires |image| >= 512
  {
    Volume(U16At(image, 11), image[13], U16At(image, 14), image[16], U16At(image, 17), U16At(image, 22),
           U32At(image, 32))
  }

  /** Where the regions of a volume start, in bytes. */
  datatype Geometry = Geometry(fat: nat, fatBytes: nat, root: nat, data: nat, cluster: nat)

  function GeometryOf(v: Volume): Geometry
    requires v.sectorBytes > 0
  {
    var rootSectors := (v.rootEntries * 32 + v.sectorBytes - 1) / v.sectorBytes;
    var firstRootSector := v.reserved + v.fats * v.fatSectors;
    Geometry(v.reserved * v.sectorBytes,
             v.fatSectors * v.sectorBytes,
             firstRootSector * v.sectorBytes,
             (firstRootSector + rootSectors) * v.sectorBytes,
             v.clusterSectors * v.sectorBytes)
  }

  predicate EndOfChain(link: nat) { link >= 0xFFF8 }

  /** The first `size` bytes along the chain that starts at `cluster` in the allocation table at `fat`;
      clusters number from 2, and the chain must end with the cluster that holds the last byte. */
  function ReadChain(image: seq<Byte>, fat: nat, data: nat, bytes: nat, cluster: nat, size: nat): Option<seq<Byte>>
    decreases size
  {
    if size == 0 then Some([])
    else if bytes == 0 || cluster < 2 || fat + 2 * cluster + 2 > |image| then None
    else
      var start := data + (cluster - 2) * bytes;
      if start + bytes > |image| then None
      else
        var link := U16At(image, fat + 2 * cluster);
        if size <= bytes then
          if EndOfChain(link) then Some(image[start..start + size]) else None
        else
          match ReadChain(image, fat, data, bytes, link, size - bytes)
          case None => None
          case Some(rest) => Some(image[start..start + bytes] + rest)
  }

  function EntryAt(image: seq<Byte>, o: nat): Entry
    requires o + 32 <= |image|
  {
    Entry(image[o..o + 11], image[o + 11], U16At(image, o + 26), U32At(image, o + 28))
  }

  /** Looks a short name up among n directory entries; a zero first byte ends the directory. */
  function Find(image: seq<Byte>, o: nat, n: nat, name: seq<Byte>): Option<Entry>
    requires o + 32 * n <= |image|
    decreases n
  {
    if n == 0 || image[o] == 0 then None
    else if EntryAt(image, o).name == name then Some(EntryAt(image, o))
    else Find(image, o + 32, n - 1, name)
  }

  /** Looks a name up in a directory that occupies one cluster. */
  function FindIn(image: seq<Byte>, data: nat, bytes: nat, cluster: nat, name: seq<Byte>): Option<Entry>
  {
    if cluster < 2 || data + (cluster - 2) * bytes + bytes > |image| then None
    else Find(image, data + (cluster - 2) * bytes, bytes / 32, name)
  }

  predicate IsDirectory(e: Option<Entry>) { e.Some? && e.value.attributes / 16 % 2 == 1 }

  /** The directory entry of /directory/subdirectory/file. */
  function Lookup(image: seq<Byte>, g: Geometry, rootEntries: nat,
                  directory: seq<Byte>, subdirectory: seq<Byte>, file: seq<Byte>): Option<Entry>
  {
    if g.root + 32 * rootEntries > |image| then None else
    var d := Find(image, g.root, rootEntries, directory);
    if !IsDirectory(d) then None else
    var s := FindIn(image, g.data, g.cluster, d.value.cluster, subdirectory);
    if !IsDirectory(s) then None else
    FindIn(image, g.data, g.cluster, s.value.cluster, file)
  }

  function TableStart(g: Geometry, copy: nat): nat
  {
    g.fat + copy * g.fatBytes
  }

  /** The contents of /directory/subdirectory/file, following one copy of the allocation table. */
  function Open(image: seq<Byte>, copy: nat, directory: seq<Byte>, subdirectory: seq<Byte>, file: seq<Byte>)
      : Option<seq<Byte>>
  {
    if |image| < 512 || VolumeOf(image).sectorBytes == 0 then None else
    var g := GeometryOf(VolumeOf(image));
    var f := Lookup(image, g, VolumeOf(image).rootEntries, directory, subdirectory, file);
    if f.None? || IsDirectory(f) then None
    else ReadChain(image, TableStart(g, copy), g.data, g.cluster, f.value.cluster, f.value.size)
  }
}

/** The Genesis EFI image: a 32 MiB FAT16 volume holding /EFI/BOOT/BOOTX64.EFI. */
module FatImage {
  import opened Bits
  import opened FatReader
  import opened LittleEndian
  import opened Options
  import opened Slices

  const GENESIS := Volume(512, 2, 1, 2, 512, 128, 65536)

  // Short names: eight bytes and an extension of three, padded with spaces.
  // "EFI        "
  const EFI_NAME: seq<Byte> := [69, 70, 73, 32, 32, 32, 32, 32, 32, 32, 32]
  // ".          "
  const SELF_NAME: seq<Byte> := [46, 32, 32, 32, 32, 32, 32, 32, 32, 32, 32]
  // "..         "
  const PARENT_NAME: seq<Byte> := [46, 46, 32, 32, 32, 32, 32, 32, 32, 32, 32]
  // "BOOT       "
  const BOOT_NAME: seq<Byte> := [66, 79, 79, 84, 32, 32, 32, 32, 32, 32, 32]
  // "BOOTX64 EFI"
  const FILE_NAME: seq<Byte> := [66, 79, 79, 84, 88, 54, 52, 32, 69, 70, 73]

  function ClusterOffset(cluster: nat): nat
    requires cluster >= 2
  {
    (289 + (cluster - 2) * 2) * 512
  }

  /** Clusters the file needs. */
  function FileClusters(length: nat): nat
  {
    (length + 1023) / 1024
  }

  /** The link of every cluster when the file takes n clusters from 4 on. */
  function Link(cluster: nat, n: nat): (link: nat)
    requires n <= 32620
    ensures link < 0x1_0000
  {
    if cluster == 0 then 0xFFF8
    else if cluster < 4 then 0xFFFF
    else if cluster < 4 + n then (if cluster + 1 == 4 + n then 0xFFFF else cluster + 1)
    else 0
  }

  /** Everything a reader needs to find in the image. */
  ghost predicate IsGenesis(image: seq<Byte>, app: seq<Byte>)
  {
    && |image| == 33_554_432
    && FileClusters(|app|) <= 32620
    && VolumeOf(image) == GENESIS
    && HasLinks(image, 512, FileClusters(|app|))
    && HasLinks(image, 66_048, FileClusters(|app|))
    && HasDirectories(image, |app|)
    && image[150_016..150_016 + |app|] == app
  }

  ghost predicate HasLinks(image: seq<Byte>, o: nat, n: nat)
    requires o + 65536 <= |image| && n <= 32620
  {
    forall c :: 0 <= c < 32768 ==> U16At(image, o + 2 * c) == Link(c, n)
  }

  /** A directory cluster that lists itself, its parent and one more entry. */
  ghost predicate Lists(image: seq<Byte>, o: nat, cluster: nat, parent: nat, e: Entry)
    requires o + 1024 <= |image|
  {
    && EntryAt(image, o) == Entry(SELF_NAME, 0x10, cluster, 0)
    && EntryAt(image, o + 32) == Entry(PARENT_NAME, 0x10, parent, 0)
    && EntryAt(image, o + 64) == e
  }

  ghost predicate HasDirectories(image: seq<Byte>, size: nat)
    requires |image| == 33_554_432
  {
    && EntryAt(image, 131_584) == Entry(EFI_NAME, 0x10, 2, 0)
    && Lists(image, 147_968, 2, 0, Entry(BOOT_NAME, 0x10, 3, 0))
    && Lists(image, 148_992, 3, 2, Entry(FILE_NAME, 0x20, 4, size))
  }

  // The image reads back.

  lemma GenesisGeometry()
    ensures GeometryOf(GENESIS) == Geometry(512, 65_536, 131_584, 147_968, 1024)
  {
  }

  /** Cluster 4 + k is in the image, and its link leads on or ends the chain. */
  lemma FileLink(image: seq<Byte>, fat: nat, length: nat, k: nat)
    requires |image| == 33_554_432 && FileClusters(length) <= 32620 && 1024 * k < length
    requires fat + 65_536 <= |image| && HasLinks(image, fat, FileClusters(length))
    ensures 150_016 + 1024 * k + 1024 <= |image| && fat + 2 * (4 + k) + 2 <= |image|
    ensures U16At(image, fat + 2 * (4 + k)) == if 1024 * k + 1024 < length then 5 + k else 0xFFFF
  {
    var n := FileClusters(length);
    assert k < n <= 32620;
    assert k + 1 < n <==> 1024 * k + 1024 < length;
    assert U16At(image, fat + 2 * (4 + k)) == Link(4 + k, n);
  }

  /** From cluster 4 + k on, the chain yields the file from its k-th kilobyte on. */
  lemma {:induction false} ChainReads(image: seq<Byte>, app: seq<Byte>, fat: nat, k: nat)
    requires |image| == 33_554_432 && FileClusters(|app|) <= 32620 && 1024 * k <= |app|
    requires fat + 65_536 <= |image| && HasLinks(image, fat, FileClusters(|app|))
    requires 150_016 + |app| <= |image| && image[150_016..150_016 + |app|] == app
    ensures ReadChain(image, fat, 147_968, 1024, 4 + k, |app| - 1024 * k) == Some(app[1024 * k..])
    decreases |app| - 1024 * k
  {
    var size := |app| - 1024 * k;
    if size == 0 {
      assert app[1024 * k..] == [];
    } else {
      FileLink(image, fat, |app|, k);
      if size > 1024 {
        ChainReads(image, app, fat, k + 1);
        FileSlice(image, app, 1024 * k, 1024);
        Kilobyte(app, 1024 * k);
      } else {
        FileSlice(image, app, 1024 * k, size);
      }
      ChainStep(image, fat, k, size, U16At(image, fat + 2 * (4 + k)));
    }
  }

  lemma Kilobyte(app: seq<Byte>, from: nat)
    requires from + 1024 <= |app|
    ensures app[from..] == app[from..from + 1024] + app[from + 1024..]
  {
  }

  /** One cluster of a chain. */
  lemma ChainStep(image: seq<Byte>, fat: nat, k: nat, size: nat, link: nat)
    requires size > 0 && fat + 2 * (4 + k) + 2 <= |image| && 150_016 + 1024 * k + 1024 <= |image|
    requires link == U16At(image, fat + 2 * (4 + k))
    ensures size <= 1024 && EndOfChain(link) ==>
      ReadChain(image, fat, 147_968, 1024, 4 + k, size)
      == Some(image[150_016 + 1024 * k..150_016 + 1024 * k + size])
    ensures size > 1024 && ReadChain(image, fat, 147_968, 1024, link, size - 1024).Some? ==>
      ReadChain(image, fat, 147_968, 1024, 4 + k, size)
      == Some(image[150_016 + 1024 * k..150_016 + 1024 * k + 1024]
              + ReadChain(image, fat, 147_968, 1024, link, size - 1024).value)
  {
    assert 147_968 + (4 + k - 2) * 1024 == 150_016 + 1024 * k;
  }

  lemma FileSlice(image: seq<Byte>, app: seq<Byte>, from: nat, count: nat)
    requires 150_016 + |app| <= |image| && image[150_016..150_016 + |app|] == app && from + count <= |app|
    ensures image[150_016 + from..150_016 + from + count] == app[from..from + count]
  {
    SliceOfSlice(image, 150_016, |app|, from, count);
  }

  lemma SliceOfSlice(s: seq<Byte>, o: nat, n: nat, from: nat, count: nat)
    requires o + n <= |s| && from + count <= n
    ensures s[o..o + n][from..from + count] == s[o + from..o + from + count]
  {
    var middle := s[o..o + n];
    var left, right := middle[from..from + count], s[o + from..o + from + count];
    forall i | 0 <= i < count ensures left[i] == right[i] {
      assert left[i] == middle[from + i] == s[o + (from + i)];
      assert right[i] == s[(o + from) + i];
    }
  }

  /** An entry that names what is sought is found; another live entry is passed over. */
  lemma FindStep(image: seq<Byte>, o: nat, n: nat, name: seq<Byte>, e: Entry)
    requires n > 0 && o + 32 * n <= |image| && EntryAt(image, o) == e && |e.name| == 11 && e.name[0] != 0
    ensures Find(image, o, n, name) == if e.name == name then Some(e) else Find(image, o + 32, n - 1, name)
  {
    assert image[o] == image[o..o + 11][0];
  }

  lemma FindsThird(image: seq<Byte>, o: nat, n: nat, name: seq<Byte>, first: Entry, second: Entry, third: Entry)
    requires n >= 3 && o + 32 * n <= |image|
    requires EntryAt(image, o) == first && EntryAt(image, o + 32) == second && EntryAt(image, o + 64) == third
    requires |first.name| == 11 && first.name[0] != 0 && first.name != name
    requires |second.name| == 11 && second.name[0] != 0 && second.name != name
    requires |third.name| == 11 && third.name[0] != 0 && third.name == name
    ensures Find(image, o, n, name) == Some(third)
  {
    FindStep(image, o, n, name, first);
    FindStep(image, o + 32, n - 1, name, second);
    FindStep(image, o + 64, n - 2, name, third);
  }

  /** A name listed third in a directory cluster is found there. */
  lemma FindsListed(image: seq<Byte>, data: nat, bytes: nat, o: nat, cluster: nat, parent: nat, e: Entry,
                    name: seq<Byte>)
    requires cluster >= 2 && bytes == 1024 && o == data + (cluster - 2) * 1024 && o + 1024 <= |image|
    requires Lists(image, o, cluster, parent, e)
    requires e.name == name && |name| == 11 && name[0] != 0 && name[0] != 46
    ensures FindIn(image, data, bytes, cluster, name) == Some(e)
  {
    assert SELF_NAME[0] == 46 && PARENT_NAME[0] == 46;
    assert (cluster - 2) * bytes == (cluster - 2) * 1024;
    FindsThird(image, o, bytes / 32, name, EntryAt(image, o), EntryAt(image, o + 32), e);
  }

  /** A path is looked up one name after another. */
  lemma LookupPath(image: seq<Byte>, g: Geometry, n: nat, a: seq<Byte>, b: seq<Byte>, c: seq<Byte>, d: Entry,
                   s: Entry, f: Entry)
    requires g.root + 32 * n <= |image|
    requires Find(image, g.root, n, a) == Some(d) && IsDirectory(Some(d))
    requires FindIn(image, g.data, g.cluster, d.cluster, b) == Some(s) && IsDirectory(Some(s))
    requires FindIn(image, g.data, g.cluster, s.cluster, c) == Some(f)
    ensures Lookup(image, g, n, a, b, c) == Some(f)
  {
  }

  lemma FindsRoot(image: seq<Byte>, o: nat, n: nat, d: Entry)
    requires n > 0 && o + 32 * n <= |image| && EntryAt(image, o) == d && d.name == EFI_NAME
    ensures Find(image, o, n, d.name) == Some(d)
  {
    assert EFI_NAME[0] == 69;
    FindStep(image, o, n, d.name, d);
  }

  lemma FindsFile(image: seq<Byte>, g: Geometry, n: nat, d: Entry, s: Entry, f: Entry)
    requires |image| == 33_554_432 && HasDirectories(image, f.size) && n == 512
    requires g.root == 131_584 && g.data == 147_968 && g.cluster == 1024
    requires d == Entry(EFI_NAME, 0x10, 2, 0) && s == Entry(BOOT_NAME, 0x10, 3, 0)
    requires f == Entry(FILE_NAME, 0x20, 4, f.size)
    ensures Lookup(image, g, n, d.name, s.name, f.name) == Some(f)
  {
    FindsRoot(image, g.root, n, d);
    FindsBoot(image, g.data, g.cluster, s);
    FindsApplication(image, g.data, g.cluster, f);
    LookupPath(image, g, n, d.name, s.name, f.name, d, s, f);
  }

  lemma FindsBoot(image: seq<Byte>, data: nat, bytes: nat, s: Entry)
    requires |image| == 33_554_432 && data == 147_968 && bytes == 1024
    requires s == Entry(BOOT_NAME, 0x10, 3, 0) && Lists(image, 147_968, 2, 0, s)
    ensures FindIn(image, data, bytes, 2, s.name) == Some(s)
  {
    assert s.name[0] == 66;
    FindsListed(image, data, bytes, 147_968, 2, 0, s, s.name);
  }

  lemma FindsApplication(image: seq<Byte>, data: nat, bytes: nat, f: Entry)
    requires |image| == 33_554_432 && data == 147_968 && bytes == 1024
    requires f == Entry(FILE_NAME, 0x20, 4, f.size) && Lists(image, 148_992, 3, 2, f)
    ensures FindIn(image, data, bytes, 3, f.name) == Some(f)
  {
    assert f.name[0] == 66;
    FindsListed(image, data, bytes, 148_992, 3, 2, f, f.name);
  }

  /** Opening a file is looking it up and reading its chain, whatever the geometry. */
  lemma OpenReads(image: seq<Byte>, copy: nat, g: Geometry, a: seq<Byte>, b: seq<Byte>, c: seq<Byte>, e: Entry,
                  contents: seq<Byte>)
    requires |image| >= 512 && VolumeOf(image).sectorBytes > 0 && GeometryOf(VolumeOf(image)) == g
    requires Lookup(image, g, VolumeOf(image).rootEntries, a, b, c) == Some(e) && !IsDirectory(Some(e))
    requires ReadChain(image, TableStart(g, copy), g.data, g.cluster, e.cluster, e.size) == Some(contents)
    ensures Open(image, copy, a, b, c) == Some(contents)
  {
  }

  /** The firmware's path leads to the application, along either copy of the allocation table. */
  lemma GenesisOpens(image: seq<Byte>, app: seq<Byte>, copy: nat)
    requires IsGenesis(image, app) && copy < 2
    ensures Open(image, copy, EFI_NAME, BOOT_NAME, FILE_NAME) == Some(app)
  {
    GenesisGeometry();
    var v := VolumeOf(image);
    var g := GeometryOf(v);
    var f := Entry(FILE_NAME, 0x20, 4, |app|);
    FindsFile(image, g, v.rootEntries, Entry(EFI_NAME, 0x10, 2, 0), Entry(BOOT_NAME, 0x10, 3, 0), f);
    WholeFileReads(image, app, g, copy, f);
    OpenReads(image, copy, g, EFI_NAME, BOOT_NAME, FILE_NAME, f, app);
  }

  lemma WholeFileReads(image: seq<Byte>, app: seq<Byte>, g: Geometry, copy: nat, f: Entry)
    requires IsGenesis(image, app) && copy < 2 && f.cluster == 4 && f.size == |app|
    requires g.fat == 512 && g.fatBytes == 65_536 && g.data == 147_968 && g.cluster == 1024
    ensures ReadChain(image, TableStart(g, copy), g.data, g.cluster, f.cluster, f.size) == Some(app)
  {
    TableStarts(g, copy);
    ChainReads(image, app, TableStart(g, copy), 0);
    assert app[0..] == app;
  }

  lemma TableStarts(g: Geometry, copy: nat)
    requires g.fat == 512 && g.fatBytes == 65_536 && copy < 2
    ensures TableStart(g, copy) == if copy == 0 then 512 else 66_048
  {
  }

  // Building the image.

  // "EXPOS   "
  const OEM_NAME: seq<Byte> := [69, 88, 80, 79, 83, 32, 32, 32]
  // "EXPOS BOOT "
  const VOLUME_LABEL: seq<Byte> := [69, 88, 80, 79, 83, 32, 66, 79, 79, 84, 32]
  // "FAT16   "
  const FILE_SYSTEM: seq<Byte> := [70, 65, 84, 49, 54, 32, 32, 32]

  predicate StandsAt(image: seq<Byte>, o: nat, s: seq<Byte>)
  {
    o + |s| <= |image| && forall i :: 0 <= i < |s| ==> image[o + i] == s[i]
  }

  /** The fixed disk's media byte, no 16-bit sector count, and the disk geometry for the firmware. */
  predicate DiskFields(image: seq<Byte>)
    requires |image| >= 512
  {
    U16At(image, 19) == 0 && image[21] == 0xF8 && U16At(image, 24) == 32 && U16At(image, 26) == 64
  }

  /** Drive number, extended signature, serial number, label and type, and the boot signature. */
  predicate Labels(image: seq<Byte>)
    requires |image| >= 512
  {
    && image[36] == 0x80 && image[38] == 0x29 && U32At(image, 39) == 0x4558504F
    && StandsAt(image, 43, VOLUME_LABEL) && StandsAt(image, 54, FILE_SYSTEM) && image[510] == 0x55 && image[511] == 0xAA
  }

  predicate BootSector(image: seq<Byte>)
    requires |image| >= 512
  {
    StandsAt(image, 0, [0xEB, 0x3C, 0x90]) && StandsAt(image, 3, OEM_NAME) && DiskFields(image) && Labels(image)
  }

  method WriteBootSector(image: array<Byte>)
    requires image.Length == 33_554_432
    modifies image
    ensures VolumeOf(image[..]) == GENESIS && BootSector(image[..])
    ensures forall i :: 512 <= i < image.Length ==> image[i] == old(image[i])
  {
    Put(image, 0, [0xEB, 0x3C, 0x90]);
    Put(image, 3, OEM_NAME);
    WriteParameters(image);
    ghost var written := image[..];
    WriteLabels(image);
    FieldsKept(written, image[..]);
  }

  lemma FieldsKept(before: seq<Byte>, after: seq<Byte>)
    requires |before| == |after| >= 512 && forall i :: 0 <= i < 36 ==> after[i] == before[i]
    ensures VolumeOf(after) == VolumeOf(before) && DiskFields(after) == DiskFields(before)
  {
  }

  method WriteParameters(image: array<Byte>)
    requires image.Length == 33_554_432
    modifies image
    ensures VolumeOf(image[..]) == GENESIS && DiskFields(image[..])
    ensures forall i :: 0 <= i < image.Length && !(11 <= i < 36) ==> image[i] == old(image[i])
  {
    Put(image, 11, Le16(512));
    image[13] := 2;
    Put(image, 14, Le16(1));
    image[16] := 2;
    Put(image, 17, Le16(512));
    Put(image, 19, Le16(0));
    image[21] := 0xF8;
    Put(image, 22, Le16(128));
    Put(image, 24, Le16(32));
    Put(image, 26, Le16(64));
    Put(image, 32, Le32(65536));
  }

  method WriteLabels(image: array<Byte>)
    requires image.Length == 33_554_432
    modifies image
    ensures Labels(image[..])
    ensures forall i :: 0 <= i < image.Length && !(36 <= i < 512) ==> image[i] == old(image[i])
  {
    image[36] := 0x80;
    image[38] := 0x29;
    Put(image, 39, Le32(0x4558504F));
    Put(image, 43, VOLUME_LABEL);
    Put(image, 54, FILE_SYSTEM);
    Put(image, 510, [0x55, 0xAA]);
  }

  /** The allocation table: two reserved entries, two directories, and the file's chain. */
  method BuildTable(n: nat) returns (fat: array<Byte>)
    requires n <= 32620
    ensures fresh(fat) && fat.Length == 65_536 && HasLinks(fat[..], 0, n)
  {
    fat := new Byte[65_536](_ => 0);
    PutLink(fat, 0, 0xFFF8);
    PutLink(fat, 1, 0xFFFF);
    PutLink(fat, 2, 0xFFFF);
    PutLink(fat, 3, 0xFFFF);
    for cluster := 4 to 4 + n
      invariant forall c :: 0 <= c < 32_768 ==> U16At(fat[..], 2 * c) == if c < cluster then Link(c, n) else 0
    {
      PutLink(fat, cluster, if cluster + 1 == 4 + n then 0xFFFF else cluster + 1);
    }
  }

  method PutLink(fat: array<Byte>, cluster: nat, link: nat)
    requires fat.Length == 65_536 && cluster < 32_768 && link < 0x1_0000
    modifies fat
    ensures forall c :: 0 <= c < 32_768 ==>
      U16At(fat[..], 2 * c) == if c == cluster then link else old(U16At(fat[..], 2 * c))
  {
    Put(fat, 2 * cluster, Le16(link));
    Read16(fat[..], 2 * cluster, link);
    assert fat[..][2 * cluster..2 * cluster + 2] == Le16(link);
  }

  method WriteTables(image: array<Byte>, n: nat)
    requires image.Length == 33_554_432 && n <= 32620
    modifies image
    ensures HasLinks(image[..], 512, n) && HasLinks(image[..], 66_048, n)
    ensures forall i :: 0 <= i < image.Length && !(512 <= i < 131_584) ==> image[i] == old(image[i])
  {
    var fat := BuildTable(n);
    ghost var table := fat[..];
    for index := 0 to 2
      invariant fat[..] == table
      invariant index >= 1 ==> StandsAt(image[..], 512, table)
      invariant index >= 2 ==> StandsAt(image[..], 66_048, table)
      invariant forall i :: 0 <= i < image.Length && !(512 <= i < 131_584) ==> image[i] == old(image[i])
    {
      var start := (1 + index * 128) * 512;
      assert start == if index == 0 then 512 else 66_048;
      Put(image, start, fat[..]);
    }
    TableInPlace(image[..], 512, table, n);
    TableInPlace(image[..], 66_048, table, n);
  }

  lemma TableInPlace(image: seq<Byte>, o: nat, table: seq<Byte>, n: nat)
    requires |table| == 65_536 && StandsAt(image, o, table)
    requires n <= 32620 && HasLinks(table, 0, n)
    ensures HasLinks(image, o, n)
  {
    forall c | 0 <= c < 32_768 ensures U16At(image, o + 2 * c) == Link(c, n) {
      assert U16At(table, 0 + 2 * c) == Link(c, n);
      assert table[2 * c] == image[o + 2 * c] && table[2 * c + 1] == image[o + 2 * c + 1];
    }
  }

  /** Writes a directory entry; a name that is not eleven bytes long is refused. */
  method DirectoryEntry(image: array<Byte>, o: nat, name: seq<Byte>, attributes: Byte, cluster: nat, size: nat)
    returns (written: bool)
    requires o + 32 <= image.Length && cluster < 0x1_0000 && size < 0x1_0000_0000
    modifies image
    ensures written <==> |name| == 11
    ensures written ==> EntryAt(image[..], o) == Entry(name, attributes, cluster, size)
    ensures forall i :: 0 <= i < image.Length && !(o <= i < o + 32) ==> image[i] == old(image[i])
    ensures !written ==> image[..] == old(image[..])
  {
    if |name| != 11 {
      return false;
    }
    Put(image, o, name);
    image[o + 11] := attributes;
    Put(image, o + 26, Le16(cluster));
    Put(image, o + 28, Le32(size));
    assert image[..][o + 26..o + 28] == Le16(cluster);
    assert image[..][o + 28..o + 32] == Le32(size);
    Read16(image[..], o + 26, cluster);
    Read32(image[..], o + 28, size);
    assert image[..][o..o + 11] == name;
    return true;
  }

  /** A directory cluster: itself, its parent, and one more entry. */
  method WriteDirectory(image: array<Byte>, o: nat, cluster: nat, parent: nat,
                        name: seq<Byte>, attributes: Byte, child: nat, size: nat)
    requires o + 1024 <= image.Length && cluster < 0x1_0000 && parent < 0x1_0000
    requires child < 0x1_0000 && size < 0x1_0000_0000
    requires |name| == 11
    modifies image
    ensures Lists(image[..], o, cluster, parent, Entry(name, attributes, child, size))
    ensures forall i :: 0 <= i < image.Length && !(o <= i < o + 1024) ==> image[i] == old(image[i])
  {
    var written := DirectoryEntry(image, o, SELF_NAME, 0x10, cluster, 0);
    ghost var first := image[..];
    written := DirectoryEntry(image, o + 32, PARENT_NAME, 0x10, parent, 0);
    ghost var second := image[..];
    EntryKept(first, second, o);
    written := DirectoryEntry(image, o + 64, name, attributes, child, size);
    EntryKept(second, image[..], o);
    EntryKept(second, image[..], o + 32);
  }

  method WriteDirectories(image: array<Byte>, size: nat)
    requires image.Length == 33_554_432 && size < 0x1_0000_0000
    modifies image
    ensures HasDirectories(image[..], size)
    ensures forall i :: 0 <= i < image.Length && !(131_584 <= i < 150_016) ==> image[i] == old(image[i])
  {
    var root := (1 + 2 * 128) * 512;
    var written := DirectoryEntry(image, root, EFI_NAME, 0x10, 2, 0);
    ghost var first := image[..];
    WriteDirectory(image, ClusterOffset(2), 2, 0, BOOT_NAME, 0x10, 3, 0);
    ghost var second := image[..];
    EntryKept(first, second, root);
    WriteDirectory(image, ClusterOffset(3), 3, 2, FILE_NAME, 0x20, 4, size);
    EntryKept(second, image[..], root);
    ListsKept(second, image[..], 147_968, 2, 0, Entry(BOOT_NAME, 0x10, 3, 0));
  }

  /** Builds the image, or gives up when the file and the two directories do not fit. */
  method Build(app: seq<Byte>) returns (result: Option<array<Byte>>)
    ensures result.None? <==> FileClusters(|app|) > 32620
    ensures result.Some? ==> fresh(result.value) && IsGenesis(result.value[..], app) && BootSector(result.value[..])
  {
    var fileClusters := (|app| + 1023) / 1024;
    var maxClusters := (65536 - 289) / 2;
    if fileClusters + 3 > maxClusters {
      return None;
    }
    var image := new Byte[33_554_432](_ => 0);
    WriteMetadata(image, fileClusters, |app|);
    ghost var empty := image[..];
    Put(image, ClusterOffset(4), app);
    MetadataKept(empty, image[..], fileClusters, |app|);
    assert image[..][150_016..150_016 + |app|] == app;
    return Some(image);
  }

  /** Everything on the volume but the file's bytes. */
  ghost predicate Metadata(image: seq<Byte>, n: nat, size: nat)
    requires |image| == 33_554_432 && n <= 32620
  {
    && VolumeOf(image) == GENESIS && BootSector(image)
    && HasLinks(image, 512, n) && HasLinks(image, 66_048, n) && HasDirectories(image, size)
  }

  method WriteMetadata(image: array<Byte>, n: nat, size: nat)
    requires image.Length == 33_554_432 && n <= 32620 && size < 0x1_0000_0000
    modifies image
    ensures Metadata(image[..], n, size)
  {
    WriteBootSector(image);
    ghost var booted := image[..];
    WriteTables(image, n);
    ghost var linked := image[..];
    WriteDirectories(image, size);
    BootSectorKept(booted, image[..]);
    LinksKept(linked, image[..], 512, n);
    LinksKept(linked, image[..], 66_048, n);
  }

  lemma MetadataKept(before: seq<Byte>, after: seq<Byte>, n: nat, size: nat)
    requires |before| == |after| == 33_554_432 && n <= 32620 && Metadata(before, n, size)
    requires forall i :: 0 <= i < 150_016 ==> after[i] == before[i]
    ensures Metadata(after, n, size)
  {
    BootSectorKept(before, after);
    LinksKept(before, after, 512, n);
    LinksKept(before, after, 66_048, n);
    DirectoriesKept(before, after, size);
  }

  lemma BootSectorKept(before: seq<Byte>, after: seq<Byte>)
    requires |before| == |after| >= 512
    requires forall i :: 0 <= i < 512 ==> after[i] == before[i]
    ensures VolumeOf(after) == VolumeOf(before) && (BootSector(before) ==> BootSector(after))
  {
  }

  /** The low byte of the first table entry repeats the media byte, as the FAT specification asks. */
  lemma MediaByteRepeats(image: seq<Byte>, app: seq<Byte>)
    requires IsGenesis(image, app) && BootSector(image)
    ensures U16At(image, 512) % 256 == image[21]
  {
    assert U16At(image, 512 + 2 * 0) == 0xFFF8 by {
      assert U16At(image, 512 + 2 * 0) == Link(0, FileClusters(|app|));
    }
  }

  lemma LinksKept(before: seq<Byte>, after: seq<Byte>, o: nat, n: nat)
    requires |before| == |after| && o + 65_536 <= |before| && n <= 32620 && HasLinks(before, o, n)
    requires forall i :: o <= i < o + 65_536 ==> after[i] == before[i]
    ensures HasLinks(after, o, n)
  {
    forall c | 0 <= c < 32_768 ensures U16At(after, o + 2 * c) == Link(c, n) {
      assert U16At(before, o + 2 * c) == Link(c, n);
    }
  }

  lemma EntryKept(before: seq<Byte>, after: seq<Byte>, o: nat)
    requires |before| == |after| && o + 32 <= |before|
    requires forall i :: o <= i < o + 32 ==> after[i] == before[i]
    ensures EntryAt(after, o) == EntryAt(before, o)
  {
    assert after[o..o + 11] == before[o..o + 11];
  }

  lemma ListsKept(before: seq<Byte>, after: seq<Byte>, o: nat, cluster: nat, parent: nat, e: Entry)
    requires |before| == |after| && o + 1024 <= |before| && Lists(before, o, cluster, parent, e)
    requires forall i :: o <= i < o + 1024 ==> after[i] == before[i]
    ensures Lists(after, o, cluster, parent, e)
  {
    EntryKept(before, after, o);
    EntryKept(before, after, o + 32);
    EntryKept(before, after, o + 64);
  }

  lemma DirectoriesKept(before: seq<Byte>, after: seq<Byte>, size: nat)
    requires |before| == |after| == 33_554_432 && HasDirectories(before, size)
    requires forall i :: 131_584 <= i < 150_016 ==> after[i] == before[i]
    ensures HasDirectories(after, size)
  {
    EntryKept(before, after, 131_584);
    ListsKept(before, after, 147_968, 2, 0, Entry(BOOT_NAME, 0x10, 3, 0));
    ListsKept(before, after, 148_992, 3, 2, Entry(FILE_NAME, 0x20, 4, size));
  }

  /** Boot sector, tables and root directory end before the first cluster; clusters are disjoint and in bounds. */
  lemma RegionsAreDisjoint(c: nat, d: nat)
    requires 2 <= c < d < 4 + 32620
    ensures 512 + 2 * 65_536 == 131_584 && 131_584 + 512 * 32 == 147_968 <= ClusterOffset(c)
    ensures ClusterOffset(c) + 1024 <= ClusterOffset(d) && ClusterOffset(d) + 1024 <= 33_554_432
  {
  }

  /** The entry's first cluster is an allocated one exactly when the file is not empty. */
  lemma FirstClusterAllocated(image: seq<Byte>, app: seq<Byte>)
    requires IsGenesis(image, app)
    ensures U16At(image, 512 + 2 * 4) != 0 <==> app != []
  {
    assert U16At(image, 512 + 2 * 4) == Link(4, FileClusters(|app|));
  }
}
