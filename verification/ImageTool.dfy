/** The image tool as it runs: it reads and writes the bytes of the image in place. Every method is tied to the
    command or function on volumes that it carries out (echfs-utils/echfs-utils.c). */
module ImageTool {
  import opened Memory
  import opened Directory
  import opened FolderCreation
  import opened Fat
  import opened Volume
  import opened Image

  const DELETED_ENTRY: nat := 0xFFFF_FFFF_FFFF_FFFE

  /** How a command ends: it returns, it calls `abort`, or it has left the tables or the string. */
  datatype Exit = Returns | Aborts | Strays

  /** The C string at `a`. */
  ghost predicate NameAt(m: Mem, a: nat, name: Name) {
    (forall j :: 0 <= j < |name| ==> Rd8(m, a + j) == name[j]) && Rd8(m, a + |name|) == 0
  }

  lemma NameIs(m: Mem, a: nat, name: Name, k: nat)
    requires k <= |name| && 0 !in name && NameAt(m, a, name)
    ensures Rd8(m, a + k) == 0 <==> k == |name|
  {
    hide Rd8;
    if k < |name| {
      assert name[k] in name;
    }
  }

  /** Where entry `i` is. */
  lemma EntryPlaceIs(g: Geometry, i: nat)
    requires Valid(g)
    ensures EntryLoc(g, i) == DirStart(g) * g.bpb + i * 256
    ensures EntryLoc(g, i) < (DirStart(g) + DirBlocks(g)) * g.bpb <==> i < Capacity(g)
  {
    Layout(g);
    assert BlockLoc(g, DataStart(g)) == (DirStart(g) + DirBlocks(g)) * g.bpb;
    hide DirStart, DataStart, DirBlocks, Capacity, BlockLoc;
  }

  /** What its bytes are. */
  lemma EntryBytes(m: Mem, v: Volume, i: nat)
    requires Encodes(m, v)
    ensures |v.dir| <= Capacity(v.g) && v.g.bpb > 0 && Valid(v.g)
    ensures var loc := EntryLoc(v.g, i);
            && (i < |v.dir| ==> var e := v.dir[i];
                                && NameOk(e.name) && NameAt(m, loc + 9, e.name)
                                && Rd64(m, loc) == e.parent && Rd8(m, loc + 8) == Code(e.kind)
                                && Rd64(m, loc + 232) == e.time && Rd64(m, loc + 240) == e.payload
                                   && Rd64(m, loc + 248) == e.size)
            && (|v.dir| <= i < Capacity(v.g) ==> Rd64(m, loc) == 0)
  {
    EncodesParts(m, v);
    hide Rd64, Rd8, Encodes, Capacity, FatAt, HeaderAt, DataAt, NameOk, EntryLoc;
    if i < |v.dir| {
      assert EntryAt(m, EntryLoc(v.g, i), v.dir[i]) && EntryFits(v.dir[i]);
    }
  }

  /** A free block is in the data area. */
  lemma FreeIsData(v: Volume, b: nat)
    requires Inv(v) && b < |v.disk.fat| && v.disk.fat[b] == 0
    ensures DataStart(v.g) <= b
  {
    hide Tree, FilesOk, FilesApart, DataStart, Sized;
  }

  /** What an entry that `path_resolver` did not find looks like in the image. */
  lemma NewEntryBytes(v: Volume, m: Mem, path: Name, kind: Kind)
    requires Inv(v) && Encodes(m, v) && PathOk(path)
    ensures var r := Resolve(v.dir, Capacity(v.g), path, kind);
            r.NotFound? ==> NameOk(r.name) && 0 < r.parent < WORD_LIMIT && |v.dir| < Capacity(v.g)
  {
    hide Resolve, NameOk, PathOk, FilesOk, FilesApart, BusyOwned, Encodes, Tree, Valid, Sized, DataStart, Capacity;
    NewEntryFits(v.dir, Capacity(v.g), path, kind);
    FreeIdFresh(v.dir);
    FreeIdSmall(v);
  }

  lemma FreeIdSmall(v: Volume)
    requires Inv(v)
    ensures 0 < FreeIdFrom(v.dir, 0, 1) < WORD_LIMIT && FreeIdFrom(v.dir, 0, 1) <= |v.dir| + 1
  {
    hide FilesOk, FilesApart, BusyOwned, DataStart;
    FreeIdFresh(v.dir);
    ValidSizes(v.g);
  }

  class Tool {
    var image: Mem
    const imgsize: nat
    var bytesperblock: nat
    var blocks: nat
    var fatsize: nat
    var dirsize: nat
    var dirstart: nat
    var datastart: nat

    /** The image of `v` is open. */
    ghost predicate Ready(v: Volume)
      reads this
    {
      && Encodes(image, v) && Opened(v.g)
    }

    ghost predicate Opened(g: Geometry)
      reads this
    {
      && bytesperblock == g.bpb > 0 && blocks == g.blocks && fatsize == FatBlocks(g) && dirsize == DirBlocks(g)
      && dirstart == DirStart(g) && datastart == DataStart(g)
    }

    constructor (image: Mem, imgsize: nat)
      ensures this.image == image && this.imgsize == imgsize
    {
      this.image, this.imgsize := image, imgsize;
    }

    // ----- Format -----

    /** `format_pass1`: the header, and zeros from the allocation table to the end. False where the tool aborts. */
    method FormatPass1(size: nat) returns (ok: bool)
      modifies this
      ensures ok <==> size > 0 && size % 512 == 0 && imgsize % size == 0
      ensures ok <==> Format(imgsize, size).Some?
      ensures ok && Valid(Geometry(size, imgsize / size)) ==>
                HeaderAt(image, Geometry(size, imgsize / size)) && ZeroFrom(image, RESERVED_BLOCKS * size, imgsize)
    {
      hide Wr64, WrBytes, Rd64, Rd8, Zero, Valid, HeaderAt;
      bytesperblock := size;
      if size == 0 || size % 512 != 0 {
        return false;
      }
      if imgsize % size != 0 {
        return false;
      }
      blocks := imgsize / size;
      ghost var g := Geometry(size, imgsize / size);
      if Valid(g) {
        HeaderWritten(image, g);
      }
      image := WrBytes(image, 4, SIGNATURE);
      image := Wr64(image, 12, blocks);
      image := Wr64(image, 20, blocks / 20);
      image := Wr64(image, 28, size);
      var i := RESERVED_BLOCKS * size;
      while i < imgsize
        invariant RESERVED_BLOCKS * size <= i && ZeroFrom(image, RESERVED_BLOCKS * size, i)
        invariant Valid(g) ==> HeaderAt(image, g)
      {
        ZeroMore(image, g, RESERVED_BLOCKS * size, i, size);
        image := Zero(image, i, size);
        i := i + size;
      }
      return true;
    }

    /** The part of `main` that reads the header and works out the layout. False where it stops with an error. */
    method Open() returns (ok: bool)
      modifies this`bytesperblock, this`blocks, this`fatsize, this`dirsize, this`dirstart, this`datastart
      ensures forall g :: Valid(g) && HeaderAt(image, g) && imgsize == g.blocks * g.bpb ==> ok && Opened(g)
    {
      hide Rd64, Rd8, Valid;
      var signature := RdBytes(image, 4, 8);
      SignatureRead(image);
      if signature != SIGNATURE {
        return false;
      }
      bytesperblock := Rd64(image, 28);
      if bytesperblock == 0 || imgsize % bytesperblock != 0 {
        OpenedSizes(imgsize, bytesperblock);
        return false;
      }
      blocks := imgsize / bytesperblock;
      fatsize := blocks * 8 / bytesperblock;
      if blocks * 8 % bytesperblock != 0 {
        fatsize := fatsize + 1;
      }
      dirsize := Rd64(image, 20);
      dirstart := RESERVED_BLOCKS + fatsize;
      datastart := RESERVED_BLOCKS + fatsize + dirsize;
      OpenedSizes(imgsize, bytesperblock);
      return true;
    }

    /** `format_pass2`: mark the tables as reserved. */
    method FormatPass2(ghost g: Geometry)
      requires Encodes(image, Reserved(g, 0)) && Opened(g)
      modifies this`image
      ensures Ready(Blank(g))
    {
      hide Encodes, Wr64, FatBlocks, DirBlocks;
      EncodesParts(image, Reserved(g, 0));
      var loc := RESERVED_BLOCKS * bytesperblock;
      var i := 0;
      while i < RESERVED_BLOCKS + fatsize + dirsize
        invariant i <= DataStart(g) && loc == FatLoc(g, i) && Encodes(image, Reserved(g, i)) && Opened(g)
      {
        ReserveNext(image, g, i);
        image := Wr64(image, loc, RESERVED_BLOCK);
        loc, i := loc + 8, i + 1;
      }
      assert Reserved(g, i) == Blank(g);
    }

    /** `format`. */
    method FormatImage(size: nat) returns (ok: bool)
      requires imgsize < WORD_LIMIT && (Format(imgsize, size).Some? ==> imgsize / size >= 17)
      modifies this
      ensures ok <==> size > 0 && size % 512 == 0 && imgsize % size == 0
      ensures ok <==> Format(imgsize, size).Some?
      ensures ok ==> Ready(Format(imgsize, size).value)
    {
      hide Encodes, Valid, HeaderAt, FatBlocks, DirBlocks;
      ok := FormatPass1(size);
      if ok {
        ghost var g := Geometry(size, imgsize / size);
        FormatValid(imgsize, size);
        var found := Open();
        ZeroEncodes(image, g);
        FormatPass2(g);
      }
    }

    // ----- Directory -----

    /** The zero-terminated name field at `a`. */
    method RdName(a: nat, ghost expected: Name) returns (name: Name)
      ensures NameOk(expected) && NameAt(image, a, expected) ==> name == expected
    {
      hide Rd8;
      name := [];
      while |name| < NAME_LIMIT && Rd8(image, a + |name|) != 0
        invariant |name| <= NAME_LIMIT
        invariant NameOk(expected) && NameAt(image, a, expected) ==> name <= expected
        decreases NAME_LIMIT - |name|
      {
        name := name + [Rd8(image, a + |name|)];
      }
      if NameOk(expected) && NameAt(image, a, expected) {
        NameIs(image, a, expected, |name|);
      }
    }

    /** `rd_entry`; `ok` is false where the tool aborts. */
    method RdEntry(i: nat, ghost v: Volume) returns (ok: bool, e: Entry)
      requires Ready(v)
      ensures ok <==> i < Capacity(v.g)
      ensures i < |v.dir| ==> e == v.dir[i]
      ensures |v.dir| <= i < Capacity(v.g) ==> e.parent == 0
    {
      hide Rd64, Rd8, Encodes, Capacity, EntryLoc, DataStart, DirStart, FatBlocks, DirBlocks;
      var loc := dirstart * bytesperblock + i * 256;
      EntryBytes(image, v, i);
      EntryPlaceIs(v.g, i);
      ok := loc < (dirstart + dirsize) * bytesperblock;
      e := Entry(0, File, [], 0, 0, 0);
      if ok {
        var name := RdName(loc + 9, if i < |v.dir| then v.dir[i].name else []);
        e := Entry(Rd64(image, loc), if Rd8(image, loc + 8) == 1 then Folder else File, name,
                   Rd64(image, loc + 232), Rd64(image, loc + 240), Rd64(image, loc + 248));
      }
    }

    /** `search`. */
    method SearchTable(name: Name, parent: nat, kind: Kind, ghost v: Volume) returns (r: Lookup)
      requires Ready(v) && parent != 0
      ensures r == Search(v.dir, Capacity(v.g), name, parent, kind)
    {
      hide Encodes, Capacity;
      var i := 0;
      EntriesUsed(image, v);
      while true
        invariant i <= |v.dir| <= Capacity(v.g)
        invariant FindFrom(v.dir, name, parent, kind, i) == FindFrom(v.dir, name, parent, kind, 0)
        decreases |v.dir| - i
      {
        var ok, e := RdEntry(i, v);
        if !ok {
          return Abort;
        }
        if e.parent == 0 {
          return Missing;
        }
        if e.parent == parent && e.kind == kind && e.name == name {
          return At(i);
        }
        i := i + 1;
      }
    }

    /** `path_resolver`. */
    method PathResolver(path: Name, kind: Kind, ghost v: Volume) returns (r: Resolved)
      requires Ready(v) && Inv(v)
      ensures r == Resolve(v.dir, Capacity(v.g), path, kind)
    {
      hide Encodes, Inv, Capacity, Search, Split;
      if kind == Folder && path == [SLASH] {
        return Root;
      }
      if kind == File && path == [SLASH] {
        return Failure;
      }
      var p := if path != [] && path[0] == SLASH then path[1..] else path;
      var parent := ROOT_ID;
      var i := 0;
      assert p[0..] == p;
      while true
        invariant i <= |p| && parent != 0
        invariant ResolveParts(v.dir, Capacity(v.g), parent, Split(p[i..]), kind) ==
                  Resolve(v.dir, Capacity(v.g), path, kind)
        decreases |p| - i
      {
        var start := i;
        var name: Name := [];
        while i < |p| && p[i] != SLASH
          invariant start <= i <= |p| && name == p[start..i] && forall k :: start <= k < i ==> p[k] != SLASH
        {
          name := name + [p[i]];
          i := i + 1;
        }
        ComponentAt(p, start, i);
        if i == |p| {
          var found := SearchTable(name, parent, kind, v);
          match found
          case At(k) => return Found(k, parent, name);
          case Missing => return NotFound(parent, name);
          case Abort => return Aborted;
        }
        var found := SearchTable(name, parent, Folder, v);
        match found
        case Abort => return Aborted;
        case Missing => return Failure;
        case At(k) =>
          SearchIn(v.dir, Capacity(v.g), name, parent, Folder);
          var ok, e := RdEntry(k, v);
          FolderIdPositive(v, k);
          parent := e.payload;
          i := i + 1;
      }
    }

    /** `get_free_id`. */
    method GetFreeId(ghost v: Volume) returns (id: nat)
      requires Ready(v) && |v.dir| < Capacity(v.g)
      ensures id == FreeIdFrom(v.dir, 0, 1)
    {
      hide Encodes, Capacity;
      EntriesUsed(image, v);
      id := 1;
      var i := 0;
      while true
        invariant i <= |v.dir| < Capacity(v.g)
        invariant FreeIdFrom(v.dir, i, id) == FreeIdFrom(v.dir, 0, 1)
        decreases |v.dir| - i
      {
        var ok, e := RdEntry(i, v);
        if e.parent == 0 {
          return;
        }
        if e.kind == Folder && e.payload == id {
          id := e.payload + 1;
        }
        i := i + 1;
      }
    }

    /** The loop that finds an empty entry. */
    method FindEmpty(ghost v: Volume) returns (i: nat)
      requires Ready(v) && |v.dir| < Capacity(v.g)
      requires forall k :: 0 <= k < |v.dir| ==> v.dir[k].parent != DELETED_ENTRY
      ensures i == |v.dir|
    {
      hide Encodes, Capacity;
      EntriesUsed(image, v);
      i := 0;
      while true
        invariant i <= |v.dir| < Capacity(v.g)
        decreases |v.dir| - i
      {
        var ok, e := RdEntry(i, v);
        if e.parent == 0 || e.parent == DELETED_ENTRY {
          return;
        }
        i := i + 1;
      }
    }

    /** `mkdir_cmd`. */
    method MakeFolder(path: Name, now: nat, ghost v: Volume) returns (exit: Exit)
      requires Ready(v) && Inv(v) && PathOk(path) && now < WORD_LIMIT
      modifies this`image
      ensures Ended(exit, MkdirCmd(v, path, now))
    {
      hide Inv, PathOk, Resolve, Encodes, Capacity, NameOk, WrEntry, FreeIdFrom, FatBlocks, DirBlocks, DirStart;
      hide DataStart;
      var r := PathResolver(path, Folder, v);
      if r.Aborted? {
        return Aborts;
      }
      if !r.NotFound? {
        return Returns;
      }
      NewEntryBytes(v, image, path, Folder);
      NoneDeleted(v);
      var i := FindEmpty(v);
      var id := GetFreeId(v);
      FreeIdSmall(v);
      var entry := Entry(r.parent, Folder, r.name, now, id, 0);
      EntryPlaceOf(image, v, i);
      EntryWrite(image, v, entry);
      image := WrEntry(image, dirstart * bytesperblock + i * 256, entry);
      return Returns;
    }

    /** The volume after a command. */
    ghost predicate Ended(exit: Exit, effect: Effect)
      reads this
    {
      match effect
      case Completed(w) => exit == Returns && Ready(w)
      case Stopped(w) => exit == Aborts && Ready(w)
      case Lost => exit == Strays
    }

    // ----- Chains -----

    /** The search for a free block. The tool has no bound for it; here it ends with the table. */
    method FindFree(ghost v: Volume) returns (block: nat)
      requires Ready(v)
      ensures block == FirstFree(v.disk.fat, 0)
    {
      hide Rd64, HeaderAt, DirAt, DataAt, Capacity, DirStart, DataStart, FatBlocks, DirBlocks;
      block := 0;
      var loc := RESERVED_BLOCKS * bytesperblock;
      while block < blocks && Rd64(image, loc) != 0
        invariant block <= blocks && loc == FatLoc(v.g, block)
        invariant FirstFree(v.disk.fat, block) == FirstFree(v.disk.fat, 0)
      {
        block, loc := block + 1, loc + 8;
      }
    }

    /** Mark a block as the end of its chain and write the buffer to it. */
    method WriteBlock(block: nat, buf: Bytes, ghost v: Volume, ghost d: Disk) returns (ghost d1: Disk)
      requires Chaining(image, v, d, block) && Opened(v.g) && |buf| == v.g.bpb
      modifies this`image
      ensures |d.fat| == |d.data| == v.g.blocks && block < v.g.blocks
      ensures d1 == Disk(d.fat[block := END_OF_CHAIN], d.data[block := buf]) && Held(image, v, d1)
    {
      hide Encodes, Wr64, WrBytes, FatBlocks, DirBlocks, DirStart, DataStart, Sized, FreeData;
      ChainWrite(image, v, d, block, buf);
      image := Wr64(image, RESERVED_BLOCKS * bytesperblock + 8 * block, END_OF_CHAIN);
      image := WrBytes(image, block * bytesperblock, buf);
      d1 := Disk(d.fat[block := END_OF_CHAIN], d.data[block := buf]);
    }

    /** Find the next block and link it. */
    method NextBlock(block: nat, ghost v: Volume, ghost d: Disk) returns (next: nat)
      requires Held(image, v, d) && Opened(v.g) && block < |d.fat| && d.fat[block] != 0
      modifies this`image
      ensures next == FirstFree(d.fat, 0) <= |d.fat|
      ensures next < |d.fat| ==> Chaining(image, v, d.(fat := d.fat[block := next]), next)
    {
      hide Encodes, Wr64, FatBlocks, DirBlocks, DirStart, DataStart, Sized, FreeData, FirstFree;
      next := FindFree(v.(disk := d));
      if next < blocks {
        LinkWrite(image, v, d, block, next);
        image := Wr64(image, RESERVED_BLOCKS * bytesperblock + 8 * block, next);
      }
    }

    /** `import_chain`. */
    method ImportChain(src: Bytes, junk: Bytes, ghost v: Volume) returns (start: Option<nat>, ghost disk: Disk)
      requires Ready(v) && Inv(v) && |junk| == v.g.bpb
      modifies this`image
      ensures match Store(v.disk, Pieces(src, v.g.bpb, junk))
              case None => start.None?
              case Some(stored) => start == Some(stored.0) && disk == stored.1 && Ready(v.(disk := disk))
    {
      hide Inv, Encodes, FirstFree, FatBlocks, DirBlocks, DirStart, DataStart, StoreFrom, Pieces, Needed, Sized;
      hide FreeData, FirstPiece, Chaining, Held;
      ghost var g := v.g;
      var count := |src| / bytesperblock;
      if |src| % bytesperblock != 0 {
        count := count + 1;
      }
      if |src| > 0 {
        NeededMore(|src|, g.bpb);
      }
      disk := v.disk;
      StartChain(image, v);
      var block: nat := FindFree(v);
      if block == blocks {
        return None, disk;
      }
      start := Some(block);
      var buf, pos, x := junk, 0, 0;
      assert src[0..] == src;
      while true
        invariant Chaining(image, v, disk, block) && Opened(g) && |disk.fat| == |disk.data| == g.blocks
                  && block < g.blocks
        invariant |buf| == g.bpb && pos <= |src| && (pos < |src| || pos == 0)
        invariant Needed(|src| - pos, g.bpb) + x == Needed(|src|, g.bpb)
        invariant start.Some? && Store(v.disk, Pieces(src, g.bpb, junk)) ==
                  Started(start.value, StoreFrom(disk, block, Pieces(src[pos..], g.bpb, buf)))
        decreases |src| - pos
      {
        StoreStep(disk, block, src[pos..], buf, g.bpb);
        NeededStep(|src| - pos, g.bpb);
        var n := if |src| - pos < bytesperblock then |src| - pos else bytesperblock;
        PieceRead(src, pos, n, buf);
        buf := src[pos..pos + n] + buf[n..];
        pos := pos + n;
        disk := WriteBlock(block, buf, v, disk);
        HeldReady(image, v, disk);
        if pos >= |src| || x == count {
          return start, disk;
        }
        var next := NextBlock(block, v, disk);
        if next == blocks {
          return None, disk;
        }
        disk := disk.(fat := disk.fat[block := next]);
        block, x := next, x + 1;
      }
    }

    /** The first `n` bytes of a data block. */
    method ReadBlock(block: nat, n: nat, ghost v: Volume) returns (piece: Bytes)
      requires Ready(v) && DataStart(v.g) <= block < v.g.blocks && n <= v.g.bpb
      ensures block < |v.disk.data| && |v.disk.data[block]| == v.g.bpb && piece == v.disk.data[block][..n]
      ensures n == v.g.bpb ==> piece == v.disk.data[block]
    {
      hide Encodes, DataStart, RdBytes, BlockAt;
      DataBytes(image, v, block);
      piece := RdBytes(image, block * bytesperblock, n);
      RdBytesPrefix(image, block * bytesperblock, n, v.disk.data[block]);
    }

    /** The table entry of a block. */
    method ReadFat(block: nat, ghost v: Volume) returns (next: nat)
      requires Ready(v) && block < v.g.blocks
      ensures block < |v.disk.fat| && next == v.disk.fat[block]
    {
      hide Encodes;
      FatBytes(image, v, block);
      next := Rd64(image, RESERVED_BLOCKS * bytesperblock + 8 * block);
    }

    /** `export_chain`, for a file of the volume. */
    method ExportChain(i: nat, ghost v: Volume, payload: nat, size: nat) returns (out: Bytes)
      requires Ready(v) && Inv(v) && IsFile(v.dir, i) && payload == v.dir[i].payload && size == v.dir[i].size
      ensures Sized(v.disk, v.g.bpb) && ExportFrom(v.disk, payload, v.g.bpb, size, 0) == Some(out)
    {
      hide Encodes, Inv, FatBlocks, DirBlocks, DirStart, DataStart, Follow, OnChain, ExportFrom, Sized, After;
      InvSizes(v);
      ghost var g := v.g;
      ghost var c := Follow(v.disk.fat, payload);
      FileOnChain(v, i);
      var block: nat := payload;
      out := [];
      ExportNothing(v.disk, payload, g.bpb, size);
      while block != END_OF_CHAIN
        invariant |out| <= size
        invariant block != END_OF_CHAIN ==> OnChain(v, c, block, size - |out|)
        invariant ExportFrom(v.disk, payload, g.bpb, size, 0) ==
                  After(out, ExportFrom(v.disk, block, g.bpb, size, |out|))
        decreases size - |out|
      {
        ExportTurn(v, c, block, size, out);
        if |out| + bytesperblock >= size {
          var piece := ReadBlock(block, size % bytesperblock, v);
          out := out + piece;
          return;
        }
        var piece := ReadBlock(block, bytesperblock, v);
        out := out + piece;
        block := ReadFat(block, v);
        c := c[1..];
      }
      ExportEnd(v.disk, v.g.bpb, size, |out|);
      AfterNothing(out);
    }

    /** `export_cmd`: nothing if the file is not found. A path that fails earlier gives an empty file. */
    method Export(path: Name, ghost v: Volume) returns (exit: Exit, out: Option<Bytes>)
      requires Ready(v) && Inv(v)
      ensures Sized(v.disk, v.g.bpb)
      ensures exit == if Resolve(v.dir, Capacity(v.g), path, File).Aborted? then Aborts else Returns
      ensures exit == Returns ==> out == ExportCmd(v, path)
    {
      hide Encodes, Inv, Capacity, FatBlocks, DirBlocks, DirStart, DataStart, ExportFrom, Sized;
      InvSizes(v);
      ResolveKinds(v.dir, Capacity(v.g), path);
      hide Resolve;
      var r := PathResolver(path, File, v);
      match r
      case Aborted => return Aborts, None;
      case NotFound(_, _) => return Returns, None;
      case Found(i, _, _) =>
        var ok, e := RdEntry(i, v);
        var bytes := ExportChain(i, v, e.payload, e.size);
        return Returns, Some(bytes);
      case _ =>
        ExportEmpty(v.disk, v.g.bpb);
        return Returns, Some([]);
    }

    /** The directory loop of `import_cmd`, on a path that fails. */
    method MakePath(path: Name, now: nat, ghost v: Volume) returns (exit: Exit, ghost dir: Table)
      requires Ready(v) && Inv(v) && PathOk(path) && now < WORD_LIMIT
               && Resolve(v.dir, Capacity(v.g), path, File).Failure?
      modifies this`image
      ensures match MakeFolders(v.dir, Capacity(v.g), path, 0, now)
              case Done(made) => exit == Returns && dir == made && Ready(v.(dir := made))
              case Died(made) => exit == Aborts && dir == made && Ready(v.(dir := made))
              case Strayed => exit == Strays
    {
      hide Encodes, Inv, PathOk, Capacity, Mkdir, Resolve, FatBlocks, DirBlocks, DirStart, DataStart;
      var i := 0;
      var newdirname: Name := [];
      ghost var w := v;
      while true
        invariant i <= |path| && newdirname == path[..i]
        invariant Ready(w) && Inv(w) && w == v.(dir := w.dir)
        invariant MakeFolders(w.dir, Capacity(v.g), path, i, now) == MakeFolders(v.dir, Capacity(v.g), path, 0, now)
        decreases |path| - i
      {
        ghost var from := i;
        while i < |path| && path[i] != SLASH
          invariant from <= i <= |path| && newdirname == path[..i] && forall k :: from <= k < i ==> path[k] != SLASH
        {
          newdirname := newdirname + [path[i]];
          i := i + 1;
        }
        assert i == NextSlash(path, from);
        if i == |path| || i >= BUFFER {
          return Strays, w.dir;
        }
        PrefixOk(path, i);
        MkdirKeeps(w, newdirname, now);
        exit := MakeFolder(newdirname, now, w);
        w := w.(dir := Mkdir(w.dir, Capacity(v.g), newdirname, now).dir);
        if exit == Aborts {
          return exit, w.dir;
        }
        var r := PathResolver(path, File, w);
        if r.Aborted? {
          return Aborts, w.dir;
        }
        if !r.Failure? {
          return Returns, w.dir;
        }
        newdirname := newdirname + [SLASH];
        i := i + 1;
      }
    }

    /** `import_cmd`, of a file with the bytes `src`. */
    method ImportFile(path: Name, src: Bytes, junk: Bytes, now: nat, ghost v: Volume) returns (exit: Exit)
      requires Ready(v) && Inv(v) && PathOk(path) && now < WORD_LIMIT && |src| < WORD_LIMIT && |junk| == v.g.bpb
               && Sized(v.disk, v.g.bpb)
      modifies this`image
      ensures Ended(exit, ImportCmd(v, path, src, junk, now))
    {
      hide Encodes, Inv, PathOk, Capacity, MakeFolders, Resolve, FatBlocks, DirBlocks, DirStart, DataStart, Sized;
      hide Store, Pieces;
      ghost var w := v;
      var first := PathResolver(path, File, v);
      if first.Aborted? {
        return Aborts;
      }
      if first.Failure? {
        ghost var dir;
        exit, dir := MakePath(path, now, v);
        if exit != Returns {
          return;
        }
        w := v.(dir := dir);
        MadeKeeps(v, path, now);
      }
      var r := PathResolver(path, File, w);
      if !r.NotFound? {
        return Returns;
      }
      exit := AppendFile(path, r.parent, r.name, src, junk, now, w);
    }

    /** The chain, then the entry. */
    method AppendFile(path: Name, parent: nat, name: Name, src: Bytes, junk: Bytes, now: nat, ghost v: Volume)
        returns (exit: Exit)
      requires Ready(v) && Inv(v) && PathOk(path) && now < WORD_LIMIT && |src| < WORD_LIMIT && |junk| == v.g.bpb
               && Sized(v.disk, v.g.bpb)
      requires Resolve(v.dir, Capacity(v.g), path, File) == NotFound(parent, name)
      modifies this`image
      ensures Ended(exit, AddFile(v, parent, name, src, junk, now))
    {
      hide Encodes, Inv, PathOk, Capacity, Resolve, FatBlocks, DirBlocks, DirStart, DataStart, Sized, Store, Pieces;
      hide NameOk, WrEntry;
      NewEntryBytes(v, image, path, File);
      NoneDeleted(v);
      var start, disk := ImportChain(src, junk, v);
      if start.None? {
        return Strays;
      }
      ghost var w := v.(disk := disk);
      InvSizes(v);
      StartSmall(v, Pieces(src, v.g.bpb, junk));
      var i := FindEmpty(w);
      var entry := Entry(parent, File, name, now, start.value, |src|);
      EntryPlaceOf(image, w, i);
      EntryWrite(image, w, entry);
      image := WrEntry(image, dirstart * bytesperblock + i * 256, entry);
      return Returns;
    }
  }

  /** The bytes in `[a, b)` are zero. */
  ghost predicate ZeroFrom(m: Mem, a: nat, b: nat) {
    forall x: nat :: a <= x < b ==> Rd8(m, x) == 0
  }

  lemma ZeroMore(m: Mem, g: Geometry, a: nat, i: nat, n: nat)
    requires ZeroFrom(m, a, i) && 512 <= a <= i
    ensures ZeroFrom(Zero(m, i, n), a, i + n) && (HeaderAt(m, g) ==> HeaderAt(Zero(m, i, n), g))
  {
    hide Zero, HeaderAt, Rd8;
    ZeroBytes(m, i, n);
    if HeaderAt(m, g) {
      HeaderSame(m, Zero(m, i, n), g);
    }
  }

  lemma HeaderWritten(m: Mem, g: Geometry)
    requires Valid(g)
    ensures HeaderAt(Wr64(Wr64(Wr64(WrBytes(m, 4, SIGNATURE), 12, g.blocks), 20, g.blocks / 20), 28, g.bpb), g)
  {
    ValidSizes(g);
    BlockSizeSmall(g);
    hide Wr64, WrBytes, Rd64, Rd8, Valid, SIGNATURE, Capacity;
    var m1 := WrBytes(m, 4, SIGNATURE);
    WordsWritten(m1, g.blocks, g.blocks / 20, g.bpb);
    SignatureWritten(m);
    assert |SIGNATURE| == 8 by { SignatureLength(); }
  }

  lemma SignatureLength()
    ensures |SIGNATURE| == 8
  {
  }

  lemma SignatureWritten(m: Mem)
    ensures forall k :: 0 <= k < |SIGNATURE| ==> Rd8(WrBytes(m, 4, SIGNATURE), 4 + k) == SIGNATURE[k]
  {
    hide Rd8, WrBytes;
    WrBytesReads(m, 4, SIGNATURE);
    forall k | 0 <= k < |SIGNATURE| ensures Rd8(WrBytes(m, 4, SIGNATURE), 4 + k) == SIGNATURE[k] {
      assert Rd8(WrBytes(m, 4, SIGNATURE), 4 + k) == SIGNATURE[4 + k - 4];
    }
  }

  /** Three words in a row, with what lies before them. */
  lemma WordsWritten(m: Mem, a: nat, b: nat, c: nat)
    requires a < WORD_LIMIT && b < WORD_LIMIT && c < WORD_LIMIT
    ensures var r := Wr64(Wr64(Wr64(m, 12, a), 20, b), 28, c);
            && Rd64(r, 12) == a && Rd64(r, 20) == b && Rd64(r, 28) == c && forall x: nat :: x < 12 ==>
               Rd8(r, x) == Rd8(m, x)
  {
    hide Wr64, Rd64, Rd8;
    var m2 := Wr64(m, 12, a);
    Wr64Reads(m, 12, a);
    var m3 := Wr64(m2, 20, b);
    Wr64Reads(m2, 20, b);
    Wr64Reads(m3, 28, c);
    Rd64Same(m2, Wr64(m3, 28, c), 12);
    Rd64Same(m3, Wr64(m3, 28, c), 20);
  }

  lemma BlockSizeSmall(g: Geometry)
    requires Valid(g)
    ensures g.bpb < WORD_LIMIT
  {
    MulLessEq(1, g.blocks, g.bpb, g.bpb);
  }

  lemma SignatureRead(m: Mem)
    ensures (forall k :: 0 <= k < |SIGNATURE| ==> Rd8(m, 4 + k) == SIGNATURE[k]) ==> RdBytes(m, 4, 8) == SIGNATURE
  {
    hide Rd8, RdBytes;
    if forall k :: 0 <= k < |SIGNATURE| ==> Rd8(m, 4 + k) == SIGNATURE[k] {
      RdBytesPrefix(m, 4, 8, SIGNATURE);
      assert SIGNATURE[..8] == SIGNATURE;
    }
  }

  lemma OpenedSizes(imgsize: nat, bpb: nat)
    ensures forall g :: Valid(g) && g.bpb == bpb && imgsize == g.blocks * g.bpb ==>
              bpb > 0 && imgsize % bpb == 0
              && imgsize / bpb == g.blocks
  {
    forall g | Valid(g) && g.bpb == bpb && imgsize == g.blocks * g.bpb
      ensures bpb > 0 && imgsize % bpb == 0 && imgsize / bpb == g.blocks
    {
      hide DataStart;
      DivUnique(imgsize, bpb, g.blocks, 0);
    }
  }

  /** A zeroed volume whose first `n` blocks are reserved. */
  function Reserved(g: Geometry, n: nat): Volume {
    Volume(g, Disk(seq(g.blocks, b => if b < n then RESERVED_BLOCK else 0), seq(g.blocks, _ => seq(g.bpb, _ => 0))), [])
  }

  lemma ReserveNext(m: Mem, g: Geometry, i: nat)
    requires g.bpb > 0 && Encodes(m, Reserved(g, i)) && i < DataStart(g)
    ensures Encodes(Wr64(m, FatLoc(g, i), RESERVED_BLOCK), Reserved(g, i + 1))
  {
    hide Encodes, Wr64;
    var v := Reserved(g, i);
    EncodesParts(m, v);
    hide DataStart;
    FatWrite(m, v, i, RESERVED_BLOCK);
    assert v.disk.fat[i := RESERVED_BLOCK] == Reserved(g, i + 1).disk.fat;
  }

  lemma FormatValid(imgsize: nat, size: nat)
    requires imgsize < WORD_LIMIT && Format(imgsize, size).Some? && imgsize / size >= 17
    ensures Valid(Geometry(size, imgsize / size)) && imgsize == imgsize / size * size
  {
    var g := Geometry(size, imgsize / size);
    assert g.blocks * g.bpb == imgsize;
    hide DataStart;
    TablesFit(g);
  }

  /** Zeros behind a header are a volume without reserved blocks. */
  lemma ZeroEncodes(m: Mem, g: Geometry)
    requires Valid(g) && ZeroFrom(m, RESERVED_BLOCKS * g.bpb, g.blocks * g.bpb)
    ensures HeaderAt(m, g) ==> Encodes(m, Reserved(g, 0))
  {
    hide Rd64, Rd8, HeaderAt, FatAt, DirAt, DataAt, Capacity, Valid, ZeroFrom;
    ValidSizes(g);
    var v := Reserved(g, 0);
    ZeroFat(m, g, v.disk.fat);
    ZeroDir(m, g);
    ZeroData(m, g, v.disk.data);
  }

  lemma Rd64Zero(m: Mem, a: nat, lo: nat, hi: nat)
    requires ZeroFrom(m, lo, hi) && lo <= a && a + 8 <= hi
    ensures Rd64(m, a) == 0
  {
    hide Rd8;
    RdLeZero(m, a, WordBytes(m));
  }

  lemma ZeroFat(m: Mem, g: Geometry, fat: seq<nat>)
    requires Valid(g) && ZeroFrom(m, RESERVED_BLOCKS * g.bpb, g.blocks * g.bpb)
    requires |fat| == g.blocks && forall b :: 0 <= b < |fat| ==> fat[b] == 0
    ensures FatAt(m, g, fat)
  {
    hide Rd64, ZeroFrom, DataStart, DirStart, Capacity;
    Layout(g);
    forall b | 0 <= b < |fat| ensures Rd64(m, FatLoc(g, b)) == fat[b] {
      FatPlace(g, b);
      Rd64Zero(m, FatLoc(g, b), RESERVED_BLOCKS * g.bpb, g.blocks * g.bpb);
    }
  }

  lemma ZeroDir(m: Mem, g: Geometry)
    requires Valid(g) && ZeroFrom(m, RESERVED_BLOCKS * g.bpb, g.blocks * g.bpb)
    ensures DirAt(m, g, [])
  {
    hide Rd64, ZeroFrom, DataStart, Capacity;
    Layout(g);
    forall i: nat | i < Capacity(g) ensures Rd64(m, EntryLoc(g, i)) == 0 {
      EntryPlace(g, i);
      Rd64Zero(m, EntryLoc(g, i), RESERVED_BLOCKS * g.bpb, g.blocks * g.bpb);
    }
  }

  lemma ZeroData(m: Mem, g: Geometry, data: seq<Bytes>)
    requires Valid(g) && ZeroFrom(m, RESERVED_BLOCKS * g.bpb, g.blocks * g.bpb)
    requires |data| == g.blocks && forall b :: 0 <= b < |data| ==> data[b] == seq(g.bpb, _ => 0)
    ensures DataAt(m, g, data)
  {
    hide Rd8, Capacity, EntryLoc;
    assert RESERVED_BLOCKS <= DataStart(g);
    hide DataStart;
    forall b | DataStart(g) <= b < |data| ensures BlockAt(m, BlockLoc(g, b), data[b]) {
      BlockPlace(g, b);
      MulLessEq(RESERVED_BLOCKS, b, g.bpb, g.bpb);
    }
  }

  lemma ResolveKinds(dir: Table, cap: nat, path: Name)
    ensures var r := Resolve(dir, cap, path, File);
            && !r.Root? && (r.Found? ==> r.i < |dir| && dir[r.i].kind == File)
  {
    hide Split;
    if path != [SLASH] {
      NeverRoot(dir, cap, path);
      FoundKind(dir, cap, ROOT_ID, Split(Relative(path)), File);
    }
  }

  lemma {:induction false} FoundKind(dir: Table, cap: nat, parent: nat, parts: seq<Name>, kind: Kind)
    requires parts != []
    ensures var r := ResolveParts(dir, cap, parent, parts, kind); r.Found? ==> r.i < |dir| && dir[r.i].kind == kind
    decreases |parts|
  {
    if |parts| > 1 {
      match Search(dir, cap, parts[0], parent, Folder)
      case At(i) => FoundKind(dir, cap, dir[i].payload, parts[1..], kind);
      case _ =>
    }
  }

  lemma ExportEmpty(d: Disk, bpb: nat)
    requires Sized(d, bpb)
    ensures ExportFrom(d, 0, bpb, 0, 0) == Some([])
  {
  }

  lemma MadeKeeps(v: Volume, path: Name, now: nat)
    requires Inv(v) && PathOk(path)
    ensures var o := MakeFolders(v.dir, Capacity(v.g), path, 0, now); !o.Strayed? ==> Inv(v.(dir := o.dir))
  {
    hide Inv, PathOk, Capacity, MakeFolders, Tree;
    InvTree(v);
    LoopKeepsTree(v.dir, Capacity(v.g), path, 0, now);
    var o := MakeFolders(v.dir, Capacity(v.g), path, 0, now);
    if !o.Strayed? {
      FoldersKeepInv(v, o.dir);
    }
  }

  lemma StartSmall(v: Volume, pieces: seq<Bytes>)
    requires Inv(v) && pieces != [] && |v.disk.fat| == |v.disk.data|
    ensures var r := Store(v.disk, pieces); r.Some? ==> r.value.0 < WORD_LIMIT
  {
    hide Tree, FilesOk, FilesApart, BusyOwned, StoreFrom, DataStart;
  }

  // ----- Steps of `import_chain` -----

  function Started(b: nat, r: Option<Disk>): Option<(nat, Disk)> {
    match r case Some(d) => Some((b, d)) case None => None
  }

  /** Free blocks are data blocks. */
  ghost predicate FreeData(fat: seq<nat>, start: nat) {
    forall b :: 0 <= b < |fat| && fat[b] == 0 ==> start <= b
  }

  /** The image has the disk `d`, and its free blocks are data blocks. */
  ghost predicate Held(m: Mem, v: Volume, d: Disk) {
    && Encodes(m, v.(disk := d)) && v.g.bpb > 0 && Sized(d, v.g.bpb) && |d.fat| == |d.data| == v.g.blocks
    && FreeData(d.fat, DataStart(v.g))
  }

  ghost predicate Chaining(m: Mem, v: Volume, d: Disk, block: nat) {
    Held(m, v, d) && block < v.g.blocks && d.fat[block] == 0
  }

  lemma HeldReady(m: Mem, v: Volume, d: Disk)
    requires Held(m, v, d)
    ensures Encodes(m, v.(disk := d)) && |d.fat| == |d.data| == v.g.blocks
  {
  }

  lemma StartChain(m: Mem, v: Volume)
    requires Encodes(m, v) && Inv(v)
    ensures |v.disk.fat| == |v.disk.data| == v.g.blocks
    ensures forall block: nat :: block < v.g.blocks && v.disk.fat[block] == 0 ==> Chaining(m, v, v.disk, block)
  {
    hide Encodes, Inv, DataStart, FreeData;
    EncodesParts(m, v);
    FreeAbove(v);
    assert v.(disk := v.disk) == v;
  }

  function FirstPiece(s: Bytes, buf: Bytes): Bytes {
    if |s| <= |buf| then s + buf[|s|..] else s[..|buf|]
  }

  lemma StoreStep(d: Disk, b: nat, s: Bytes, buf: Bytes, bpb: nat)
    requires b < |d.fat| == |d.data| && bpb > 0 && |buf| == bpb
    ensures var piece := FirstPiece(s, buf);
            var d1 := Disk(d.fat[b := END_OF_CHAIN], d.data[b := piece]);
            var next := FirstFree(d1.fat, 0);
            |piece| == bpb && StoreFrom(d, b, Pieces(s, bpb, buf)) ==
              if |s| <= bpb then Some(d1)
              else if next == |d1.fat| then None
              else StoreFrom(d1.(fat := d1.fat[b := next]), next, Pieces(s[bpb..], bpb, piece))
  {
    hide FirstFree;
    var piece := FirstPiece(s, buf);
    if |s| > bpb {
      var rest := Pieces(s[bpb..], bpb, piece);
      assert Pieces(s, bpb, buf) == [piece] + rest;
      assert ([piece] + rest)[1..] == rest;
    }
  }

  lemma NeededStep(n: nat, bpb: nat)
    requires bpb > 0
    ensures Needed(n, bpb) == if n <= bpb then 1 else 1 + Needed(n - bpb, bpb)
  {
  }

  lemma NeededMore(n: nat, bpb: nat)
    requires bpb > 0 && n > 0
    ensures n / bpb + (if n % bpb != 0 then 1 else 0) == Needed(n, bpb)
  {
    NeededIs(n, bpb);
  }

  lemma PieceRead(src: Bytes, pos: nat, n: nat, buf: Bytes)
    requires pos <= |src| && n == if |src| - pos < |buf| then |src| - pos else |buf|
    ensures src[pos..pos + n] + buf[n..] == FirstPiece(src[pos..], buf)
    ensures n == |buf| ==> src[pos + n..] == src[pos..][n..]
  {
    var s := src[pos..];
    assert src[pos..pos + n] == s[..n];
  }

  lemma FreeAbove(v: Volume)
    requires Inv(v)
    ensures FreeData(v.disk.fat, DataStart(v.g))
  {
    hide Tree, FilesOk, FilesApart, DataStart, Sized;
    forall b | 0 <= b < |v.disk.fat| && v.disk.fat[b] == 0 ensures DataStart(v.g) <= b {
      FreeIsData(v, b);
    }
  }

  /** Mark a block as the end of its chain and write its bytes. */
  lemma ChainWrite(m: Mem, v: Volume, d: Disk, b: nat, piece: Bytes)
    requires Encodes(m, v.(disk := d)) && b < v.g.blocks && |d.fat| == v.g.blocks && |d.data| == v.g.blocks
             && |piece| == v.g.bpb > 0
    requires d.fat[b] == 0 && FreeData(d.fat, DataStart(v.g))
    ensures var d1 := Disk(d.fat[b := END_OF_CHAIN], d.data[b := piece]);
            && Encodes(WrBytes(Wr64(m, FatLoc(v.g, b), END_OF_CHAIN), BlockLoc(v.g, b), piece), v.(disk := d1))
            && Sized(d1, v.g.bpb) && FreeData(d1.fat, DataStart(v.g))
  {
    hide Encodes, Wr64, WrBytes, FatLoc, BlockLoc, DataStart;
    var fat1 := d.fat[b := END_OF_CHAIN];
    FatWrite(m, v.(disk := d), b, END_OF_CHAIN);
    BlockWrite(Wr64(m, FatLoc(v.g, b), END_OF_CHAIN), v.(disk := d.(fat := fat1)), b, piece);
    EncodesParts(WrBytes(Wr64(m, FatLoc(v.g, b), END_OF_CHAIN), BlockLoc(v.g, b), piece),
                 v.(disk := Disk(fat1, d.data[b := piece])));
  }

  lemma FatBelowWord(m: Mem, v: Volume, d: Disk)
    requires Encodes(m, v.(disk := d))
    ensures |d.fat| < WORD_LIMIT
  {
    hide HeaderAt, FatAt, DirAt, DataAt, Capacity;
  }

  /** Link a block to the next one, which is free. */
  lemma LinkWrite(m: Mem, v: Volume, d: Disk, b: nat, next: nat)
    requires Encodes(m, v.(disk := d)) && b < v.g.blocks && |d.fat| == v.g.blocks && v.g.bpb > 0
    requires d.fat[b] != 0 && next < |d.fat| && d.fat[next] == 0 && FreeData(d.fat, DataStart(v.g))
    ensures var d1 := d.(fat := d.fat[b := next]);
            && Encodes(Wr64(m, FatLoc(v.g, b), next), v.(disk := d1))
            && Sized(d1, v.g.bpb) && FreeData(d1.fat, DataStart(v.g)) && d1.fat[next] == 0
  {
    hide Encodes, Wr64, FatLoc, Sized, Capacity;
    assert 0 < DataStart(v.g) <= next;
    hide DataStart;
    FatBelowWord(m, v, d);
    FatWrite(m, v.(disk := d), b, next);
    EncodesParts(Wr64(m, FatLoc(v.g, b), next), v.(disk := d.(fat := d.fat[b := next])));
  }

  // ----- Steps of `export_chain` -----

  /** `fread` of `n` bytes. */
  function RdBytes(m: Mem, a: nat, n: nat): (r: Bytes)
    ensures |r| == n
  {
    if n == 0 then [] else RdBytes(m, a, n - 1) + [Rd8(m, a + n - 1)]
  }

  lemma {:induction false} RdBytesPrefix(m: Mem, a: nat, n: nat, s: Bytes)
    requires BlockAt(m, a, s) && n <= |s|
    ensures RdBytes(m, a, n) == s[..n]
  {
    if n > 0 {
      RdBytesPrefix(m, a, n - 1, s);
      assert s[..n] == s[..n - 1] + [s[n - 1]];
    }
  }

  function After(out: Bytes, r: Option<Bytes>): Option<Bytes> {
    match r case Some(rest) => Some(out + rest) case None => None
  }

  lemma ExportStep(d: Disk, b: nat, bpb: nat, size: nat, done: nat)
    requires Sized(d, bpb) && b < |d.data| && b < |d.fat| && b != END_OF_CHAIN
    ensures ExportFrom(d, b, bpb, size, done) ==
            if done + bpb >= size then Some(d.data[b][..size % bpb])
            else After(d.data[b], ExportFrom(d, d.fat[b], bpb, size, done + bpb))
  {
    if size % bpb == 0 {
      assert d.data[b][..0] == [];
    }
  }

  lemma ExportEnd(d: Disk, bpb: nat, size: nat, done: nat)
    requires Sized(d, bpb)
    ensures ExportFrom(d, END_OF_CHAIN, bpb, size, done) == Some([])
  {
  }

  lemma AfterAfter(out: Bytes, piece: Bytes, r: Option<Bytes>)
    ensures After(out, After(piece, r)) == After(out + piece, r)
  {
    if r.Some? {
      assert out + (piece + r.value) == out + piece + r.value;
    }
  }

  lemma ExportNothing(d: Disk, b: nat, bpb: nat, size: nat)
    requires Sized(d, bpb)
    ensures ExportFrom(d, b, bpb, size, 0) == After([], ExportFrom(d, b, bpb, size, 0))
  {
    hide ExportFrom;
    var r := ExportFrom(d, b, bpb, size, 0);
    if r.Some? {
      assert [] + r.value == r.value;
    }
  }

  lemma AfterNothing(out: Bytes)
    ensures After(out, Some([])) == Some(out)
  {
    assert out + [] == out;
  }

  lemma InvSizes(v: Volume)
    requires Inv(v)
    ensures v.g.bpb > 0 && Sized(v.disk, v.g.bpb) && |v.disk.fat| == |v.disk.data| == v.g.blocks
  {
  }

  /** One turn of the loop. */
  lemma ExportTurn(v: Volume, c: seq<nat>, b: nat, size: nat, out: Bytes)
    requires Sized(v.disk, v.g.bpb) && |v.disk.fat| == v.g.blocks && |out| <= size && OnChain(v, c, b, size - |out|)
             && b != END_OF_CHAIN
    ensures c != [] && DataStart(v.g) <= b < v.g.blocks == |v.disk.data|
    ensures var d, bpb := v.disk, v.g.bpb;
            var now := After(out, ExportFrom(d, b, bpb, size, |out|));
            && |d.data[b]| == bpb
            && if |out| + bpb >= size then now == Some(out + d.data[b][..size % bpb])
               else && now == After(out + d.data[b], ExportFrom(d, d.fat[b], bpb, size, |out| + bpb))
                    && OnChain(v, c[1..], d.fat[b], size - |out| - bpb)
  {
    hide OnChain, ExportFrom;
    OnChainPlace(v, c, b, size - |out|);
    OnChainNext(v, c, b, size - |out|);
    ExportStep(v.disk, b, v.g.bpb, size, |out|);
    if |out| + v.g.bpb < size {
      AfterAfter(out, v.disk.data[b], ExportFrom(v.disk, v.disk.fat[b], v.g.bpb, size, |out| + v.g.bpb));
    }
  }

  /** `block` starts the rest `c` of a chain, with `left` bytes on it. */
  ghost predicate OnChain(v: Volume, c: seq<nat>, block: nat, left: nat) {
    && IsChain(v.disk.fat, c) && block == c[0] && v.g.bpb > 0 && |c| == Needed(left, v.g.bpb)
    && forall x :: x in c ==> DataStart(v.g) <= x < v.g.blocks
  }

  lemma FileOnChain(v: Volume, i: nat)
    requires Inv(v) && IsFile(v.dir, i)
    ensures OnChain(v, Follow(v.disk.fat, v.dir[i].payload), v.dir[i].payload, v.dir[i].size)
  {
    hide Tree, FilesApart, BusyOwned, Follow, Needed, DataStart, Sized;
    assert ChainOk(v.disk.fat, DataStart(v.g), v.dir[i], v.g.bpb);
  }

  lemma OnChainPlace(v: Volume, c: seq<nat>, b: nat, left: nat)
    requires OnChain(v, c, b, left)
    ensures c != [] && DataStart(v.g) <= b < v.g.blocks
  {
    hide DataStart, Needed;
    assert c[0] in c;
  }

  lemma OnChainNext(v: Volume, c: seq<nat>, b: nat, left: nat)
    requires OnChain(v, c, b, left) && b < |v.disk.fat|
    ensures left > v.g.bpb ==> OnChain(v, c[1..], v.disk.fat[b], left - v.g.bpb)
  {
    hide DataStart;
    if left > v.g.bpb {
      NeededStep(left, v.g.bpb);
      ChainTail(v.disk.fat, c);
      assert forall x :: x in c[1..] ==> x in c;
    }
  }

  lemma DataBytes(m: Mem, v: Volume, b: nat)
    requires Encodes(m, v) && v.g.bpb > 0 && DataStart(v.g) <= b < v.g.blocks
    ensures b < |v.disk.data| == |v.disk.fat| && |v.disk.data[b]| == v.g.bpb && BlockAt(m, b * v.g.bpb, v.disk.data[b])
  {
    hide HeaderAt, FatAt, DirAt, Capacity, DataStart, BlockAt;
    assert BlockAt(m, BlockLoc(v.g, b), v.disk.data[b]);
  }

  lemma FatBytes(m: Mem, v: Volume, b: nat)
    requires Encodes(m, v) && b < v.g.blocks
    ensures b < |v.disk.fat| && Rd64(m, RESERVED_BLOCKS * v.g.bpb + 8 * b) == v.disk.fat[b]
  {
    hide HeaderAt, DirAt, DataAt, Capacity, DataStart, Rd64;
    assert Rd64(m, FatLoc(v.g, b)) == v.disk.fat[b];
  }

  // ----- Facts about the directory in the image -----

  lemma NoneDeleted(v: Volume)
    requires Inv(v)
    ensures forall k :: 0 <= k < |v.dir| ==> v.dir[k].parent != DELETED_ENTRY
  {
    hide FilesOk, FilesApart, BusyOwned, DataStart, FreeIdFrom, Sized;
    FreeIdFresh(v.dir);
    FreeIdSmall(v);
    ValidSizes(v.g);
  }

  lemma EntryPlaceOf(m: Mem, v: Volume, i: nat)
    requires Encodes(m, v)
    ensures v.g.bpb > 0 && EntryLoc(v.g, i) == DirStart(v.g) * v.g.bpb + i * 256
  {
    hide DirStart;
    EncodesParts(m, v);
    EntryPlaceIs(v.g, i);
  }

  lemma EntriesUsed(m: Mem, v: Volume)
    requires Encodes(m, v)
    ensures |v.dir| <= Capacity(v.g) && forall i :: 0 <= i < |v.dir| ==> v.dir[i].parent != 0
  {
    hide Capacity, DataStart, HeaderAt, FatAt, DataAt, EntryAt;
    forall i | 0 <= i < |v.dir| ensures v.dir[i].parent != 0 {
      assert EntryFits(v.dir[i]);
    }
  }

  lemma ComponentAt(p: Name, i: nat, j: nat)
    requires i <= j <= |p| && (forall k :: i <= k < j ==> p[k] != SLASH) && (j < |p| ==> p[j] == SLASH)
    ensures Split(p[i..]) == if j == |p| then [p[i..j]] else [p[i..j]] + Split(p[j + 1..])
    ensures j < |p| ==> |Split(p[i..])| > 1 && Split(p[i..])[0] == p[i..j] && Split(p[i..])[1..] == Split(p[j + 1..])
  {
    hide Split;
    if j == |p| {
      assert p[i..] == p[i..j];
      SplitHead(p[i..j], []);
    } else {
      assert p[i..] == p[i..j] + [SLASH] + p[j + 1..];
      SplitHead(p[i..j], p[j + 1..]);
    }
  }

  lemma SearchIn(dir: Table, cap: nat, name: Name, parent: nat, kind: Kind)
    requires Search(dir, cap, name, parent, kind).At?
    ensures var i := Search(dir, cap, name, parent, kind).i; i < |dir| && dir[i].kind == kind
  {
  }

  lemma FolderIdPositive(v: Volume, k: nat)
    requires Inv(v) && k < |v.dir| && v.dir[k].kind == Folder
    ensures v.dir[k].payload != 0
  {
    hide FilesOk, FilesApart, BusyOwned, Valid, Sized;
    FreeIdFresh(v.dir);
  }
}
