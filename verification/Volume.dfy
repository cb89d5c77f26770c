/** The commands of the echidnaFS image tool (echfs-utils/echfs-utils.c) on a volume, and what every run of them
    from `format` keeps. */
module Volume {
  import opened Memory
  import opened Directory
  import opened FolderCreation
  import opened Fat

  // ----- Layout -----

  const RESERVED_BLOCKS: nat := 16

  /** Block size and number of blocks; the rest of the layout follows from them. */
  datatype Geometry = Geometry(bpb: nat, blocks: nat)

  function FatBlocks(g: Geometry): nat
    requires g.bpb > 0
  {
    g.blocks * 8 / g.bpb + if g.blocks * 8 % g.bpb != 0 then 1 else 0
  }

  function DirBlocks(g: Geometry): nat {
    g.blocks / 20
  }

  function DirStart(g: Geometry): nat
    requires g.bpb > 0
  {
    RESERVED_BLOCKS + FatBlocks(g)
  }

  function DataStart(g: Geometry): nat
    requires g.bpb > 0
  {
    RESERVED_BLOCKS + FatBlocks(g) + DirBlocks(g)
  }

  /** Entries in the directory table. */
  function Capacity(g: Geometry): nat {
    DirBlocks(g) * (g.bpb / 512 * 2)
  }

  ghost predicate Valid(g: Geometry) {
    g.bpb > 0 && g.bpb % 512 == 0 && g.blocks * g.bpb < WORD_LIMIT && DataStart(g) <= g.blocks
  }

  datatype Volume = Volume(g: Geometry, disk: Disk, dir: Table)

  function Blank(g: Geometry): Volume
    requires g.bpb > 0
  {
    Volume(g, Disk(seq(g.blocks, b => if b < DataStart(g) then RESERVED_BLOCK else 0),
                   seq(g.blocks, _ => seq(g.bpb, _ => 0))), [])
  }

  /** `format`: refuses block sizes and image sizes that do not fit together. */
  function Format(imgsize: nat, bpb: nat): Option<Volume> {
    if bpb == 0 || bpb % 512 != 0 || imgsize % bpb != 0 then None else Some(Blank(Geometry(bpb, imgsize / bpb)))
  }

  // ----- Commands -----

  /** `Stopped`: the tool aborted. `Lost`: it ran out of the allocation table or past the end of a path. */
  datatype Effect = Completed(v: Volume) | Stopped(v: Volume) | Lost

  function MkdirCmd(v: Volume, path: Name, now: nat): Effect {
    match Mkdir(v.dir, Capacity(v.g), path, now)
    case Done(dir) => Completed(v.(dir := dir))
    case Died(dir) => Stopped(v.(dir := dir))
    case Strayed => Lost
  }

  /** `junk` is what the fresh block buffer holds. */
  function ImportCmd(v: Volume, path: Name, src: Bytes, junk: Bytes, now: nat): Effect
    requires Sized(v.disk, v.g.bpb) && |junk| == v.g.bpb
  {
    var cap := Capacity(v.g);
    match Prepare(v.dir, cap, path, now)
    case Strayed => Lost
    case Died(dir) => Stopped(v.(dir := dir))
    case Done(dir) =>
      match Resolve(dir, cap, path, File)
      case NotFound(parent, name) => AddFile(v.(dir := dir), parent, name, src, junk, now)
      case _ => Completed(v.(dir := dir))
  }

  /** The chain, then its directory entry. */
  function AddFile(v: Volume, parent: nat, name: Name, src: Bytes, junk: Bytes, now: nat): Effect
    requires Sized(v.disk, v.g.bpb) && |junk| == v.g.bpb
  {
    match Store(v.disk, Pieces(src, v.g.bpb, junk))
    case None => Lost
    case Some(stored) =>
      Completed(v.(disk := stored.1, dir := v.dir + [Entry(parent, File, name, now, stored.0, |src|)]))
  }

  /** `export_cmd`: `None` if the file is not found. A path that fails earlier is not told apart from an empty file. */
  function ExportCmd(v: Volume, path: Name): Option<Bytes>
    requires Sized(v.disk, v.g.bpb)
  {
    match Resolve(v.dir, Capacity(v.g), path, File)
    case NotFound(_, _) => None
    case Found(i, _, _) =>
      if i < |v.dir| then ExportFrom(v.disk, v.dir[i].payload, v.g.bpb, v.dir[i].size, 0) else None
    case Failure => ExportFrom(v.disk, 0, v.g.bpb, 0, 0)
    case _ => None
  }

  datatype Command = MakeDir(path: Name, now: nat) | Import(path: Name, src: Bytes, junk: Bytes, now: nat)

  function Execute(v: Volume, c: Command): Effect
    requires Sized(v.disk, v.g.bpb) && (c.Import? ==> |c.junk| == v.g.bpb)
  {
    match c
    case MakeDir(path, now) => MkdirCmd(v, path, now)
    case Import(path, src, junk, now) => ImportCmd(v, path, src, junk, now)
  }

  /** What a caller must give: names that fit their field, sizes that fit a quad-word. */
  ghost predicate CommandOk(c: Command, bpb: nat) {
    PathOk(c.path) && (c.Import? ==> |c.junk| == bpb && |c.src| < WORD_LIMIT)
  }

  ghost predicate CommandsOk(cs: seq<Command>, bpb: nat) {
    forall i :: 0 <= i < |cs| ==> CommandOk(cs[i], bpb)
  }

  /** A run of commands, each a process of its own, so that one that aborts does not stop the next. `None` as soon
      as one of them is lost. */
  ghost function Run(v: Volume, cs: seq<Command>): Option<Volume>
    requires Inv(v) && CommandsOk(cs, v.g.bpb)
    decreases |cs|
  {
    if cs == [] then Some(v)
    else
      ExecuteKeeps(v, cs[0]);
      match Execute(v, cs[0])
      case Lost => None
      case Completed(w) => Run(w, cs[1..])
      case Stopped(w) => Run(w, cs[1..])
  }

  // ----- The invariant -----

  predicate IsFile(dir: Table, i: int) {
    0 <= i < |dir| && dir[i].kind == File
  }

  /** The chain of a file lies in the data area and has as many blocks as the size needs. */
  ghost predicate ChainOk(fat: seq<nat>, start: nat, e: Entry, bpb: nat)
    requires bpb > 0
  {
    var c := Follow(fat, e.payload);
    IsChain(fat, c) && (forall x :: x in c ==> start <= x) && |c| == Needed(e.size, bpb)
  }

  ghost predicate FilesOk(fat: seq<nat>, dir: Table, start: nat, bpb: nat)
    requires bpb > 0
  {
    forall i :: IsFile(dir, i) ==> ChainOk(fat, start, dir[i], bpb)
  }

  ghost predicate FilesApart(fat: seq<nat>, dir: Table) {
    forall i, j, x ::
      IsFile(dir, i) && IsFile(dir, j) && x in Follow(fat, dir[i].payload) && x in Follow(fat, dir[j].payload) ==>
        i == j
  }

  /** `b` is on the chain of file `i`. */
  predicate Owns(fat: seq<nat>, dir: Table, i: int, b: int) {
    IsFile(dir, i) && b in Follow(fat, dir[i].payload)
  }

  /** Blocks before the data area are reserved; a data block is in use exactly if it is on the chain of a file. */
  ghost predicate BusyOwned(fat: seq<nat>, dir: Table, start: nat) {
    && (forall b :: 0 <= b < |fat| && b < start ==> fat[b] == RESERVED_BLOCK)
    && (forall b :: start <= b < |fat| ==> (fat[b] != 0 <==> exists i :: Owns(fat, dir, i, b)))
  }

  ghost predicate Inv(v: Volume) {
    && Valid(v.g) && Sized(v.disk, v.g.bpb) && |v.disk.fat| == v.g.blocks
    && Tree(v.dir) && |v.dir| <= Capacity(v.g)
    && FilesOk(v.disk.fat, v.dir, DataStart(v.g), v.g.bpb)
    && FilesApart(v.disk.fat, v.dir)
    && BusyOwned(v.disk.fat, v.dir, DataStart(v.g))
  }

  lemma BlankInv(g: Geometry)
    requires Valid(g)
    ensures Inv(Blank(g))
  {
    ValidSizes(g);
    hide DataStart, Capacity, Needed, Follow;
    var v := Blank(g);
    BlankOwned(v.disk.fat, DataStart(g));
    hide BusyOwned, Valid;
  }

  lemma BlankOwned(fat: seq<nat>, start: nat)
    requires forall b :: 0 <= b < |fat| ==> fat[b] == if b < start then RESERVED_BLOCK else 0
    ensures BusyOwned(fat, [], start)
  {
  }

  lemma ValidSizes(g: Geometry)
    requires Valid(g)
    ensures g.bpb >= 512 && g.blocks <= RESERVED_BLOCK && Capacity(g) < ROOT_ID && Capacity(g) * 256 < WORD_LIMIT
    ensures g.bpb == 256 * (g.bpb / 512 * 2) && Capacity(g) * 256 == DirBlocks(g) * g.bpb
  {
    assert g.bpb >= 512;
    MulLessEq(g.blocks, g.blocks, 512, g.bpb);
    var k := g.bpb / 512 * 2;
    assert g.bpb == 256 * k;
    assert DirBlocks(g) * k * 256 == DirBlocks(g) * g.bpb;
    MulLessEq(DirBlocks(g), g.blocks, g.bpb, g.bpb);
  }

  lemma MulLessEq(a: nat, b: nat, j: nat, k: nat)
    requires a <= b && j <= k
    ensures a * j <= b * k
  {
    assert a * j <= a * k;
    assert a * k <= b * k;
  }

  /** Both tables have the same files. */
  ghost predicate SameFiles(dir: Table, dir': Table) {
    && (forall i :: IsFile(dir, i) <==> IsFile(dir', i))
    && (forall i :: IsFile(dir, i) ==> dir'[i] == dir[i])
  }

  lemma FoldersSameFiles(dir: Table, dir': Table)
    requires |dir| <= |dir'| && dir'[..|dir|] == dir && forall k :: |dir| <= k < |dir'| ==> dir'[k].kind == Folder
    ensures SameFiles(dir, dir')
  {
    assert forall i :: 0 <= i < |dir| ==> dir'[i] == dir'[..|dir|][i] == dir[i];
  }

  lemma SameFilesKeep(fat: seq<nat>, dir: Table, dir': Table, start: nat, bpb: nat)
    requires SameFiles(dir, dir') && bpb > 0
    requires FilesOk(fat, dir, start, bpb) && FilesApart(fat, dir) && BusyOwned(fat, dir, start)
    ensures FilesOk(fat, dir', start, bpb) && FilesApart(fat, dir') && BusyOwned(fat, dir', start)
  {
    hide ChainOk, Follow;
    assert forall i, b :: Owns(fat, dir, i, b) <==> Owns(fat, dir', i, b);
    assert BusyOwned(fat, dir', start) by {
      forall b | start <= b < |fat| ensures fat[b] != 0 <==> exists i :: Owns(fat, dir', i, b) {
        assert fat[b] != 0 <==> exists i :: Owns(fat, dir, i, b);
      }
    }
  }

  /** Adding directories leaves the files alone. */
  lemma FoldersKeepInv(v: Volume, dir: Table)
    requires Inv(v) && Tree(dir) && |v.dir| <= |dir| <= Capacity(v.g) && dir[..|v.dir|] == v.dir
    requires forall k :: |v.dir| <= k < |dir| ==> dir[k].kind == Folder
    ensures Inv(v.(dir := dir))
  {
    hide Tree, Sized, FilesOk, FilesApart, BusyOwned, DataStart, Capacity, SameFiles;
    FoldersSameFiles(v.dir, dir);
    SameFilesKeep(v.disk.fat, v.dir, dir, DataStart(v.g), v.g.bpb);
  }

  /** `w` has all that `v` has: the same entries in front, the same chains, the same bytes on them. */
  ghost predicate Kept(v: Volume, w: Volume) {
    && w.g == v.g && |v.dir| <= |w.dir| && w.dir[..|v.dir|] == v.dir
    && |v.disk.data| == |w.disk.data|
    && forall i :: IsFile(v.dir, i) ==> ChainKept(v.disk, w.disk, v.dir[i].payload)
  }

  ghost predicate ChainKept(d: Disk, d': Disk, b: nat) {
    && Follow(d'.fat, b) == Follow(d.fat, b)
    && forall x :: x in Follow(d.fat, b) && x < |d.data| && x < |d'.data| ==> d'.data[x] == d.data[x]
  }

  lemma KeptTrans(u: Volume, v: Volume, w: Volume)
    requires Kept(u, v) && Kept(v, w)
    ensures Kept(u, w)
  {
    hide Follow;
    assert w.dir[..|u.dir|] == w.dir[..|v.dir|][..|u.dir|];
    forall i | IsFile(u.dir, i) ensures ChainKept(u.disk, w.disk, u.dir[i].payload) {
      assert v.dir[i] == v.dir[..|u.dir|][i] == u.dir[i];
      assert IsFile(v.dir, i);
      assert ChainKept(v.disk, w.disk, v.dir[i].payload);
    }
  }

  lemma KeptFolders(v: Volume, dir: Table)
    requires |v.dir| <= |dir| && dir[..|v.dir|] == v.dir
    ensures Kept(v, v.(dir := dir))
  {
  }

  // ----- A new file -----

  /** A chain of busy blocks does not notice that free ones are taken. */
  lemma OldChainStays(d: Disk, d': Disk, taken: seq<nat>, b: nat)
    requires |d.fat| <= END_OF_CHAIN && IsChain(d.fat, Follow(d.fat, b)) && Elsewhere(d, d', taken)
    requires forall x :: x in taken ==> x < |d.fat| && d.fat[x] == 0
    ensures ChainKept(d, d', b) && IsChain(d'.fat, Follow(d'.fat, b))
    ensures forall x :: x in Follow(d.fat, b) ==> x !in taken
  {
    var c := Follow(d.fat, b);
    hide Follow;
    ChainBusy(d.fat, c);
    assert forall x :: x in c ==> x !in taken;
    ChainSame(d.fat, d'.fat, c);
    FollowChain(d'.fat, c);
  }

  /** What a new file `e` on the chain `c` looks like. */
  ghost predicate NewFile(v: Volume, e: Entry, disk: Disk, c: seq<nat>, pieces: seq<Bytes>) {
    && e.kind == File && Linked(v.disk, disk, c, pieces) && e.payload == c[0]
    && v.g.bpb > 0 && |c| == Needed(e.size, v.g.bpb)
    && (forall x :: x in c ==> x < |v.disk.fat| && v.disk.fat[x] == 0)
    && (forall i :: 0 <= i < |pieces| ==> |pieces[i]| == v.g.bpb)
  }

  lemma NewFileSized(v: Volume, e: Entry, disk: Disk, c: seq<nat>, pieces: seq<Bytes>)
    requires NewFile(v, e, disk, c, pieces) && Sized(v.disk, v.g.bpb)
    ensures Sized(disk, v.g.bpb)
  {
    forall b | 0 <= b < |disk.data| ensures |disk.data[b]| == v.g.bpb {
      if b in c {
        var j :| 0 <= j < |c| && c[j] == b;
        assert disk.data[b] == pieces[j];
      }
    }
  }

  lemma NewFileChain(v: Volume, e: Entry, disk: Disk, c: seq<nat>, pieces: seq<Bytes>)
    requires NewFile(v, e, disk, c, pieces) && |v.disk.fat| <= END_OF_CHAIN
    ensures Follow(disk.fat, e.payload) == c && IsChain(disk.fat, c)
  {
    hide Follow;
    FollowChain(disk.fat, c);
  }

  /** What the old files keep. */
  lemma OldFilesStay(v: Volume, e: Entry, disk: Disk, c: seq<nat>, pieces: seq<Bytes>, i: nat)
    requires NewFile(v, e, disk, c, pieces) && |v.disk.fat| <= END_OF_CHAIN
    requires FilesOk(v.disk.fat, v.dir, DataStart(v.g), v.g.bpb) && IsFile(v.dir, i)
    ensures ChainKept(v.disk, disk, v.dir[i].payload) && ChainOk(disk.fat, DataStart(v.g), v.dir[i], v.g.bpb)
    ensures forall x :: x in Follow(v.disk.fat, v.dir[i].payload) ==> x !in c
  {
    hide Follow, IsChain, Elsewhere, DataStart;
    assert ChainOk(v.disk.fat, DataStart(v.g), v.dir[i], v.g.bpb);
    OldChainStays(v.disk, disk, c, v.dir[i].payload);
  }

  lemma NewFilesOk(v: Volume, e: Entry, disk: Disk, c: seq<nat>, pieces: seq<Bytes>)
    requires NewFile(v, e, disk, c, pieces) && |v.disk.fat| <= END_OF_CHAIN
    requires FilesOk(v.disk.fat, v.dir, DataStart(v.g), v.g.bpb) && BusyOwned(v.disk.fat, v.dir, DataStart(v.g))
    ensures FilesOk(disk.fat, v.dir + [e], DataStart(v.g), v.g.bpb)
    ensures Kept(v, v.(disk := disk, dir := v.dir + [e]))
  {
    hide Follow, IsChain, DataStart, ChainKept;
    var dir := v.dir + [e];
    NewFileChain(v, e, disk, c, pieces);
    forall i | IsFile(dir, i) ensures ChainOk(disk.fat, DataStart(v.g), dir[i], v.g.bpb) {
      if i < |v.dir| {
        assert dir[i] == v.dir[i] && IsFile(v.dir, i);
        OldFilesStay(v, e, disk, c, pieces, i);
      } else {
        assert dir[i] == e;
        assert forall x :: x in c ==> DataStart(v.g) <= x;
      }
    }
    forall i | IsFile(v.dir, i) ensures ChainKept(v.disk, disk, v.dir[i].payload) {
      OldFilesStay(v, e, disk, c, pieces, i);
    }
    assert dir[..|v.dir|] == v.dir;
  }

  lemma NewOwner(v: Volume, e: Entry, disk: Disk, c: seq<nat>, pieces: seq<Bytes>)
    requires NewFile(v, e, disk, c, pieces) && |v.disk.fat| <= END_OF_CHAIN
    requires FilesOk(v.disk.fat, v.dir, DataStart(v.g), v.g.bpb)
    ensures OneMore(v.disk.fat, v.dir, disk.fat, v.dir + [e], |v.dir|, c)
  {
    hide Follow, IsChain, DataStart, Linked, ChainOk, FilesOk;
    var dir := v.dir + [e];
    NewFileChain(v, e, disk, c, pieces);
    forall i, b ensures Owns(disk.fat, dir, i, b) <==> Owns(v.disk.fat, v.dir, i, b) || (i == |v.dir| && b in c) {
      if 0 <= i < |v.dir| && dir[i].kind == File {
        assert dir[i] == v.dir[i];
        OldFilesStay(v, e, disk, c, pieces, i);
      }
    }
    forall i, b | Owns(v.disk.fat, v.dir, i, b) ensures b !in c {
      OldFilesStay(v, e, disk, c, pieces, i);
    }
  }

  /** `dir'` and `fat'` have one more file, `n`, on the blocks `c`. */
  ghost predicate OneMore(fat: seq<nat>, dir: Table, fat': seq<nat>, dir': Table, n: nat, c: seq<nat>) {
    && (forall i, b :: Owns(fat', dir', i, b) <==> Owns(fat, dir, i, b) || (i == n && b in c))
    && (forall i, b :: Owns(fat, dir, i, b) ==> b !in c)
  }

  lemma ApartMore(fat: seq<nat>, dir: Table, fat': seq<nat>, dir': Table, n: nat, c: seq<nat>)
    requires OneMore(fat, dir, fat', dir', n, c) && FilesApart(fat, dir)
    ensures FilesApart(fat', dir')
  {
    hide Follow;
    forall i, j, x | IsFile(dir', i) && IsFile(dir', j) && x in Follow(fat', dir'[i].payload)
        && x in Follow(fat', dir'[j].payload)
      ensures i == j
    {
      assert Owns(fat', dir', i, x) && Owns(fat', dir', j, x);
    }
  }

  lemma OwnedMore(fat: seq<nat>, dir: Table, fat': seq<nat>, dir': Table, n: nat, c: seq<nat>, start: nat)
    requires OneMore(fat, dir, fat', dir', n, c) && BusyOwned(fat, dir, start) && |fat'| == |fat|
    requires forall b :: 0 <= b < |fat| && b !in c ==> fat'[b] == fat[b]
    requires forall b :: b in c ==> b < |fat| && fat[b] == 0 && fat'[b] != 0
    ensures BusyOwned(fat', dir', start)
  {
    hide Owns;
    forall b | start <= b < |fat'| ensures fat'[b] != 0 <==> exists i :: Owns(fat', dir', i, b) {
      if b in c {
        assert Owns(fat', dir', n, b);
      } else {
        assert fat[b] != 0 <==> exists i :: Owns(fat, dir, i, b);
      }
    }
  }

  lemma NewFilesApart(v: Volume, e: Entry, disk: Disk, c: seq<nat>, pieces: seq<Bytes>)
    requires NewFile(v, e, disk, c, pieces) && |v.disk.fat| <= END_OF_CHAIN
    requires FilesOk(v.disk.fat, v.dir, DataStart(v.g), v.g.bpb) && FilesApart(v.disk.fat, v.dir)
    requires BusyOwned(v.disk.fat, v.dir, DataStart(v.g))
    ensures FilesApart(disk.fat, v.dir + [e]) && BusyOwned(disk.fat, v.dir + [e], DataStart(v.g))
  {
    hide Follow, IsChain, DataStart, ChainOk, FilesOk, BusyOwned, FilesApart, Owns, Written;
    NewOwner(v, e, disk, c, pieces);
    NewFileChain(v, e, disk, c, pieces);
    ChainBusy(disk.fat, c);
    ApartMore(v.disk.fat, v.dir, disk.fat, v.dir + [e], |v.dir|, c);
    OwnedMore(v.disk.fat, v.dir, disk.fat, v.dir + [e], |v.dir|, c, DataStart(v.g));
  }

  /** A new file keeps the invariant. */
  lemma NewFileKeeps(v: Volume, e: Entry, disk: Disk, c: seq<nat>, pieces: seq<Bytes>)
    requires Inv(v) && NewFile(v, e, disk, c, pieces) && Tree(v.dir + [e]) && |v.dir| < Capacity(v.g)
    ensures var w := v.(disk := disk, dir := v.dir + [e]); Inv(w) && Kept(v, w)
  {
    hide Tree, Follow, IsChain, ChainOk, FilesOk, FilesApart, BusyOwned, Kept, DataStart;
    assert |disk.fat| == |v.disk.fat|;
    NewFileSized(v, e, disk, c, pieces);
    NewFilesOk(v, e, disk, c, pieces);
    NewFilesApart(v, e, disk, c, pieces);
  }

  /** A file stored by `import_chain` is a new file that holds the source. */
  lemma StoredFile(v: Volume, parent: nat, name: Name, src: Bytes, junk: Bytes, now: nat)
    requires Sized(v.disk, v.g.bpb) && |junk| == v.g.bpb
    ensures var n := Needed(|src|, v.g.bpb);
            var free := FreeBlocks(v.disk.fat);
            var pieces := Pieces(src, v.g.bpb, junk);
            var r := Store(v.disk, pieces);
            && (r.Some? <==> n <= |free|)
            && (r.Some? ==> && NewFile(v, Entry(parent, File, name, now, r.value.0, |src|), r.value.1, free[..n],
                                       pieces)
                            && Holds(r.value.1.data, free[..n], src, v.g.bpb))
  {
    hide Linked, IsChain, FreeBlocks, Store, Pieces, Needed;
    var pieces := Pieces(src, v.g.bpb, junk);
    StoreLinks(v.disk, pieces);
    PiecesNeeded(src, v.g.bpb, junk);
    var r := Store(v.disk, pieces);
    if r.Some? {
      var c := FreeBlocks(v.disk.fat)[..|pieces|];
      FreeAreFree(v.disk.fat);
      assert forall x :: x in c ==> x in FreeBlocks(v.disk.fat);
      assert Written(r.value.1.data, c, pieces) by { LinkedParts(v.disk, r.value.1, c, pieces); }
      PiecesHold(r.value.1.data, c, src, v.g.bpb, junk);
    }
  }

  lemma LinkedParts(d: Disk, d': Disk, c: seq<nat>, pieces: seq<Bytes>)
    requires Linked(d, d', c, pieces)
    ensures Written(d'.data, c, pieces)
  {
  }

  lemma FreeAreFree(fat: seq<nat>)
    ensures forall x :: x in FreeBlocks(fat) ==> x < |fat| && fat[x] == 0
  {
    FreeFromIs(fat, 0);
  }

  // ----- Every command keeps the invariant -----

  lemma MkdirKeeps(v: Volume, path: Name, now: nat)
    requires Inv(v) && PathOk(path)
    ensures var r := MkdirCmd(v, path, now); !r.Lost? && Inv(r.v) && Kept(v, r.v)
  {
    hide Inv, Tree, PathOk, Mkdir, Kept;
    InvTree(v);
    MkdirKeepsTree(v.dir, Capacity(v.g), path, now);
    var dir := Mkdir(v.dir, Capacity(v.g), path, now).dir;
    FoldersKeepInv(v, dir);
    KeptFolders(v, dir);
  }

  lemma InvTree(v: Volume)
    requires Inv(v)
    ensures Tree(v.dir) && |v.dir| <= Capacity(v.g) && Sized(v.disk, v.g.bpb) && Valid(v.g)
  {
  }

  /** `w` has one more entry than `v`: a file that holds `src`. */
  ghost predicate FileStored(v: Volume, w: Volume, parent: nat, name: Name, src: Bytes) {
    && |w.dir| == |v.dir| + 1 && v.g.bpb > 0
    && var e := w.dir[|v.dir|];
    && e.kind == File && e.parent == parent && e.name == name && e.size == |src|
    && Holds(w.disk.data, Follow(w.disk.fat, e.payload), src, v.g.bpb)
  }

  lemma AddFileKeeps(v: Volume, parent: nat, name: Name, src: Bytes, junk: Bytes, now: nat)
    requires Inv(v) && |junk| == v.g.bpb && Sized(v.disk, v.g.bpb) && |v.dir| < Capacity(v.g)
    requires HasParent(v.dir, |v.dir|, parent) && NameOk(name)
    requires forall j :: 0 <= j < |v.dir| ==> !Matches(v.dir[j], name, parent, File)
    ensures var r := AddFile(v, parent, name, src, junk, now);
            && (r.Lost? <==> |FreeBlocks(v.disk.fat)| < Needed(|src|, v.g.bpb))
            && (!r.Lost? ==> r.Completed? && Inv(r.v) && Kept(v, r.v) && FileStored(v, r.v, parent, name, src))
  {
    hide Inv, Tree, HasParent, NameOk, Kept, NewFile, Holds, Follow, FreeBlocks, Needed, Store, Pieces;
    InvTree(v);
    StoredFile(v, parent, name, src, junk, now);
    var pieces := Pieces(src, v.g.bpb, junk);
    var r := Store(v.disk, pieces);
    if r.Some? {
      var e := Entry(parent, File, name, now, r.value.0, |src|);
      var c := FreeBlocks(v.disk.fat)[..Needed(|src|, v.g.bpb)];
      TreeGrows(v.dir, e);
      NewFileKeeps(v, e, r.value.1, c, pieces);
      FatFits(v);
      NewFileChain(v, e, r.value.1, c, pieces);
    }
  }

  lemma FatFits(v: Volume)
    requires Inv(v)
    ensures |v.disk.fat| <= END_OF_CHAIN
  {
  }

  lemma ImportKeeps(v: Volume, path: Name, src: Bytes, junk: Bytes, now: nat)
    requires Inv(v) && PathOk(path) && |junk| == v.g.bpb && Sized(v.disk, v.g.bpb)
    ensures var r := ImportCmd(v, path, src, junk, now); !r.Lost? ==> Inv(r.v) && Kept(v, r.v)
  {
    hide Inv, Tree, PathOk, Prepare, Resolve, Kept, AddFile, HasParent, NameOk, Matches, Capacity;
    InvTree(v);
    var cap := Capacity(v.g);
    PrepareKeepsTree(v.dir, cap, path, now);
    var o := Prepare(v.dir, cap, path, now);
    if !o.Strayed? {
      var u := v.(dir := o.dir);
      FoldersKeepInv(v, o.dir);
      KeptFolders(v, o.dir);
      var r := Resolve(o.dir, cap, path, File);
      if o.Done? && r.NotFound? {
        NewEntryFits(o.dir, cap, path, File);
        AddFileKeeps(u, r.parent, r.name, src, junk, now);
        var done := AddFile(u, r.parent, r.name, src, junk, now);
        if !done.Lost? {
          KeptTrans(v, u, done.v);
        }
      }
    }
  }

  lemma ExecuteKeeps(v: Volume, c: Command)
    requires Inv(v) && CommandOk(c, v.g.bpb)
    ensures Sized(v.disk, v.g.bpb) && var r := Execute(v, c); !r.Lost? ==> Inv(r.v) && Kept(v, r.v)
  {
    hide Inv, PathOk, Kept, MkdirCmd, ImportCmd;
    InvTree(v);
    match c
    case MakeDir(path, now) => MkdirKeeps(v, path, now);
    case Import(path, src, junk, now) => ImportKeeps(v, path, src, junk, now);
  }

  lemma KeptSelf(v: Volume)
    ensures Kept(v, v)
  {
  }

  /** Every run keeps the invariant and what was there before. */
  lemma {:induction false} RunKeeps(v: Volume, cs: seq<Command>)
    requires Inv(v) && CommandsOk(cs, v.g.bpb)
    ensures Run(v, cs).Some? ==> Inv(Run(v, cs).value) && Kept(v, Run(v, cs).value)
    decreases |cs|
  {
    hide Inv, Kept, Execute, PathOk;
    KeptSelf(v);
    if cs != [] {
      assert CommandOk(cs[0], v.g.bpb);
      ExecuteKeeps(v, cs[0]);
      InvTree(v);
      var r := Execute(v, cs[0]);
      if !r.Lost? {
        KeptGeometry(v, r.v);
        RunKeeps(r.v, cs[1..]);
        if Run(v, cs).Some? {
          KeptTrans(v, r.v, Run(v, cs).value);
        }
      }
    }
  }

  lemma KeptGeometry(v: Volume, w: Volume)
    requires Kept(v, w)
    ensures w.g == v.g
  {
  }

  // ----- Theorems -----

  /** The size of an image of `n` blocks of `k` sectors. */
  predicate Blocks(imgsize: nat, bpb: nat, k: nat, n: nat) {
    k > 0 && bpb == 512 * k && imgsize == 512 * k * n
  }

  /** `format` succeeds for just these sizes; it gives an empty directory, zeros for data, and a table in which just the
      blocks in front of the data are marked: 16, one for every quad-word of the table, and a twentieth. */
  lemma FormatSizes(imgsize: nat, bpb: nat)
    ensures Format(imgsize, bpb).None? <==> forall k: nat, n: nat :: !Blocks(imgsize, bpb, k, n)
    ensures forall k: nat, n: nat :: Blocks(imgsize, bpb, k, n) ==>
              && Format(imgsize, bpb).Some?
              && var v, tables := Format(imgsize, bpb).value, 16 + (8 * n + bpb - 1) / bpb + n / 20;
                 && v.g == Geometry(512 * k, n) && v.dir == [] && |v.disk.fat| == |v.disk.data| == n
                 && (forall b :: 0 <= b < n ==> v.disk.fat[b] == if b < tables then 0xFFFF_FFFF_FFFF_FFF0 else 0)
                 && (forall b :: 0 <= b < n ==> v.disk.data[b] == seq(bpb, _ => 0))
  {
    forall k: nat, n: nat | Blocks(imgsize, bpb, k, n)
      ensures bpb > 0 && bpb % 512 == 0 && imgsize % bpb == 0 && imgsize / bpb == n
      ensures FatBlocks(Geometry(bpb, n)) == (8 * n + bpb - 1) / bpb
    {
      WholeBlocks(k, n);
      RoundUp(n * 8, bpb);
    }
    if Format(imgsize, bpb).Some? {
      assert imgsize == bpb * (imgsize / bpb) && bpb == 512 * (bpb / 512);
      assert Blocks(imgsize, bpb, bpb / 512, imgsize / bpb);
    }
  }

  lemma WholeBlocks(k: nat, n: nat)
    requires k > 0
    ensures 512 * k * n % (512 * k) == 0 && 512 * k * n / (512 * k) == n && 512 * k % 512 == 0
  {
    Quotient(512 * k, n, 0);
  }

  lemma TimesNat(k: nat, d: nat)
    ensures k * d >= 0 && k * (d + 1) == k * d + k && k * -(d + 1) == -(k * d) - k
  {
  }

  lemma Away(k: nat, d: int)
    requires d != 0
    ensures d > 0 ==> k * d >= k
    ensures d < 0 ==> k * d + k <= 0
  {
    if d > 0 {
      TimesNat(k, d - 1);
    } else {
      TimesNat(k, -d - 1);
    }
  }

  /** A quotient rounded up. */
  lemma RoundUp(x: nat, k: nat)
    requires k > 0
    ensures (x + k - 1) / k == x / k + if x % k == 0 then 0 else 1
  {
    var q, r := x / k, x % k;
    assert x == k * q + r;
    if r == 0 {
      Quotient(k, q, k - 1);
    } else {
      assert x + k - 1 == k * (q + 1) + (r - 1);
      Quotient(k, q + 1, r - 1);
    }
  }

  lemma Quotient(k: nat, q: nat, r: nat)
    requires r < k
    ensures (k * q + r) / k == q && (k * q + r) % k == r
  {
    var p, rest := (k * q + r) / k, (k * q + r) % k;
    assert k * q + r == k * p + rest;
    assert k * (q - p) == rest - r;
    if q != p {
      Away(k, q - p);
    }
  }

  /** What `format` leaves satisfies the invariant, for every image that has room for its own tables. */
  lemma FormatInv(imgsize: nat, bpb: nat)
    requires imgsize < WORD_LIMIT && Format(imgsize, bpb).Some?
    ensures Inv(Format(imgsize, bpb).value) <==> imgsize / bpb >= 17
  {
    hide Inv;
    var g := Geometry(bpb, imgsize / bpb);
    assert g.blocks * g.bpb == imgsize;
    TablesFit(g);
    if g.blocks >= 17 {
      BlankInv(g);
    } else {
      NotInv(Blank(g));
    }
  }

  lemma NotInv(v: Volume)
    requires !Valid(v.g)
    ensures !Inv(v)
  {
  }

  /** The reserved blocks, the allocation table and the directory leave room for data from 17 blocks on. */
  lemma TablesFit(g: Geometry)
    requires g.bpb > 0 && g.bpb % 512 == 0
    ensures DataStart(g) <= g.blocks <==> g.blocks >= 17
  {
    FatBlocksBound(g);
    hide FatBlocks;
    var d := g.blocks / 20;
    assert 20 * d <= g.blocks;
  }

  lemma FatBlocksBound(g: Geometry)
    requires g.bpb >= 512
    ensures FatBlocks(g) * 64 <= g.blocks + 64 && (g.blocks > 0 ==> FatBlocks(g) >= 1)
  {
    QuotientBound(g.blocks * 8, g.bpb);
  }

  lemma QuotientBound(n: nat, k: nat)
    requires k >= 512
    ensures n / k * 512 <= n && (n > 0 ==> n / k > 0 || n % k > 0)
  {
    var q, r := n / k, n % k;
    assert n == q * k + r;
    MulLessEq(q, q, 512, k);
  }

  /** The chain invariant over all runs from `format`. */
  lemma FormatRuns(imgsize: nat, bpb: nat, cs: seq<Command>)
    requires imgsize < WORD_LIMIT && Format(imgsize, bpb).Some? && imgsize / bpb >= 17 && CommandsOk(cs, bpb)
    ensures Inv(Format(imgsize, bpb).value)
    ensures var r := Run(Format(imgsize, bpb).value, cs); r.Some? ==> Inv(r.value)
  {
    hide Inv;
    FormatInv(imgsize, bpb);
    RunKeeps(Format(imgsize, bpb).value, cs);
  }

  /** A path that leads to an entry still leads there when the table has grown. */
  lemma {:induction false} FoundStays(dir: Table, more: Table, cap: nat, parent: nat, parts: seq<Name>, kind: Kind)
    requires |dir| <= |more| && more[..|dir|] == dir && parts != []
    requires ResolveParts(dir, cap, parent, parts, kind).Found?
    ensures ResolveParts(more, cap, parent, parts, kind) == ResolveParts(dir, cap, parent, parts, kind)
    decreases |parts|
  {
    if |parts| == 1 {
      SearchPrefix(dir, more, cap, parts[0], parent, kind);
    } else {
      SearchPrefix(dir, more, cap, parts[0], parent, Folder);
      var i := Search(dir, cap, parts[0], parent, Folder).i;
      assert more[i] == more[..|dir|][i] == dir[i];
      FoundStays(dir, more, cap, dir[i].payload, parts[1..], kind);
    }
  }

  /** A file that was added for a path is what the path leads to. */
  lemma AddedIsFound(dir: Table, cap: nat, path: Name, e: Entry)
    requires Resolve(dir, cap, path, e.kind) == NotFound(e.parent, e.name)
    ensures Resolve(dir + [e], cap, path, e.kind) == Found(|dir|, e.parent, e.name)
  {
    hide Split;
    var parts := Split(Relative(path));
    var before, last := parts[..|parts| - 1], parts[|parts| - 1];
    assert parts == before + [last];
    ResolveWalks(dir, cap, ROOT_ID, before, last, e.kind);
    ResolveWalks(dir + [e], cap, ROOT_ID, before, last, e.kind);
    if Walk(dir, cap, ROOT_ID, before).At? {
      WalkGrows(dir, cap, e, ROOT_ID, before);
      NewIsFound(dir, cap, e);
    }
  }

  /** The bytes of a file that is found come out as `Exported` says. */
  lemma ExportFile(v: Volume, path: Name, i: nat, src: Bytes)
    requires Inv(v) && IsFile(v.dir, i) && Sized(v.disk, v.g.bpb)
    requires Resolve(v.dir, Capacity(v.g), path, File) == Found(i, v.dir[i].parent, v.dir[i].name)
    requires v.dir[i].size == |src| && Holds(v.disk.data, Follow(v.disk.fat, v.dir[i].payload), src, v.g.bpb)
    ensures ExportCmd(v, path) == Some(Exported(src, v.g.bpb))
  {
    hide Tree, Follow, Holds, Exported, BusyOwned, FilesApart, IsChain, ExportFrom, Resolve;
    var c := Follow(v.disk.fat, v.dir[i].payload);
    assert ChainOk(v.disk.fat, DataStart(v.g), v.dir[i], v.g.bpb);
    ExportGives(v.disk, c, src, v.g.bpb, |src|, 0);
  }

  /** A file is imported for a path that did not lead to one. */
  ghost predicate Imported(v: Volume, c: Command)
    requires Inv(v) && CommandOk(c, v.g.bpb)
  {
    && c.Import? && Execute(v, c).Completed?
    && var o := Prepare(v.dir, Capacity(v.g), c.path, c.now);
       o.Done? && Resolve(o.dir, Capacity(v.g), c.path, File).NotFound?
  }

  /** After an import, the new file is the last entry, the path leads to it and it holds the source. */
  lemma ImportStores(v: Volume, c: Command)
    requires Inv(v) && CommandOk(c, v.g.bpb) && Imported(v, c)
    ensures var w := Execute(v, c).v;
            && Inv(w) && w.g == v.g && w.dir != []
            && var i := |w.dir| - 1;
            && IsFile(w.dir, i) && w.dir[i].size == |c.src| && w.dir[i].time == c.now
            && Resolve(w.dir, Capacity(w.g), c.path, File) == Found(i, w.dir[i].parent, w.dir[i].name)
            && Holds(w.disk.data, Follow(w.disk.fat, w.dir[i].payload), c.src, w.g.bpb)
  {
    hide Inv, Tree, PathOk, Prepare, Resolve, Kept, AddFile, HasParent, NameOk, Matches, Capacity, Holds, Follow;
    InvTree(v);
    ExecuteKeeps(v, c);
    var cap := Capacity(v.g);
    PrepareKeepsTree(v.dir, cap, c.path, c.now);
    var dir := Prepare(v.dir, cap, c.path, c.now).dir;
    var u := v.(dir := dir);
    FoldersKeepInv(v, dir);
    var r := Resolve(dir, cap, c.path, File);
    NewEntryFits(dir, cap, c.path, File);
    AddFileKeeps(u, r.parent, r.name, c.src, c.junk, c.now);
    var w := AddFile(u, r.parent, r.name, c.src, c.junk, c.now).v;
    AddedEntry(u, r.parent, r.name, c.src, c.junk, c.now);
    KeptDir(u, w);
    AddedIsFound(dir, cap, c.path, w.dir[|dir|]);
    assert w.dir == dir + [w.dir[|dir|]];
  }

  /** After a `mkdir` the path leads to a directory with the time given, unless it fails before or the table is full. */
  lemma MkdirStores(v: Volume, path: Name, now: nat)
    requires Inv(v) && PathOk(path) && path != [SLASH] && Walk(v.dir, Capacity(v.g), ROOT_ID, FolderNames(path)).At?
    ensures var cap, r := Capacity(v.g), MkdirCmd(v, path, now);
            if Resolve(v.dir, cap, path, Folder).NotFound? then
              && r.Completed? && r.v == v.(dir := r.v.dir) && |r.v.dir| == |v.dir| + 1 && r.v.dir[..|v.dir|] == v.dir
              && r.v.dir[|v.dir|].kind == Folder && r.v.dir[|v.dir|].time == now
              && Resolve(r.v.dir, cap, path, Folder) == Found(|v.dir|, r.v.dir[|v.dir|].parent, r.v.dir[|v.dir|].name)
            else if Resolve(v.dir, cap, path, Folder).Found? then r == Completed(v) else r == Stopped(v)
  {
    hide Inv, Tree, PathOk, Capacity, Walk, Resolve, NameOk, HasParent, Matches, FolderNames, FreeIdFrom;
    InvTree(v);
    var cap := Capacity(v.g);
    var r := Resolve(v.dir, cap, path, Folder);
    ResolveAtEnd(v.dir, cap, path, Folder);
    if r.NotFound? {
      NewEntryFits(v.dir, cap, path, Folder);
      var e := NewFolder(v.dir, r.parent, r.name, now);
      AddedIsFound(v.dir, cap, path, e);
      assert (v.dir + [e])[..|v.dir|] == v.dir;
    }
  }

  lemma AddedEntry(v: Volume, parent: nat, name: Name, src: Bytes, junk: Bytes, now: nat)
    requires Sized(v.disk, v.g.bpb) && |junk| == v.g.bpb && AddFile(v, parent, name, src, junk, now).Completed?
    ensures var w := AddFile(v, parent, name, src, junk, now).v;
            |w.dir| == |v.dir| + 1 && w.dir[|v.dir|] == Entry(parent, File, name, now, w.dir[|v.dir|].payload, |src|)
  {
  }

  lemma ResolveAtEnd(dir: Table, cap: nat, path: Name, kind: Kind)
    requires path != [SLASH] && Walk(dir, cap, ROOT_ID, FolderNames(path)).At?
    ensures var r := Resolve(dir, cap, path, kind); r.Found? || r.NotFound? || r.Aborted?
  {
    hide Split;
    var parts := Split(Relative(path));
    var before, last := parts[..|parts| - 1], parts[|parts| - 1];
    assert parts == before + [last];
    ResolveWalks(dir, cap, ROOT_ID, before, last, kind);
  }

  /** An import to a path that leads to a file already adds nothing but its directories. */
  lemma ImportExisting(v: Volume, path: Name, src: Bytes, junk: Bytes, now: nat)
    requires Sized(v.disk, v.g.bpb) && |junk| == v.g.bpb
    ensures var o := Prepare(v.dir, Capacity(v.g), path, now);
            o.Done? && !Resolve(o.dir, Capacity(v.g), path, File).NotFound? ==>
              ImportCmd(v, path, src, junk, now) == Completed(v.(dir := o.dir))
    ensures Prepare(v.dir, Capacity(v.g), path, now).Died? ==>
              ImportCmd(v, path, src, junk, now) == Stopped(v.(dir := Prepare(v.dir, Capacity(v.g), path, now).dir))
  {
    hide Prepare, Resolve;
  }

  lemma KeptDir(v: Volume, w: Volume)
    requires Kept(v, w)
    ensures w.g == v.g && |v.dir| <= |w.dir| && w.dir[..|v.dir|] == v.dir
    ensures |v.disk.data| == |w.disk.data|
    ensures forall i :: IsFile(v.dir, i) ==>
              IsFile(w.dir, i) && w.dir[i] == v.dir[i]
              && ChainKept(v.disk, w.disk, v.dir[i].payload)
  {
    hide ChainKept;
    assert forall i :: 0 <= i < |v.dir| ==> w.dir[i] == w.dir[..|v.dir|][i] == v.dir[i];
  }

  /** Later commands do not change what a file exports to. */
  lemma KeptExports(w: Volume, z: Volume, path: Name, i: nat, src: Bytes)
    requires Inv(w) && Inv(z) && Kept(w, z) && IsFile(w.dir, i) && Sized(z.disk, z.g.bpb) && z.g == w.g && w.g.bpb > 0
    requires Resolve(w.dir, Capacity(w.g), path, File) == Found(i, w.dir[i].parent, w.dir[i].name)
    requires w.dir[i].size == |src| && Holds(w.disk.data, Follow(w.disk.fat, w.dir[i].payload), src, w.g.bpb)
    ensures ExportCmd(z, path) == Some(Exported(src, z.g.bpb))
  {
    hide Inv, Kept, Holds, Follow, Exported, ExportCmd, ResolveParts, Split, Sized, Capacity;
    KeptDir(w, z);
    FoundStays(w.dir, z.dir, Capacity(w.g), ROOT_ID, Split(Relative(path)), File);
    HoldsSame(w.disk.data, z.disk.data, Follow(w.disk.fat, w.dir[i].payload), src, w.g.bpb);
    ExportFile(z, path, i, src);
  }

  /** What was imported comes out again, whatever is done in between: exactly the bytes that went in, unless their
      number is a positive multiple of the block size; then all but the last block. */
  lemma ImportExportRoundTrip(v: Volume, c: Command, cs: seq<Command>)
    requires Inv(v) && CommandOk(c, v.g.bpb) && Imported(v, c) && CommandsOk(cs, v.g.bpb)
    ensures var w := Execute(v, c).v;
            && Inv(w) && w.g == v.g
            && (Run(w, cs).Some? ==> Sized(Run(w, cs).value.disk, v.g.bpb) && Run(w, cs).value.g == v.g &&
                                     ExportCmd(Run(w, cs).value, c.path) == Some(Exported(c.src, v.g.bpb)))
  {
    hide Inv, PathOk, Kept, Execute, Holds, Follow, Exported, ExportCmd, Resolve, Run, Sized;
    InvTree(v);
    ImportStores(v, c);
    var w := Execute(v, c).v;
    hide Imported;
    RunKeeps(w, cs);
    if Run(w, cs).Some? {
      var z := Run(w, cs).value;
      InvTree(z);
      KeptGeometry(w, z);
      KeptExports(w, z, c.path, |w.dir| - 1, c.src);
    }
  }

  /** `export_cmd` writes nothing for a file that is not found, and an empty file for a path that fails before. */
  lemma ExportCases(v: Volume, path: Name)
    requires Sized(v.disk, v.g.bpb)
    ensures Resolve(v.dir, Capacity(v.g), path, File).NotFound? ==> ExportCmd(v, path) == None
    ensures Resolve(v.dir, Capacity(v.g), path, File).Failure? ==> ExportCmd(v, path) == Some([])
  {
    hide Resolve;
    assert ExportFrom(v.disk, 0, v.g.bpb, 0, 0) == Some([]);
  }

  /** When exactly an export gives back what went in. */
  lemma ExportExact(src: Bytes, bpb: nat)
    requires bpb > 0
    ensures Exported(src, bpb) == src <==> |src| == 0 || |src| % bpb != 0
    ensures |src| > 0 && |src| % bpb == 0 ==> |src| >= bpb && Exported(src, bpb) == src[..|src| - bpb]
  {
    if 0 < |src| < bpb {
      SmallMod(|src|, bpb);
    }
  }

  lemma ValidCapacity(v: Volume)
    requires Inv(v)
    ensures Capacity(v.g) < ROOT_ID
  {
    hide Tree, FilesOk, FilesApart, BusyOwned, DataStart;
    ValidSizes(v.g);
  }

  /** An import is lost if and only if the path is a lone slash, or it has a slash past the end of the buffer and fails,
      or the free blocks do not suffice for the bytes. */
  lemma ImportLost(v: Volume, path: Name, src: Bytes, junk: Bytes, now: nat)
    requires Inv(v) && PathOk(path) && |junk| == v.g.bpb && Sized(v.disk, v.g.bpb)
    ensures var cap := Capacity(v.g);
            var o := Prepare(v.dir, cap, path, now);
            ImportCmd(v, path, src, junk, now).Lost? <==>
              if path == [SLASH] then !Search(v.dir, cap, [], ROOT_ID, Folder).Abort?
              else || Strays(v.dir, cap, path, now)
                   || (o.Done? && Resolve(o.dir, cap, path, File).NotFound?
                       && |FreeBlocks(v.disk.fat)| < Needed(|src|, v.g.bpb))
  {
    hide Inv, Tree, PathOk, Prepare, Resolve, AddFile, HasParent, NameOk, Matches, Capacity, FreeBlocks, Needed, Kept;
    hide Strays;
    InvTree(v);
    ValidCapacity(v);
    var cap := Capacity(v.g);
    if path == [SLASH] {
      SlashStrays(v.dir, cap, now);
    } else {
      PrepareStrays(v.dir, cap, path, now);
      PrepareKeepsTree(v.dir, cap, path, now);
      var o := Prepare(v.dir, cap, path, now);
      if !o.Strayed? {
        FoldersKeepInv(v, o.dir);
        var r := Resolve(o.dir, cap, path, File);
        if o.Done? && r.NotFound? {
          NewEntryFits(o.dir, cap, path, File);
          AddFileKeeps(v.(dir := o.dir), r.parent, r.name, src, junk, now);
        }
      }
    }
  }
}
