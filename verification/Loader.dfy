/** The boot loader's reader of echidnaFS (bootmgr/stage2/echfs.asm): an implementation of its own, which must find
    what the image tool stored. */
module Loader {
  import opened Memory
  import opened Directory
  import opened FolderCreation
  import opened Fat
  import opened Volume
  import opened Image

  // ----- Layout as the loader works it out -----

  /** The number of blocks of the allocation table. The block count is shifted left by three in two 32-bit halves; the
      bits that move up are taken from bit 28 on, one too many. */
  function TableBlocks(blocks: nat, bpb: nat): nat
    requires bpb > 0
  {
    Ceil(Shifted(blocks), bpb)
  }

  function Shifted(blocks: nat): nat {
    blocks / 0x1000_0000 * DWORD + blocks * 8 % DWORD
  }

  /** A quotient, rounded up. */
  function Ceil(n: nat, k: nat): nat
    requires k > 0
  {
    n / k + if n % k != 0 then 1 else 0
  }

  /** The loader and the writer agree on where the directory starts exactly for volumes of fewer than 2^28 blocks. */
  lemma TableBlocksAgree(g: Geometry)
    requires 512 <= g.bpb <= 8192 && g.blocks < DWORD
    ensures TableBlocks(g.blocks, g.bpb) == FatBlocks(g) <==> g.blocks < 0x1000_0000
  {
    assert FatBlocks(g) == Ceil(g.blocks * 8, g.bpb);
    hide Ceil, FatBlocks, Shifted;
    ShiftedExact(g.blocks);
    if g.blocks >= 0x1000_0000 {
      CeilMore(Shifted(g.blocks), g.blocks * 8, g.bpb);
    }
  }

  lemma ShiftedExact(b: nat)
    requires b < DWORD
    ensures if b < 0x1000_0000 then Shifted(b) == b * 8 else Shifted(b) >= b * 8 + DWORD
  {
  }

  lemma CeilMore(n: nat, m: nat, k: nat)
    requires 0 < k <= 8192 && n >= m + DWORD
    ensures Ceil(n, k) > Ceil(m, k)
  {
    var r := m / k;
    assert m == r * k + m % k;
    assert (r + 2) * k == r * k + 2 * k;
    QuotientAtLeast(n, k, r + 2);
  }

  lemma QuotientAtLeast(n: nat, k: nat, t: nat)
    requires k > 0 && n >= t * k
    ensures n / k >= t
  {
    assert n < n / k * k + k;
    if n / k < t {
      MulLess(n / k, t, k);
    }
  }

  /** The table lookup of the loader: entry `b mod per` of block `16 + b div per`. */
  lemma LookupPlace(g: Geometry, b: nat, per: nat)
    requires per > 0 && g.bpb == 8 * per
    ensures BlockLoc(g, RESERVED_BLOCKS + b / per) + 8 * (b % per) == FatLoc(g, b)
    ensures 8 * (b % per) + 8 <= g.bpb
  {
    var q, r := b / per, b % per;
    assert b == q * per + r;
    assert (RESERVED_BLOCKS + q) * g.bpb == RESERVED_BLOCKS * g.bpb + q * g.bpb;
    assert q * g.bpb == 8 * (q * per);
  }

  // ----- What is loaded -----

  /** The first entry at or after `i` that is in the root and has the name, whatever its type. */
  function RootEntry(dir: Table, name: Name, i: nat): (r: nat)
    requires i <= |dir|
    ensures i <= r <= |dir| && (r < |dir| ==> dir[r].parent == ROOT_ID && dir[r].name == name)
    ensures forall j :: i <= j < r ==> !(dir[j].parent == ROOT_ID && dir[j].name == name)
    decreases |dir| - i
  {
    if i == |dir| || (dir[i].parent == ROOT_ID && dir[i].name == name) then i else RootEntry(dir, name, i + 1)
  }

  function Concat(data: seq<Bytes>, c: seq<nat>): Bytes
    requires forall j :: 0 <= j < |c| ==> c[j] < |data|
  {
    if c == [] then [] else data[c[0]] + Concat(data, c[1..])
  }

  /** What the loader puts into memory: the whole blocks of the file. `None`: it stops with an error. */
  ghost function Loaded(v: Volume, name: Name): Option<Bytes>
    requires Inv(v)
  {
    var i := RootEntry(v.dir, name, 0);
    if i < |v.dir| && v.dir[i].kind == File then
      FileBlocks(v, i);
      Some(Concat(v.disk.data, Follow(v.disk.fat, v.dir[i].payload)))
    else None
  }

  lemma FileBlocks(v: Volume, i: nat)
    requires Inv(v) && IsFile(v.dir, i)
    ensures var c := Follow(v.disk.fat, v.dir[i].payload);
            && IsChain(v.disk.fat, c) && |v.disk.data| == |v.disk.fat| == v.g.blocks
            && forall j :: 0 <= j < |c| ==> DataStart(v.g) <= c[j] < |v.disk.data|
  {
    hide Tree, FilesApart, BusyOwned, Follow, Needed, DataStart;
    assert ChainOk(v.disk.fat, DataStart(v.g), v.dir[i], v.g.bpb);
    var c := Follow(v.disk.fat, v.dir[i].payload);
    assert forall j :: 0 <= j < |c| ==> c[j] in c;
  }

  /** The blocks of a chain that holds `src` start with `src`. */
  lemma {:induction false} HeldPrefix(data: seq<Bytes>, c: seq<nat>, src: Bytes, bpb: nat)
    requires bpb > 0 && Holds(data, c, src, bpb) && forall j :: 0 <= j < |c| ==> c[j] < |data|
    ensures src <= Concat(data, c)
    decreases |src|
  {
    if |src| <= bpb {
      assert Concat(data, c) == data[c[0]] + Concat(data, c[1..]);
    } else {
      HeldPrefix(data, c[1..], src[bpb..], bpb);
      assert src == src[..bpb] + src[bpb..];
      assert Concat(data, c) == src[..bpb] + Concat(data, c[1..]);
    }
  }

  /** Which files the loader loads: a root file that no root directory of the same name precedes. */
  lemma LoadedIff(v: Volume, name: Name)
    requires Inv(v)
    ensures Loaded(v, name).Some? <==>
            exists i :: IsFile(v.dir, i) && v.dir[i].parent == ROOT_ID && v.dir[i].name == name &&
                        forall j :: 0 <= j < i ==> !Matches(v.dir[j], name, ROOT_ID, Folder)
  {
    hide Inv;
    var r := RootEntry(v.dir, name, 0);
    if i :| IsFile(v.dir, i) && v.dir[i].parent == ROOT_ID && v.dir[i].name == name &&
            forall j :: 0 <= j < i ==> !Matches(v.dir[j], name, ROOT_ID, Folder)
    {
      assert r <= i;
      if r < i {
        assert !Matches(v.dir[r], name, ROOT_ID, Folder);
      }
    }
    if Loaded(v, name).Some? {
      assert IsFile(v.dir, r);
    }
  }

  /** In a tree the file is the only one of its name in the root. */
  lemma RootFileFirst(v: Volume, i: nat)
    requires Inv(v) && IsFile(v.dir, i) && v.dir[i].parent == ROOT_ID
    requires forall j :: 0 <= j < |v.dir| ==> !Matches(v.dir[j], v.dir[i].name, ROOT_ID, Folder)
    ensures RootEntry(v.dir, v.dir[i].name, 0) == i
  {
    var name := v.dir[i].name;
    InvTree(v);
    hide Inv;
    forall j | 0 <= j < i ensures !(v.dir[j].parent == ROOT_ID && v.dir[j].name == name) {
      assert !Matches(v.dir[j], v.dir[i].name, v.dir[i].parent, v.dir[i].kind);
      assert !Matches(v.dir[j], name, ROOT_ID, Folder);
    }
  }

  /** The loader agrees with the writer: a root file that holds `src` is loaded with `src` in front. */
  lemma LoadsFile(v: Volume, i: nat, src: Bytes)
    requires Inv(v) && v.g.bpb > 0 && IsFile(v.dir, i) && v.dir[i].parent == ROOT_ID
    requires forall j :: 0 <= j < |v.dir| ==> !Matches(v.dir[j], v.dir[i].name, ROOT_ID, Folder)
    requires Holds(v.disk.data, Follow(v.disk.fat, v.dir[i].payload), src, v.g.bpb)
    ensures Loaded(v, v.dir[i].name).Some? && src <= Loaded(v, v.dir[i].name).value
  {
    hide Inv, Follow, Holds, Concat;
    RootFileFirst(v, i);
    FileBlocks(v, i);
    HeldPrefix(v.disk.data, Follow(v.disk.fat, v.dir[i].payload), src, v.g.bpb);
  }

  /** After an import to a plain name, with or without a leading slash, and any later commands, the loader loads the
      bytes that were imported, unless there is a root directory of that name. */
  lemma ImportLoads(v: Volume, c: Command, cs: seq<Command>)
    requires Inv(v) && CommandOk(c, v.g.bpb) && Imported(v, c) && CommandsOk(cs, v.g.bpb)
    requires SLASH !in Relative(c.path)
    ensures var w, name := Execute(v, c).v, Relative(c.path);
            && Inv(w) && w.g == v.g
            && (Run(w, cs).Some? ==>
                  var z := Run(w, cs).value;
                  && Inv(z)
                  && ((forall j :: 0 <= j < |z.dir| ==> !Matches(z.dir[j], name, ROOT_ID, Folder)) ==>
                      Loaded(z, name).Some? && c.src <= Loaded(z, name).value))
  {
    hide Inv, PathOk, Kept, Execute, Holds, Follow, Run, Sized, Loaded, Resolve;
    InvTree(v);
    ImportStores(v, c);
    var w := Execute(v, c).v;
    hide Imported;
    RunKeeps(w, cs);
    if Run(w, cs).Some? {
      KeptLoads(w, Run(w, cs).value, c.path, |w.dir| - 1, c.src);
    }
  }

  /** Later commands do not change what is loaded for a file, unless they make a directory of that name. */
  lemma KeptLoads(w: Volume, z: Volume, path: Name, i: nat, src: Bytes)
    requires Inv(w) && Inv(z) && Kept(w, z) && IsFile(w.dir, i) && SLASH !in Relative(path) && w.g.bpb > 0
    requires Resolve(w.dir, Capacity(w.g), path, File) == Found(i, w.dir[i].parent, w.dir[i].name)
    requires Holds(w.disk.data, Follow(w.disk.fat, w.dir[i].payload), src, w.g.bpb)
    ensures (forall j :: 0 <= j < |z.dir| ==> !Matches(z.dir[j], Relative(path), ROOT_ID, Folder)) ==>
            Loaded(z, Relative(path)).Some? && src <= Loaded(z, Relative(path)).value
  {
    hide Inv, Kept, Holds, Follow, Loaded, Resolve, Capacity;
    KeptDir(w, z);
    PlainName(w.dir, Capacity(w.g), path, i);
    HoldsSame(w.disk.data, z.disk.data, Follow(w.disk.fat, w.dir[i].payload), src, w.g.bpb);
    if forall j :: 0 <= j < |z.dir| ==> !Matches(z.dir[j], Relative(path), ROOT_ID, Folder) {
      LoadsFile(z, i, src);
    }
  }

  lemma PlainName(dir: Table, cap: nat, path: Name, i: nat)
    requires SLASH !in Relative(path) && i < |dir|
             && Resolve(dir, cap, path, File) == Found(i, dir[i].parent, dir[i].name)
    ensures dir[i].parent == ROOT_ID && dir[i].name == Relative(path)
  {
    hide Split;
    SplitOne(Relative(path));
  }
}
