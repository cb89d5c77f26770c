/** The allocation table and the data blocks of an echidnaFS volume, with `import_chain` and `export_chain`
    (echfs-utils/echfs-utils.c). */
module Fat {
  import opened Memory

  const END_OF_CHAIN: nat := 0xFFFF_FFFF_FFFF_FFFF
  const RESERVED_BLOCK: nat := 0xFFFF_FFFF_FFFF_FFF0

  type Bytes = seq<Byte>

  /** One table entry and one block of bytes for every block number. */
  datatype Disk = Disk(fat: seq<nat>, data: seq<Bytes>)

  ghost predicate Sized(d: Disk, bpb: nat) {
    && bpb > 0 && |d.fat| == |d.data| <= RESERVED_BLOCK
    && forall b :: 0 <= b < |d.data| ==> |d.data[b]| == bpb
  }

  // ----- The writer -----

  /** The first free block at or after `b`, or the end of the table. */
  function FirstFree(fat: seq<nat>, b: nat): (r: nat)
    requires b <= |fat|
    ensures b <= r <= |fat| && (r < |fat| ==> fat[r] == 0) && forall k :: b <= k < r ==> fat[k] != 0
    decreases |fat| - b
  {
    if b == |fat| || fat[b] == 0 then b else FirstFree(fat, b + 1)
  }

  /** The contents of the block buffer each time it is written. `buf` is what is in it before: a short last read
      leaves the rest of the buffer as it was. */
  function Pieces(src: Bytes, bpb: nat, buf: Bytes): (r: seq<Bytes>)
    requires bpb > 0 && |buf| == bpb
    ensures |r| > 0 && forall i :: 0 <= i < |r| ==> |r[i]| == bpb
    decreases |src|
  {
    if |src| <= bpb then [src + buf[|src|..]] else [src[..bpb]] + Pieces(src[bpb..], bpb, src[..bpb])
  }

  /** Byte `i` of block `j`: the file's, or what the buffer held there, which is the block before or its first
      contents. */
  lemma {:induction false} PiecesExact(src: Bytes, bpb: nat, buf: Bytes, j: nat, i: nat)
    requires bpb > 0 && |buf| == bpb && j < |Pieces(src, bpb, buf)| && i < bpb
    ensures var r, k := Pieces(src, bpb, buf)[j][i], j * bpb + i;
            if k < |src| then r == src[k]
            else if j == 0 then r == buf[i] else k - bpb < |src| && r == src[k - bpb]
    decreases j
  {
    if j > 0 {
      PiecesExact(src[bpb..], bpb, src[..bpb], j - 1, i);
      assert j * bpb == (j - 1) * bpb + bpb;
    }
  }

  /** The loop of `import_chain` with block `b` chosen: mark it as the end, write its bytes, then look for the next
      block from the start of the table and link it. `None`: the search ran out of the table. */
  function StoreFrom(d: Disk, b: nat, pieces: seq<Bytes>): Option<Disk>
    requires b < |d.fat| == |d.data| && pieces != []
    decreases |pieces|
  {
    var d' := Disk(d.fat[b := END_OF_CHAIN], d.data[b := pieces[0]]);
    if |pieces| == 1 then Some(d')
    else
      var next := FirstFree(d'.fat, 0);
      if next == |d'.fat| then None
      else StoreFrom(d'.(fat := d'.fat[b := next]), next, pieces[1..])
  }

  /** `import_chain`: the first block, and the disk. */
  function Store(d: Disk, pieces: seq<Bytes>): Option<(nat, Disk)>
    requires |d.fat| == |d.data| && pieces != []
  {
    var b := FirstFree(d.fat, 0);
    if b == |d.fat| then None
    else match StoreFrom(d, b, pieces)
      case Some(d') => Some((b, d'))
      case None => None
  }

  // ----- The reader -----

  /** The loop of `export_chain`, with `done` bytes written so far. `None`: it would read outside the image. */
  function ExportFrom(d: Disk, b: nat, bpb: nat, size: nat, done: nat): Option<Bytes>
    requires Sized(d, bpb)
    decreases if done <= size then size - done else 0
  {
    if b == END_OF_CHAIN then Some([])
    else if done + bpb >= size then
      if size % bpb == 0 then Some([])
      else if b < |d.data| then Some(d.data[b][..size % bpb])
      else None
    else if b < |d.data| then
      match ExportFrom(d, d.fat[b], bpb, size, done + bpb)
      case Some(rest) => Some(d.data[b] + rest)
      case None => None
    else None
  }

  // ----- Chains -----

  /** A chain: increasing block numbers, each linked to the next, the last marked as the end. */
  ghost predicate IsChain(fat: seq<nat>, c: seq<nat>) {
    && c != [] && (forall j :: 0 <= j < |c| ==> c[j] < |fat|)
    && (forall j :: 0 <= j < |c| - 1 ==> c[j] < c[j + 1] && fat[c[j]] == c[j + 1])
    && fat[c[|c| - 1]] == END_OF_CHAIN
  }

  /** The chain that starts at `b`. */
  function Follow(fat: seq<nat>, b: nat): (c: seq<nat>)
    ensures c != [] && c[0] == b
    decreases |fat| - b
  {
    if b < |fat| && b < fat[b] < |fat| then [b] + Follow(fat, fat[b]) else [b]
  }

  lemma {:induction false} FollowChain(fat: seq<nat>, c: seq<nat>)
    requires IsChain(fat, c) && |fat| <= END_OF_CHAIN
    ensures Follow(fat, c[0]) == c
    decreases |c|
  {
    if |c| > 1 {
      ChainTail(fat, c);
      FollowChain(fat, c[1..]);
      assert c == [c[0]] + c[1..];
    }
  }

  lemma ChainTail(fat: seq<nat>, c: seq<nat>)
    requires IsChain(fat, c) && |c| > 1
    ensures IsChain(fat, c[1..])
  {
    var t := c[1..];
    assert forall j :: 0 <= j < |t| ==> t[j] == c[j + 1];
  }

  /** A chain depends only on its own entries. */
  lemma ChainSame(fat: seq<nat>, fat': seq<nat>, c: seq<nat>)
    requires IsChain(fat, c) && |fat'| == |fat| && forall j :: 0 <= j < |c| ==> fat'[c[j]] == fat[c[j]]
    ensures IsChain(fat', c)
  {
  }

  lemma ChainBusy(fat: seq<nat>, c: seq<nat>)
    requires IsChain(fat, c)
    ensures forall j :: 0 <= j < |c| ==> fat[c[j]] != 0
  {
    forall j | 0 <= j < |c| ensures fat[c[j]] != 0 {
      if j < |c| - 1 {
        assert fat[c[j]] == c[j + 1] > c[j];
      }
    }
  }

  // ----- What the writer writes -----

  /** The free blocks at or after `b`, in order. */
  function FreeFrom(fat: seq<nat>, b: nat): seq<nat>
    decreases |fat| - b
  {
    if b >= |fat| then [] else if fat[b] == 0 then [b] + FreeFrom(fat, b + 1) else FreeFrom(fat, b + 1)
  }

  ghost predicate Rising(r: seq<nat>) {
    forall i, j :: 0 <= i < j < |r| ==> r[i] < r[j]
  }

  lemma {:induction false} FreeFromIs(fat: seq<nat>, b: nat)
    ensures forall x :: x in FreeFrom(fat, b) <==> b <= x < |fat| && fat[x] == 0
    ensures Rising(FreeFrom(fat, b))
    decreases |fat| - b
  {
    if b < |fat| {
      FreeFromIs(fat, b + 1);
      var rest := FreeFrom(fat, b + 1);
      if fat[b] == 0 {
        var r := [b] + rest;
        forall i, j | 0 <= i < j < |r| ensures r[i] < r[j] {
          assert r[j] == rest[j - 1] && rest[j - 1] in rest;
          assert i > 0 ==> r[i] == rest[i - 1];
        }
      }
    }
  }

  function FreeBlocks(fat: seq<nat>): seq<nat> {
    FreeFrom(fat, 0)
  }

  lemma {:induction false} FirstFreeIsHead(fat: seq<nat>, b: nat)
    requires b <= |fat|
    ensures FreeFrom(fat, b) == [] <==> FirstFree(fat, b) == |fat|
    ensures FreeFrom(fat, b) != [] ==> FreeFrom(fat, b)[0] == FirstFree(fat, b)
    decreases |fat| - b
  {
    if b < |fat| && fat[b] != 0 {
      FirstFreeIsHead(fat, b + 1);
    }
  }

  lemma {:induction false} FreeFromSame(fat: seq<nat>, fat': seq<nat>, b: nat)
    requires |fat| == |fat'| && forall k :: b <= k < |fat| ==> (fat[k] == 0 <==> fat'[k] == 0)
    ensures FreeFrom(fat', b) == FreeFrom(fat, b)
    decreases |fat| - b
  {
    if b < |fat| {
      FreeFromSame(fat, fat', b + 1);
    }
  }

  /** Taking the first free block leaves the others. */
  lemma {:induction false} TakeFirst(fat: seq<nat>, fat': seq<nat>, b: nat, x: nat)
    requires b <= x < |fat| == |fat'| && fat[x] == 0 && fat'[x] != 0 && forall k :: b <= k < x ==> fat[k] != 0
    requires forall k :: b <= k < |fat| && k != x ==> fat'[k] == fat[k]
    ensures FreeFrom(fat, b) == [x] + FreeFrom(fat', b)
    decreases |fat| - b
  {
    if b == x {
      FreeFromSame(fat, fat', b + 1);
    } else {
      TakeFirst(fat, fat', b + 1, x);
    }
  }

  /** Both tables without their first free block. */
  lemma TakeFirstFree(fat: seq<nat>, b: nat, v: nat)
    requires b == FirstFree(fat, 0) < |fat| && v != 0
    ensures FreeBlocks(fat) == [b] + FreeBlocks(fat[b := v])
  {
    hide FreeFrom, FirstFree;
    TakeFirst(fat, fat[b := v], 0, b);
  }

  lemma FirstFreeIs(fat: seq<nat>, r: nat)
    requires r <= |fat| && (r < |fat| ==> fat[r] == 0) && forall k :: 0 <= k < r ==> fat[k] != 0
    ensures FirstFree(fat, 0) == r
  {
    hide FirstFree;
    var f := FirstFree(fat, 0);
  }

  /** The bytes are on the blocks `c`. */
  ghost predicate Written(data: seq<Bytes>, c: seq<nat>, pieces: seq<Bytes>) {
    |c| == |pieces| && forall j :: 0 <= j < |c| ==> c[j] < |data| && data[c[j]] == pieces[j]
  }

  /** Nothing but the blocks `c` and their entries differ. */
  ghost predicate Elsewhere(d: Disk, d': Disk, c: seq<nat>) {
    && |d'.fat| == |d.fat| && |d'.data| == |d.data|
    && (forall b :: 0 <= b < |d.fat| && b !in c ==> d'.fat[b] == d.fat[b])
    && (forall b :: 0 <= b < |d.data| && b !in c ==> d'.data[b] == d.data[b])
  }

  /** The pieces are on the chain `c`; nothing else changed. */
  ghost predicate Linked(d: Disk, d': Disk, c: seq<nat>, pieces: seq<Bytes>) {
    IsChain(d'.fat, c) && Written(d'.data, c, pieces) && Elsewhere(d, d', c)
  }

  lemma LinkedOne(d: Disk, b: nat, piece: Bytes)
    requires b < |d.fat| == |d.data|
    ensures Linked(d, Disk(d.fat[b := END_OF_CHAIN], d.data[b := piece]), [b], [piece])
  {
  }

  /** A block in front of a chain. */
  lemma ChainMore(fat: seq<nat>, b: nat, c: seq<nat>)
    requires IsChain(fat, c) && b < c[0] && fat[b] == c[0]
    ensures IsChain(fat, [b] + c)
  {
    var e := [b] + c;
    forall j | 0 <= j < |e| ensures e[j] < |fat| {
      assert j > 0 ==> e[j] == c[j - 1];
    }
    forall j | 0 <= j < |e| - 1 ensures e[j] < e[j + 1] && fat[e[j]] == e[j + 1] {
      assert e[j + 1] == c[j];
      assert j > 0 ==> e[j] == c[j - 1];
    }
  }

  lemma WrittenMore(data: seq<Bytes>, b: nat, c: seq<nat>, piece: Bytes, pieces: seq<Bytes>)
    requires Written(data, c, pieces) && b < |data| && data[b] == piece
    ensures Written(data, [b] + c, [piece] + pieces)
  {
    var e, ps := [b] + c, [piece] + pieces;
    forall j | 0 <= j < |e| ensures e[j] < |data| && data[e[j]] == ps[j] {
      assert j > 0 ==> e[j] == c[j - 1] && ps[j] == pieces[j - 1];
    }
  }

  lemma ElsewhereMore(d: Disk, b: nat, v: nat, piece: Bytes, d': Disk, c: seq<nat>)
    requires b < |d.fat| == |d.data| && b !in c && Elsewhere(Disk(d.fat[b := v], d.data[b := piece]), d', c)
    ensures Elsewhere(d, d', [b] + c) && d'.fat[b] == v && d'.data[b] == piece
  {
  }

  lemma LinkedMore(d: Disk, b: nat, d': Disk, c: seq<nat>, piece: Bytes, pieces: seq<Bytes>)
    requires b < |d.fat| == |d.data| && c != [] && b < c[0] && b !in c
    requires Linked(Disk(d.fat[b := c[0]], d.data[b := piece]), d', c, pieces)
    ensures Linked(d, d', [b] + c, [piece] + pieces)
  {
    hide Elsewhere, Written, IsChain;
    ElsewhereMore(d, b, c[0], piece, d', c);
    ElsewhereSizes(d, d', [b] + c);
    ChainMore(d'.fat, b, c);
    WrittenMore(d'.data, b, c, piece, pieces);
  }

  lemma ElsewhereSizes(d: Disk, d': Disk, c: seq<nat>)
    requires Elsewhere(d, d', c)
    ensures |d'.fat| == |d.fat| && |d'.data| == |d.data|
  {
  }

  lemma {:induction false} StoreFromLinks(d: Disk, b: nat, pieces: seq<Bytes>)
    requires |d.fat| == |d.data| && pieces != [] && b == FirstFree(d.fat, 0) < |d.fat|
    ensures var free := FreeBlocks(d.fat);
            var r := StoreFrom(d, b, pieces);
            && free != [] && free[0] == b
            && (r.Some? <==> |pieces| <= |free|)
            && (r.Some? ==> Linked(d, r.value, free[..|pieces|], pieces))
    decreases |pieces|, 0
  {
    hide Linked, FreeBlocks, FirstFree;
    var free := FreeBlocks(d.fat);
    TakeFirstFree(d.fat, b, END_OF_CHAIN);
    if |pieces| == 1 {
      LinkedOne(d, b, pieces[0]);
      assert free[..1] == [b] && pieces == [pieces[0]];
    } else {
      var fat := d.fat[b := END_OF_CHAIN];
      var next := FirstFree(fat, 0);
      NoFree(fat);
      assert fat[b := next] == d.fat[b := next];
      if next < |fat| {
        StoreNext(d, b, pieces[0], pieces[1..], next);
        assert pieces == [pieces[0]] + pieces[1..];
      }
    }
  }

  lemma NoFree(fat: seq<nat>)
    ensures FreeBlocks(fat) == [] <==> FirstFree(fat, 0) == |fat|
  {
    FirstFreeIsHead(fat, 0);
  }

  /** The step from one block to the next. */
  lemma {:induction false} StoreNext(d: Disk, b: nat, piece: Bytes, pieces: seq<Bytes>, next: nat)
    requires |d.fat| == |d.data| && pieces != [] && b == FirstFree(d.fat, 0) < |d.fat|
    requires next == FirstFree(d.fat[b := END_OF_CHAIN], 0) < |d.fat|
    ensures var free := FreeBlocks(d.fat);
            var r := StoreFrom(Disk(d.fat[b := next], d.data[b := piece]), next, pieces);
            && (r.Some? <==> |pieces| + 1 <= |free|)
            && (r.Some? ==> Linked(d, r.value, free[..|pieces| + 1], [piece] + pieces))
    decreases |pieces|, 1
  {
    hide Linked, FreeBlocks, FirstFree, StoreFrom;
    var fat1 := d.fat[b := END_OF_CHAIN];
    var d2 := Disk(d.fat[b := next], d.data[b := piece]);
    assert next > b by {
      assert forall k :: 0 <= k < b ==> fat1[k] == d.fat[k];
      assert fat1[next] == 0;
    }
    forall k | 0 <= k < next ensures d2.fat[k] != 0 {
      assert fat1[k] != 0;
      assert k != b ==> d2.fat[k] == fat1[k];
    }
    FirstFreeIs(d2.fat, next);
    TakeFirstFree(d.fat, b, next);
    StoreFromLinks(d2, next, pieces);
    var r := StoreFrom(d2, next, pieces);
    if r.Some? {
      var c := FreeBlocks(d2.fat)[..|pieces|];
      assert FreeBlocks(d.fat)[..|pieces| + 1] == [b] + c;
      NotFree(d2.fat, b);
      LinkedMore(d, b, r.value, c, piece, pieces);
    }
  }

  lemma NotFree(fat: seq<nat>, b: nat)
    requires b < |fat| && fat[b] != 0
    ensures b !in FreeBlocks(fat)
  {
    FreeFromIs(fat, 0);
  }

  /** `import_chain` uses the lowest free blocks, in order, and it succeeds if and only if there are enough. */
  lemma StoreLinks(d: Disk, pieces: seq<Bytes>)
    requires |d.fat| == |d.data| && pieces != []
    ensures var free := FreeBlocks(d.fat);
            var r := Store(d, pieces);
            && (r.Some? <==> |pieces| <= |free|)
            && (r.Some? ==> r.value.0 == free[0] && Linked(d, r.value.1, free[..|pieces|], pieces))
  {
    hide Linked, FreeFrom, FirstFree, StoreFrom;
    FirstFreeIsHead(d.fat, 0);
    var b := FirstFree(d.fat, 0);
    if b < |d.fat| {
      StoreFromLinks(d, b, pieces);
    }
  }

  // ----- Contents -----

  /** The number of blocks for `n` bytes: one block even for none. */
  function Needed(n: nat, bpb: nat): (r: nat)
    requires bpb > 0
    ensures r > 0
  {
    if n <= bpb then 1 else 1 + Needed(n - bpb, bpb)
  }

  lemma {:induction false} NeededIs(n: nat, bpb: nat)
    requires bpb > 0
    ensures Needed(n, bpb) == if n == 0 then 1 else n / bpb + if n % bpb == 0 then 0 else 1
  {
    if n > bpb {
      NeededIs(n - bpb, bpb);
      DivStep(n, bpb);
    } else if n == bpb {
      DivStep(n, bpb);
    }
  }

  lemma DivStep(n: nat, k: nat)
    requires 0 < k <= n
    ensures n / k == (n - k) / k + 1 && n % k == (n - k) % k
  {
    var q, r := (n - k) / k, (n - k) % k;
    assert n == (q + 1) * k + r;
    DivUnique(n, k, q + 1, r);
  }

  lemma DivUnique(n: nat, k: nat, q: nat, r: nat)
    requires k > 0 && n == q * k + r && r < k
    ensures n / k == q && n % k == r
  {
    var q', r' := n / k, n % k;
    assert n == q' * k + r';
    if q' < q {
      MulLess(q', q, k);
    } else if q < q' {
      MulLess(q, q', k);
    }
  }

  lemma {:induction false} MulLess(a: nat, b: nat, k: nat)
    requires a < b
    ensures a * k + k <= b * k
  {
    assert b * k == (b - 1) * k + k;
    if a + 1 < b {
      MulLess(a, b - 1, k);
    }
  }

  lemma {:induction false} PiecesNeeded(src: Bytes, bpb: nat, buf: Bytes)
    requires bpb > 0 && |buf| == bpb
    ensures |Pieces(src, bpb, buf)| == Needed(|src|, bpb)
    decreases |src|
  {
    if |src| > bpb {
      PiecesNeeded(src[bpb..], bpb, src[..bpb]);
    }
  }

  /** The blocks `c` hold `src`, except for the end of the last block. */
  predicate Holds(data: seq<Bytes>, c: seq<nat>, src: Bytes, bpb: nat)
    requires bpb > 0
    decreases |src|
  {
    && c != [] && c[0] < |data|
    && if |src| <= bpb then |c| == 1 && src <= data[c[0]]
       else data[c[0]] == src[..bpb] && Holds(data, c[1..], src[bpb..], bpb)
  }

  lemma {:induction false} PiecesHold(data: seq<Bytes>, c: seq<nat>, src: Bytes, bpb: nat, buf: Bytes)
    requires bpb > 0 && |buf| == bpb && |c| == |Pieces(src, bpb, buf)|
    requires forall j :: 0 <= j < |c| ==> c[j] < |data| && data[c[j]] == Pieces(src, bpb, buf)[j]
    ensures Holds(data, c, src, bpb)
    decreases |src|
  {
    var pieces := Pieces(src, bpb, buf);
    if |src| > bpb {
      var rest := Pieces(src[bpb..], bpb, src[..bpb]);
      assert pieces == [src[..bpb]] + rest;
      assert forall j :: 0 <= j < |rest| ==> rest[j] == pieces[j + 1] && c[1..][j] == c[j + 1];
      PiecesHold(data, c[1..], src[bpb..], bpb, src[..bpb]);
    }
  }

  lemma {:induction false} HoldsSame(data: seq<Bytes>, data': seq<Bytes>, c: seq<nat>, src: Bytes, bpb: nat)
    requires bpb > 0 && Holds(data, c, src, bpb) && |data'| == |data|
    requires forall j :: 0 <= j < |c| && c[j] < |data| ==> data'[c[j]] == data[c[j]]
    ensures Holds(data', c, src, bpb)
    decreases |src|
  {
    if |src| > bpb {
      assert forall j :: 0 <= j < |c[1..]| ==> c[1..][j] == c[j + 1];
      HoldsSame(data, data', c[1..], src[bpb..], bpb);
    }
  }

  /** What comes out of `export_chain`: the last block is dropped when the file ends with it. */
  function Exported(src: Bytes, bpb: nat): Bytes
    requires bpb > 0
  {
    if |src| > 0 && |src| % bpb == 0 && |src| >= bpb then src[..|src| - bpb] else src
  }

  lemma SmallMod(n: nat, k: nat)
    requires k > 0 && n <= k
    ensures n % k == if n == k then 0 else n
  {
    if n < k {
      DivUnique(n, k, 0, n);
    } else {
      DivUnique(n, k, 1, 0);
    }
  }

  lemma ExportedStep(src: Bytes, bpb: nat)
    requires 0 < bpb < |src|
    ensures Exported(src, bpb) == src[..bpb] + Exported(src[bpb..], bpb)
  {
    DivStep(|src|, bpb);
    var rest := src[bpb..];
    if |rest| < bpb {
      SmallMod(|rest|, bpb);
    }
    if |src| % bpb == 0 {
      assert src[..|src| - bpb] == src[..bpb] + rest[..|rest| - bpb];
    } else {
      assert src == src[..bpb] + rest;
    }
  }

  /** The reader on a chain that holds `src`, of which `done` whole blocks are already out. */
  lemma {:induction false} ExportGives(d: Disk, c: seq<nat>, src: Bytes, bpb: nat, size: nat, done: nat)
    requires Sized(d, bpb) && IsChain(d.fat, c) && Holds(d.data, c, src, bpb)
    requires size == done + |src| && size % bpb == |src| % bpb
    ensures ExportFrom(d, c[0], bpb, size, done) == Some(Exported(src, bpb))
    decreases |src|
  {
    if |src| <= bpb {
      SmallMod(|src|, bpb);
      if |src| < bpb {
        assert d.data[c[0]][..|src|] == src;
      }
    } else {
      ChainTail(d.fat, c);
      DivStep(|src|, bpb);
      ExportGives(d, c[1..], src[bpb..], bpb, size, done + bpb);
      ExportedStep(src, bpb);
    }
  }
}
