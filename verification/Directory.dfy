/** The main directory of an echidnaFS volume (echfs-utils/echfs-utils.c): a flat table whose entries name
    their parent by its directory ID. The used entries form a prefix of the table; the next one reads as zero.

    Names and paths are the bytes of C strings. */
module Directory {
  import opened Memory

  type Name = seq<Byte>

  const SLASH: Byte := 47
  const ROOT_ID: nat := 0xFFFF_FFFF_FFFF_FFFF
  const NAME_LIMIT: nat := 218

  datatype Kind = File | Folder

  /** `payload` is the first block of a file and the ID of a directory. */
  datatype Entry = Entry(parent: nat, kind: Kind, name: Name, time: nat, payload: nat, size: nat)

  type Table = seq<Entry>

  predicate Matches(e: Entry, name: Name, parent: nat, kind: Kind) {
    e.parent == parent && e.kind == kind && e.name == name
  }

  // ----- Search and path resolution -----

  /** The first match at or after `i`, or the end of the used entries. */
  function FindFrom(dir: Table, name: Name, parent: nat, kind: Kind, i: nat): (r: nat)
    requires i <= |dir|
    ensures i <= r <= |dir| && (r < |dir| ==> Matches(dir[r], name, parent, kind))
    ensures forall j :: i <= j < r ==> !Matches(dir[j], name, parent, kind)
    decreases |dir| - i
  {
    if i == |dir| || Matches(dir[i], name, parent, kind) then i else FindFrom(dir, name, parent, kind, i + 1)
  }

  /** `Abort`: the table of `cap` entries is full, so that the scan leaves it and the tool aborts. */
  datatype Lookup = At(i: nat) | Missing | Abort

  function Search(dir: Table, cap: nat, name: Name, parent: nat, kind: Kind): (r: Lookup)
    ensures r.At? ==> r.i < |dir| && Matches(dir[r.i], name, parent, kind)
    ensures !r.At? <==> forall j :: 0 <= j < |dir| ==> !Matches(dir[j], name, parent, kind)
    ensures r.Missing? ==> |dir| < cap
    ensures r.Abort? ==> |dir| >= cap
  {
    var i := FindFrom(dir, name, parent, kind, 0);
    if i < |dir| then At(i) else if |dir| < cap then Missing else Abort
  }

  /** The components of a path; there is always at least one. */
  function Split(p: Name): (r: seq<Name>)
    ensures |r| > 0
  {
    if p == [] then [[]]
    else if p[0] == SLASH then [[]] + Split(p[1..])
    else var rest := Split(p[1..]); [[p[0]] + rest[0]] + rest[1..]
  }

  function Join(parts: seq<Name>): Name
    requires parts != []
  {
    if |parts| == 1 then parts[0] else parts[0] + [SLASH] + Join(parts[1..])
  }

  /** What `path_resolver` reports. `NotFound` and `Found` also give the ID of the parent and the last name. */
  datatype Resolved =
    | Root
    | Found(i: nat, parent: nat, name: Name)
    | NotFound(parent: nat, name: Name)
    | Failure
    | Aborted

  function ResolveParts(dir: Table, cap: nat, parent: nat, parts: seq<Name>, kind: Kind): Resolved
    requires parts != []
    decreases |parts|
  {
    if |parts| == 1 then
      match Search(dir, cap, parts[0], parent, kind)
      case At(i) => Found(i, parent, parts[0])
      case Missing => NotFound(parent, parts[0])
      case Abort => Aborted
    else
      match Search(dir, cap, parts[0], parent, Folder)
      case At(i) => ResolveParts(dir, cap, dir[i].payload, parts[1..], kind)
      case Missing => Failure
      case Abort => Aborted
  }

  /** One leading slash is skipped. */
  function Relative(path: Name): Name {
    if path != [] && path[0] == SLASH then path[1..] else path
  }

  function Resolve(dir: Table, cap: nat, path: Name, kind: Kind): Resolved {
    if path == [SLASH] then
      if kind == Folder then Root else Failure
    else
      ResolveParts(dir, cap, ROOT_ID, Split(Relative(path)), kind)
  }

  // ----- New directories -----

  /** The scan of `get_free_id`. */
  function FreeIdFrom(dir: Table, i: nat, id: nat): nat
    requires i <= |dir|
    decreases |dir| - i
  {
    if i == |dir| then id
    else FreeIdFrom(dir, i + 1, if dir[i].kind == Folder && dir[i].payload == id then id + 1 else id)
  }

  function NewFolder(dir: Table, parent: nat, name: Name, now: nat): Entry {
    Entry(parent, Folder, name, now, FreeIdFrom(dir, 0, 1), 0)
  }

  /** `Died`: the tool aborted, after it wrote `dir`. `Strayed`: it read past the end of the path, or wrote past the end
      of its buffer for a part of it. */
  datatype Outcome = Done(dir: Table) | Died(dir: Table) | Strayed

  /** `mkdir_cmd`. */
  function Mkdir(dir: Table, cap: nat, path: Name, now: nat): Outcome {
    match Resolve(dir, cap, path, Folder)
    case NotFound(parent, name) => Done(dir + [NewFolder(dir, parent, name, now)])
    case Aborted => Died(dir)
    case _ => Done(dir)
  }

  /** The first slash at or after `i`, or the end. */
  function NextSlash(path: Name, i: nat): (r: nat)
    requires i <= |path|
    ensures i <= r <= |path| && (r < |path| ==> path[r] == SLASH) && forall j :: i <= j < r ==> path[j] != SLASH
    decreases |path| - i
  {
    if i == |path| || path[i] == SLASH then i else NextSlash(path, i + 1)
  }

  /** The size of `newdirname`. */
  const BUFFER: nat := 4096

  /** The loop of `import_cmd` from index `i` of the path: make the directory before the next slash, and go on
      if the path still fails. */
  function MakeFolders(dir: Table, cap: nat, path: Name, i: nat, now: nat): Outcome
    requires i <= |path|
    decreases |path| - i
  {
    var j := NextSlash(path, i);
    if j == |path| || j >= BUFFER then Strayed
    else
      match Mkdir(dir, cap, path[..j], now)
      case Done(made) =>
        (match Resolve(made, cap, path, File)
         case Failure => MakeFolders(made, cap, path, j + 1, now)
         case Aborted => Died(made)
         case _ => Done(made))
      case Died(same) => Died(same)
      case Strayed => Strayed
  }

  /** The first part of `import_cmd`. */
  function Prepare(dir: Table, cap: nat, path: Name, now: nat): Outcome {
    match Resolve(dir, cap, path, File)
    case Failure => MakeFolders(dir, cap, path, 0, now)
    case Aborted => Died(dir)
    case _ => Done(dir)
  }

  // ----- The tree -----

  /** The number of directories among the first `n` entries. */
  function FoldersIn(dir: Table, n: nat): (r: nat)
    requires n <= |dir|
    ensures r <= n
  {
    if n == 0 then 0 else FoldersIn(dir, n - 1) + if dir[n - 1].kind == Folder then 1 else 0
  }

  function Folders(dir: Table): nat {
    FoldersIn(dir, |dir|)
  }

  predicate NameOk(name: Name) {
    |name| < NAME_LIMIT && SLASH !in name && 0 !in name
  }

  /** `parent` is the root or a directory among the first `n` entries. */
  ghost predicate HasParent(dir: Table, n: nat, parent: nat)
    requires n <= |dir|
  {
    parent == ROOT_ID || exists j :: 0 <= j < n && dir[j].kind == Folder && dir[j].payload == parent
  }

  /** Directory IDs are 1, 2, ... in table order; every parent is the root or an earlier directory; parent, type
      and name identify an entry. */
  ghost predicate Tree(dir: Table) {
    && (forall i :: 0 <= i < |dir| ==> NameOk(dir[i].name))
    && (forall i :: 0 <= i < |dir| && dir[i].kind == Folder ==> dir[i].payload == FoldersIn(dir, i) + 1)
    && (forall i :: 0 <= i < |dir| ==> HasParent(dir, i, dir[i].parent))
    && (forall i, j :: 0 <= i < j < |dir| ==> !Matches(dir[i], dir[j].name, dir[j].parent, dir[j].kind))
  }

  lemma {:induction false} FoldersGrow(dir: Table, i: nat, j: nat)
    requires i <= j <= |dir|
    ensures FoldersIn(dir, i) <= FoldersIn(dir, j)
    ensures i < j && dir[i].kind == Folder ==> FoldersIn(dir, i) < FoldersIn(dir, j)
    decreases j
  {
    if i < j {
      FoldersGrow(dir, i, j - 1);
    }
  }

  lemma {:induction false} FoldersPrefix(dir: Table, more: Table, n: nat)
    requires n <= |dir| && n <= |more| && forall k :: 0 <= k < n ==> dir[k] == more[k]
    ensures FoldersIn(dir, n) == FoldersIn(more, n)
  {
    if n > 0 {
      FoldersPrefix(dir, more, n - 1);
    }
  }

  /** The single pass of `get_free_id` counts the directories. */
  lemma {:induction false} FreeIdCounts(dir: Table, i: nat)
    requires Tree(dir) && i <= |dir|
    ensures FreeIdFrom(dir, i, FoldersIn(dir, i) + 1) == Folders(dir) + 1
    decreases |dir| - i
  {
    hide Tree;
    if i < |dir| {
      IdAt(dir, i);
      FreeIdCounts(dir, i + 1);
    }
  }

  lemma IdAt(dir: Table, i: nat)
    requires Tree(dir) && i < |dir|
    ensures dir[i].kind == Folder ==> dir[i].payload == FoldersIn(dir, i) + 1
  {
    hide NameOk, HasParent, FoldersIn, Matches;
  }

  /** So the ID is always fresh. */
  lemma FreeIdFresh(dir: Table)
    requires Tree(dir)
    ensures FreeIdFrom(dir, 0, 1) == Folders(dir) + 1
    ensures forall i :: 0 <= i < |dir| && dir[i].kind == Folder ==> 1 <= dir[i].payload < FreeIdFrom(dir, 0, 1)
    ensures forall i :: 0 <= i < |dir| ==> dir[i].parent == ROOT_ID || 1 <= dir[i].parent < FreeIdFrom(dir, 0, 1)
  {
    FreeIdCounts(dir, 0);
    hide FreeIdFrom;
    forall i | 0 <= i < |dir| && dir[i].kind == Folder ensures 1 <= dir[i].payload < Folders(dir) + 1 {
      FoldersGrow(dir, i, |dir|);
    }
    forall i | 0 <= i < |dir| ensures dir[i].parent == ROOT_ID || 1 <= dir[i].parent < Folders(dir) + 1 {
      assert HasParent(dir, i, dir[i].parent);
    }
  }

  /** Different directories have different IDs. */
  lemma IdsDistinct(dir: Table, i: nat, j: nat)
    requires Tree(dir) && i < j < |dir| && dir[i].kind == Folder && dir[j].kind == Folder
    ensures dir[i].payload < dir[j].payload
  {
    FoldersGrow(dir, i, j);
  }

  /** An entry that the table does not have, under a parent that it has, extends the tree. */
  lemma TreeGrows(dir: Table, e: Entry)
    requires Tree(dir) && NameOk(e.name) && HasParent(dir, |dir|, e.parent)
    requires e.kind == Folder ==> e.payload == Folders(dir) + 1
    requires forall j :: 0 <= j < |dir| ==> !Matches(dir[j], e.name, e.parent, e.kind)
    ensures Tree(dir + [e])
    ensures Folders(dir + [e]) == Folders(dir) + if e.kind == Folder then 1 else 0
  {
    hide NameOk, HasParent, FoldersIn;
    var d := dir + [e];
    forall i | 0 <= i < |d| ensures HasParent(d, i, d[i].parent) {
      assert HasParent(dir, i, d[i].parent);
      ParentStays(dir, d, i, d[i].parent);
    }
    forall i | 0 <= i < |d| && d[i].kind == Folder ensures d[i].payload == FoldersIn(d, i) + 1 {
      FoldersPrefix(dir, d, i);
    }
    FoldersLast(dir, e);
  }

  lemma FoldersLast(dir: Table, e: Entry)
    ensures Folders(dir + [e]) == Folders(dir) + if e.kind == Folder then 1 else 0
  {
    FoldersPrefix(dir, dir + [e], |dir|);
  }

  lemma ParentStays(dir: Table, more: Table, n: nat, parent: nat)
    requires n <= |dir| && n <= |more| && HasParent(dir, n, parent) && forall k :: 0 <= k < n ==> dir[k] == more[k]
    ensures HasParent(more, n, parent)
  {
    if parent != ROOT_ID {
      var j :| 0 <= j < n && dir[j].kind == Folder && dir[j].payload == parent;
      assert more[j].kind == Folder;
    }
  }

  // ----- Paths of a tree -----

  predicate NoSlash(parts: seq<Name>) {
    forall i :: 0 <= i < |parts| ==> SLASH !in parts[i]
  }

  lemma {:induction false} SplitHead(p: Name, rest: Name)
    requires SLASH !in p
    ensures Split(p) == [p]
    ensures Split(p + [SLASH] + rest) == [p] + Split(rest)
  {
    var q := p + [SLASH] + rest;
    if p == [] {
      assert q[1..] == rest;
    } else {
      SplitHead(p[1..], rest);
      assert q[1..] == p[1..] + [SLASH] + rest;
      assert [p[0]] + p[1..] == p;
    }
  }

  lemma {:induction false} SplitJoin(parts: seq<Name>)
    requires parts != [] && NoSlash(parts)
    ensures Split(Join(parts)) == parts
  {
    hide Split;
    if |parts| == 1 {
      SplitHead(parts[0], []);
    } else {
      var tail := parts[1..];
      SplitJoin(tail);
      SplitHead(parts[0], Join(tail));
      assert [parts[0]] + tail == parts;
    }
  }

  lemma {:induction false} SplitNoSlash(p: Name)
    ensures NoSlash(Split(p))
    ensures forall i :: 0 <= i < |Split(p)| ==> |Split(p)[i]| <= |p| && forall b :: b in Split(p)[i] ==> b in p
  {
    if p != [] {
      SplitNoSlash(p[1..]);
    }
  }

  /** The names on the way from the root to entry `i`, by the parents alone. */
  function Ancestry(dir: Table, i: nat): (r: seq<Name>)
    requires i < |dir|
    ensures r != []
  {
    var j := FolderBefore(dir, i, dir[i].parent);
    if dir[i].parent == ROOT_ID || j == i then [dir[i].name] else Ancestry(dir, j) + [dir[i].name]
  }

  /** The directory with ID `id` among the first `i` entries, or `i`. */
  function FolderBefore(dir: Table, i: nat, id: nat): (j: nat)
    requires i <= |dir|
    ensures j <= i && (j < i ==> dir[j].kind == Folder && dir[j].payload == id)
    ensures j == i ==> forall k :: 0 <= k < i ==> !(dir[k].kind == Folder && dir[k].payload == id)
  {
    if i == 0 then 0
    else if dir[i - 1].kind == Folder && dir[i - 1].payload == id then i - 1
    else var j := FolderBefore(dir, i - 1, id); if j == i - 1 then i else j
  }

  /** An entry of a tree is the first and only match of its key. */
  lemma SearchFinds(dir: Table, cap: nat, i: nat)
    requires Tree(dir) && i < |dir|
    ensures Search(dir, cap, dir[i].name, dir[i].parent, dir[i].kind) == At(i)
  {
    assert Matches(dir[i], dir[i].name, dir[i].parent, dir[i].kind);
  }

  /** The directory ID that a list of names leads to. */
  function Walk(dir: Table, cap: nat, parent: nat, parts: seq<Name>): Lookup
    decreases |parts|
  {
    if parts == [] then At(parent)
    else match Search(dir, cap, parts[0], parent, Folder)
      case At(i) => Walk(dir, cap, dir[i].payload, parts[1..])
      case Missing => Missing
      case Abort => Abort
  }

  lemma {:induction false} WalkAppend(dir: Table, cap: nat, parent: nat, a: seq<Name>, b: seq<Name>)
    requires Walk(dir, cap, parent, a).At?
    ensures Walk(dir, cap, parent, a + b) == Walk(dir, cap, Walk(dir, cap, parent, a).i, b)
    decreases |a|
  {
    if a == [] {
      assert a + b == b;
    } else {
      assert (a + b)[1..] == a[1..] + b;
      WalkAppend(dir, cap, dir[Search(dir, cap, a[0], parent, Folder).i].payload, a[1..], b);
    }
  }

  /** Resolution walks to the parent of the last name and searches it. */
  lemma {:induction false} ResolveWalks(dir: Table, cap: nat, parent: nat, a: seq<Name>, last: Name, kind: Kind)
    ensures ResolveParts(dir, cap, parent, a + [last], kind) ==
            match Walk(dir, cap, parent, a)
            case At(id) => ResolveParts(dir, cap, id, [last], kind)
            case Missing => Failure
            case Abort => Aborted
    decreases |a|
  {
    if a == [] {
      assert a + [last] == [last];
    } else {
      assert (a + [last])[1..] == a[1..] + [last];
      match Search(dir, cap, a[0], parent, Folder)
      case At(i) => ResolveWalks(dir, cap, dir[i].payload, a[1..], last, kind);
      case _ =>
    }
  }

  /** The names of an entry's ancestors lead to its parent. */
  lemma {:induction false} AncestryWalks(dir: Table, cap: nat, i: nat)
    requires Tree(dir) && i < |dir|
    ensures var names := Ancestry(dir, i);
            && NoSlash(names) && names[|names| - 1] == dir[i].name
            && Walk(dir, cap, ROOT_ID, names[..|names| - 1]) == At(dir[i].parent)
            && (dir[i].kind == Folder ==> Walk(dir, cap, ROOT_ID, names) == At(dir[i].payload))
    decreases i
  {
    var names := Ancestry(dir, i);
    var before := names[..|names| - 1];
    if dir[i].parent == ROOT_ID {
      assert before == [];
    } else {
      assert HasParent(dir, i, dir[i].parent);
      var j := FolderBefore(dir, i, dir[i].parent);
      AncestryWalks(dir, cap, j);
      assert before == Ancestry(dir, j);
    }
    assert names == before + [dir[i].name];
    SearchFinds(dir, cap, i);
    if dir[i].kind == Folder {
      WalkAppend(dir, cap, ROOT_ID, before, [dir[i].name]);
      WalkOne(dir, cap, dir[i].parent, dir[i].name);
    }
  }

  /** A walk leads to a directory whose names it spells. */
  lemma {:induction false} WalkSpells(dir: Table, cap: nat, parts: seq<Name>) returns (j: nat)
    requires Tree(dir) && |dir| < ROOT_ID && parts != [] && Walk(dir, cap, ROOT_ID, parts).At?
    ensures j < |dir| && dir[j].kind == Folder && dir[j].payload == Walk(dir, cap, ROOT_ID, parts).i
    ensures Ancestry(dir, j) == parts
    decreases |parts|, 0
  {
    hide Tree, Walk, Ancestry;
    var before, last := parts[..|parts| - 1], parts[|parts| - 1];
    assert parts == before + [last];
    WalkPrefix(dir, cap, ROOT_ID, before, [last]);
    WalkAppend(dir, cap, ROOT_ID, before, [last]);
    var id := Walk(dir, cap, ROOT_ID, before).i;
    WalkOne(dir, cap, id, last);
    j := Search(dir, cap, last, id, Folder).i;
    AncestryStep(dir, cap, before, j);
  }

  lemma WalkOne(dir: Table, cap: nat, parent: nat, name: Name)
    ensures Walk(dir, cap, parent, [name]) ==
            match Search(dir, cap, name, parent, Folder)
            case At(i) => At(dir[i].payload)
            case Missing => Missing
            case Abort => Abort
  {
    assert |[name][1..]| == 0;
  }

  lemma {:induction false} WalkPrefix(dir: Table, cap: nat, parent: nat, a: seq<Name>, b: seq<Name>)
    requires Walk(dir, cap, parent, a + b).At?
    ensures Walk(dir, cap, parent, a).At?
    decreases |a|
  {
    if a != [] {
      assert (a + b)[1..] == a[1..] + b && (a + b)[0] == a[0];
      WalkPrefix(dir, cap, dir[Search(dir, cap, a[0], parent, Folder).i].payload, a[1..], b);
    }
  }

  /** An entry in the directory that a walk leads to. */
  lemma AncestryStep(dir: Table, cap: nat, before: seq<Name>, i: nat)
    requires Tree(dir) && |dir| < ROOT_ID && i < |dir| && Walk(dir, cap, ROOT_ID, before) == At(dir[i].parent)
    ensures Ancestry(dir, i) == before + [dir[i].name]
    decreases |before|, 1
  {
    FreeIdFresh(dir);
    if before == [] {
      assert before + [dir[i].name] == [dir[i].name];
    } else {
      var j := WalkSpells(dir, cap, before);
      assert HasParent(dir, i, dir[i].parent);
      var k := FolderBefore(dir, i, dir[i].parent);
      if j < k {
        IdsDistinct(dir, j, k);
      } else if k < j {
        IdsDistinct(dir, k, j);
      }
    }
  }

  /** Path resolution is exact: a path leads to entry `i` if and only if its components, after one leading
      slash, are the names on the way from the root to `i`. */
  lemma ResolveExact(dir: Table, cap: nat, path: Name, kind: Kind, i: nat)
    requires Tree(dir) && |dir| < ROOT_ID && i < |dir|
    ensures Resolve(dir, cap, path, kind) == Found(i, dir[i].parent, dir[i].name)
            <==> path != [SLASH] && kind == dir[i].kind && Split(Relative(path)) == Ancestry(dir, i)
  {
    if path != [SLASH] {
      var parts := Split(Relative(path));
      var before, last := parts[..|parts| - 1], parts[|parts| - 1];
      assert parts == before + [last];
      ResolveWalks(dir, cap, ROOT_ID, before, last, kind);
      if Resolve(dir, cap, path, kind) == Found(i, dir[i].parent, dir[i].name) {
        AncestryStep(dir, cap, before, i);
      }
      if kind == dir[i].kind && parts == Ancestry(dir, i) {
        AncestryWalks(dir, cap, i);
        SearchFinds(dir, cap, i);
      }
    }
  }

  /** In particular the slash-joined names lead to the entry, with or without a leading slash, except where the
      slash that `path_resolver` skips belongs to an empty first name, or the whole path is a slash. */
  lemma ResolveFindsEntry(dir: Table, cap: nat, i: nat)
    requires Tree(dir) && |dir| < ROOT_ID && i < |dir|
    ensures var names := Ancestry(dir, i);
            var there := Found(i, dir[i].parent, dir[i].name);
            && (Resolve(dir, cap, Join(names), dir[i].kind) == there <==> names[0] != [] || |names| == 1)
            && (Resolve(dir, cap, [SLASH] + Join(names), dir[i].kind) == there <==> names != [[]])
  {
    hide Tree, Ancestry, ResolveParts, Walk;
    var names := Ancestry(dir, i);
    var path := Join(names);
    AncestryWalks(dir, cap, i);
    SplitJoin(names);
    hide Split;
    ResolveExact(dir, cap, path, dir[i].kind, i);
    ResolveExact(dir, cap, [SLASH] + path, dir[i].kind, i);
    assert ([SLASH] + path)[1..] == path;
    assert [SLASH] + path == [SLASH] <==> names == [[]] by {
      assert |[SLASH] + path| == 1 + |path|;
      JoinEmpty(names);
    }
    if names[0] != [] || |names| == 1 {
      JoinStart(names);
      assert path != [SLASH] && Relative(path) == path;
    } else {
      assert path == [SLASH] + Join(names[1..]);
      assert path[1..] == Join(names[1..]);
      SplitJoin(names[1..]);
      assert |names[1..]| < |names|;
    }
  }

  lemma JoinEmpty(parts: seq<Name>)
    requires parts != []
    ensures Join(parts) == [] <==> parts == [[]]
  {
  }

  lemma JoinStart(parts: seq<Name>)
    requires parts != [] && NoSlash(parts) && (parts[0] != [] || |parts| == 1)
    ensures Join(parts) == [] || Join(parts)[0] != SLASH
  {
    if parts[0] != [] {
      assert Join(parts)[0] == parts[0][0];
    }
  }
}
