/** The directory loop of `import_cmd` (echfs-utils/echfs-utils.c) against a plain definition: walk down the
    components of the path and add each directory that is missing. */
module FolderCreation {
  import opened Memory
  import opened Directory

  /** Walk from `parent` along `parts`; add what is missing. */
  function AddFolders(dir: Table, cap: nat, parent: nat, parts: seq<Name>, now: nat): Outcome
    decreases |parts|
  {
    if parts == [] then Done(dir)
    else match Search(dir, cap, parts[0], parent, Folder)
      case At(i) => AddFolders(dir, cap, dir[i].payload, parts[1..], now)
      case Missing =>
        var e := NewFolder(dir, parent, parts[0], now);
        AddFolders(dir + [e], cap, e.payload, parts[1..], now)
      case Abort => Died(dir)
  }

  /** The look at the file itself that follows: it aborts if the table is full by now, and if the path still fails, the
      next part of it does not fit the buffer. */
  function Settle(o: Outcome, cap: nat, path: Name): Outcome {
    match o
    case Done(dir) =>
      (match Resolve(dir, cap, path, File)
       case Aborted => Died(dir)
       case Failure => Strayed
       case _ => o)
    case _ => o
  }

  /** The part of a path that fits the buffer. */
  function Front(path: Name): Name {
    if |path| <= BUFFER then path else path[..BUFFER]
  }

  /** The directories that a path names. */
  function FolderNames(path: Name): seq<Name> {
    var parts := Split(Relative(path)); parts[..|parts| - 1]
  }

  // ----- What a table that grows keeps -----

  lemma SearchGrows(dir: Table, cap: nat, e: Entry, name: Name, parent: nat, kind: Kind)
    requires Search(dir, cap, name, parent, kind).At?
    ensures Search(dir + [e], cap, name, parent, kind) == Search(dir, cap, name, parent, kind)
  {
    var i := Search(dir, cap, name, parent, kind).i;
    var k := Search(dir + [e], cap, name, parent, kind);
    assert Matches((dir + [e])[i], name, parent, kind);
    assert forall j :: 0 <= j < i ==> (dir + [e])[j] == dir[j];
  }

  lemma {:induction false} WalkGrows(dir: Table, cap: nat, e: Entry, parent: nat, parts: seq<Name>)
    requires Walk(dir, cap, parent, parts).At?
    ensures Walk(dir + [e], cap, parent, parts) == Walk(dir, cap, parent, parts)
    decreases |parts|
  {
    if parts != [] {
      SearchGrows(dir, cap, e, parts[0], parent, Folder);
      WalkGrows(dir, cap, e, dir[Search(dir, cap, parts[0], parent, Folder).i].payload, parts[1..]);
    }
  }

  lemma {:induction false} WalkMissing(dir: Table, cap: nat, parent: nat, parts: seq<Name>)
    requires Walk(dir, cap, parent, parts).Missing?
    ensures |dir| < cap
    decreases |parts|
  {
    match Search(dir, cap, parts[0], parent, Folder)
    case At(i) => WalkMissing(dir, cap, dir[i].payload, parts[1..]);
    case _ =>
  }

  /** Directories that are there are walked through; nothing is added. */
  lemma {:induction false} AddAfterWalk(dir: Table, cap: nat, parent: nat, a: seq<Name>, b: seq<Name>, now: nat)
    requires Walk(dir, cap, parent, a).At?
    ensures AddFolders(dir, cap, parent, a + b, now) == AddFolders(dir, cap, Walk(dir, cap, parent, a).i, b, now)
    decreases |a|
  {
    if a == [] {
      assert a + b == b;
    } else {
      assert (a + b)[1..] == a[1..] + b && (a + b)[0] == a[0];
      AddAfterWalk(dir, cap, dir[Search(dir, cap, a[0], parent, Folder).i].payload, a[1..], b, now);
    }
  }

  lemma {:induction false} AddAborts(dir: Table, cap: nat, parent: nat, parts: seq<Name>, now: nat)
    requires Walk(dir, cap, parent, parts).Abort?
    ensures AddFolders(dir, cap, parent, parts, now) == Died(dir)
    decreases |parts|
  {
    match Search(dir, cap, parts[0], parent, Folder)
    case At(i) => AddAborts(dir, cap, dir[i].payload, parts[1..], now);
    case _ =>
  }

  // ----- Prefixes of a path -----

  /** One more byte in front of a path. */
  function Attach(c: Byte, tail: seq<Name>): seq<Name>
    requires tail != []
  {
    if c == SLASH then [[]] + tail else [[c] + tail[0]] + tail[1..]
  }

  lemma AttachAppend(c: Byte, a: seq<Name>, b: seq<Name>)
    requires a != []
    ensures Attach(c, a + b) == Attach(c, a) + b
  {
    if c != SLASH {
      assert (a + b)[1..] == a[1..] + b;
    }
  }

  lemma SplitStep(p: Name)
    requires p != []
    ensures Split(p) == Attach(p[0], Split(p[1..]))
  {
  }

  lemma {:induction false} SplitAt(p: Name, j: nat)
    requires j < |p| && p[j] == SLASH
    ensures Split(p) == Split(p[..j]) + Split(p[j + 1..])
    decreases j
  {
    SplitStep(p);
    if j == 0 {
      assert Split(p[..0]) == [[]];
    } else {
      hide Split, Attach;
      var q := p[1..];
      SplitAt(q, j - 1);
      assert p[..j][1..] == q[..j - 1];
      assert q[j..] == p[j + 1..];
      SplitStep(p[..j]);
      AttachAppend(p[0], Split(q[..j - 1]), Split(q[j..]));
    }
  }

  /** `before` are the components that end before index `i`, which starts one. */
  ghost predicate Boundary(p: Name, i: nat, before: seq<Name>) {
    && i <= |p|
    && if i == 0 then before == [] else p[i - 1] == SLASH && before == Split(p[..i - 1])
  }

  lemma BoundarySplits(p: Name, i: nat, before: seq<Name>)
    requires Boundary(p, i, before)
    ensures Split(p) == before + Split(p[i..])
  {
    if i > 0 {
      SplitAt(p, i - 1);
    } else {
      assert p[0..] == p;
    }
  }

  lemma SplitOne(p: Name)
    requires SLASH !in p
    ensures Split(p) == [p]
  {
    SplitHead(p, []);
  }

  /** The components of a longer path start with those of its front, but for the last. */
  lemma {:induction false} SplitFront(a: Name, b: Name)
    ensures |Split(a + b)| == |Split(a)| + |Split(b)| - 1
    ensures Split(a)[..|Split(a)| - 1] <= Split(a + b)
    decreases |a|
  {
    if a == [] {
      assert a + b == b;
    } else {
      SplitFront(a[1..], b);
      assert (a + b)[1..] == a[1..] + b;
      SplitStep(a);
      SplitStep(a + b);
      hide Split;
      assert Attach(a[0], Split(a[1..])) == Split(a);
      assert Attach(a[0], Split(a[1..] + b)) == Split(a + b);
    }
  }

  predicate LateSlash(path: Name) {
    exists k :: 4096 <= k < |path| && path[k] == SLASH
  }

  /** The directories in front of the buffer's end are the first ones; they are all of them unless a slash comes
      later. */
  lemma FrontNames(path: Name)
    requires path != []
    ensures FolderNames(Front(path)) <= FolderNames(path)
    ensures FolderNames(Front(path)) == FolderNames(path) <==> !LateSlash(path)
  {
    hide Split;
    if |path| > BUFFER {
      var tail := path[BUFFER..];
      var a := Relative(Front(path));
      assert Relative(path) == a + tail;
      SplitFront(a, tail);
      if LateSlash(path) {
        var k :| BUFFER <= k < |path| && path[k] == SLASH;
        assert tail[k - BUFFER] == SLASH;
        SplitAt(tail, k - BUFFER);
      } else {
        assert SLASH !in tail;
        SplitOne(tail);
      }
    }
  }

  /** The component between a boundary and the next slash. */
  lemma BoundaryStep(p: Name, i: nat, j: nat, before: seq<Name>)
    requires Boundary(p, i, before) && i <= j < |p| && p[j] == SLASH && forall k :: i <= k < j ==> p[k] != SLASH
    ensures Boundary(p, j + 1, before + [p[i..j]])
    ensures Split(p[..j]) == before + [p[i..j]]
  {
    hide Split;
    var q := p[..j];
    if i > 0 {
      assert q[..i - 1] == p[..i - 1] && q[i - 1] == SLASH;
    }
    assert Boundary(q, i, before);
    BoundarySplits(q, i, before);
    assert q[i..] == p[i..j];
    SplitOne(p[i..j]);
    assert p[..j + 1 - 1] == q;
  }

  // ----- The loop -----

  lemma MkdirResolved(dir: Table, cap: nat, path: Name, before: seq<Name>, name: Name, now: nat)
    requires path != [SLASH] && Split(Relative(path)) == before + [name]
    requires Walk(dir, cap, ROOT_ID, before).At? && |dir| < cap
    ensures var id := Walk(dir, cap, ROOT_ID, before).i;
            Mkdir(dir, cap, path, now) ==
            Done(if Search(dir, cap, name, id, Folder).At? then dir else dir + [NewFolder(dir, id, name, now)])
  {
    hide Split, Walk;
    ResolveWalks(dir, cap, ROOT_ID, before, name, Folder);
  }

  /** What adding one directory does to the walk and to the reference. */
  lemma AddOne(dir: Table, cap: nat, before: seq<Name>, name: Name, rest: seq<Name>, now: nat)
    requires Walk(dir, cap, ROOT_ID, before).At? && |dir| < cap
    ensures var id := Walk(dir, cap, ROOT_ID, before).i;
            var made := if Search(dir, cap, name, id, Folder).At? then dir else dir + [NewFolder(dir, id, name, now)];
            && Walk(made, cap, ROOT_ID, before + [name]).At?
            && AddFolders(made, cap, ROOT_ID, before + [name] + rest, now) ==
               AddFolders(dir, cap, ROOT_ID, before + ([name] + rest), now)
  {
    hide Walk;
    var id := Walk(dir, cap, ROOT_ID, before).i;
    if Search(dir, cap, name, id, Folder).At? {
      WalkAppend(dir, cap, ROOT_ID, before, [name]);
      WalkOne(dir, cap, id, name);
      assert before + [name] + rest == before + ([name] + rest);
    } else {
      var e := NewFolder(dir, id, name, now);
      var made := dir + [e];
      WalkGrows(dir, cap, e, ROOT_ID, before);
      WalkAppend(made, cap, ROOT_ID, before, [name]);
      NewIsFound(dir, cap, e);
      WalkOne(made, cap, id, name);
      AddAfterWalk(dir, cap, ROOT_ID, before, [name] + rest, now);
      AddAfterWalk(made, cap, ROOT_ID, before + [name], rest, now);
      assert ([name] + rest)[1..] == rest;
    }
  }

  lemma NewIsFound(dir: Table, cap: nat, e: Entry)
    requires !Search(dir, cap, e.name, e.parent, e.kind).At?
    ensures Search(dir + [e], cap, e.name, e.parent, e.kind) == At(|dir|)
  {
    var d := dir + [e];
    assert forall j :: 0 <= j < |dir| ==> d[j] == dir[j];
    assert Matches(d[|dir|], e.name, e.parent, e.kind);
  }

  lemma ResolveWalked(dir: Table, cap: nat, path: Name)
    requires path != [SLASH]
    ensures var r := Resolve(dir, cap, path, File);
            && (r.Failure? <==> Walk(dir, cap, ROOT_ID, FolderNames(path)).Missing?)
            && (Walk(dir, cap, ROOT_ID, FolderNames(path)).Abort? ==> r.Aborted?)
  {
    hide Split;
    var parts := Split(Relative(path));
    var folders, last := parts[..|parts| - 1], parts[|parts| - 1];
    assert parts == folders + [last];
    ResolveWalks(dir, cap, ROOT_ID, folders, last, File);
  }

  /** How the file's own resolution and the reference agree on a table, for any first directories of the path. */
  lemma ResolveOrAdd(dir: Table, cap: nat, path: Name, names: seq<Name>, now: nat)
    requires path != [SLASH] && names <= FolderNames(path)
    ensures var r := Resolve(dir, cap, path, File);
            && (r.Failure? <==> Walk(dir, cap, ROOT_ID, FolderNames(path)).Missing?)
            && (!r.Failure? ==> Settle(AddFolders(dir, cap, ROOT_ID, names, now), cap, path) ==
                                if r.Aborted? then Died(dir) else Done(dir))
  {
    hide Split, ResolveParts;
    ResolveWalked(dir, cap, path);
    if !Resolve(dir, cap, path, File).Failure? {
      WalkFirst(dir, cap, ROOT_ID, names, FolderNames(path)[|names|..]);
      assert names + FolderNames(path)[|names|..] == FolderNames(path);
      if Walk(dir, cap, ROOT_ID, names).At? {
        AddAfterWalk(dir, cap, ROOT_ID, names, [], now);
        assert names + [] == names;
      } else {
        AddAborts(dir, cap, ROOT_ID, names, now);
      }
    }
  }

  /** A walk gets through the first part if it gets through the whole, and it aborts where the first part does. */
  lemma {:induction false} WalkFirst(dir: Table, cap: nat, parent: nat, a: seq<Name>, b: seq<Name>)
    ensures Walk(dir, cap, parent, a + b).At? ==> Walk(dir, cap, parent, a).At?
    ensures Walk(dir, cap, parent, a).Missing? ==> Walk(dir, cap, parent, a + b).Missing?
    ensures Walk(dir, cap, parent, a).Abort? ==> Walk(dir, cap, parent, a + b).Abort?
    decreases |a|
  {
    if a != [] {
      assert (a + b)[0] == a[0] && (a + b)[1..] == a[1..] + b;
      match Search(dir, cap, a[0], parent, Folder)
      case At(i) => WalkFirst(dir, cap, dir[i].payload, a[1..], b);
      case _ =>
    }
  }

  /** The offset of the relative path. */
  function Skip(path: Name): nat {
    if path != [] && path[0] == SLASH then 1 else 0
  }

  lemma SkipRelative(path: Name)
    ensures Skip(path) <= |path| && Relative(path) == path[Skip(path)..]
  {
    assert path[0..] == path;
  }

  /** The prefix of the path that the loop gives to `mkdir`. */
  lemma PrefixRelative(path: Name, j: nat)
    requires Skip(path) <= j < |path| && path[j] == SLASH && path[..j] != [SLASH]
    ensures Relative(path[..j]) == Relative(path)[..j - Skip(path)]
  {
    var q := path[..j];
    if Skip(path) == 1 {
      assert q[1..] == path[1..][..j - 1];
    }
  }

  /** The next slash of the path, seen from the relative path. */
  lemma NextComponent(path: Name, i: nat, before: seq<Name>)
    requires Skip(path) <= i <= |path| && Boundary(Relative(path), i - Skip(path), before)
    requires |before| < |Split(Relative(path))| - 1
    ensures var j := NextSlash(path, i);
            && j < |path| && Boundary(Relative(path), j + 1 - Skip(path), before + [path[i..j]])
            && Split(Relative(path)[..j - Skip(path)]) == before + [path[i..j]]
            && |Split(Relative(path))| > |before| + 1
            && Split(Relative(path))[..|before| + 1] == before + [path[i..j]]
  {
    hide Split, Boundary, Relative, Skip;
    var k := Skip(path);
    var p := Relative(path);
    SkipRelative(path);
    BoundarySplits(p, i - k, before);
    var j := NextSlash(path, i);
    assert p[i - k..] == path[i..];
    if j == |path| {
      assert SLASH !in path[i..];
      SplitOne(path[i..]);
    }
    assert path[i..j] == p[i - k..j - k];
    assert forall x :: i - k <= x < j - k ==> p[x] == path[x + k];
    BoundaryStep(p, i - k, j - k, before);
    BoundarySplits(p, j + 1 - k, before + [path[i..j]]);
  }

  lemma FrontBoundary(path: Name, i: nat, before: seq<Name>)
    requires path != [] && Skip(path) <= i <= |Front(path)| && Boundary(Relative(path), i - Skip(path), before)
    ensures Skip(Front(path)) == Skip(path) && Boundary(Relative(Front(path)), i - Skip(path), before)
  {
    hide Split;
    var k, p, q := i - Skip(path), Relative(Front(path)), Relative(path);
    if k > 0 {
      assert p[..k - 1] == q[..k - 1] && p[k - 1] == q[k - 1];
    }
  }

  /** The next directory of a path, or there is none. */
  lemma NamesStep(f: Name, i: nat, before: seq<Name>)
    requires Skip(f) <= i <= |f| && Boundary(Relative(f), i - Skip(f), before)
    ensures var j, names := NextSlash(f, i), FolderNames(f);
            if j < |f| then before + [f[i..j]] <= names else names == before
  {
    hide Split, Boundary, Relative, Skip, FolderNames;
    var k, p, j := Skip(f), Relative(f), NextSlash(f, i);
    SkipRelative(f);
    BoundarySplits(p, i - k, before);
    assert p[i - k..] == f[i..];
    if j < |f| {
      assert f[i..j] == p[i - k..j - k];
      assert forall x :: i - k <= x < j - k ==> p[x] == f[x + k];
      BoundaryStep(p, i - k, j - k, before);
      BoundarySplits(p, j + 1 - k, before + [f[i..j]]);
      NamesStart(f, before + [f[i..j]], p[j + 1 - k..]);
    } else {
      assert SLASH !in f[i..];
      SplitOne(f[i..]);
      NamesEnd(f, before, f[i..]);
    }
  }

  lemma NamesStart(f: Name, parts: seq<Name>, rest: Name)
    requires Split(Relative(f)) == parts + Split(rest)
    ensures parts <= FolderNames(f)
  {
    hide Split, Relative;
  }

  lemma NamesEnd(f: Name, parts: seq<Name>, last: Name)
    requires Split(Relative(f)) == parts + [last]
    ensures FolderNames(f) == parts
  {
    hide Split, Relative;
  }

  /** The next component of the path is the next one of its front, or lies behind it. */
  lemma FrontStep(path: Name, i: nat, before: seq<Name>)
    requires path != [] && Skip(path) <= i <= |Front(path)| && Boundary(Relative(path), i - Skip(path), before)
    ensures var j, names := NextSlash(path, i), FolderNames(Front(path));
            if j < |Front(path)| then before + [path[i..j]] <= names else names == before
  {
    hide Boundary, FolderNames;
    var f, j := Front(path), NextSlash(path, i);
    FrontBoundary(path, i, before);
    NamesStep(f, i, before);
    assert forall k :: 0 <= k < |f| ==> f[k] == path[k];
    if j < |f| {
      assert f[i..j] == path[i..j];
    }
  }

  /** A step of the loop: `made` is the table after `mkdir`. */
  lemma LoopStep(dir: Table, cap: nat, path: Name, i: nat, before: seq<Name>, names: seq<Name>, now: nat)
    requires path != [SLASH] && Skip(path) <= i <= |path| && Boundary(Relative(path), i - Skip(path), before)
    requires Walk(dir, cap, ROOT_ID, before).At? && Resolve(dir, cap, path, File).Failure?
    requires Skip(path) == 1 ==> Search(dir, cap, [], ROOT_ID, Folder).At?
    ensures var j := NextSlash(path, i);
            && j < |path| && Boundary(Relative(path), j + 1 - Skip(path), before + [path[i..j]])
            && var made := Mkdir(dir, cap, path[..j], now);
            && made.Done? && Walk(made.dir, cap, ROOT_ID, before + [path[i..j]]).At?
            && (Skip(path) == 1 ==> Search(made.dir, cap, [], ROOT_ID, Folder).At?)
            && (before + [path[i..j]] <= names ==>
                  AddFolders(made.dir, cap, ROOT_ID, names, now) == AddFolders(dir, cap, ROOT_ID, names, now))
  {
    hide Split, Walk, ResolveParts, AddFolders, Boundary;
    var folders := FolderNames(path);
    ResolveWalked(dir, cap, path);
    WalkMissing(dir, cap, ROOT_ID, folders);
    BoundaryBefore(path, i - Skip(path), before);
    assert folders != before;
    NextComponent(path, i, before);
    var j := NextSlash(path, i);
    var name := path[i..j];
    var rest := if before + [name] <= names then names[|before| + 1..] else [];
    assert before + [name] <= names ==> names == before + [name] + rest;
    assert before + ([name] + rest) == before + [name] + rest;
    AddOne(dir, cap, before, name, rest, now);
    var id := Walk(dir, cap, ROOT_ID, before).i;
    if path[..j] == [SLASH] {
      OnlySlash(path, i, j, before);
      WalkEmpty(dir, cap);
      assert Mkdir(dir, cap, path[..j], now) == Done(dir);
    } else {
      PrefixRelative(path, j);
      MkdirResolved(dir, cap, path[..j], before, name, now);
      if !Search(dir, cap, name, id, Folder).At? && Skip(path) == 1 {
        SearchGrows(dir, cap, NewFolder(dir, id, name, now), [], ROOT_ID, Folder);
      }
    }
  }

  lemma WalkEmpty(dir: Table, cap: nat)
    ensures Walk(dir, cap, ROOT_ID, []) == At(ROOT_ID)
  {
  }

  /** The prefix `/` means the empty first component of a path that starts with two slashes. */
  lemma OnlySlash(path: Name, i: nat, j: nat, before: seq<Name>)
    requires Skip(path) <= i <= j < |path| && path[..j] == [SLASH] && Boundary(Relative(path), i - Skip(path), before)
    ensures Skip(path) == 1 && path[i..j] == [] && before == []
  {
    assert path[0] == path[..j][0];
    assert j == 1;
  }

  lemma BoundaryBefore(path: Name, i: nat, before: seq<Name>)
    requires Boundary(Relative(path), i, before)
    ensures |before| < |Split(Relative(path))| && before == Split(Relative(path))[..|before|]
    ensures before == FolderNames(path) || |before| < |Split(Relative(path))| - 1
  {
    hide Split;
    BoundarySplits(Relative(path), i, before);
  }

  lemma {:induction false} LoopAdds(dir: Table, cap: nat, path: Name, i: nat, before: seq<Name>, now: nat)
    requires path != [SLASH] && path != [] && Skip(path) <= i <= |Front(path)|
             && Boundary(Relative(path), i - Skip(path), before)
    requires Walk(dir, cap, ROOT_ID, before).At? && Resolve(dir, cap, path, File).Failure?
    requires Skip(path) == 1 ==> Search(dir, cap, [], ROOT_ID, Folder).At?
    ensures MakeFolders(dir, cap, path, i, now) ==
            Settle(AddFolders(dir, cap, ROOT_ID, FolderNames(Front(path)), now), cap, path)
    decreases |path| - i
  {
    hide Split, Walk, ResolveParts, AddFolders, Boundary, FolderNames, Mkdir, LateSlash;
    var names := FolderNames(Front(path));
    LoopStep(dir, cap, path, i, before, names, now);
    FrontStep(path, i, before);
    FrontNames(path);
    var j := NextSlash(path, i);
    if j >= BUFFER {
      AddAfterWalk(dir, cap, ROOT_ID, before, [], now);
      AddNothing(dir, cap, Walk(dir, cap, ROOT_ID, before).i, now);
      assert before + [] == before;
    } else {
      var made := Mkdir(dir, cap, path[..j], now).dir;
      if Resolve(made, cap, path, File).Failure? {
        LoopAdds(made, cap, path, j + 1, before + [path[i..j]], now);
      } else {
        ResolveOrAdd(made, cap, path, names, now);
      }
    }
  }

  lemma AddNothing(dir: Table, cap: nat, parent: nat, now: nat)
    ensures AddFolders(dir, cap, parent, [], now) == Done(dir)
  {
  }

  /** The table that the loop starts from: a path with a leading slash that fails first gets a directory with
      the empty name in the root. */
  function Start(dir: Table, cap: nat, path: Name, now: nat): Table {
    if Skip(path) == 1 && Resolve(dir, cap, path, File).Failure? && Search(dir, cap, [], ROOT_ID, Folder).Missing?
    then dir + [NewFolder(dir, ROOT_ID, [], now)] else dir
  }

  /** The first round of the loop on a path with a leading slash. */
  lemma LeadingSlash(dir: Table, cap: nat, path: Name, now: nat)
    requires path != [SLASH] && Skip(path) == 1 && Resolve(dir, cap, path, File).Failure?
    ensures NextSlash(path, 0) == 0 && Mkdir(dir, cap, path[..0], now) == Done(Start(dir, cap, path, now))
    ensures Search(Start(dir, cap, path, now), cap, [], ROOT_ID, Folder).At?
  {
    hide ResolveParts;
    ResolveWalked(dir, cap, path);
    WalkMissing(dir, cap, ROOT_ID, FolderNames(path));
    assert path[..0] == [];
    assert Split(Relative([])) == [] + [[]];
    WalkEmpty(dir, cap);
    MkdirResolved(dir, cap, [], [], [], now);
    if Search(dir, cap, [], ROOT_ID, Folder).Missing? {
      NewIsFound(dir, cap, NewFolder(dir, ROOT_ID, [], now));
    }
  }

  /** `import_cmd`'s directory loop adds exactly the missing ancestors of the path whose part of it fits the buffer. */
  lemma PrepareAdds(dir: Table, cap: nat, path: Name, now: nat)
    requires path != [SLASH]
    ensures Prepare(dir, cap, path, now) ==
            Settle(AddFolders(Start(dir, cap, path, now), cap, ROOT_ID, FolderNames(Front(path)), now), cap, path)
  {
    var names := FolderNames(Front(path));
    if path != [] {
      FrontNames(path);
    }
    ResolveOrAdd(dir, cap, path, names, now);
    if Resolve(dir, cap, path, File).Failure? {
      WalkEmpty(dir, cap);
      if Skip(path) == 0 {
        assert path != [];
        assert Boundary(Relative(path), 0, []);
        LoopAdds(dir, cap, path, 0, [], now);
      } else {
        hide Split, Walk, ResolveParts, AddFolders, FolderNames, Mkdir, Search;
        LeadingSlash(dir, cap, path, now);
        var start := Start(dir, cap, path, now);
        ResolveOrAdd(start, cap, path, names, now);
        WalkEmpty(start, cap);
        assert Boundary(Relative(path), 0, []);
        if Resolve(start, cap, path, File).Failure? {
          LoopAdds(start, cap, path, 1, [], now);
        }
      }
    }
  }

  /** The loop ends, and the path no longer fails, unless it has a slash past the end of the buffer. */
  lemma PrepareSettles(dir: Table, cap: nat, path: Name, now: nat)
    requires path != [SLASH]
    ensures Prepare(dir, cap, path, now).Strayed? ==> LateSlash(path)
    ensures Prepare(dir, cap, path, now).Done? ==>
              var r := Resolve(Prepare(dir, cap, path, now).dir, cap, path, File); r.Found? || r.NotFound?
  {
    hide Split, ResolveParts;
    PrepareAdds(dir, cap, path, now);
    if path != [] {
      FrontNames(path);
    }
    AddsOrDies(Start(dir, cap, path, now), cap, ROOT_ID, FolderNames(Front(path)), now);
    var o := AddFolders(Start(dir, cap, path, now), cap, ROOT_ID, FolderNames(Front(path)), now);
    if o.Done? {
      ResolveWalked(o.dir, cap, path);
      NeverRoot(o.dir, cap, path);
    }
  }

  lemma NeverRoot(dir: Table, cap: nat, path: Name)
    requires path != [SLASH]
    ensures !Resolve(dir, cap, path, File).Root?
  {
    hide Split;
    PartsNeverRoot(dir, cap, ROOT_ID, Split(Relative(path)), File);
  }

  lemma {:induction false} PartsNeverRoot(dir: Table, cap: nat, parent: nat, parts: seq<Name>, kind: Kind)
    requires parts != []
    ensures !ResolveParts(dir, cap, parent, parts, kind).Root?
    decreases |parts|
  {
    if |parts| > 1 {
      match Search(dir, cap, parts[0], parent, Folder)
      case At(i) => PartsNeverRoot(dir, cap, dir[i].payload, parts[1..], kind);
      case _ =>
    }
  }

  /** After `AddFolders` the walk succeeds. */
  lemma {:induction false} AddsOrDies(dir: Table, cap: nat, parent: nat, parts: seq<Name>, now: nat)
    ensures var o := AddFolders(dir, cap, parent, parts, now);
            && !o.Strayed? && |o.dir| >= |dir| && o.dir[..|dir|] == dir
            && (o.Done? ==> Walk(o.dir, cap, parent, parts).At?)
    decreases |parts|
  {
    if parts != [] {
      match Search(dir, cap, parts[0], parent, Folder)
      case At(i) =>
        AddsOrDies(dir, cap, dir[i].payload, parts[1..], now);
        var o := AddFolders(dir, cap, parent, parts, now);
        SearchPrefix(dir, o.dir, cap, parts[0], parent, Folder);
      case Missing =>
        var e := NewFolder(dir, parent, parts[0], now);
        AddsOrDies(dir + [e], cap, e.payload, parts[1..], now);
        var o := AddFolders(dir, cap, parent, parts, now);
        NewIsFound(dir, cap, e);
        SearchPrefix(dir + [e], o.dir, cap, parts[0], parent, Folder);
        assert o.dir[..|dir|] == o.dir[..|dir| + 1][..|dir|] == dir;
      case Abort =>
    }
  }

  lemma SearchPrefix(dir: Table, more: Table, cap: nat, name: Name, parent: nat, kind: Kind)
    requires |dir| <= |more| && more[..|dir|] == dir && Search(dir, cap, name, parent, kind).At?
    ensures Search(more, cap, name, parent, kind) == Search(dir, cap, name, parent, kind)
  {
    assert forall j :: 0 <= j < |dir| ==> more[j] == dir[j];
  }

  /** The path `/` is the one on which the loop runs past the end of the string, unless it aborts before. */
  lemma SlashStrays(dir: Table, cap: nat, now: nat)
    ensures Prepare(dir, cap, [SLASH], now) == if Search(dir, cap, [], ROOT_ID, Folder).Abort? then Died(dir)
            else Strayed
  {
    var path := [SLASH];
    assert NextSlash(path, 0) == 0 && NextSlash(path, 1) == 1;
    assert path[..0] == [];
    assert Split([]) == [[]];
    assert Resolve(dir, cap, [], Folder) == ResolveParts(dir, cap, ROOT_ID, [[]], Folder);
    assert MakeFolders(dir, cap, path, 0, now) ==
           match Mkdir(dir, cap, [], now)
           case Done(made) => MakeFolders(made, cap, path, 1, now)
           case Died(same) => Died(same)
           case Strayed => Strayed;
  }

  // ----- The tree is kept -----

  /** A C string whose components fit in the name field. */
  ghost predicate PathOk(path: Name) {
    forall i :: 0 <= i < |Split(path)| ==> NameOk(Split(path)[i])
  }

  lemma RelativeOk(path: Name)
    requires PathOk(path)
    ensures PathOk(Relative(path))
  {
    if path != [] && path[0] == SLASH {
      var parts := Split(path[1..]);
      assert Split(path) == [[]] + parts;
      assert forall i :: 0 <= i < |parts| ==> parts[i] == Split(path)[i + 1];
    }
  }

  lemma PrefixOk(path: Name, j: nat)
    requires PathOk(path) && j < |path| && path[j] == SLASH
    ensures PathOk(path[..j])
  {
    hide Split, NameOk;
    SplitAt(path, j);
    var parts := Split(path[..j]);
    assert forall i :: 0 <= i < |parts| ==> parts[i] == Split(path)[i];
  }

  /** What `path_resolver` reports as not found can be added. */
  lemma {:induction false} NotFoundAddable(dir: Table, cap: nat, parent: nat, parts: seq<Name>, kind: Kind)
    requires Tree(dir) && HasParent(dir, |dir|, parent) && parts != []
    requires forall i :: 0 <= i < |parts| ==> NameOk(parts[i])
    ensures var r := ResolveParts(dir, cap, parent, parts, kind);
            r.NotFound? ==> && HasParent(dir, |dir|, r.parent) && NameOk(r.name) && |dir| < cap
                            && forall j :: 0 <= j < |dir| ==> !Matches(dir[j], r.name, r.parent, kind)
    decreases |parts|
  {
    if |parts| > 1 {
      match Search(dir, cap, parts[0], parent, Folder)
      case At(i) => NotFoundAddable(dir, cap, dir[i].payload, parts[1..], kind);
      case _ =>
    }
  }

  lemma NewEntryFits(dir: Table, cap: nat, path: Name, kind: Kind)
    requires Tree(dir) && PathOk(path)
    ensures var r := Resolve(dir, cap, path, kind);
            r.NotFound? ==> && HasParent(dir, |dir|, r.parent) && NameOk(r.name) && |dir| < cap
                            && forall j :: 0 <= j < |dir| ==> !Matches(dir[j], r.name, r.parent, kind)
  {
    hide Split, ResolveParts, Tree, NameOk;
    if path != [SLASH] {
      RelativeOk(path);
      NotFoundAddable(dir, cap, ROOT_ID, Split(Relative(path)), kind);
    }
  }

  /** What `mkdir` does, by the walk down the components of its path: it adds one directory where the walk ends, with
      the next ID, if there is none of that name and the table has room. */
  lemma MkdirExact(dir: Table, cap: nat, path: Name, now: nat)
    requires Tree(dir) && |dir| <= cap && |dir| < ROOT_ID
    ensures var parts, o := Split(Relative(path)), Mkdir(dir, cap, path, now);
            var last := parts[|parts| - 1];
            if path == [SLASH] then o == Done(dir)
            else match Walk(dir, cap, ROOT_ID, parts[..|parts| - 1])
              case Missing => o == Done(dir)
              case Abort => o == Died(dir)
              case At(id) =>
                if exists j :: 0 <= j < |dir| && dir[j].name == last && dir[j].parent == id && dir[j].kind == Folder
                then o == Done(dir)
                else if |dir| >= cap then o == Died(dir)
                else o == Done(dir + [Entry(id, Folder, last, now, Folders(dir) + 1, 0)])
  {
    FreeIdFresh(dir);
    hide Split, Tree, FreeIdFrom;
    if path != [SLASH] {
      var parts := Split(Relative(path));
      var before, last := parts[..|parts| - 1], parts[|parts| - 1];
      assert parts == before + [last];
      ResolveWalks(dir, cap, ROOT_ID, before, last, Folder);
    }
  }

  /** `mkdir` keeps the tree and adds at most one entry, at the end. */
  lemma MkdirKeepsTree(dir: Table, cap: nat, path: Name, now: nat)
    requires Tree(dir) && |dir| <= cap && PathOk(path)
    ensures var o := Mkdir(dir, cap, path, now);
            && !o.Strayed? && Tree(o.dir) && |dir| <= |o.dir| <= cap && o.dir[..|dir|] == dir
            && forall i :: |dir| <= i < |o.dir| ==> o.dir[i].kind == Folder
  {
    hide Resolve, PathOk;
    NewEntryFits(dir, cap, path, Folder);
    var r := Resolve(dir, cap, path, Folder);
    assert dir[..|dir|] == dir;
    if r.NotFound? {
      FreeIdFresh(dir);
      hide Tree, HasParent, NameOk;
      TreeGrows(dir, NewFolder(dir, r.parent, r.name, now));
      assert (dir + [NewFolder(dir, r.parent, r.name, now)])[..|dir|] == dir;
    }
  }

  lemma {:induction false} LoopKeepsTree(dir: Table, cap: nat, path: Name, i: nat, now: nat)
    requires Tree(dir) && |dir| <= cap && PathOk(path) && i <= |path|
    ensures var o := MakeFolders(dir, cap, path, i, now);
            !o.Strayed? ==> && Tree(o.dir) && |dir| <= |o.dir| <= cap && o.dir[..|dir|] == dir
                             && forall k :: |dir| <= k < |o.dir| ==> o.dir[k].kind == Folder
    decreases |path| - i
  {
    hide Tree, Mkdir, PathOk, Resolve;
    var j := NextSlash(path, i);
    if j < |path| {
      PrefixOk(path, j);
      MkdirKeepsTree(dir, cap, path[..j], now);
      var made := Mkdir(dir, cap, path[..j], now).dir;
      if Mkdir(dir, cap, path[..j], now).Done? && Resolve(made, cap, path, File).Failure? {
        LoopKeepsTree(made, cap, path, j + 1, now);
        var o := MakeFolders(made, cap, path, j + 1, now);
        if !o.Strayed? {
          assert o.dir[..|dir|] == o.dir[..|made|][..|dir|] == dir;
          forall k | |dir| <= k < |o.dir| ensures o.dir[k].kind == Folder {
            assert k < |made| ==> o.dir[k] == o.dir[..|made|][k];
          }
        }
      }
    }
  }

  lemma PrepareKeepsTree(dir: Table, cap: nat, path: Name, now: nat)
    requires Tree(dir) && |dir| <= cap && PathOk(path)
    ensures var o := Prepare(dir, cap, path, now);
            !o.Strayed? ==> && Tree(o.dir) && |dir| <= |o.dir| <= cap && o.dir[..|dir|] == dir
                             && forall k :: |dir| <= k < |o.dir| ==> o.dir[k].kind == Folder
  {
    hide Tree, PathOk, Resolve, MakeFolders;
    LoopKeepsTree(dir, cap, path, 0, now);
    assert dir[..|dir|] == dir;
  }

  // ----- Exactly what is added -----

  /** A chain of directories, each in the one before, with consecutive IDs. */
  function Descending(parent: nat, id: nat, parts: seq<Name>, now: nat): (r: Table)
    ensures |r| == |parts|
    decreases |parts|
  {
    if parts == [] then [] else [Entry(parent, Folder, parts[0], now, id, 0)] + Descending(id, id + 1, parts[1..], now)
  }

  predicate NamesOk(parts: seq<Name>) {
    forall i :: 0 <= i < |parts| ==> NameOk(parts[i])
  }

  lemma AddsNothing(dir: Table, cap: nat, parent: nat, id: nat, parts: seq<Name>, now: nat)
    requires parts == []
    ensures AddFolders(dir, cap, parent, parts, now) == Done(dir + Descending(parent, id, parts, now))
  {
    assert dir + [] == dir;
  }

  lemma AddsStep(dir: Table, cap: nat, parent: nat, parts: seq<Name>, now: nat)
    requires parts != [] && !Search(dir, cap, parts[0], parent, Folder).At? && |dir| < cap
    ensures var e := NewFolder(dir, parent, parts[0], now);
            AddFolders(dir, cap, parent, parts, now) == AddFolders(dir + [e], cap, e.payload, parts[1..], now)
  {
  }

  lemma DescendingStep(parent: nat, id: nat, parts: seq<Name>, now: nat)
    requires parts != []
    ensures Descending(parent, id, parts, now) ==
            [Entry(parent, Folder, parts[0], now, id, 0)] + Descending(id, id + 1, parts[1..], now)
  {
  }

  /** From the first missing directory on, all are missing, and all are added in one chain. */
  lemma {:induction false} AddsChain(dir: Table, cap: nat, parent: nat, parts: seq<Name>, now: nat)
    requires Tree(dir) && |dir| + |parts| < ROOT_ID && |dir| + |parts| <= cap && HasParent(dir, |dir|, parent)
             && NamesOk(parts)
    requires parts != [] ==> !Search(dir, cap, parts[0], parent, Folder).At?
    ensures AddFolders(dir, cap, parent, parts, now) == Done(dir + Descending(parent, Folders(dir) + 1, parts, now))
    decreases |parts|
  {
    hide Tree, HasParent, FreeIdFrom, NameOk, Folders, NewFolder, AddFolders, Search, Descending;
    if parts == [] {
      AddsNothing(dir, cap, parent, Folders(dir) + 1, parts, now);
    } else {
      var id, rest := Folders(dir) + 1, parts[1..];
      var e := Entry(parent, Folder, parts[0], now, id, 0);
      NewFolderEmpty(dir, cap, parent, parts[0], now);
      AddsChain(dir + [e], cap, id, rest, now);
      AddsStep(dir, cap, parent, parts, now);
      DescendingStep(parent, id, parts, now);
      var below := Descending(id, id + 1, rest, now);
      assert AddFolders(dir, cap, parent, parts, now) == Done(dir + [e] + below);
      assert dir + [e] + below == dir + ([e] + below);
    }
  }

  /** A new directory extends the tree and has nothing in it. */
  lemma NewFolderEmpty(dir: Table, cap: nat, parent: nat, name: Name, now: nat)
    requires Tree(dir) && |dir| + 1 < ROOT_ID && HasParent(dir, |dir|, parent) && NameOk(name)
    requires !Search(dir, cap, name, parent, Folder).At?
    ensures var e := NewFolder(dir, parent, name, now);
            var d := dir + [e];
            && e == Entry(parent, Folder, name, now, Folders(dir) + 1, 0)
            && Tree(d) && Folders(d) == Folders(dir) + 1 && HasParent(d, |d|, e.payload)
            && forall other :: !Search(d, cap, other, e.payload, Folder).At?
  {
    var e := NewFolder(dir, parent, name, now);
    var d := dir + [e];
    FreeIdFresh(dir);
    hide Tree, NameOk, FoldersIn, FreeIdFrom;
    assert parent == ROOT_ID || parent < e.payload;
    assert forall j :: 0 <= j < |d| ==> d[j].parent != e.payload;
    TreeGrows(dir, e);
    assert HasParent(d, |d|, e.payload) by { assert d[|dir|] == e; }
  }

  /** With room for them, the directories added for a path are the ones below the first `k`, which exist. */
  lemma AddsExactly(dir: Table, cap: nat, path: Name, k: nat, now: nat)
    requires Tree(dir) && PathOk(path) && k <= |FolderNames(path)|
    requires |dir| + |FolderNames(path)| - k <= cap && |dir| + |FolderNames(path)| < ROOT_ID
    requires Walk(dir, cap, ROOT_ID, FolderNames(path)[..k]).At?
    requires k < |FolderNames(path)| ==> !Walk(dir, cap, ROOT_ID, FolderNames(path)[..k + 1]).At?
    ensures var names := FolderNames(path);
            AddFolders(dir, cap, ROOT_ID, names, now) ==
            Done(dir + Descending(Walk(dir, cap, ROOT_ID, names[..k]).i, Folders(dir) + 1, names[k..], now))
  {
    hide Tree, Split, Walk, AddFolders, Descending;
    var names := FolderNames(path);
    var id := Walk(dir, cap, ROOT_ID, names[..k]).i;
    RelativeOk(path);
    assert names == names[..k] + names[k..];
    AddAfterWalk(dir, cap, ROOT_ID, names[..k], names[k..], now);
    WalkedParent(dir, cap, names[..k]);
    if k < |names| {
      assert names[..k + 1] == names[..k] + [names[k]];
      WalkAppend(dir, cap, ROOT_ID, names[..k], [names[k]]);
      WalkOne(dir, cap, id, names[k]);
    }
    AddsChain(dir, cap, id, names[k..], now);
  }

  lemma {:induction false} WalkedParentFrom(dir: Table, cap: nat, parent: nat, parts: seq<Name>)
    requires HasParent(dir, |dir|, parent) && Walk(dir, cap, parent, parts).At?
    ensures HasParent(dir, |dir|, Walk(dir, cap, parent, parts).i)
    decreases |parts|
  {
    if parts != [] {
      var i := Search(dir, cap, parts[0], parent, Folder).i;
      assert dir[i].kind == Folder;
      WalkedParentFrom(dir, cap, dir[i].payload, parts[1..]);
    }
  }

  lemma WalkedParent(dir: Table, cap: nat, parts: seq<Name>)
    requires Walk(dir, cap, ROOT_ID, parts).At?
    ensures HasParent(dir, |dir|, Walk(dir, cap, ROOT_ID, parts).i)
  {
    WalkedParentFrom(dir, cap, ROOT_ID, parts);
  }

  // ----- When the loop leaves the buffer -----

  /** Where a walk fails, it still fails after some of the directories were added. */
  lemma {:induction false} AddedStillMissing(dir: Table, cap: nat, parent: nat, some: seq<Name>, all: seq<Name>,
                                             now: nat)
    requires Tree(dir) && cap < ROOT_ID && HasParent(dir, |dir|, parent) && NamesOk(all) && some <= all
             && |some| < |all|
    requires Walk(dir, cap, parent, all).Missing?
    requires var o := AddFolders(dir, cap, parent, some, now); o.Done? && |o.dir| < cap
    ensures Walk(AddFolders(dir, cap, parent, some, now).dir, cap, parent, all).Missing?
    decreases |some|
  {
    hide Tree, HasParent, FreeIdFrom, NameOk, Folders, NewFolder;
    if some != [] {
      var d := AddFolders(dir, cap, parent, some, now).dir;
      AddsOrDies(dir, cap, parent, some, now);
      assert some[1..] <= all[1..];
      match Search(dir, cap, some[0], parent, Folder)
      case At(i) =>
        FolderIsParent(dir, i);
        AddedStillMissing(dir, cap, dir[i].payload, some[1..], all[1..], now);
        SearchPrefix(dir, d, cap, some[0], parent, Folder);
        assert d[i] == d[..|dir|][i];
      case Missing =>
        var e := NewFolder(dir, parent, some[0], now);
        NewFolderEmpty(dir, cap, parent, some[0], now);
        AddsOrDies(dir + [e], cap, e.payload, some[1..], now);
        AddedStillMissing(dir + [e], cap, e.payload, some[1..], all[1..], now);
        NewIsFound(dir, cap, e);
        SearchPrefix(dir + [e], d, cap, some[0], parent, Folder);
        assert d[|dir|] == d[..|dir| + 1][|dir|] == e;
    }
  }

  lemma FolderIsParent(dir: Table, i: nat)
    requires i < |dir| && dir[i].kind == Folder
    ensures HasParent(dir, |dir|, dir[i].payload)
  {
  }

  /** A walk that gets through goes on to do so when the table grows. */
  lemma {:induction false} WalkPrefix(dir: Table, more: Table, cap: nat, parent: nat, parts: seq<Name>)
    requires |dir| <= |more| && more[..|dir|] == dir && Walk(dir, cap, parent, parts).At?
    ensures Walk(more, cap, parent, parts) == Walk(dir, cap, parent, parts)
    decreases |parts|
  {
    if parts != [] {
      SearchPrefix(dir, more, cap, parts[0], parent, Folder);
      var i := Search(dir, cap, parts[0], parent, Folder).i;
      assert more[i] == more[..|dir|][i];
      WalkPrefix(dir, more, cap, dir[i].payload, parts[1..]);
    }
  }

  lemma {:induction false} AbortedFull(dir: Table, cap: nat, parent: nat, parts: seq<Name>)
    requires Walk(dir, cap, parent, parts).Abort?
    ensures |dir| >= cap
    decreases |parts|
  {
    match Search(dir, cap, parts[0], parent, Folder)
    case At(i) => AbortedFull(dir, cap, dir[i].payload, parts[1..]);
    case _ =>
  }

  lemma {:induction false} DiedFull(dir: Table, cap: nat, parent: nat, parts: seq<Name>, now: nat)
    requires AddFolders(dir, cap, parent, parts, now).Died?
    ensures |AddFolders(dir, cap, parent, parts, now).dir| >= cap
    decreases |parts|
  {
    match Search(dir, cap, parts[0], parent, Folder)
    case At(i) => DiedFull(dir, cap, dir[i].payload, parts[1..], now);
    case Missing =>
      var e := NewFolder(dir, parent, parts[0], now);
      DiedFull(dir + [e], cap, e.payload, parts[1..], now);
    case Abort =>
  }

  /** A path that fails, with a slash past the end of the buffer, and room in the table for the directories in front of
      it and one more entry. */
  predicate Strays(dir: Table, cap: nat, path: Name, now: nat) {
    var start := Start(dir, cap, path, now);
    && Resolve(start, cap, path, File).Failure? && LateSlash(path)
    && !AddFolders(start, cap, ROOT_ID, FolderNames(Front(path)), now).Strayed?
    && |AddFolders(start, cap, ROOT_ID, FolderNames(Front(path)), now).dir| < cap
  }

  lemma StartTree(dir: Table, cap: nat, path: Name, now: nat)
    requires Tree(dir) && |dir| <= cap && PathOk(path) && path != [SLASH]
    ensures Tree(Start(dir, cap, path, now))
  {
    hide Tree, PathOk, Resolve, Mkdir, Search;
    if Start(dir, cap, path, now) != dir {
      LeadingSlash(dir, cap, path, now);
      PrefixOk(path, 0);
      MkdirKeepsTree(dir, cap, path[..0], now);
    }
  }

  /** The loop writes past its buffer on just these paths. */
  lemma PrepareStrays(dir: Table, cap: nat, path: Name, now: nat)
    requires Tree(dir) && |dir| <= cap < ROOT_ID && PathOk(path) && path != [SLASH]
    ensures Prepare(dir, cap, path, now).Strayed? <==> Strays(dir, cap, path, now)
  {
    hide Tree, PathOk, Resolve, Split, Walk, AddFolders, Search, FolderNames, LateSlash;
    PrepareAdds(dir, cap, path, now);
    var start, names, all := Start(dir, cap, path, now), FolderNames(Front(path)), FolderNames(path);
    var o := AddFolders(start, cap, ROOT_ID, names, now);
    StartTree(dir, cap, path, now);
    AddsOrDies(start, cap, ROOT_ID, names, now);
    ResolveWalked(start, cap, path);
    if o.Died? {
      DiedFull(start, cap, ROOT_ID, names, now);
    } else {
      ResolveWalked(o.dir, cap, path);
      if path != [] {
        FrontNames(path);
      }
      if Resolve(o.dir, cap, path, File).Failure? {
        WalkMissing(o.dir, cap, ROOT_ID, all);
        if Walk(start, cap, ROOT_ID, all).At? {
          WalkPrefix(start, o.dir, cap, ROOT_ID, all);
        } else if Walk(start, cap, ROOT_ID, all).Abort? {
          AbortedFull(start, cap, ROOT_ID, all);
        }
        StrayedLate(o.dir, cap, path);
      } else if Strays(dir, cap, path, now) {
        assert path != [] by { NoLateSlash(path); }
        NamesOfPath(path);
        assert |names| < |all|;
        AddedStillMissing(start, cap, ROOT_ID, names, all, now);
      }
    }
  }

  lemma NoLateSlash(path: Name)
    requires LateSlash(path)
    ensures path != []
  {
  }

  /** The directories in front of the buffer's end are not all of them if the path still fails. */
  lemma StrayedLate(dir: Table, cap: nat, path: Name)
    requires path != [SLASH] && Walk(dir, cap, ROOT_ID, FolderNames(Front(path))).At?
    requires Walk(dir, cap, ROOT_ID, FolderNames(path)).Missing?
    ensures LateSlash(path)
  {
    hide Walk, FolderNames;
    if path != [] {
      FrontNames(path);
    }
  }

  lemma NamesOfPath(path: Name)
    requires PathOk(path)
    ensures NamesOk(FolderNames(path))
  {
    hide Split, NameOk;
    RelativeOk(path);
  }

  /** `a/a/.../a` with `n` slashes. */
  function Letters(n: nat): Name {
    if n == 0 then [97] else [97, SLASH] + Letters(n - 1)
  }

  lemma {:induction false} LettersShape(n: nat)
    ensures |Letters(n)| == 2 * n + 1 && PathOk(Letters(n)) && forall k :: 0 <= k < n ==> Letters(n)[2 * k + 1] == SLASH
  {
    if n > 0 {
      var rest := Letters(n - 1);
      LettersShape(n - 1);
      assert Letters(n)[1..] == [SLASH] + rest && ([SLASH] + rest)[1..] == rest;
      SplitAt(Letters(n), 1);
      assert Letters(n)[..1] == [97] && Letters(n)[2..] == rest;
      SplitOne([97]);
      assert Split(Letters(n)) == [[97]] + Split(rest);
      forall k | 0 <= k < n ensures Letters(n)[2 * k + 1] == SLASH {
        assert k > 0 ==> Letters(n)[2 * k + 1] == rest[2 * (k - 1) + 1];
      }
    }
  }

  lemma {:induction false} SplitFew(p: Name)
    ensures |Split(p)| <= |p| + 1
  {
    if p != [] {
      SplitFew(p[1..]);
    }
  }

  lemma {:induction false} AddsFew(dir: Table, cap: nat, parent: nat, parts: seq<Name>, now: nat)
    ensures var o := AddFolders(dir, cap, parent, parts, now); !o.Strayed? && |o.dir| <= |dir| + |parts|
    decreases |parts|
  {
    if parts != [] {
      match Search(dir, cap, parts[0], parent, Folder)
      case At(i) => AddsFew(dir, cap, dir[i].payload, parts[1..], now);
      case Missing =>
        var e := NewFolder(dir, parent, parts[0], now);
        AddsFew(dir + [e], cap, e.payload, parts[1..], now);
      case Abort =>
    }
  }

  /** Such a path of more than 4096 bytes, on an empty volume: every component is one byte long and the loop strays. */
  lemma LongPathStrays(n: nat, cap: nat, now: nat)
    requires 2049 <= n && 4096 < cap < ROOT_ID
    ensures PathOk(Letters(n)) && Prepare([], cap, Letters(n), now).Strayed?
  {
    hide PathOk, Split, Letters, AddFolders, Resolve, Walk, Tree;
    var path := Letters(n);
    LettersShape(n);
    assert path[2 * 2048 + 1] == SLASH && LateSlash(path);
    assert Tree([]) by { EmptyTree(); }
    LettersFail(n, cap);
    SplitFew(Relative(Front(path)));
    AddsFew([], cap, ROOT_ID, FolderNames(Front(path)), now);
    PrepareStrays([], cap, path, now);
  }

  lemma EmptyTree()
    ensures Tree([])
  {
  }

  lemma LettersFail(n: nat, cap: nat)
    requires n > 0 && cap > 0
    ensures Resolve([], cap, Letters(n), File).Failure? && Skip(Letters(n)) == 0
  {
    LettersShape(n);
    var p := Letters(n);
    assert p[0] == 97;
    SplitAt(p, 1);
    var parts := Split(p);
    assert |parts| > 1;
    assert ResolveParts([], cap, ROOT_ID, parts, File).Failure?;
  }
}
