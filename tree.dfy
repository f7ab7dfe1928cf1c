/**
 * The in-memory mirror of the notes directory (api-providers/VirtualFileSystem.ts).
 *
 * Every node object of the tree is an entry of one arena, `nodes`, keyed by its id:
 * ids are never reused, so a node's id stands for the node itself. A directory keeps
 * the ids of its child directories and files in the order they were inserted. Nodes
 * detached from their parent stay in the arena, unreachable, as detached objects do.
 * The disk is a `Disk` object that records the changes it accepted.
 */
module Tree {
  import opened Wrappers
  import opened Strings

  type Id = string

  /** The module-wide `nextId` counter behind `generateId`. */
  class IdCounter {
    var next: nat

    constructor ()
      ensures next == 0
    {
      next := 0;
    }

    /** `generateId()`: the counter's value as text; the counter moves on by one. */
    method Generate() returns (id: Id)
      modifies this
      ensures id == NatToString(old(next)) && next == old(next) + 1
    {
      id := NatToString(next);
      next := next + 1;
    }
  }

  /** Ids handed out at different times differ. */
  lemma GeneratedIdsDiffer(a: nat, b: nat)
    requires a != b
    ensures NatToString(a) != NatToString(b)
  {
    if NatToString(a) == NatToString(b) {
      NatToStringInjective(a, b);
    }
  }

  /** A change the tree asks of the disk. */
  datatype DiskOp =
    | RenamePath(from: string, to: string)
    | Mkdir(path: string)
    | Rmdir(path: string)
    | Rm(path: string)
    | WriteFile(path: string, content: string)

  /** The disk: the changes it accepted, in order, and the ones it refuses. */
  class Disk {
    var log: seq<DiskOp>
    const faults: set<DiskOp>

    constructor (faults: set<DiskOp>)
      ensures log == [] && this.faults == faults
    {
      log := [];
      this.faults := faults;
    }

    /** Performs `op`: it succeeds unless it is one of the refused changes. */
    method Apply(op: DiskOp) returns (ok: bool)
      modifies this
      ensures ok == (op !in faults)
      ensures log == if ok then old(log) + [op] else old(log)
    {
      ok := op !in faults;
      if ok {
        log := log + [op];
      }
    }
  }

  /** What a directory listing (`readdir`) reports for one path. */
  datatype Listing = Listing(dirs: seq<string>, files: seq<string>)

  /** A directory or a file: its name, the path of the directory it lives in, the counter
      value its id was made from, and for a directory its children in insertion order. */
  datatype Node = Node(isDir: bool, name: string, basePath: string, serial: nat,
                       dirs: seq<Id>, files: seq<Id>)

  datatype TreeError =
    | UnknownDirectory   // "Directory with id ... doesn't exist"
    | NoParent           // "Couldn't find parent directory of id ..."
    | DiskFailure        // the disk refused the change
    | ListingFailure     // `readdir` failed

  /** `s` without `x`: what deleting the key `x` leaves of a child map. */
  function Without(s: seq<Id>, x: Id): (r: seq<Id>)
    ensures x !in r
    ensures forall y :: y in r <==> y in s && y != x
  {
    if s == [] then []
    else if s[0] == x then Without(s[1..], x)
    else [s[0]] + Without(s[1..], x)
  }

  /** Removing an absent id changes nothing. */
  lemma {:induction false} WithoutAbsent(s: seq<Id>, x: Id)
    requires x !in s
    ensures Without(s, x) == s
  {
    if s != [] {
      WithoutAbsent(s[1..], x);
    }
  }

  /** Every node's id is the text of its serial, which the counter has passed. */
  ghost predicate SerialsIssued(m: map<Id, Node>, next: nat)
  {
    forall id | id in m :: m[id].serial < next && id == NatToString(m[id].serial)
  }

  /** Child directories exist, are directories, and were made after their parent. */
  ghost predicate DirsLinked(m: map<Id, Node>)
  {
    forall id, c | id in m && c in m[id].dirs :: c in m && m[c].isDir && m[c].serial > m[id].serial
  }

  /** Child files exist and are files. */
  ghost predicate FilesLinked(m: map<Id, Node>)
  {
    forall id, c | id in m && c in m[id].files :: c in m && !m[c].isDir
  }

  ghost predicate WellFormed(m: map<Id, Node>, next: nat)
  {
    SerialsIssued(m, next) && DirsLinked(m) && FilesLinked(m)
  }

  /** Two arenas with the same nodes, each of the same kind, serial and child
      directories in both. */
  ghost predicate SameDirs(m: map<Id, Node>, m': map<Id, Node>)
  {
    m.Keys == m'.Keys &&
    forall x :: x in m ==> m'[x].isDir == m[x].isDir && m'[x].serial == m[x].serial && m'[x].dirs == m[x].dirs
  }

  /** The search of `getDirectoryById` over an arena: the same walk as
      `VirtualFileSystem.FindDir`, with the arena as a value. */
  ghost function DirSearch(m: map<Id, Node>, next: nat, id: Id, at: Id): (r: Option<Id>)
    requires WellFormed(m, next) && at in m && m[at].isDir
    ensures r.Some? ==> r.value == id && id in m && m[id].isDir
    decreases next - m[at].serial, 1
  {
    if id == at then Some(at)
    else if id in m[at].dirs then Some(id)
    else DirSearchAmong(m, next, id, at, 0)
  }

  ghost function DirSearchAmong(m: map<Id, Node>, next: nat, id: Id, at: Id, i: nat): (r: Option<Id>)
    requires WellFormed(m, next) && at in m && m[at].isDir && i <= |m[at].dirs|
    ensures r.Some? ==> r.value == id && id in m && m[id].isDir
    decreases next - m[at].serial, 0, |m[at].dirs| - i
  {
    if i == |m[at].dirs| then None
    else
      var r := DirSearch(m, next, id, m[at].dirs[i]);
      if r.Some? then r else DirSearchAmong(m, next, id, at, i + 1)
  }

  /** A change that keeps every node's kind, serial and child directories, such as
      renaming or moving a file, leaves every directory search as it was. */
  lemma {:induction false} DirSearchKept(m: map<Id, Node>, m': map<Id, Node>, next: nat, id: Id, at: Id)
    requires WellFormed(m, next) && WellFormed(m', next) && SameDirs(m, m') && at in m && m[at].isDir
    ensures DirSearch(m', next, id, at) == DirSearch(m, next, id, at)
    decreases next - m[at].serial, 1
  {
    if id != at && id !in m[at].dirs {
      DirSearchAmongKept(m, m', next, id, at, 0);
    }
  }

  lemma {:induction false} DirSearchAmongKept(m: map<Id, Node>, m': map<Id, Node>, next: nat, id: Id, at: Id, i: nat)
    requires WellFormed(m, next) && WellFormed(m', next) && SameDirs(m, m') && at in m && m[at].isDir
    requires i <= |m[at].dirs|
    ensures DirSearchAmong(m', next, id, at, i) == DirSearchAmong(m, next, id, at, i)
    decreases next - m[at].serial, 0, |m[at].dirs| - i
  {
    if i < |m[at].dirs| {
      DirSearchKept(m, m', next, id, m[at].dirs[i]);
      DirSearchAmongKept(m, m', next, id, at, i + 1);
    }
  }

  /** The id the counter hands out next is not in a well-formed arena. */
  lemma NextIdIsFresh(m: map<Id, Node>, next: nat)
    requires SerialsIssued(m, next)
    ensures NatToString(next) !in m
  {
    forall id | id in m ensures id != NatToString(next) {
      GeneratedIdsDiffer(m[id].serial, next);
    }
  }

  /** `parent` with `d` inserted last into the child map of `n`'s kind. */
  function Adopted(parent: Node, d: Id, n: Node): (p: Node)
    ensures p.isDir == parent.isDir && p.serial == parent.serial
    ensures p.dirs == if n.isDir then parent.dirs + [d] else parent.dirs
    ensures p.files == if n.isDir then parent.files else parent.files + [d]
  {
    if n.isDir then parent.(dirs := parent.dirs + [d]) else parent.(files := parent.files + [d])
  }

  /** Inserting a new childless node made from the counter's next value as the last child
      of a directory keeps the arena well-formed once the counter moves on. */
  lemma AdoptKeepsWellFormed(m: map<Id, Node>, next: nat, parent: Id, n: Node)
    requires WellFormed(m, next) && parent in m && m[parent].isDir
    requires n.serial == next && n.dirs == [] && n.files == []
    ensures WellFormed(m[NatToString(next) := n][parent := Adopted(m[parent], NatToString(next), n)], next + 1)
  {
    var d := NatToString(next);
    NextIdIsFresh(m, next);
    var m' := m[d := n][parent := Adopted(m[parent], d, n)];
    AdoptKeepsSerials(m, next, parent, n, d, m');
    AdoptKeepsDirs(m, next, parent, n, d, m');
    AdoptKeepsFiles(m, parent, n, d, m');
  }

  lemma AdoptKeepsSerials(m: map<Id, Node>, next: nat, parent: Id, n: Node, d: Id, m': map<Id, Node>)
    requires SerialsIssued(m, next) && parent in m && n.serial == next && d == NatToString(next)
    requires m' == m[d := n][parent := Adopted(m[parent], d, n)]
    ensures SerialsIssued(m', next + 1)
  {
  }

  lemma AdoptKeepsDirs(m: map<Id, Node>, next: nat, parent: Id, n: Node, d: Id, m': map<Id, Node>)
    requires DirsLinked(m) && SerialsIssued(m, next) && d !in m && parent in m
    requires n.serial == next && n.dirs == []
    requires m' == m[d := n][parent := Adopted(m[parent], d, n)]
    ensures DirsLinked(m')
  {
    forall id, c | id in m' && c in m'[id].dirs
      ensures c in m' && m'[c].isDir && m'[c].serial > m'[id].serial
    {
      if id == parent {
        if c != d {
          assert c in m[parent].dirs;
        }
      } else {
        assert m'[id] == m[d := n][id];
      }
    }
  }

  lemma AdoptKeepsFiles(m: map<Id, Node>, parent: Id, n: Node, d: Id, m': map<Id, Node>)
    requires FilesLinked(m) && d !in m && parent in m && n.files == []
    requires m' == m[d := n][parent := Adopted(m[parent], d, n)]
    ensures FilesLinked(m')
  {
    forall id, c | id in m' && c in m'[id].files
      ensures c in m' && !m'[c].isDir
    {
      if id == parent {
        if c != d {
          assert c in m[parent].files;
        }
      } else {
        assert m'[id] == m[d := n][id];
      }
    }
  }

  /** Replacing a node by one of the same kind and serial whose children are among the old
      ones keeps the arena well-formed. */
  lemma RefitKeepsWellFormed(m: map<Id, Node>, next: nat, id: Id, n: Node)
    requires WellFormed(m, next) && id in m
    requires n.isDir == m[id].isDir && n.serial == m[id].serial
    requires forall c :: c in n.dirs ==> c in m[id].dirs
    requires forall c :: c in n.files ==> c in m[id].files
    ensures WellFormed(m[id := n], next)
  {
  }

  /** Arena `m'` keeps every node of `m` except `x` as it was. */
  ghost predicate KeepsAllBut(m: map<Id, Node>, m': map<Id, Node>, x: Id)
  {
    forall id :: id in m && id != x ==> id in m' && m'[id] == m[id]
  }

  /** In arena `m`, the files of `d` are files carrying `names`, in order. */
  ghost predicate FilesNamed(m: map<Id, Node>, d: Id, names: seq<string>)
  {
    && d in m && |m[d].files| == |names|
    && forall j :: 0 <= j < |names| ==>
         m[d].files[j] in m && !m[m[d].files[j]].isDir && m[m[d].files[j]].name == names[j]
  }

  /** Adding a new file to `d` adds its name at the end of the names of `d`'s files. */
  lemma AddFileNamed(m: map<Id, Node>, d: Id, names: seq<string>, f: Id, n: Node)
    requires FilesNamed(m, d, names) && f !in m && !n.isDir
    ensures FilesNamed(m[f := n][d := Adopted(m[d], f, n)], d, names + [n.name])
  {
    var m' := m[f := n][d := Adopted(m[d], f, n)];
    forall j | 0 <= j < |names| + 1
      ensures m'[d].files[j] in m' && !m'[m'[d].files[j]].isDir && m'[m'[d].files[j]].name == (names + [n.name])[j]
    {
      if j < |names| {
        assert m'[d].files[j] == m[d].files[j] && m[d].files[j] != f;
      }
    }
  }

  /** Adding the `i`-th listed file to `d` names one more of its files. */
  lemma AddFileStep(before: map<Id, Node>, m: map<Id, Node>, d: Id, names: seq<string>, i: nat, f: Id, n: Node)
    requires i < |names| && n.name == names[i] && !n.isDir && f !in m
    requires KeepsAllBut(before, m, d) && FilesNamed(m, d, names[..i])
    ensures KeepsAllBut(before, m[f := n][d := Adopted(m[d], f, n)], d)
    ensures FilesNamed(m[f := n][d := Adopted(m[d], f, n)], d, names[..i + 1])
  {
    AddFileNamed(m, d, names[..i], f, n);
    AddFileKeeps(before, m, d, f, n);
    TakeOneMore(names, i);
  }

  /** Adding node `d` under `x` keeps every node but `x`. */
  lemma KeepsNewNode(m: map<Id, Node>, m': map<Id, Node>, x: Id, d: Id)
    requires d !in m && x in m' && forall id :: id in m' <==> id in m || id == d
    requires forall id :: id in m && id != x ==> m'[id] == m[id]
    ensures KeepsAllBut(m, m', x)
  {
  }

  /** Nodes kept while `x` and then the new node `d` change are kept while only `x` does. */
  lemma KeepsAround(m: map<Id, Node>, m': map<Id, Node>, m'': map<Id, Node>, x: Id, d: Id)
    requires d !in m && KeepsAllBut(m, m', x) && KeepsAllBut(m', m'', d)
    ensures KeepsAllBut(m, m'', x)
  {
  }

  /** Adding a new file to `d` keeps every other node of the arena. */
  lemma AddFileKeeps(before: map<Id, Node>, m: map<Id, Node>, d: Id, f: Id, n: Node)
    requires KeepsAllBut(before, m, d) && f !in m && d in m
    ensures KeepsAllBut(before, m[f := n][d := Adopted(m[d], f, n)], d)
  {
  }

  lemma TakeOneMore(s: seq<string>, i: nat)
    requires i < |s|
    ensures s[..i + 1] == s[..i] + [s[i]]
  {
  }

  lemma KeepsTransitive(m: map<Id, Node>, m': map<Id, Node>, m'': map<Id, Node>, x: Id)
    requires KeepsAllBut(m, m', x) && KeepsAllBut(m', m'', x)
    ensures KeepsAllBut(m, m'', x)
  {
  }

  /** In arena `m`, `d` is a directory with no child directories, named `name`, living
      in `rootPath`, whose files carry, in order, the names the listing reports for its
      path. */
  ghost predicate Listed(m: map<Id, Node>, d: Id, name: string, rootPath: string, listing: map<string, Listing>)
  {
    && d in m && m[d].isDir
    && m[d].name == name && m[d].basePath == rootPath && m[d].dirs == []
    && rootPath + "/" + name in listing
    && FilesNamed(m, d, listing[rootPath + "/" + name].files)
  }

  /** The directories `ids` are listed under `names`, one for one. */
  ghost predicate AllListed(m: map<Id, Node>, ids: seq<Id>, names: seq<string>, rootPath: string,
                            listing: map<string, Listing>)
  {
    |ids| == |names| && forall k :: 0 <= k < |ids| ==> Listed(m, ids[k], names[k], rootPath, listing)
  }

  /** What a completed discovery leaves: the root as it was but for new subdirectories
      appended after its old ones, one fresh directory per listed name, in order, each
      holding what the listing says is under it. */
  ghost predicate Discovered(before: map<Id, Node>, after: map<Id, Node>, root: Id, names: seq<string>,
                             rootPath: string, listing: map<string, Listing>)
  {
    && root in before && root in after
    && after[root] == before[root].(dirs := after[root].dirs)
    && |after[root].dirs| >= |before[root].dirs|
    && after[root].dirs[..|before[root].dirs|] == before[root].dirs
    && AllListed(after, after[root].dirs[|before[root].dirs|..], names, rootPath, listing)
    && forall d :: d in after[root].dirs[|before[root].dirs|..] ==> d !in before
  }

  /** Where `init` stands in arena `m`: the directories `added` so far are new, sit after
      the root's earlier children and are listed under `names`; nothing else changed. */
  ghost predicate InitProgress(start: map<Id, Node>, m: map<Id, Node>, rootId: Id, root: Node, added: seq<Id>,
                               names: seq<string>, rootPath: string, listing: map<string, Listing>)
  {
    && rootId in m && m[rootId] == root.(dirs := root.dirs + added)
    && KeepsAllBut(start, m, rootId)
    && (forall d :: d in added ==> d !in start)
    && AllListed(m, added, names, rootPath, listing)
    && forall name :: name in names ==> rootPath + "/" + name in listing
  }

  /** One more listed directory keeps `init` on track. */
  lemma InitProgressStep(start: map<Id, Node>, m: map<Id, Node>, m': map<Id, Node>, rootId: Id, root: Node,
                         added: seq<Id>, d: Id, names: seq<string>, i: nat, rootPath: string,
                         listing: map<string, Listing>)
    requires i < |names| && rootId in start && start[rootId].isDir && root.isDir
    requires InitProgress(start, m, rootId, root, added, names[..i], rootPath, listing)
    requires rootId in m' && m'[rootId] == m[rootId].(dirs := m[rootId].dirs + [d])
    requires KeepsAllBut(m, m', rootId) && d !in m && d != rootId
    requires Listed(m', d, names[i], rootPath, listing)
    ensures InitProgress(start, m', rootId, root, added + [d], names[..i + 1], rootPath, listing)
  {
    KeepsTransitive(start, m, m', rootId);
    TakeOneMore(names, i);
    forall k | 0 <= k < i + 1
      ensures Listed(m', (added + [d])[k], names[..i + 1][k], rootPath, listing)
    {
      if k < i {
        ListedKept(m, m', rootId, added[k], names[k], rootPath, listing);
      }
    }
  }

  /** A listed directory stays listed when nothing but a directory other than it changes. */
  lemma ListedKept(m: map<Id, Node>, m': map<Id, Node>, root: Id, d: Id, name: string, rootPath: string,
                   listing: map<string, Listing>)
    requires Listed(m, d, name, rootPath, listing) && root in m && m[root].isDir && d != root
    requires KeepsAllBut(m, m', root)
    ensures Listed(m', d, name, rootPath, listing)
  {
    forall j | 0 <= j < |m[d].files| ensures m[d].files[j] != root {
    }
  }

  class VirtualFileSystem {
    var nodes: map<Id, Node>
    const rootId: Id
    const counter: IdCounter
    const disk: Disk

    /** The root is a directory of a well-formed arena. */
    ghost predicate Valid()
      reads this, counter
    {
      rootId in nodes && nodes[rootId].isDir && WellFormed(nodes, counter.next)
    }

    /** The root directory: named `.`, living in `basePath`, with the next id. */
    constructor (basePath: string, counter: IdCounter, disk: Disk)
      modifies counter
      ensures Valid()
      ensures this.counter == counter && this.disk == disk
      ensures rootId == NatToString(old(counter.next)) && counter.next == old(counter.next) + 1
      ensures nodes == map[rootId := Node(true, ".", basePath, old(counter.next), [], [])]
    {
      var serial := counter.next;
      var id := counter.Generate();
      rootId := id;
      this.counter := counter;
      this.disk := disk;
      nodes := map[id := Node(true, ".", basePath, serial, [], [])];
    }

    /** `path`: the base path, a slash and the name, from the node's current fields. */
    function Path(id: Id): (p: string)
      reads this
      requires id in nodes
      ensures p == nodes[id].basePath + "/" + nodes[id].name
    {
      nodes[id].basePath + "/" + nodes[id].name
    }

    predicate IsDirectory(id: Id)
      reads this
    {
      id in nodes && nodes[id].isDir
    }

    // -------------------------------------------------------------------------------
    // Lookups: the depth-first searches of the source, as functions
    // -------------------------------------------------------------------------------

    /** `getDirectoryById` on directory `at`: `at` itself, a direct child, or the first hit
        of the searches in its child directories, in order. */
    function FindDir(id: Id, at: Id): (r: Option<Id>)
      reads this, counter
      requires Valid() && IsDirectory(at)
      ensures r.Some? ==> r.value == id && IsDirectory(id)
      decreases counter.next - nodes[at].serial, 1
    {
      if id == at then Some(at)
      else if id in nodes[at].dirs then Some(id)
      else FindDirAmong(id, at, 0)
    }

    /** The `for` loop of `getDirectoryById`, from the `i`-th child directory of `at` on. */
    function FindDirAmong(id: Id, at: Id, i: nat): (r: Option<Id>)
      reads this, counter
      requires Valid() && IsDirectory(at) && i <= |nodes[at].dirs|
      ensures r.Some? ==> r.value == id && IsDirectory(id)
      decreases counter.next - nodes[at].serial, 0, |nodes[at].dirs| - i
    {
      if i == |nodes[at].dirs| then None
      else
        var r := FindDir(id, nodes[at].dirs[i]);
        if r.Some? then r else FindDirAmong(id, at, i + 1)
    }

    /** `getFileById` on directory `at`: a direct child file, or the first hit of the
        searches in its child directories, in order. */
    function FindFile(id: Id, at: Id): (r: Option<Id>)
      reads this, counter
      requires Valid() && IsDirectory(at)
      ensures r.Some? ==> r.value == id && id in nodes && !nodes[id].isDir
      decreases counter.next - nodes[at].serial, 1
    {
      if id in nodes[at].files then Some(id)
      else FindFileAmong(id, at, 0)
    }

    function FindFileAmong(id: Id, at: Id, i: nat): (r: Option<Id>)
      reads this, counter
      requires Valid() && IsDirectory(at) && i <= |nodes[at].dirs|
      ensures r.Some? ==> r.value == id && id in nodes && !nodes[id].isDir
      decreases counter.next - nodes[at].serial, 0, |nodes[at].dirs| - i
    {
      if i == |nodes[at].dirs| then None
      else
        var r := FindFile(id, nodes[at].dirs[i]);
        if r.Some? then r else FindFileAmong(id, at, i + 1)
    }

    /** `_getParent` on directory `at`: `at` when `id` is one of its children, otherwise
        the first hit of the searches in its child directories, in order. */
    function FindParent(id: Id, at: Id): (r: Option<Id>)
      reads this, counter
      requires Valid() && IsDirectory(at)
      ensures r.Some? ==> IsDirectory(r.value) && IsChild(r.value, id)
      decreases counter.next - nodes[at].serial, 1
    {
      if id in nodes[at].files || id in nodes[at].dirs then Some(at)
      else FindParentAmong(id, at, 0)
    }

    function FindParentAmong(id: Id, at: Id, i: nat): (r: Option<Id>)
      reads this, counter
      requires Valid() && IsDirectory(at) && i <= |nodes[at].dirs|
      ensures r.Some? ==> IsDirectory(r.value) && IsChild(r.value, id)
      decreases counter.next - nodes[at].serial, 0, |nodes[at].dirs| - i
    {
      if i == |nodes[at].dirs| then None
      else
        var r := FindParent(id, nodes[at].dirs[i]);
        if r.Some? then r else FindParentAmong(id, at, i + 1)
    }

    /** `c` is in one of the child maps of `p`. */
    predicate IsChild(p: Id, c: Id)
      reads this
    {
      p in nodes && (c in nodes[p].files || c in nodes[p].dirs)
    }

    // -------------------------------------------------------------------------------
    // Reference definitions: the directories and files below a directory
    // -------------------------------------------------------------------------------

    /** The directories of the subtree of `at`, `at` included. */
    ghost function SubDirs(at: Id): set<Id>
      reads this, counter
      requires Valid() && IsDirectory(at)
      decreases counter.next - nodes[at].serial, 1
    {
      {at} + SubDirsAmong(at, 0)
    }

    ghost function SubDirsAmong(at: Id, i: nat): set<Id>
      reads this, counter
      requires Valid() && IsDirectory(at) && i <= |nodes[at].dirs|
      decreases counter.next - nodes[at].serial, 0, |nodes[at].dirs| - i
    {
      if i == |nodes[at].dirs| then {}
      else SubDirs(nodes[at].dirs[i]) + SubDirsAmong(at, i + 1)
    }

    /** The files held by the directories of the subtree of `at`. */
    ghost function SubFiles(at: Id): set<Id>
      reads this, counter
      requires Valid() && IsDirectory(at)
      decreases counter.next - nodes[at].serial, 1
    {
      (set f | f in nodes[at].files) + SubFilesAmong(at, 0)
    }

    ghost function SubFilesAmong(at: Id, i: nat): set<Id>
      reads this, counter
      requires Valid() && IsDirectory(at) && i <= |nodes[at].dirs|
      decreases counter.next - nodes[at].serial, 0, |nodes[at].dirs| - i
    {
      if i == |nodes[at].dirs| then {}
      else SubFiles(nodes[at].dirs[i]) + SubFilesAmong(at, i + 1)
    }

    /** The `k`-th child directory of `at` is among the subtrees searched from child `i` on. */
    lemma {:induction false} ChildInSubDirsAmong(at: Id, i: nat, k: nat)
      requires Valid() && IsDirectory(at) && i <= k < |nodes[at].dirs|
      ensures nodes[at].dirs[k] in SubDirsAmong(at, i)
      decreases k - i
    {
      if i < k {
        ChildInSubDirsAmong(at, i + 1, k);
      }
    }

    /** `getDirectoryById` finds exactly the directories of the subtree. */
    lemma {:induction false} FindDirSpec(id: Id, at: Id)
      requires Valid() && IsDirectory(at)
      ensures FindDir(id, at) == if id in SubDirs(at) then Some(id) else None
      decreases counter.next - nodes[at].serial, 1
    {
      if id == at {
      } else if id in nodes[at].dirs {
        var k :| 0 <= k < |nodes[at].dirs| && nodes[at].dirs[k] == id;
        ChildInSubDirsAmong(at, 0, k);
      } else {
        FindDirAmongSpec(id, at, 0);
      }
    }

    lemma {:induction false} FindDirAmongSpec(id: Id, at: Id, i: nat)
      requires Valid() && IsDirectory(at) && i <= |nodes[at].dirs|
      ensures FindDirAmong(id, at, i) == if id in SubDirsAmong(at, i) then Some(id) else None
      decreases counter.next - nodes[at].serial, 0, |nodes[at].dirs| - i
    {
      if i < |nodes[at].dirs| {
        FindDirSpec(id, nodes[at].dirs[i]);
        FindDirAmongSpec(id, at, i + 1);
      }
    }

    /** `getFileById` finds exactly the files held in the subtree. */
    lemma {:induction false} FindFileSpec(id: Id, at: Id)
      requires Valid() && IsDirectory(at)
      ensures FindFile(id, at) == if id in SubFiles(at) then Some(id) else None
      decreases counter.next - nodes[at].serial, 1
    {
      if id !in nodes[at].files {
        FindFileAmongSpec(id, at, 0);
      }
    }

    lemma {:induction false} FindFileAmongSpec(id: Id, at: Id, i: nat)
      requires Valid() && IsDirectory(at) && i <= |nodes[at].dirs|
      ensures FindFileAmong(id, at, i) == if id in SubFilesAmong(at, i) then Some(id) else None
      decreases counter.next - nodes[at].serial, 0, |nodes[at].dirs| - i
    {
      if i < |nodes[at].dirs| {
        FindFileSpec(id, nodes[at].dirs[i]);
        FindFileAmongSpec(id, at, i + 1);
      }
    }

    /** `_getParent` finds a parent of `id` inside the subtree when there is one, and
        only then. */
    lemma {:induction false} FindParentSpec(id: Id, at: Id)
      requires Valid() && IsDirectory(at)
      ensures FindParent(id, at).Some? ==> FindParent(id, at).value in SubDirs(at)
      ensures FindParent(id, at).None? <==> forall p :: p in SubDirs(at) ==> !IsChild(p, id)
      decreases counter.next - nodes[at].serial, 1
    {
      if !(id in nodes[at].files || id in nodes[at].dirs) {
        FindParentAmongSpec(id, at, 0);
      }
    }

    lemma {:induction false} FindParentAmongSpec(id: Id, at: Id, i: nat)
      requires Valid() && IsDirectory(at) && i <= |nodes[at].dirs|
      ensures FindParentAmong(id, at, i).Some? ==> FindParentAmong(id, at, i).value in SubDirsAmong(at, i)
      ensures FindParentAmong(id, at, i).None? <==> forall p :: p in SubDirsAmong(at, i) ==> !IsChild(p, id)
      decreases counter.next - nodes[at].serial, 0, |nodes[at].dirs| - i
    {
      if i < |nodes[at].dirs| {
        FindParentSpec(id, nodes[at].dirs[i]);
        FindParentAmongSpec(id, at, i + 1);
      }
    }

    /** `FindDir` is the search over the arena the tree holds. */
    lemma {:induction false} FindDirIsSearch(id: Id, at: Id)
      requires Valid() && IsDirectory(at)
      ensures FindDir(id, at) == DirSearch(nodes, counter.next, id, at)
      decreases counter.next - nodes[at].serial, 1
    {
      if id != at && id !in nodes[at].dirs {
        FindDirAmongIsSearch(id, at, 0);
      }
    }

    lemma {:induction false} FindDirAmongIsSearch(id: Id, at: Id, i: nat)
      requires Valid() && IsDirectory(at) && i <= |nodes[at].dirs|
      ensures FindDirAmong(id, at, i) == DirSearchAmong(nodes, counter.next, id, at, i)
      decreases counter.next - nodes[at].serial, 0, |nodes[at].dirs| - i
    {
      if i < |nodes[at].dirs| {
        FindDirIsSearch(id, nodes[at].dirs[i]);
        FindDirAmongIsSearch(id, at, i + 1);
      }
    }

    /** Directories below `at` were made after it. */
    lemma {:induction false} SubDirsAreYounger(at: Id)
      requires Valid() && IsDirectory(at)
      ensures forall d :: d in SubDirs(at) ==> IsDirectory(d) && nodes[d].serial >= nodes[at].serial
      decreases counter.next - nodes[at].serial, 1
    {
      SubDirsAmongAreYounger(at, 0);
    }

    lemma {:induction false} SubDirsAmongAreYounger(at: Id, i: nat)
      requires Valid() && IsDirectory(at) && i <= |nodes[at].dirs|
      ensures forall d :: d in SubDirsAmong(at, i) ==> IsDirectory(d) && nodes[d].serial > nodes[at].serial
      decreases counter.next - nodes[at].serial, 0, |nodes[at].dirs| - i
    {
      if i < |nodes[at].dirs| {
        SubDirsAreYounger(nodes[at].dirs[i]);
        SubDirsAmongAreYounger(at, i + 1);
      }
    }

    /** The root has no parent, so deleting it fails. */
    lemma RootHasNoParent()
      requires Valid()
      ensures FindParent(rootId, rootId).None?
    {
      SubDirsAreYounger(rootId);
      FindParentSpec(rootId, rootId);
      forall p | p in SubDirs(rootId) ensures !IsChild(p, rootId) {
        assert rootId !in nodes[p].dirs;
        assert rootId !in nodes[p].files;
      }
    }

    // -------------------------------------------------------------------------------
    // The searches as the source runs them: a loop over the child directories, with a
    // recursive call per child
    // -------------------------------------------------------------------------------

    /** `getDirectoryById`, called on directory `at`. */
    method GetDirectoryById(id: Id, at: Id) returns (r: Option<Id>)
      requires Valid() && IsDirectory(at)
      ensures r == FindDir(id, at)
      decreases counter.next - nodes[at].serial
    {
      if id == at {
        return Some(at);
      }
      if id in nodes[at].dirs {
        return Some(id);
      }
      var children := nodes[at].dirs;
      var i := 0;
      while i < |children|
        invariant 0 <= i <= |children|
        invariant FindDir(id, at) == FindDirAmong(id, at, i)
      {
        var result := GetDirectoryById(id, children[i]);
        if result.Some? {
          return result;
        }
        i := i + 1;
      }
      return None;
    }

    /** `getFileById`, called on directory `at`. */
    method GetFileById(id: Id, at: Id) returns (r: Option<Id>)
      requires Valid() && IsDirectory(at)
      ensures r == FindFile(id, at)
      decreases counter.next - nodes[at].serial
    {
      if id in nodes[at].files {
        return Some(id);
      }
      var children := nodes[at].dirs;
      var i := 0;
      while i < |children|
        invariant 0 <= i <= |children|
        invariant FindFile(id, at) == FindFileAmong(id, at, i)
      {
        var result := GetFileById(id, children[i]);
        if result.Some? {
          return result;
        }
        i := i + 1;
      }
      return None;
    }

    /** `_getParent(directory)` for the node `id`, called with directory `at`. */
    method GetParentFrom(id: Id, at: Id) returns (r: Option<Id>)
      requires Valid() && IsDirectory(at)
      ensures r == FindParent(id, at)
      decreases counter.next - nodes[at].serial
    {
      if id in nodes[at].files || id in nodes[at].dirs {
        return Some(at);
      }
      var children := nodes[at].dirs;
      var i := 0;
      while i < |children|
        invariant 0 <= i <= |children|
        invariant FindParent(id, at) == FindParentAmong(id, at, i)
      {
        var result := GetParentFrom(id, children[i]);
        if result.Some? {
          return result;
        }
        i := i + 1;
      }
      return None;
    }

    // -------------------------------------------------------------------------------
    // Changes to the tree
    // -------------------------------------------------------------------------------

    /** `addDirectory(name)` on directory `parent`: one new directory under a fresh id,
        living in the parent's path, inserted last into the parent's directory map. */
    method AddDirectory(parent: Id, name: string) returns (d: Id)
      requires Valid() && IsDirectory(parent)
      modifies this, counter
      ensures Valid() && IsDirectory(d)
      ensures d !in old(nodes) && d == NatToString(old(counter.next))
      ensures counter.next == old(counter.next) + 1
      ensures nodes == old(nodes)[d := Node(true, name, old(Path(parent)), old(counter.next), [], [])]
                                 [parent := old(nodes[parent]).(dirs := old(nodes[parent]).dirs + [d])]
    {
      var serial := counter.next;
      var n := Node(true, name, Path(parent), serial, [], []);
      NextIdIsFresh(nodes, serial);
      AdoptKeepsWellFormed(nodes, serial, parent, n);
      d := counter.Generate();
      var p := nodes[parent];
      nodes := nodes[d := n][parent := Adopted(p, d, n)];
    }

    /** `addFile(name)` on directory `parent`: one new file under a fresh id, living in the
        parent's path, inserted last into the parent's file map. */
    method AddFile(parent: Id, name: string) returns (f: Id)
      requires Valid() && IsDirectory(parent)
      modifies this, counter
      ensures Valid() && f in nodes && !nodes[f].isDir
      ensures f !in old(nodes) && f == NatToString(old(counter.next))
      ensures counter.next == old(counter.next) + 1
      ensures nodes == old(nodes)[f := Node(false, name, old(Path(parent)), old(counter.next), [], [])]
                                 [parent := old(nodes[parent]).(files := old(nodes[parent]).files + [f])]
    {
      var serial := counter.next;
      var n := Node(false, name, Path(parent), serial, [], []);
      NextIdIsFresh(nodes, serial);
      AdoptKeepsWellFormed(nodes, serial, parent, n);
      f := counter.Generate();
      var p := nodes[parent];
      nodes := nodes[f := n][parent := Adopted(p, f, n)];
    }

    /** `createDirectory(name)`: the directory is added to the tree first, then made on
        disk; a refused `mkdir` leaves the new node in place. */
    method CreateDirectory(parent: Id, name: string) returns (d: Id, ok: bool)
      requires Valid() && IsDirectory(parent)
      modifies this, counter, disk
      ensures Valid() && IsDirectory(d)
      ensures d !in old(nodes) && d == NatToString(old(counter.next))
      ensures counter.next == old(counter.next) + 1
      ensures nodes == old(nodes)[d := Node(true, name, old(Path(parent)), old(counter.next), [], [])]
                                 [parent := old(nodes[parent]).(dirs := old(nodes[parent]).dirs + [d])]
      ensures ok == (Mkdir(Path(d)) !in disk.faults)
      ensures disk.log == if ok then old(disk.log) + [Mkdir(Path(d))] else old(disk.log)
    {
      d := AddDirectory(parent, name);
      ok := disk.Apply(Mkdir(Path(d)));
    }

    /** `rename(name)`: the disk rename comes first; only when it succeeds does the node
        take the new name. Its id and base path stay. */
    method Rename(id: Id, name: string) returns (ok: bool)
      requires Valid() && id in nodes
      modifies this, disk
      ensures Valid()
      ensures var op := RenamePath(old(Path(id)), old(nodes[id].basePath) + "/" + name);
              && ok == (op !in disk.faults)
              && disk.log == (if ok then old(disk.log) + [op] else old(disk.log))
              && nodes == if ok then old(nodes)[id := old(nodes[id]).(name := name)] else old(nodes)
    {
      var op := RenamePath(Path(id), nodes[id].basePath + "/" + name);
      ok := disk.Apply(op);
      if ok {
        RefitKeepsWellFormed(nodes, counter.next, id, nodes[id].(name := name));
        nodes := nodes[id := nodes[id].(name := name)];
      }
    }

    /** `moveTo(destinationId)`: an unknown destination fails before the disk is touched;
        otherwise the disk rename comes first, and on success the node's base path becomes
        the destination's path. The node stays in its old parent's child map. */
    method MoveTo(id: Id, destinationId: Id) returns (r: Outcome<TreeError>)
      requires Valid() && id in nodes
      modifies this, disk
      ensures Valid()
      ensures old(FindDir(destinationId, rootId)).None? ==>
                r == Fail(UnknownDirectory) && nodes == old(nodes) && disk.log == old(disk.log)
      ensures old(FindDir(destinationId, rootId)).Some? ==>
                var op := RenamePath(old(Path(id)), old(Path(destinationId)) + "/" + old(nodes[id].name));
                && (r.Pass? <==> op !in disk.faults)
                && (r.Fail? ==> r.error == DiskFailure)
                && disk.log == (if r.Pass? then old(disk.log) + [op] else old(disk.log))
                && nodes == if r.Pass? then old(nodes)[id := old(nodes[id]).(basePath := old(Path(destinationId)))]
                            else old(nodes)
    {
      var destination := GetDirectoryById(destinationId, rootId);
      if destination.None? {
        return Fail(UnknownDirectory);
      }
      var destinationPath := Path(destination.value);
      var op := RenamePath(Path(id), destinationPath + "/" + nodes[id].name);
      var ok := disk.Apply(op);
      if !ok {
        return Fail(DiskFailure);
      }
      RefitKeepsWellFormed(nodes, counter.next, id, nodes[id].(basePath := destinationPath));
      nodes := nodes[id := nodes[id].(basePath := destinationPath)];
      return Pass;
    }

    /** `delete()` on directory `id`: the parent found by the search from the root loses
        the child, then the directory is removed on disk. Without a parent nothing changes. */
    method DeleteDirectory(id: Id) returns (r: Outcome<TreeError>)
      requires Valid() && IsDirectory(id)
      modifies this, disk
      ensures Valid()
      ensures old(FindParent(id, rootId)).None? ==>
                r == Fail(NoParent) && nodes == old(nodes) && disk.log == old(disk.log)
      ensures old(FindParent(id, rootId)).Some? ==>
                var p := old(FindParent(id, rootId)).value;
                && nodes == old(nodes)[p := old(nodes[p]).(dirs := Without(old(nodes[p]).dirs, id))]
                && (r.Pass? <==> Rmdir(old(Path(id))) !in disk.faults)
                && (r.Fail? ==> r.error == DiskFailure)
                && disk.log == if r.Pass? then old(disk.log) + [Rmdir(old(Path(id)))] else old(disk.log)
    {
      var parent := GetParentFrom(id, rootId);
      if parent.None? {
        return Fail(NoParent);
      }
      var p := parent.value;
      // The source guards the removal with a membership test; a directory can only
      // be the parent's child through this map, so the guard always holds.
      assert id in nodes[p].dirs;
      RefitKeepsWellFormed(nodes, counter.next, p, nodes[p].(dirs := Without(nodes[p].dirs, id)));
      nodes := nodes[p := nodes[p].(dirs := Without(nodes[p].dirs, id))];
      var ok := disk.Apply(Rmdir(Path(id)));
      r := if ok then Pass else Fail(DiskFailure);
    }

    /** `delete()` on file `id`: the parent found by the search from the root loses the
        file, then the file is removed on disk. Without a parent nothing changes. */
    method DeleteFile(id: Id) returns (r: Outcome<TreeError>)
      requires Valid() && id in nodes && !nodes[id].isDir
      modifies this, disk
      ensures Valid()
      ensures old(FindParent(id, rootId)).None? ==>
                r == Fail(NoParent) && nodes == old(nodes) && disk.log == old(disk.log)
      ensures old(FindParent(id, rootId)).Some? ==>
                var p := old(FindParent(id, rootId)).value;
                && nodes == old(nodes)[p := old(nodes[p]).(files := Without(old(nodes[p]).files, id))]
                && (r.Pass? <==> Rm(old(Path(id))) !in disk.faults)
                && (r.Fail? ==> r.error == DiskFailure)
                && disk.log == if r.Pass? then old(disk.log) + [Rm(old(Path(id)))] else old(disk.log)
    {
      var parent := GetParentFrom(id, rootId);
      if parent.None? {
        return Fail(NoParent);
      }
      var p := parent.value;
      // The source guards the removal with a membership test; a file can only
      // be the parent's child through this map, so the guard always holds.
      assert id in nodes[p].files;
      RefitKeepsWellFormed(nodes, counter.next, p, nodes[p].(files := Without(nodes[p].files, id)));
      nodes := nodes[p := nodes[p].(files := Without(nodes[p].files, id))];
      var ok := disk.Apply(Rm(Path(id)));
      r := if ok then Pass else Fail(DiskFailure);
    }

    /** `write(content)` on file `id`. */
    method Write(id: Id, content: string) returns (ok: bool)
      requires id in nodes
      modifies disk
      ensures ok == (WriteFile(Path(id), content) !in disk.faults)
      ensures disk.log == if ok then old(disk.log) + [WriteFile(Path(id), content)] else old(disk.log)
    {
      ok := disk.Apply(WriteFile(Path(id), content));
    }

    // -------------------------------------------------------------------------------
    // Building the tree from a disk listing
    // -------------------------------------------------------------------------------

    /** The inner loop of `init`: the files `names` are added to directory `d`, in order. */
    method AddListedFiles(d: Id, names: seq<string>)
      requires Valid() && IsDirectory(d) && nodes[d].files == []
      modifies this, counter
      ensures Valid() && IsDirectory(d)
      ensures nodes[d] == old(nodes[d]).(files := nodes[d].files)
      ensures KeepsAllBut(old(nodes), nodes, d)
      ensures FilesNamed(nodes, d, names)
    {
      var i := 0;
      while i < |names|
        invariant 0 <= i <= |names|
        invariant Valid() && IsDirectory(d)
        invariant nodes[d] == old(nodes[d]).(files := nodes[d].files)
        invariant KeepsAllBut(old(nodes), nodes, d)
        invariant FilesNamed(nodes, d, names[..i])
      {
        ghost var m := nodes;
        var f := AddFile(d, names[i]);
        AddFileStep(old(nodes), m, d, names, i, f, nodes[f]);
        i := i + 1;
      }
      assert names[..i] == names;
    }

    /** One pass of the outer loop of `init`: add directory `name` to the root, then add
        the files the listing reports for its path. A path the listing lacks fails once
        the directory is in place. */
    method AddListedDirectory(name: string, listing: map<string, Listing>) returns (d: Id, ok: bool)
      requires Valid()
      modifies this, counter
      ensures Valid() && IsDirectory(d) && d !in old(nodes)
      ensures nodes[rootId] == old(nodes[rootId]).(dirs := old(nodes[rootId].dirs) + [d])
      ensures KeepsAllBut(old(nodes), nodes, rootId)
      ensures nodes[d].name == name && nodes[d].basePath == old(Path(rootId)) && nodes[d].dirs == []
      ensures ok <==> Path(d) in listing
      ensures ok ==> Listed(nodes, d, name, old(Path(rootId)), listing)
    {
      d := AddDirectory(rootId, name);
      var path := Path(d);
      if path !in listing {
        return d, false;
      }
      KeepsNewNode(old(nodes), nodes, rootId, d);
      ghost var before := nodes;
      AddListedFiles(d, listing[path].files);
      KeepsAround(old(nodes), before, nodes, rootId, d);
      ok := true;
    }

    /** The directory names `init` adds to the root: the listing of the root's base path,
        then `.`. */
    ghost function InitNames(listing: map<string, Listing>): (names: seq<string>)
      reads this
      requires rootId in nodes && nodes[rootId].basePath in listing
      ensures |names| >= 1 && names[|names| - 1] == "."
    {
      listing[nodes[rootId].basePath].dirs + ["."]
    }

    /** `init()`: lists the root's base path, adds every directory found there and then
        `.` to the root, in that order, each with the files listed at its own path. A
        missing listing fails, leaving what was added so far. */
    method Init(listing: map<string, Listing>) returns (r: Outcome<TreeError>)
      requires Valid()
      modifies this, counter
      ensures Valid()
      ensures r.Fail? ==> r.error == ListingFailure
      ensures r.Pass? <==> old(nodes[rootId].basePath) in listing &&
                           forall name :: name in old(InitNames(listing)) ==> old(Path(rootId)) + "/" + name in listing
      ensures r.Pass? ==> Discovered(old(nodes), nodes, rootId, old(InitNames(listing)), old(Path(rootId)), listing)
      ensures KeepsAllBut(old(nodes), nodes, rootId)
    {
      var basePath := nodes[rootId].basePath;
      if basePath !in listing {
        return Fail(ListingFailure);
      }
      var names := listing[basePath].dirs + ["."];
      var rootPath := Path(rootId);
      ghost var root := nodes[rootId];
      ghost var start := nodes;
      ghost var added: seq<Id> := [];
      var i := 0;
      while i < |names|
        invariant 0 <= i <= |names| && |added| == i
        invariant Valid() && Path(rootId) == rootPath
        invariant InitProgress(start, nodes, rootId, root, added, names[..i], rootPath, listing)
      {
        ghost var now := nodes;
        var d, ok := AddListedDirectory(names[i], listing);
        if !ok {
          assert names[i] in names && rootPath + "/" + names[i] !in listing;
          return Fail(ListingFailure);
        }
        InitProgressStep(start, now, nodes, rootId, root, added, d, names, i, rootPath, listing);
        added := added + [d];
        i := i + 1;
      }
      assert names[..i] == names;
      assert nodes[rootId].dirs[..|root.dirs|] == root.dirs && nodes[rootId].dirs[|root.dirs|..] == added;
      r := Pass;
    }
  }
}
