/**
 * Categories as directories (api-providers/FileSystemApiProvider/CategoriesApiHandler.ts):
 * a category is a child directory of the notes root, its name the directory name and its
 * notes the files directly in it. The root's child named `.` stands for "no category" and
 * is never reported.
 *
 * The client cache is a parameter of each call.
 */
module CategoriesHandler {
  import opened Wrappers
  import opened Records
  import opened HandlerBase
  import Tree
  import Forbidden
  import Strings

  /** `CategoryApiData`: a category as `getCategories` reports it. */
  datatype CategoryListing = CategoryListing(id: Id, name: string, notes: seq<Id>)

  /** What `getCategories` reports for the child directories `dirs`, in order: each one not
      named `.`, with its name and the ids of its files. */
  function CategoriesOf(m: map<Id, Tree.Node>, dirs: seq<Id>): (r: seq<CategoryListing>)
    requires forall d :: d in dirs ==> d in m
    ensures |r| <= |dirs|
  {
    if dirs == [] then []
    else
      var d := dirs[|dirs| - 1];
      CategoriesOf(m, dirs[..|dirs| - 1]) + if m[d].name == "." then [] else [CategoryListing(d, m[d].name, m[d].files)]
  }

  /** A listing is reported exactly when it describes one of the directories, as it
      stands, and that directory is not `.`. */
  lemma {:induction false} CategoriesOfMembers(m: map<Id, Tree.Node>, dirs: seq<Id>, c: CategoryListing)
    requires forall d :: d in dirs ==> d in m
    ensures c in CategoriesOf(m, dirs) <==>
              c.id in dirs && m[c.id].name != "." && c == CategoryListing(c.id, m[c.id].name, m[c.id].files)
  {
    if dirs != [] {
      var init := dirs[..|dirs| - 1];
      assert dirs == init + [dirs[|dirs| - 1]];
      CategoriesOfMembers(m, init, c);
    }
  }

  /** The listing only looks at the directories it is given. */
  lemma {:induction false} CategoriesOfFrame(m: map<Id, Tree.Node>, m': map<Id, Tree.Node>, dirs: seq<Id>)
    requires forall d :: d in dirs ==> d in m && d in m' && m'[d] == m[d]
    ensures CategoriesOf(m', dirs) == CategoriesOf(m, dirs)
  {
    if dirs != [] {
      CategoriesOfFrame(m, m', dirs[..|dirs| - 1]);
    }
  }

  /** A new directory inserted last under the root, not named `.`, is reported last, after
      the categories reported before. */
  lemma CategoriesOfAdded(m: map<Id, Tree.Node>, next: nat, root: Id, d: Id, n: Tree.Node)
    requires Tree.WellFormed(m, next) && root in m && m[root].isDir && d !in m && n.name != "."
    ensures var m' := m[d := n][root := m[root].(dirs := m[root].dirs + [d])];
            CategoriesOf(m', m'[root].dirs) == CategoriesOf(m, m[root].dirs) + [CategoryListing(d, n.name, n.files)]
  {
    var m' := m[d := n][root := m[root].(dirs := m[root].dirs + [d])];
    var dirs := m[root].dirs;
    forall x | x in dirs ensures x in m' && m'[x] == m[x] {
      assert m[x].serial > m[root].serial;
    }
    CategoriesOfFrame(m, m', dirs);
    assert (dirs + [d])[..|dirs|] == dirs;
  }

  /** `categories` with the name of the one for `id` replaced by `name`. */
  function Renamed(categories: seq<CategoryListing>, id: Id, name: string): (r: seq<CategoryListing>)
    ensures |r| == |categories|
    ensures forall k :: 0 <= k < |r| ==>
              r[k] == if categories[k].id == id then categories[k].(name := name) else categories[k]
  {
    seq(|categories|, k requires 0 <= k < |categories| =>
      if categories[k].id == id then categories[k].(name := name) else categories[k])
  }

  /** Renaming a reported directory to a name other than `.` renames its entry in place and
      changes no other entry. */
  lemma {:induction false} CategoriesOfRenamed(m: map<Id, Tree.Node>, dirs: seq<Id>, id: Id, name: string)
    requires forall d :: d in dirs ==> d in m
    requires id in m && m[id].name != "." && name != "."
    ensures CategoriesOf(m[id := m[id].(name := name)], dirs) == Renamed(CategoriesOf(m, dirs), id, name)
  {
    if dirs != [] {
      CategoriesOfRenamed(m, dirs[..|dirs| - 1], id, name);
    }
  }

  /** In a well-formed tree the subdirectories of a node are nodes. */
  lemma SubdirectoriesKnown(m: map<Id, Tree.Node>, next: nat, d: Id)
    requires Tree.WellFormed(m, next) && d in m
    ensures forall c :: c in m[d].dirs ==> c in m
  {
  }

  /** A name that passes the forbidden-name check cannot be `.`, so a category made or
      renamed through the handler is always reported. */
  lemma AcceptedNameIsNotDot(name: string)
    requires Forbidden.ForbiddenSequence(name).None?
    ensures name != "."
  {
    if name == "." {
      assert Strings.StartsWith(name, ".");
    }
  }

  class CategoriesApiHandler {
    const fs: Tree.VirtualFileSystem
    const cache: ApiCache

    constructor (fs: Tree.VirtualFileSystem, cache: ApiCache)
      ensures this.fs == fs && this.cache == cache
    {
      this.fs := fs;
      this.cache := cache;
    }

    /** What `getCategories` reports in the current tree. */
    ghost function Categories(): (r: seq<CategoryListing>)
      reads fs, fs.counter
      requires fs.Valid()
    {
      assert forall d :: d in fs.nodes[fs.rootId].dirs ==> d in fs.nodes by {
        forall d | d in fs.nodes[fs.rootId].dirs ensures d in fs.nodes {
          assert fs.rootId in fs.nodes;
        }
      }
      CategoriesOf(fs.nodes, fs.nodes[fs.rootId].dirs)
    }

    /** `createCategory(data)`: a forbidden name fails before anything changes. Otherwise a
        directory is added last under the root and made on disk; the category comes back
        with the directory's id, and from then on it is the last one reported. A refused
        `mkdir` fails but leaves the directory in the tree. */
    method CreateCategory(data: CategoryProperties) returns (r: Result<CategoryModel, ApiError>)
      requires fs.Valid()
      modifies fs, fs.counter, fs.disk
      ensures fs.Valid()
      ensures Forbidden.ForbiddenSequence(data.name).Some? ==>
                && r == Err(ForbiddenName(Forbidden.ForbiddenSequence(data.name).value))
                && fs.nodes == old(fs.nodes) && fs.counter.next == old(fs.counter.next)
                && fs.disk.log == old(fs.disk.log)
      ensures Forbidden.ForbiddenSequence(data.name).None? ==>
                var d := Strings.NatToString(old(fs.counter.next));
                var op := Tree.Mkdir(old(fs.Path(fs.rootId)) + "/" + data.name);
                && d !in old(fs.nodes) && fs.counter.next == old(fs.counter.next) + 1
                && fs.nodes == old(fs.nodes)[d := Tree.Node(true, data.name, old(fs.Path(fs.rootId)), old(fs.counter.next), [], [])]
                                            [fs.rootId := old(fs.nodes[fs.rootId]).(dirs := old(fs.nodes[fs.rootId].dirs) + [d])]
                && r == (if op !in fs.disk.faults then Ok(WithCategoryId(data, d)) else Err(DiskFailure))
                && fs.disk.log == (if r.Ok? then old(fs.disk.log) + [op] else old(fs.disk.log))
                && Categories() == old(Categories()) + [CategoryListing(d, data.name, [])]
    {
      var forbidden := Forbidden.ForbiddenSequence(data.name);
      if forbidden.Some? {
        return Err(ForbiddenName(forbidden.value));
      }
      AcceptedNameIsNotDot(data.name);
      ghost var m := fs.nodes;
      ghost var next := fs.counter.next;
      var directory, ok := fs.CreateDirectory(fs.rootId, data.name);
      CategoriesOfAdded(m, next, fs.rootId, directory, Tree.Node(true, data.name, old(fs.Path(fs.rootId)), next, [], []));
      if !ok {
        return Err(DiskFailure);
      }
      r := Ok(WithCategoryId(data, directory));
    }

    /** `getCategories()`: the root's child directories in order, skipping `.`, each with
        its name and the ids of its files. */
    method GetCategories() returns (categories: seq<CategoryListing>)
      requires fs.Valid()
      ensures categories == Categories()
    {
      var dirs := fs.nodes[fs.rootId].dirs;
      categories := [];
      for i := 0 to |dirs|
        invariant categories == CategoriesOf(fs.nodes, dirs[..i])
      {
        assert dirs[..i + 1][..i] == dirs[..i];
        var directory := fs.nodes[dirs[i]];
        if directory.name != "." {
          categories := categories + [CategoryListing(dirs[i], directory.name, directory.files)];
        }
      }
      assert dirs[..|dirs|] == dirs;
    }

    /** `deleteCategory(id)`: an id naming no directory of the tree fails; otherwise the
        directory is deleted from the tree and the disk. Once its parent is found the
        category is no longer reported, even when the disk refuses the removal. */
    method DeleteCategory(id: Id) returns (r: Outcome<ApiError>)
      requires fs.Valid()
      modifies fs, fs.disk
      ensures fs.Valid()
      ensures old(fs.FindDir(id, fs.rootId)).None? ==>
                r == Fail(UnknownDirectory) && fs.nodes == old(fs.nodes) && fs.disk.log == old(fs.disk.log)
      ensures old(fs.FindDir(id, fs.rootId)).Some? && old(fs.FindParent(id, fs.rootId)).None? ==>
                r == Fail(TreeFailure(Tree.NoParent)) && fs.nodes == old(fs.nodes) && fs.disk.log == old(fs.disk.log)
      ensures old(fs.FindDir(id, fs.rootId)).Some? && old(fs.FindParent(id, fs.rootId)).Some? ==>
                var p := old(fs.FindParent(id, fs.rootId)).value;
                var op := Tree.Rmdir(old(fs.Path(id)));
                && fs.nodes == old(fs.nodes)[p := old(fs.nodes[p]).(dirs := Tree.Without(old(fs.nodes[p]).dirs, id))]
                && r == (if op !in fs.disk.faults then Pass else Fail(TreeFailure(Tree.DiskFailure)))
                && fs.disk.log == (if r.Pass? then old(fs.disk.log) + [op] else old(fs.disk.log))
                && forall c :: c in Categories() ==> c.id != id
    {
      var directory := fs.GetDirectoryById(id, fs.rootId);
      if directory.None? {
        return Fail(UnknownDirectory);
      }
      ghost var root := fs.nodes[fs.rootId];
      ghost var parent := fs.FindParent(id, fs.rootId);
      var deleted := fs.DeleteDirectory(id);
      r := if deleted.Pass? then Pass else Fail(TreeFailure(deleted.error));
      if parent.Some? {
        assert id !in fs.nodes[fs.rootId].dirs by {
          if parent.value != fs.rootId {
            assert id !in root.dirs;
          }
        }
        forall c | c in Categories() ensures c.id != id {
          CategoriesOfMembers(fs.nodes, fs.nodes[fs.rootId].dirs, c);
        }
      }
    }

    /** `updateCategory(id, data)`: a forbidden name fails first, even when the name stays;
        then an id naming no directory of the tree, then one the client cache lacks. A
        changed name renames the directory, on disk first, and its entry is then reported
        under the new name in the same place; an unchanged one leaves everything as it
        was. */
    method UpdateCategory(id: Id, data: CategoryProperties, client: ClientCache) returns (r: Outcome<ApiError>)
      requires fs.Valid()
      modifies fs, fs.disk
      ensures fs.Valid()
      ensures Forbidden.ForbiddenSequence(data.name).Some? ==>
                r == Fail(ForbiddenName(Forbidden.ForbiddenSequence(data.name).value))
      ensures Forbidden.ForbiddenSequence(data.name).None? && old(fs.FindDir(id, fs.rootId)).None? ==>
                r == Fail(UnknownDirectory)
      ensures Forbidden.ForbiddenSequence(data.name).None? && old(fs.FindDir(id, fs.rootId)).Some? &&
              client.Category(id).None? ==>
                r == Fail(NotInClientCache)
      ensures r.Fail? && r.error != DiskFailure ==> fs.nodes == old(fs.nodes) && fs.disk.log == old(fs.disk.log)
      ensures Forbidden.ForbiddenSequence(data.name).None? && old(fs.FindDir(id, fs.rootId)).Some? &&
              client.Category(id).Some? ==>
                var op := Tree.RenamePath(old(fs.Path(id)), old(fs.nodes[id].basePath) + "/" + data.name);
                if client.Category(id).value.name == data.name then
                  r == Pass && fs.nodes == old(fs.nodes) && fs.disk.log == old(fs.disk.log)
                else
                  && r == (if op !in fs.disk.faults then Pass else Fail(DiskFailure))
                  && fs.disk.log == (if r.Pass? then old(fs.disk.log) + [op] else old(fs.disk.log))
                  && fs.nodes == (if r.Pass? then old(fs.nodes)[id := old(fs.nodes[id]).(name := data.name)] else old(fs.nodes))
                  && (old(fs.nodes[id].name) != "." ==>
                        Categories() == if r.Pass? then Renamed(old(Categories()), id, data.name) else old(Categories()))
    {
      var forbidden := Forbidden.ForbiddenSequence(data.name);
      if forbidden.Some? {
        return Fail(ForbiddenName(forbidden.value));
      }
      var directory := fs.GetDirectoryById(id, fs.rootId);
      if directory.None? {
        return Fail(UnknownDirectory);
      }
      var category := client.Category(id);
      if category.None? {
        return Fail(NotInClientCache);
      }
      if category.value.name != data.name {
        AcceptedNameIsNotDot(data.name);
        ghost var m := fs.nodes;
        SubdirectoriesKnown(m, fs.counter.next, fs.rootId);
        var ok := fs.Rename(directory.value, data.name);
        if m[id].name != "." {
          CategoriesOfRenamed(m, m[fs.rootId].dirs, id, data.name);
        }
        r := if ok then Pass else Fail(DiskFailure);
      } else {
        r := Pass;
      }
    }
  }
}
