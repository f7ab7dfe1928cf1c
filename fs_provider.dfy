/**
 * The filesystem-backed provider (src/api-providers/FileSystemApiProvider/FileSystemApiProvider.ts):
 * one cache and one tree, shared by the notes, tags and categories handlers, and a flag
 * that makes the tree's discovery run once. Only `getNotes` discovers the tree; every
 * other call goes to one handler with its arguments as given.
 *
 * The disk listing `init` reads, the file contents `getNotes` reads and the client cache
 * are parameters of the calls that use them.
 */
module FileSystemProvider {
  import opened Wrappers
  import opened Records
  import opened HandlerBase
  import Tree
  import Markdown
  import NotesHandler
  import TagsHandler
  import CategoriesHandler
  import Forbidden
  import Strings

  /** The name table after `getTags` read the tags file `content`: every record of a
      readable file stored under its name, in order; an unreadable file leaves it. */
  function Refreshed(byName: map<string, TagModel>, content: Option<seq<TagModel>>): (r: map<string, TagModel>)
    ensures content.None? ==> r == byName
    ensures content.Some? ==> forall name :: name in r <==> name in byName || exists t :: t in content.value && t.name == name
  {
    if content.None? then byName
    else
      forall name ensures name in TagsHandler.CacheAll(byName, content.value) <==>
                          name in byName || exists t :: t in content.value && t.name == name {
        TagsHandler.CacheAllKeys(byName, content.value, name);
      }
      TagsHandler.CacheAll(byName, content.value)
  }

  class FileSystemApiProvider {
    const cache: ApiCache
    const fs: Tree.VirtualFileSystem
    const tagsFile: TagsFile
    const notes: NotesHandler.NotesApiHandler
    const tags: TagsHandler.TagsApiHandler
    const categories: CategoriesHandler.CategoriesApiHandler
    /** `_vfsInit`: the tree has been discovered. */
    var vfsInit: bool
    /** How many times discovery has run to the end. */
    ghost var inits: nat

    /** The three handlers work on this provider's cache and tree, the tree is well-formed,
        and discovery has completed once exactly when the flag is set. */
    ghost predicate Valid()
      reads this, fs, fs.counter
    {
      && fs.Valid()
      && notes.fs == fs && notes.cache == cache
      && tags.tagsFile == tagsFile && tags.cache == cache && tags.notesHandler == notes
      && categories.fs == fs && categories.cache == cache
      && inits == if vfsInit then 1 else 0
    }

    /** The cache starts with all three tables empty, the tree with the root directory
        alone, and the flag unset. */
    constructor (basePath: string, counter: Tree.IdCounter, disk: Tree.Disk, tagsFile: TagsFile)
      modifies counter
      ensures Valid() && !vfsInit
      ensures cache.notesMeta == map[] && cache.tagsByName == map[] && cache.notesIdByTagId == map[]
      ensures fs.counter == counter && fs.disk == disk && this.tagsFile == tagsFile
      ensures fs.rootId == Strings.NatToString(old(counter.next)) && counter.next == old(counter.next) + 1
      ensures fs.nodes == map[fs.rootId := Tree.Node(true, ".", basePath, old(counter.next), [], [])]
    {
      var c := new ApiCache();
      var t := new Tree.VirtualFileSystem(basePath, counter, disk);
      var n := new NotesHandler.NotesApiHandler(t, c);
      cache := c;
      fs := t;
      this.tagsFile := tagsFile;
      notes := n;
      tags := new TagsHandler.TagsApiHandler(tagsFile, c, n);
      categories := new CategoriesHandler.CategoriesApiHandler(t, c);
      vfsInit := false;
      inits := 0;
    }

    /** `_initVirtualFileSystem()`: with the flag set nothing happens. Otherwise the tree
        is discovered, and only a discovery that completes sets the flag, so a failed one
        runs again on the next call and a completed one never does. */
    method InitVirtualFileSystem(listing: map<string, Tree.Listing>) returns (r: Outcome<ApiError>)
      requires Valid()
      modifies this, fs, fs.counter
      ensures Valid()
      ensures old(vfsInit) ==> r == Pass && vfsInit && fs.nodes == old(fs.nodes) && fs.counter.next == old(fs.counter.next)
      ensures !old(vfsInit) ==>
                && (r.Pass? <==> old(fs.nodes[fs.rootId].basePath) in listing &&
                                 forall name :: name in old(fs.InitNames(listing)) ==> old(fs.Path(fs.rootId)) + "/" + name in listing)
                && (r.Fail? ==> r.error == TreeFailure(Tree.ListingFailure))
                && vfsInit == r.Pass?
                && Tree.KeepsAllBut(old(fs.nodes), fs.nodes, fs.rootId)
      ensures !old(vfsInit) && r.Pass? ==>
                Tree.Discovered(old(fs.nodes), fs.nodes, fs.rootId, old(fs.InitNames(listing)), old(fs.Path(fs.rootId)), listing)
      ensures inits <= 1 && (inits == 1 <==> vfsInit)
    {
      if vfsInit {
        return Pass;
      }
      var discovered := fs.Init(listing);
      if discovered.Fail? {
        return Fail(TreeFailure(discovered.error));
      }
      vfsInit := true;
      inits := inits + 1;
      r := Pass;
    }

    /** `getNotes()`: discovery first; its failure ends the call with no cache change.
        Then the tag list is read and every record stored by name, and only then are the
        notes listed, so their tags are resolved against the refreshed name table. */
    method GetNotes(listing: map<string, Tree.Listing>, source: Id -> Option<string>, ghost read: NotesHandler.Reader)
      returns (r: Result<seq<NoteModel>, ApiError>)
      requires Valid() && NotesHandler.Reads(read, source)
      modifies this, fs, fs.counter, cache
      ensures Valid()
      ensures r.Err? && !r.error.FromReading() ==>
                && !old(vfsInit) && !vfsInit && r.error == TreeFailure(Tree.ListingFailure)
                && cache.tagsByName == old(cache.tagsByName) && cache.notesMeta == old(cache.notesMeta)
      ensures r.Ok? || r.error.FromReading() ==>
                && vfsInit
                && cache.tagsByName == Refreshed(old(cache.tagsByName), tagsFile.content)
                && NotesHandler.ChildrenKnown(fs.nodes, fs.nodes[fs.rootId].dirs)
                && (r.Ok? <==> NotesHandler.AllParse(fs.nodes, fs.nodes[fs.rootId].dirs, read))
                && (r.Ok? ==> r.value == NotesHandler.NotesOfDirs(fs.nodes, fs.nodes[fs.rootId].dirs, read, cache.tagsByName))
      ensures old(vfsInit) ==> vfsInit && fs.nodes == old(fs.nodes)
      ensures !old(vfsInit) ==>
                && (vfsInit <==> old(fs.nodes[fs.rootId].basePath) in listing &&
                                 forall name :: name in old(fs.InitNames(listing)) ==> old(fs.Path(fs.rootId)) + "/" + name in listing)
                && Tree.KeepsAllBut(old(fs.nodes), fs.nodes, fs.rootId)
      ensures !old(vfsInit) && (r.Ok? || r.error.FromReading()) ==>
                Tree.Discovered(old(fs.nodes), fs.nodes, fs.rootId, old(fs.InitNames(listing)), old(fs.Path(fs.rootId)), listing)
      ensures cache.notesIdByTagId == old(cache.notesIdByTagId)
    {
      var init := InitVirtualFileSystem(listing);
      if init.Fail? {
        return Err(init.error);
      }
      var _ := tags.GetTags();
      r := notes.GetNotes(source, read);
    }

    method CreateNote(data: NoteProperties) returns (r: Result<NoteModel, ApiError>)
      requires Valid()
      modifies fs, fs.counter, fs.disk, cache
      ensures Valid() && vfsInit == old(vfsInit)
      ensures Forbidden.ForbiddenSequence(data.title).Some? ==> r.Err? && fs.nodes == old(fs.nodes)
      ensures r.Ok? ==> r.value == WithNoteId(data, Strings.NatToString(old(fs.counter.next)))
    {
      r := notes.CreateNote(data);
    }

    method DeleteNote(id: Id) returns (r: Outcome<ApiError>)
      requires Valid()
      modifies fs, fs.disk
      ensures Valid() && vfsInit == old(vfsInit)
      ensures old(fs.FindFile(id, fs.rootId)).None? ==> r == Fail(UnknownFile) && fs.nodes == old(fs.nodes)
    {
      r := notes.DeleteNote(id);
    }

    method UpdateNote(id: Id, data: NoteProperties, client: ClientCache) returns (r: Outcome<ApiError>)
      requires Valid()
      modifies fs, fs.disk
      ensures Valid() && vfsInit == old(vfsInit)
      ensures client.Note(id).None? ==> r == Fail(NotInClientCache) && fs.nodes == old(fs.nodes)
    {
      r := notes.UpdateNote(id, data, client);
    }

    method RemoveTagFromNote(noteId: Id, tagId: Id, client: ClientCache) returns (r: Outcome<ApiError>)
      requires Valid()
      modifies fs.disk
      ensures Valid() && vfsInit == old(vfsInit)
      ensures client.Note(noteId).Some? ==>
                (r, fs.disk.log) == notes.TagsRewrite(noteId, RemoveFirst(client.Note(noteId).value.tagsId, tagId), client, old(fs.disk.log))
    {
      r := notes.RemoveTagFromNote(noteId, tagId, client);
    }

    method AddTagToNote(noteId: Id, tagId: Id, client: ClientCache) returns (r: Outcome<ApiError>)
      requires Valid()
      modifies fs.disk
      ensures Valid() && vfsInit == old(vfsInit)
      ensures client.Note(noteId).Some? ==>
                (r, fs.disk.log) == notes.TagsRewrite(noteId, client.Note(noteId).value.tagsId + [tagId], client, old(fs.disk.log))
    {
      r := notes.AddTagToNote(noteId, tagId, client);
    }

    method CreateTag(data: TagProperties, freshId: Id, client: ClientCache) returns (r: Result<TagModel, ApiError>)
      requires Valid()
      modifies cache, tagsFile
      ensures Valid() && vfsInit == old(vfsInit)
      ensures var tag := TagModel(freshId, data.name, data.color);
              && (r.Ok? <==> client.tags + [tag] !in tagsFile.faults)
              && (r.Ok? ==> r.value == tag && tagsFile.content == Some(client.tags + [tag]))
              && (r.Err? ==> r.error == DiskFailure && tagsFile.content == old(tagsFile.content))
    {
      r := tags.CreateTag(data, freshId, client);
    }

    method GetTags() returns (r: seq<TagModel>)
      requires Valid()
      modifies cache
      ensures Valid() && vfsInit == old(vfsInit)
      ensures r == (if tagsFile.content.Some? then tagsFile.content.value else [])
      ensures cache.tagsByName == Refreshed(old(cache.tagsByName), tagsFile.content)
    {
      r := tags.GetTags();
    }

    method DeleteTag(id: Id, client: ClientCache) returns (r: Outcome<ApiError>)
      requires Valid()
      modifies tagsFile, fs.disk
      ensures Valid() && vfsInit == old(vfsInit)
      ensures client.Tag(id).None? && (exists n :: n in client.notes) ==> r.Fail?
    {
      r := tags.DeleteTag(id, client);
    }

    method UpdateTag(id: Id, data: TagProperties, client: ClientCache) returns (r: Outcome<ApiError>)
      requires Valid()
      modifies cache, tagsFile
      ensures Valid() && vfsInit == old(vfsInit)
      ensures r.Pass? ==> tagsFile.content == Some(TagsHandler.TagsApiHandler.Updated(client.tags, id, data))
      ensures r.Pass? && client.Tag(id).None? ==> tagsFile.content == Some(client.tags)
      ensures r.Fail? ==> r.error == DiskFailure && tagsFile.content == old(tagsFile.content)
    {
      r := tags.UpdateTag(id, data, client);
    }

    method CreateCategory(data: CategoryProperties) returns (r: Result<CategoryModel, ApiError>)
      requires Valid()
      modifies fs, fs.counter, fs.disk
      ensures Valid() && vfsInit == old(vfsInit)
      ensures Forbidden.ForbiddenSequence(data.name).Some? ==> r.Err? && fs.nodes == old(fs.nodes)
      ensures r.Ok? ==> r.value == WithCategoryId(data, Strings.NatToString(old(fs.counter.next)))
    {
      r := categories.CreateCategory(data);
    }

    method GetCategories() returns (r: seq<CategoriesHandler.CategoryListing>)
      requires Valid()
      ensures r == categories.Categories()
    {
      r := categories.GetCategories();
    }

    method DeleteCategory(id: Id) returns (r: Outcome<ApiError>)
      requires Valid()
      modifies fs, fs.disk
      ensures Valid() && vfsInit == old(vfsInit)
      ensures old(fs.FindDir(id, fs.rootId)).None? ==> r == Fail(UnknownDirectory) && fs.nodes == old(fs.nodes)
    {
      r := categories.DeleteCategory(id);
    }

    method UpdateCategory(id: Id, data: CategoryProperties, client: ClientCache) returns (r: Outcome<ApiError>)
      requires Valid()
      modifies fs, fs.disk
      ensures Valid() && vfsInit == old(vfsInit)
      ensures Forbidden.ForbiddenSequence(data.name).Some? ==> r.Fail? && fs.nodes == old(fs.nodes)
    {
      r := categories.UpdateCategory(id, data, client);
    }
  }
}
