# softwiki-core in Dafny

This project models the storage core of softwiki-core, a note-taking back end. Notes are
markdown files. Categories are directories. Tags are records kept in a `tags` sidecar file.

The model covers these parts of the source:

- the markdown metadata codec (`parseMarkdownMetadata` / `generateMarkdownWithMetadata`);
- the forbidden-name check applied to titles and category names (`getForbiddenSequence`);
- the in-memory mirror of the notes directory (`VirtualFileSystem`);
- the three filesystem handlers for notes, tags and categories;
- the `FileSystemApiProvider` facade that joins those handlers;
- the JSON-database provider (`JsonApiProvider`);
- the client-side `Note` object;
- the `EventService` publish/subscribe table.

Each source file maps to one module:

| module (file) | source |
|---|---|
| `Wrappers` (wrappers.dfy) | `Option`, `Result` and `Outcome` |
| `Strings` (strings.dfy) | the JavaScript string operations the core relies on: `indexOf`, `split`, `trim`, `join`, number to text |
| `Records` (records.dfy) | notes, tags and categories (`objects.ts`, `Api.ts`), the client cache, and the array helpers the core uses |
| `Markdown` (markdown.dfy) | utils/markdown.ts |
| `Forbidden` (forbidden.dfy) | src/api-providers/FileSystemApiProvider/helper.ts |
| `Tree` (tree.dfy) | api-providers/VirtualFileSystem.ts |
| `HandlerBase` (handler_base.dfy) | api-providers/FileSystemApiProvider/ApiHandlerBase.ts and the provider's cache |
| `NotesHandler` (notes_handler.dfy) | src/api-providers/FileSystemApiProvider/NotesApiHandler.ts |
| `TagsHandler` (tags_handler.dfy) | src/api-providers/FileSystemApiProvider/TagsApiHandler.ts |
| `CategoriesHandler` (categories_handler.dfy) | api-providers/FileSystemApiProvider/CategoriesApiHandler.ts |
| `FileSystemProvider` (fs_provider.dfy) | src/api-providers/FileSystemApiProvider/FileSystemApiProvider.ts |
| `JsonProvider` (json_provider.dfy) | src/data-providers/JsonApiProvider.ts |
| `ClientNote` (note.dfy) | src/structures/Note.ts |
| `Events` (events.dfy) | services/EventService.ts |

## How the model stands in for the environment

- **The directory tree** is an arena: a map from node ids to nodes. Each node holds its kind, name and base path, a creation serial, and its child directories and files in insertion order. The source's ids come from a module-wide counter, so they are integer-like strings; JavaScript enumerates such keys in ascending order, which is creation order. That is why insertion-ordered sequences model the source's child objects. The shared counter is the `IdCounter` class. A child map only ever gains freshly generated ids: `moveTo` changes a node's base path but leaves it in its parent's map.
- **The disk** is a `Disk` object. It keeps a log of the changes it accepted (mkdir, rmdir, rename, write, unlink) and a fixed set of changes it refuses; a refused change is a failing call. The tags sidecar and the JSON database refuse writes the same way: each holds a fixed set of contents whose writing fails, and a failed write leaves what was there.
- **Reads** are parameters of the calls that read:
  - the `readdir` results that `init` sees are a listing map;
  - the text of note files is a function from file id to text, or to nothing when reading the file fails;
  - the tags sidecar is a `TagsFile` object holding the decoded list, or nothing when the file is missing or does not parse;
  - the JSON database read by `setup` is an optional value.
- **The client cache** (`SoftWikiClient.cache`) that handlers consult is a `ClientCache` value. It holds the client's notes, tags and categories in enumeration order.
- **Fresh ids** that the source takes from `Date.now()` are parameters.
- **Exceptions** become `Err`/`Fail` results. The model keeps the source's order of checks and what each check leaves changed. A `TypeError` from indexing an `undefined` cache entry is one such error too: `NotInClientCache`, `MissingMeta` or `UnknownTag`.

## Behaviour of the code worth knowing (the model follows the code)

- `createNote` writes the raw content to the new file, with no metadata block; it caches empty metadata for the note.
- `createDirectory` adds the directory to the tree before the `mkdir`, so a refused `mkdir` leaves the node in the tree.
- Renaming or moving a directory does not update the base paths stored in its children. Later disk operations on those children use the stale path.
- `getNotes` lists only the files of the direct child directories of the notes root. This includes the `.` directory that `init` adds for the root's own files; deeper directories are not listed.
- `updateTag` caches the new record by name even when the client has no tag with that id.
- Metadata keys are stored on a plain object, so `Object.keys` lists integer-like keys first, in numeric order, then the other keys in the order they were first stored; a `__proto__` line stores nothing. `b: x` then `1: y` parses to the keys `1`, `b`.
- `deleteTag` tests the found index with `if (index)`:
  - index 0 (the first tag) leaves the list unchanged;
  - a missing id (index -1) removes the last tag.
- `JsonApiProvider.removeTagFromNote` splices at `indexOf(tagId)` without checking it, so an absent tag removes the last tag id of the note.
- The handlers reject bad input with plain errors, not a dedicated unknown-id error kind. The provider's discovery flag is the only guard against running `init` twice.

## Model

| member | source | states |
|---|---|---|
| Strings.IndexOfFrom | utils/markdown.ts:14-19 | the first position at or after `from` holding the character, or -1 exactly when there is none from there on |
| Strings.IndexOfSubFrom | src/api-providers/FileSystemApiProvider/helper.ts:7-14 | the first position at or after `from` where the needle occurs, or -1 exactly when it occurs nowhere from there on |
| Strings.IndexOfSubFound | src/api-providers/FileSystemApiProvider/helper.ts:7-14 | `indexOf(t) !== -1` holds exactly when the text contains `t` |
| Strings.Split | utils/markdown.ts:32 | splitting always yields at least one piece |
| Strings.SplitAtFirst | utils/markdown.ts:32 | text up to the first separator is the first piece, and the rest splits on its own |
| Strings.SplitFirstPiece | utils/markdown.ts:32-33 | the key of a line is the text before its first colon, and a line with a colon has at least two pieces |
| Strings.TrimStartShape | utils/markdown.ts:37 | `trimStart` removes a prefix and what is left does not start with white space |
| Strings.TrimEndShape | utils/markdown.ts:37 | `trimEnd` removes a suffix and what is left does not end with white space |
| Strings.TrimIsTrimmed | utils/markdown.ts:37 | what `trim` returns has no white space at either end |
| Strings.TrimOfTrimmed | utils/markdown.ts:37 | `trim` leaves text with no white space at its ends unchanged (idempotence) |
| Strings.TrimAfterBlank | utils/markdown.ts:37 | the blank `generate` writes after the colon is removed again by `trim` |
| Strings.NatToString | api-providers/VirtualFileSystem.ts:6 | a number's text is never empty, and is one digit exactly for numbers below ten |
| Strings.NatToStringInjective | api-providers/VirtualFileSystem.ts:3-7 | different counter values give different id texts |
| Records.FindNote | src/api-providers/FileSystemApiProvider/NotesApiHandler.ts:94 | `cache.notes[id]`: a found note is in the cache with that id; nothing is found exactly when no cached note has the id |
| Records.FindTag | src/api-providers/FileSystemApiProvider/NotesApiHandler.ts:118 | `cache.tags[id]`: a found tag is in the cache with that id; nothing is found exactly when no cached tag has the id |
| Records.FindCategory | api-providers/FileSystemApiProvider/CategoriesApiHandler.ts:61 | `cache.categories[id]`: a found category is cached with that id; nothing is found exactly when none has it |
| Records.IndexOf | src/structures/Note.ts:50 | `indexOf`: -1 exactly when the id is absent, otherwise the position of its first occurrence |
| Records.FirstIndex | src/data-providers/JsonApiProvider.ts:186-193 | the position of the first element with the id, -1 exactly when none has it |
| Records.SpliceOne | src/data-providers/JsonApiProvider.ts:93 | `splice(start, 1)`: for a start within the array (negative counts from the end) exactly the element there goes, every other keeping its order; a start past the end changes nothing, and one before the beginning removes the first element |
| Records.RemoveFirstCounts | src/api-providers/FileSystemApiProvider/NotesApiHandler.ts:96-99 | removing the first occurrence takes exactly one copy of the id away (multiset), and an absent id changes nothing |
| Records.RemoveFirstDistinct | src/structures/Note.ts:49-56 | in a list without repetitions, removal keeps it so and leaves the id absent |
| Records.AppendDistinct | src/structures/Note.ts:41-47 | appending an absent id keeps a list without repetitions free of them |
| Markdown.Keys | utils/markdown.ts:46 | the keys of the metadata, one per entry, in the order `Object.keys` lists them |
| Markdown.Get | utils/markdown.ts:37 | a key is missing exactly when it is not among the keys; a found value is stored under the key |
| Markdown.ListedBeforeAsymmetric | utils/markdown.ts:46 | no two keys are each listed before the other |
| Markdown.ListedBeforeTransitive | utils/markdown.ts:46 | the listing order of keys is transitive |
| Markdown.ListedBeforeTotal | utils/markdown.ts:46 | of two different array-index keys, one is listed before the other |
| Markdown.IndexLessIsNumeric | utils/markdown.ts:46 | array-index keys are listed in the numeric order of their values |
| Markdown.Assign | utils/markdown.ts:37 | an existing key keeps its place, a new key goes last, and the key then reads back the value |
| Markdown.IndexPlace | utils/markdown.ts:37 | a new array index goes after every entry listed before it and before the first entry listed after it |
| Markdown.InsertIndex | utils/markdown.ts:37 | a new array index is added, exactly one entry more, and reads back its value |
| Markdown.GetAppend | utils/markdown.ts:37 | looking a key up in two runs of entries finds it in the first run when it is there |
| Markdown.Put | utils/markdown.ts:37 | `__proto__` stores nothing; otherwise the key reads back the value, an existing key keeps the key list, a new key adds exactly its entry, and a new key that is not an array index goes last |
| Markdown.PutOther | utils/markdown.ts:37 | storing under one key leaves every other key's value unchanged |
| Markdown.PutKeepsDistinct | utils/markdown.ts:37 | storing keeps the keys distinct |
| Markdown.PutKeepsNoProto | utils/markdown.ts:37 | storing never creates a `__proto__` key |
| Markdown.PutKeepsKeyOrder | utils/markdown.ts:37 | storing keeps the entries in `Object.keys` order |
| Markdown.ReadLineAt | utils/markdown.ts:19-38 | one loop turn: a closer starts with `---` and resumes after its line; an entry line ends at its line break |
| Markdown.ParseMarkdownMetadata | utils/markdown.ts:9-42 | the loop computes the parse of the whole text (body and metadata, or the error it throws) |
| Markdown.GenerateMarkdownWithMetadata | utils/markdown.ts:44-53 | the loop builds the opener, one `key: value` line per key in order, the closer and the body |
| Markdown.NoOpenerIsAllContent | utils/markdown.ts:11-41 | text of at most three characters, or not starting with `---`, is all body with empty metadata |
| Markdown.OpenerWithoutNewlineIsAllContent | utils/markdown.ts:14-16 | an opener with no line break anywhere in the text is all body |
| Markdown.ParseFromSound | utils/markdown.ts:17-39 | from any point of the loop, a successful parse keeps keys distinct, in `Object.keys` order and free of `__proto__`, and returns a suffix of the text as body |
| Markdown.ParseSound | utils/markdown.ts:9-42 | any accepted text yields metadata with distinct keys, in `Object.keys` order and free of `__proto__`, and a body that is a suffix of the text |
| Markdown.ClosingLineEndsBlock | utils/markdown.ts:26-30 | the first line starting with `---` closes the block, and the body is everything after its line break |
| Markdown.ReadEntry | utils/markdown.ts:32-37 | a `key:value` line (extra colons dropped) reads as the untrimmed key with the trimmed value |
| Markdown.EntryLineStored | utils/markdown.ts:32-38 | reading an entry line stores its value under its key, overriding an earlier one, and parsing carries on after it; a `__proto__` line is skipped |
| Markdown.RoundTrip | utils/markdown.ts:9-53 | parsing generated text gives back the body and the metadata, for non-empty metadata with distinct plain keys in `Object.keys` order, no `__proto__` key, and trimmed plain values |
| Markdown.IndexIsPlain | utils/markdown.ts:32-37 | an all-digit key has no colon or line break and does not open with `---` |
| Markdown.ParseTwoLines | utils/markdown.ts:9-42 | example of EntryLineStored: a block of two entry lines parses to the second stored after the first |
| Markdown.PutIndexBeforeNamed | utils/markdown.ts:37 | a new array index stored into metadata that opens with a non-index key goes first |
| Markdown.PutIndexAfterNamed | utils/markdown.ts:37 | storing a named key and then an array index lists the index first |
| Markdown.IndexKeyListedFirst | utils/markdown.ts:9-53 | example of PutIndexBeforeNamed: `b: x` then `1: y` parses to metadata listing `1` before `b` |
| Markdown.BlockEndingAtEndOfTextIsAllContent | utils/markdown.ts:17-41 | a block whose last line ends the text without a closer is not metadata: all text is body |
| Markdown.UnterminatedLineFails | utils/markdown.ts:19-23 | a block still open when the last line has no line break is an unclosed-metadata error |
| Markdown.LineWithoutColonFails | utils/markdown.ts:32-36 | a block line with no colon that is not a closer is a malformed-line error |
| Forbidden.ForbiddenSequence | src/api-providers/FileSystemApiProvider/helper.ts:1-15 | the result, when there is one, is one of the six reported sequences |
| Forbidden.ViolatesChecks | src/api-providers/FileSystemApiProvider/helper.ts:3-14 | the six tests: starts with `~`, starts with `.`, contains `..`, `/`, `\` or `*` |
| Forbidden.MessagesDiffer | src/api-providers/FileSystemApiProvider/helper.ts:3-14 | each test reports its own sequence, and no two tests report the same one |
| Forbidden.FirstViolationWins | src/api-providers/FileSystemApiProvider/helper.ts:3-14 | the check reports test k's sequence exactly when the name fails test k and passes every earlier test |
| Forbidden.AcceptedIffPassesAll | src/api-providers/FileSystemApiProvider/helper.ts:1-15 | a name is accepted exactly when it passes all six tests |
| Forbidden.DotsBeforeSlash | src/api-providers/FileSystemApiProvider/helper.ts:7-10 | example of FirstViolationWins: `..` is reported before `/` |
| Forbidden.TildeFirst | src/api-providers/FileSystemApiProvider/helper.ts:3-6 | example of FirstViolationWins: a leading `~` is reported before anything that follows |
| Tree.IdCounter.constructor | api-providers/VirtualFileSystem.ts:3 | the counter starts at zero |
| Tree.IdCounter.Generate | api-providers/VirtualFileSystem.ts:5-7 | the id is the counter's value as text and the counter moves on by one |
| Tree.GeneratedIdsDiffer | api-providers/VirtualFileSystem.ts:3-7 | ids generated at different counter values differ |
| Tree.NextIdIsFresh | api-providers/VirtualFileSystem.ts:23-29 | the next generated id names no node of a tree whose ids were all generated |
| Tree.Disk.constructor | api-providers/VirtualFileSystem.ts:190-195 | a disk starts with nothing done and a fixed set of changes it refuses |
| Tree.Disk.Apply | api-providers/VirtualFileSystem.ts:39 | a disk change succeeds exactly when it is not refused, and only a success is recorded |
| Tree.Without | api-providers/VirtualFileSystem.ts:157-158 | deleting a child key removes exactly that id and keeps every other |
| Tree.Adopted | api-providers/VirtualFileSystem.ts:97-109 | adding a child puts it last in the child map of its kind and changes nothing else |
| Tree.AdoptKeepsWellFormed | api-providers/VirtualFileSystem.ts:97-109 | adding a new node under a directory keeps the tree well-formed: ids generated, children present and of the right kind, children younger than parents |
| Tree.RefitKeepsWellFormed | api-providers/VirtualFileSystem.ts:37-52 | renaming, moving or dropping children of a node keeps the tree well-formed |
| Tree.VirtualFileSystem.constructor | api-providers/VirtualFileSystem.ts:192-196 | a new tree is the root directory `.` in the base path, under a fresh id |
| Tree.VirtualFileSystem.Path | api-providers/VirtualFileSystem.ts:33 | a node's path is its base path, a slash and its name |
| Tree.VirtualFileSystem.FindDir | api-providers/VirtualFileSystem.ts:111-124 | a found directory has the id searched for |
| Tree.VirtualFileSystem.FindFile | api-providers/VirtualFileSystem.ts:139-150 | a found file has the id searched for and is a file |
| Tree.VirtualFileSystem.FindParent | api-providers/VirtualFileSystem.ts:54-67 | a found parent is a directory holding the node as a child |
| Tree.VirtualFileSystem.FindDirSpec | api-providers/VirtualFileSystem.ts:111-124 | `getDirectoryById` finds exactly the directories of the subtree |
| Tree.VirtualFileSystem.FindDirIsSearch | api-providers/VirtualFileSystem.ts:111-124 | `getDirectoryById` on the tree is the same search run on its arena as a value |
| Tree.DirSearchKept | api-providers/VirtualFileSystem.ts:111-124 | the directory search depends only on each node's kind, serial and child directories, so renaming or moving a file leaves its answer unchanged |
| Tree.VirtualFileSystem.FindFileSpec | api-providers/VirtualFileSystem.ts:139-150 | `getFileById` finds exactly the files held in the subtree |
| Tree.VirtualFileSystem.FindParentSpec | api-providers/VirtualFileSystem.ts:54-72 | `_getParent` fails exactly when no directory of the subtree holds the node, and a found parent lies in the subtree |
| Tree.VirtualFileSystem.SubDirsAreYounger | api-providers/VirtualFileSystem.ts:97-102 | every directory below another was made after it, so the searches terminate |
| Tree.VirtualFileSystem.RootHasNoParent | api-providers/VirtualFileSystem.ts:69-72 | the root has no parent, so deleting the root fails |
| Tree.VirtualFileSystem.GetDirectoryById | api-providers/VirtualFileSystem.ts:111-124 | the recursive search returns what the subtree search specifies |
| Tree.VirtualFileSystem.GetFileById | api-providers/VirtualFileSystem.ts:139-150 | the recursive search returns what the subtree search specifies |
| Tree.VirtualFileSystem.GetParentFrom | api-providers/VirtualFileSystem.ts:54-67 | the recursive search returns what the parent search specifies |
| Tree.VirtualFileSystem.AddDirectory | api-providers/VirtualFileSystem.ts:97-102 | a new directory under a fresh id lives in the parent's path and goes last among its directories; nothing else changes |
| Tree.VirtualFileSystem.AddFile | api-providers/VirtualFileSystem.ts:104-109 | a new file under a fresh id lives in the parent's path and goes last among its files; nothing else changes |
| Tree.VirtualFileSystem.CreateDirectory | api-providers/VirtualFileSystem.ts:90-95 | the directory is added to the tree whatever happens, then made on disk; the `mkdir` succeeds unless refused |
| Tree.VirtualFileSystem.Rename | api-providers/VirtualFileSystem.ts:37-42 | the disk rename comes first, and only on success does the node take the new name |
| Tree.VirtualFileSystem.MoveTo | api-providers/VirtualFileSystem.ts:44-52 | an unknown destination fails with nothing touched; otherwise the rename into the destination's path is attempted and, on success, the node's base path becomes it |
| Tree.VirtualFileSystem.DeleteDirectory | api-providers/VirtualFileSystem.ts:152-161 | without a parent it fails with nothing changed; otherwise the parent loses the child before the `rmdir`, whose refusal is reported |
| Tree.VirtualFileSystem.DeleteFile | api-providers/VirtualFileSystem.ts:176-185 | without a parent it fails with nothing changed; otherwise the parent loses the child before the unlink, whose refusal is reported |
| Tree.VirtualFileSystem.Write | api-providers/VirtualFileSystem.ts:171-174 | the file's path is written with the content unless the disk refuses |
| Tree.VirtualFileSystem.AddListedFiles | api-providers/VirtualFileSystem.ts:208-211 | the listed files are added to the directory in listing order; no other node changes |
| Tree.VirtualFileSystem.AddListedDirectory | api-providers/VirtualFileSystem.ts:203-211 | one directory is added to the root, and its files are added exactly when its path was listed |
| Tree.VirtualFileSystem.InitNames | api-providers/VirtualFileSystem.ts:200-201 | the names `init` adds end with `.` |
| Tree.VirtualFileSystem.Init | api-providers/VirtualFileSystem.ts:198-213 | succeeds exactly when the root path and every directory found are listed; then (`Discovered`) the root keeps its old directories and gains one fresh directory per name, in order, each holding its listed files; no node that existed changes but the root |
| ClientNote.WithTagIdempotent | src/structures/Note.ts:41-47 | adding a tag leaves it in the list, adding it twice is adding it once, and a new tag lengthens the list by one |
| ClientNote.TagChangesKeepDistinct | src/structures/Note.ts:41-56 | adding and removing tags keep a list without repetitions free of them, and a removed tag is gone |
| ClientNote.RemoveUndoesAdd | src/structures/Note.ts:41-56 | removing a tag just added to a list that lacked it restores the list |
| ClientNote.TagsOf | src/structures/Note.ts:66-68 | the cached tags of the note's ids: each result is cached under an id of the note, and every cached id of the note is represented |
| ClientNote.Note.constructor | src/structures/Note.ts:18-21 | the note copies the record's id and data and has sent nothing |
| ClientNote.Note.HasTag | src/structures/Note.ts:79-81 | true exactly when the id is in the note's tag list |
| ClientNote.Note.BelongsToCategory | src/structures/Note.ts:70-72 | true exactly when the note has a category and it is that one |
| ClientNote.Note.GetTags | src/structures/Note.ts:66-68 | every returned tag is one the note has, as cached; every cached tag of the note is returned |
| ClientNote.Note.SetTitle | src/structures/Note.ts:23-27 | the whole data with the new title is sent; the note changes only when the back end accepts |
| ClientNote.Note.SetContent | src/structures/Note.ts:29-33 | the whole data with the new content is sent; the note changes only when the back end accepts |
| ClientNote.Note.SetCategory | src/structures/Note.ts:35-39 | the whole data with the new category is sent; the note changes only when the back end accepts |
| ClientNote.Note.AddTag | src/structures/Note.ts:41-47 | a tag already there sends nothing and changes nothing; otherwise the request is sent and the tag is appended on acceptance |
| ClientNote.Note.RemoveTag | src/structures/Note.ts:49-56 | an absent tag sends nothing and changes nothing; otherwise the request is sent and the first occurrence goes on acceptance |
| Events.IndexOfId | services/EventService.ts:22 | the position of the first entry with the id, -1 exactly when none has it |
| Events.WithList | services/EventService.ts:15-16 | the event gets an empty list when it has none; every other list is kept |
| Events.Rebind | services/EventService.ts:22-23 | the entry with the id gets the new handler; every other entry is kept |
| Events.NewListKeepsValid | services/EventService.ts:15-16 | a new empty list keeps the tables consistent |
| Events.AppendKeepsValid | services/EventService.ts:25-30 | registering a new id at the end of its event's list keeps the tables consistent |
| Events.RebindAt | services/EventService.ts:22-23 | replacing the handler at the found index is rebinding the entry with that id |
| Events.RebindKeepsValid | services/EventService.ts:18-24 | rebinding a registered id under its own event keeps the tables consistent |
| Events.EventService.constructor | services/EventService.ts:10-11 | both tables start empty |
| Events.EventService.IdsListedOnce | services/EventService.ts:13-31 | an id appears once in all the lists together |
| Events.EventService.Subscribe | services/EventService.ts:13-31 | a new id is appended and registered; a known id under the same event is rebound in place; a known id under another event is refused, leaving only the new empty list; the tables stay consistent |
| Events.EventService.Run | services/EventService.ts:33-41 | every handler of the event is called once, in list order, with the same arguments; an unknown event calls nothing |
| JsonProvider.RemoveAtCounts | src/data-providers/JsonApiProvider.ts:67-76 | deleting at a position removes exactly that document |
| JsonProvider.DeleteForgetsId | src/data-providers/JsonApiProvider.ts:67-76 | with unique ids, a deleted id is no longer found |
| JsonProvider.UpdateKeepsPosition | src/data-providers/JsonApiProvider.ts:78-86 | an updated document is found at the same position, and the rest of the collection is unchanged |
| JsonProvider.RemoveTagSplice | src/data-providers/JsonApiProvider.ts:88-95 | a present tag loses its first occurrence; an absent one makes the splice remove the last tag id |
| JsonProvider.JsonApiProvider.constructor | src/data-providers/JsonApiProvider.ts:26-37 | three empty collections, not set up, nothing saved, with the given set of refused databases |
| JsonProvider.JsonApiProvider.Save | src/data-providers/JsonApiProvider.ts:195-197 | the current collections are written exactly when the store does not refuse them, only an accepted write is recorded, and nothing else changes |
| JsonProvider.JsonApiProvider.Setup | src/data-providers/JsonApiProvider.ts:39-47 | a successful read replaces the collections; a failed one keeps them |
| JsonProvider.JsonApiProvider.IndexById | src/data-providers/JsonApiProvider.ts:186-193 | the linear search returns the first index with the id, or -1 |
| JsonProvider.JsonApiProvider.GetNotes | src/data-providers/JsonApiProvider.ts:58-65 | only the first call sets up from the database; the notes are returned |
| JsonProvider.JsonApiProvider.GetTags | src/data-providers/JsonApiProvider.ts:114-116 | the tags collection is returned |
| JsonProvider.JsonApiProvider.GetCategories | src/data-providers/JsonApiProvider.ts:151-153 | the categories collection is returned |
| JsonProvider.JsonApiProvider.CreateNote | src/data-providers/JsonApiProvider.ts:49-56 | the note with the fresh id goes last and other collections are unchanged, even when the save is refused; it is returned exactly when the save is accepted, and otherwise the call rejects |
| JsonProvider.JsonApiProvider.CreateTag | src/data-providers/JsonApiProvider.ts:105-112 | the tag with the fresh id goes last and other collections are unchanged, even when the save is refused; it is returned exactly when the save is accepted, and otherwise the call rejects |
| JsonProvider.JsonApiProvider.CreateCategory | src/data-providers/JsonApiProvider.ts:142-149 | the category with the fresh id goes last and other collections are unchanged, even when the save is refused; it is returned exactly when the save is accepted, and otherwise the call rejects |
| JsonProvider.JsonApiProvider.DeleteNote | src/data-providers/JsonApiProvider.ts:67-76 | the first note with the id is removed and the database saved, a refused save rejecting after the removal; an unknown id changes nothing and saves nothing |
| JsonProvider.JsonApiProvider.DeleteTag | src/data-providers/JsonApiProvider.ts:118-127 | the first tag with the id is removed and the database saved, a refused save rejecting after the removal; an unknown id changes nothing |
| JsonProvider.JsonApiProvider.DeleteCategory | src/data-providers/JsonApiProvider.ts:155-164 | the first category with the id is removed and the database saved, a refused save rejecting after the removal; an unknown id changes nothing |
| JsonProvider.JsonApiProvider.UpdateNote | src/data-providers/JsonApiProvider.ts:78-86 | the first note with the id is replaced in place by the new data with that id and the database saved, a refused save rejecting; an unknown id changes nothing |
| JsonProvider.JsonApiProvider.UpdateTag | src/data-providers/JsonApiProvider.ts:129-138 | the first tag with the id is replaced in place and the database saved, a refused save rejecting; an unknown id changes nothing |
| JsonProvider.JsonApiProvider.UpdateCategory | src/data-providers/JsonApiProvider.ts:166-175 | the first category with the id is replaced in place and the database saved, a refused save rejecting; an unknown id changes nothing |
| JsonProvider.JsonApiProvider.AddTagToNote | src/data-providers/JsonApiProvider.ts:97-103 | the tag id is appended to the note's list without a duplicate check and the database saved, a refused save rejecting; an unknown note fails with nothing changed |
| JsonProvider.JsonApiProvider.RemoveTagFromNote | src/data-providers/JsonApiProvider.ts:88-95 | the note's list is spliced at the tag's index, unchecked, and the database saved, a refused save rejecting; an unknown note fails with nothing changed |
| HandlerBase.ApiCache.constructor | src/api-providers/FileSystemApiProvider/FileSystemApiProvider.ts:8-15 | the three cache tables start empty |
| HandlerBase.TagsFile.constructor | src/api-providers/FileSystemApiProvider/TagsApiHandler.ts:25 | the sidecar holds the given content and refuses the given lists |
| HandlerBase.TagsFile.Write | src/api-providers/FileSystemApiProvider/TagsApiHandler.ts:19 | the write succeeds exactly when the list is not refused; the sidecar then holds exactly the list written, and a refused write leaves it as it was |
| NotesHandler.TagNames | src/api-providers/FileSystemApiProvider/NotesApiHandler.ts:116-120 | the names of the ids in order, failing exactly when some id is not a cached tag |
| NotesHandler.TagDataToString | src/api-providers/FileSystemApiProvider/NotesApiHandler.ts:116-120 | the `tags` value fails exactly when some id is not a cached tag |
| NotesHandler.TrimAll | src/api-providers/FileSystemApiProvider/NotesApiHandler.ts:127 | every piece trimmed, in order |
| NotesHandler.KnownTagIds | src/api-providers/FileSystemApiProvider/NotesApiHandler.ts:126-130 | at most one id per name |
| NotesHandler.KnownTagIdsAppend | src/api-providers/FileSystemApiProvider/NotesApiHandler.ts:126-130 | the ids of a list are the ids of its parts, and one name yields its tag's id exactly when the name is known |
| NotesHandler.KnownTagIdsComplete | src/api-providers/FileSystemApiProvider/NotesApiHandler.ts:126-130 | every known name in the list contributes its tag's id |
| NotesHandler.KnownTagIdsKnown | src/api-providers/FileSystemApiProvider/NotesApiHandler.ts:126-130 | every id yielded is the id of a tag the name cache holds |
| NotesHandler.ParsedTagIdsKnown | src/api-providers/FileSystemApiProvider/NotesApiHandler.ts:122-132 | a missing or blank value yields no tags, and every id yielded belongs to a known name |
| NotesHandler.SplitJoinedTrimmed | src/api-providers/FileSystemApiProvider/NotesApiHandler.ts:116-132 | names joined with `, ` then split at commas and trimmed are the names again |
| NotesHandler.JoinedNotBlank | src/api-providers/FileSystemApiProvider/NotesApiHandler.ts:123 | a joined non-empty list of storable names is not blank |
| NotesHandler.TagsRoundTrip | src/api-providers/FileSystemApiProvider/NotesApiHandler.ts:116-132 | writing the tag names and parsing them back gives the same ids, when every tag is cached and known by name |
| NotesHandler.ReadResult | src/api-providers/FileSystemApiProvider/NotesApiHandler.ts:34-35 | a failed read is an unreadable-file error; a read text gives its parse, or its parse error |
| NotesHandler.Reading | src/api-providers/FileSystemApiProvider/NotesApiHandler.ts:34-35 | the reader reads and parses each file |
| NotesHandler.NotesOfFiles | src/api-providers/FileSystemApiProvider/NotesApiHandler.ts:33-47 | one note per file, in order |
| NotesHandler.NotesOfFilesMembers | src/api-providers/FileSystemApiProvider/NotesApiHandler.ts:33-47 | a directory's notes are exactly its files, titled by file name, in that category |
| NotesHandler.NotesOfDirsSound | src/api-providers/FileSystemApiProvider/NotesApiHandler.ts:29-50 | every listed note is a file of a listed directory, titled by its name, with that directory as category |
| NotesHandler.NotesOfDirsComplete | src/api-providers/FileSystemApiProvider/NotesApiHandler.ts:29-50 | every file of every listed directory is listed |
| NotesHandler.ApplyTagsEffect | src/api-providers/FileSystemApiProvider/NotesApiHandler.ts:100-103 | a rewrite fails exactly when refused, and only an accepted write is recorded |
| NotesHandler.NotesApiHandler.constructor | src/api-providers/FileSystemApiProvider/NotesApiHandler.ts:11-13 | the handler works on the given tree and cache |
| NotesHandler.NotesApiHandler.NoteDirectory | src/api-providers/FileSystemApiProvider/NotesApiHandler.ts:19-21 | the category's directory when the id is set and names a directory, otherwise the root |
| NotesHandler.NotesApiHandler.CreateNote | src/api-providers/FileSystemApiProvider/NotesApiHandler.ts:15-27 | a forbidden title fails with nothing changed; otherwise a new file under a fresh id is added to the note's directory, its raw content written, its metadata cached empty, and the record returned unless the write is refused |
| NotesHandler.NotesApiHandler.CategoryDirectory | src/api-providers/FileSystemApiProvider/NotesApiHandler.ts:19-21 | the lookup gives the directory the note belongs in |
| NotesHandler.NotesApiHandler.AddNoteFile | src/api-providers/FileSystemApiProvider/NotesApiHandler.ts:22-23 | the file is added under a fresh id, then written |
| NotesHandler.NotesApiHandler.ParseTagsMeta | src/api-providers/FileSystemApiProvider/NotesApiHandler.ts:122-132 | the loop yields the ids of the known names, in order |
| NotesHandler.NotesApiHandler.ReadNote | src/api-providers/FileSystemApiProvider/NotesApiHandler.ts:34-46 | a file that is read and parses yields its note; a failed read is the unreadable-file error, and text that does not parse is the parse error |
| NotesHandler.NotesApiHandler.ListDirectory | src/api-providers/FileSystemApiProvider/NotesApiHandler.ts:33-47 | succeeds exactly when every file is read and parses; returns the directory's notes and caches each file's metadata; any error is a read or parse error |
| NotesHandler.NotesApiHandler.GetNotes | src/api-providers/FileSystemApiProvider/NotesApiHandler.ts:29-50 | succeeds exactly when every listed file is read and parses; returns the notes of all files of the root's child directories, and caches each file's metadata; any error is a read or parse error |
| NotesHandler.NotesApiHandler.DeleteNote | src/api-providers/FileSystemApiProvider/NotesApiHandler.ts:52-57 | an unknown file fails with nothing changed; otherwise its parent loses it and the unlink is attempted |
| NotesHandler.NotesApiHandler.RetitleNote | src/api-providers/FileSystemApiProvider/NotesApiHandler.ts:70-75 | a forbidden title fails with nothing changed; otherwise the file is renamed on disk and then in the tree |
| NotesHandler.NotesApiHandler.MoveNote | src/api-providers/FileSystemApiProvider/NotesApiHandler.ts:77-83 | the file moves to the category's directory, or the root; an unknown directory fails with nothing changed |
| NotesHandler.NotesApiHandler.RewriteNote | src/api-providers/FileSystemApiProvider/NotesApiHandler.ts:85-90 | the body is written under the cached metadata with `tags` set; missing metadata fails with `MissingMeta`, an uncached tag with `UnknownTag`, a refused write with `DiskFailure`, each with nothing written; it passes exactly when none of the three happens |
| NotesHandler.NotesApiHandler.RelocateNote | src/api-providers/FileSystemApiProvider/NotesApiHandler.ts:77-90 | when the category changed, a destination (the category, or the root) that is no directory of the tree fails with `UnknownDirectory` and a refused move with the tree's `DiskFailure`, both with nothing changed; once the note is in place the rewrite follows with its own outcome and log entry; it passes exactly when the move (if any) and the rewrite are accepted |
| NotesHandler.NotesApiHandler.UpdateFile | src/api-providers/FileSystemApiProvider/NotesApiHandler.ts:70-90 | a forbidden new title fails with its message and a refused rename with `DiskFailure`, both with nothing changed; after the rename the move and the rewrite follow as in RelocateNote, from the renamed tree; it passes exactly when every step is accepted, and then the tree and the disk log are as the rename, the move and the write leave them |
| NotesHandler.NotesApiHandler.UpdateNote | src/api-providers/FileSystemApiProvider/NotesApiHandler.ts:59-91 | an uncached note fails with `NotInClientCache` and an unknown file with `UnknownFile`, both with nothing changed; otherwise the steps run as in UpdateFile, with the rename when the title differs from the client copy and the move when the category does, the error of the first refused step returned and what earlier steps did kept; it passes exactly when every step is accepted, and then the file carries the new name and place and its rewritten text, after exactly the disk operations needed |
| NotesHandler.NotesApiHandler.UpdatePassed | src/api-providers/FileSystemApiProvider/NotesApiHandler.ts:70-90 | an update that passes leaves the note under its new name in its new directory, and the disk log holds the rename, the move and the write, each only when its step ran |
| NotesHandler.NotesApiHandler.AddTagToNote | src/api-providers/FileSystemApiProvider/NotesApiHandler.ts:106-114 | the note's file is rewritten with the client's tag list plus the tag, as only metadata; an uncached note fails |
| NotesHandler.NotesApiHandler.RemoveTagFromNote | src/api-providers/FileSystemApiProvider/NotesApiHandler.ts:93-104 | the note's file is rewritten with the client's tag list less the first occurrence of the tag; an uncached note fails |
| NotesHandler.NotesApiHandler.TagsRewriteEffect | src/api-providers/FileSystemApiProvider/NotesApiHandler.ts:100-103 | nothing happens exactly when the tree has no such file; a write goes to that file's path |
| NotesHandler.NotesApiHandler.WriteTags | src/api-providers/FileSystemApiProvider/NotesApiHandler.ts:100-103 | the outcome and disk log are those of the tag rewrite |
| TagsHandler.CacheAllKeys | src/api-providers/FileSystemApiProvider/TagsApiHandler.ts:57-63 | a name is cached afterwards exactly when it was before or some record carries it |
| TagsHandler.CacheAllLast | src/api-providers/FileSystemApiProvider/TagsApiHandler.ts:57-63 | a name maps to the last record carrying it |
| TagsHandler.CacheAllOthers | src/api-providers/FileSystemApiProvider/TagsApiHandler.ts:57-63 | a name no record carries keeps its old record |
| TagsHandler.TagsApiHandler.constructor | src/api-providers/FileSystemApiProvider/TagsApiHandler.ts:8-10 | the handler works on the given sidecar, cache and notes handler |
| TagsHandler.TagsApiHandler.CacheTag | src/api-providers/FileSystemApiProvider/TagsApiHandler.ts:61-63 | the record is stored under its name; nothing else changes |
| TagsHandler.TagsApiHandler.CacheTags | src/api-providers/FileSystemApiProvider/TagsApiHandler.ts:57-59 | each record is stored in order |
| TagsHandler.TagsApiHandler.CreateTag | src/api-providers/FileSystemApiProvider/TagsApiHandler.ts:12-21 | the new record carries the data and fresh id and is cached by name in every case; it is returned, with the sidecar holding the client's tags plus it, exactly when that write is accepted; a refused write rejects and leaves the sidecar |
| TagsHandler.TagsApiHandler.GetTags | src/api-providers/FileSystemApiProvider/TagsApiHandler.ts:23-33 | a readable sidecar's list is returned and each record cached; an unreadable one gives nothing and changes nothing |
| TagsHandler.TagsApiHandler.Updated | src/api-providers/FileSystemApiProvider/TagsApiHandler.ts:47-51 | the client's tags, same length, with each one of that id replaced in place and every other kept; an unknown id gives the same list |
| TagsHandler.TagsApiHandler.UpdateTag | src/api-providers/FileSystemApiProvider/TagsApiHandler.ts:46-55 | the new record is cached by name even for an unknown id; the call succeeds exactly when the sidecar accepts the updated list, which it then holds; a refused write rejects and leaves the sidecar |
| TagsHandler.TagsApiHandler.RemovalEffects | src/api-providers/FileSystemApiProvider/TagsApiHandler.ts:65-73 | for each note, what removing the tag from it comes to |
| TagsHandler.TagsApiHandler.CascadeWritesTagged | src/api-providers/FileSystemApiProvider/TagsApiHandler.ts:65-73 | the cascade only appends to the log, and only accepted rewrites of notes that hold the tag |
| TagsHandler.TagsApiHandler.CascadeUntagged | src/api-providers/FileSystemApiProvider/TagsApiHandler.ts:65-73 | a known tag that no note holds writes nothing and succeeds |
| TagsHandler.TagsApiHandler.RemoveFromNote | src/api-providers/FileSystemApiProvider/TagsApiHandler.ts:69-71 | one note's rewrite comes to its effect |
| TagsHandler.TagsApiHandler.RemoveTagFromNotes | src/api-providers/FileSystemApiProvider/TagsApiHandler.ts:65-73 | the loop visits the client's notes in order, rewrites those that hold the tag, and stops at the first failure; an uncached tag fails |
| TagsHandler.TagsApiHandler.WriteTagsWithout | src/api-providers/FileSystemApiProvider/TagsApiHandler.ts:35-42 | the sidecar is rewritten without the tag at the found index, unless that list is refused, which leaves it; index 0 keeps the list and a missing id drops the last tag |
| TagsHandler.TagsApiHandler.DeleteTag | src/api-providers/FileSystemApiProvider/TagsApiHandler.ts:35-44 | the sidecar rewrite above; a refused rewrite rejects with no note touched, and otherwise the cascade over the client's notes follows |
| CategoriesHandler.CategoriesOf | api-providers/FileSystemApiProvider/CategoriesApiHandler.ts:25-41 | at most one listing per directory |
| CategoriesHandler.CategoriesOfMembers | api-providers/FileSystemApiProvider/CategoriesApiHandler.ts:29-38 | a listing is reported exactly when it is a listed directory not named `.`, with its name and its files |
| CategoriesHandler.CategoriesOfAdded | api-providers/FileSystemApiProvider/CategoriesApiHandler.ts:16-23 | a new directory under the root is reported last, after the old listing |
| CategoriesHandler.Renamed | api-providers/FileSystemApiProvider/CategoriesApiHandler.ts:67-71 | the entry with the id takes the new name; every other entry is kept |
| CategoriesHandler.CategoriesOfRenamed | api-providers/FileSystemApiProvider/CategoriesApiHandler.ts:67-71 | renaming a reported directory renames its entry in place |
| CategoriesHandler.AcceptedNameIsNotDot | api-providers/FileSystemApiProvider/CategoriesApiHandler.ts:18-20 | an accepted name is never `.`, so a made or renamed category is reported |
| CategoriesHandler.CategoriesApiHandler.constructor | api-providers/FileSystemApiProvider/CategoriesApiHandler.ts:11-14 | the handler works on the given tree and cache |
| CategoriesHandler.CategoriesApiHandler.CreateCategory | api-providers/FileSystemApiProvider/CategoriesApiHandler.ts:16-23 | a forbidden name fails with nothing changed; otherwise a directory under a fresh id is added under the root and reported last, and the record is returned unless the `mkdir` is refused |
| CategoriesHandler.CategoriesApiHandler.GetCategories | api-providers/FileSystemApiProvider/CategoriesApiHandler.ts:25-41 | the loop returns the root's directories except `.`, in order, each with its name and files |
| CategoriesHandler.CategoriesApiHandler.DeleteCategory | api-providers/FileSystemApiProvider/CategoriesApiHandler.ts:43-49 | an unknown directory fails with nothing changed; otherwise its parent loses it, the `rmdir` is attempted, and the category is no longer reported |
| CategoriesHandler.CategoriesApiHandler.UpdateCategory | api-providers/FileSystemApiProvider/CategoriesApiHandler.ts:51-72 | checks in order: forbidden name, unknown directory, uncached category, each failing with nothing changed; the same name changes nothing; otherwise the directory is renamed and its entry renamed in place |
| FileSystemProvider.Refreshed | src/api-providers/FileSystemApiProvider/FileSystemApiProvider.ts:51-55 | after reading the tags, a name is cached exactly when it was or some record carries it; an unreadable sidecar changes nothing |
| FileSystemProvider.FileSystemApiProvider.constructor | src/api-providers/FileSystemApiProvider/FileSystemApiProvider.ts:27-37 | empty cache, a tree with the root alone, discovery not done, handlers sharing cache and tree |
| FileSystemProvider.FileSystemApiProvider.InitVirtualFileSystem | src/api-providers/FileSystemApiProvider/FileSystemApiProvider.ts:39-45 | discovery runs until it completes once and never again; a failed run leaves the flag unset; a first run succeeds exactly when `init` does, leaves what `init` leaves (`Discovered`) and changes no node but the root |
| FileSystemProvider.FileSystemApiProvider.GetNotes | src/api-providers/FileSystemApiProvider/FileSystemApiProvider.ts:51-55 | a failed discovery ends the call with the cache unchanged; otherwise the tree is as `init` leaves it, the tags are refreshed before the notes are listed, so tags resolve against the refreshed table, and any error is a read or parse error |
| FileSystemProvider.FileSystemApiProvider.CreateNote | src/api-providers/FileSystemApiProvider/FileSystemApiProvider.ts:47-49 | forwards to the notes handler: a forbidden title fails with the tree unchanged, and a created note has the fresh id |
| FileSystemProvider.FileSystemApiProvider.DeleteNote | src/api-providers/FileSystemApiProvider/FileSystemApiProvider.ts:57-59 | forwards to the notes handler: an unknown file fails with the tree unchanged |
| FileSystemProvider.FileSystemApiProvider.UpdateNote | src/api-providers/FileSystemApiProvider/FileSystemApiProvider.ts:61-63 | forwards to the notes handler: an uncached note fails with the tree unchanged |
| FileSystemProvider.FileSystemApiProvider.RemoveTagFromNote | src/api-providers/FileSystemApiProvider/FileSystemApiProvider.ts:65-67 | forwards to the notes handler: the file is rewritten without the tag's first occurrence |
| FileSystemProvider.FileSystemApiProvider.AddTagToNote | src/api-providers/FileSystemApiProvider/FileSystemApiProvider.ts:69-71 | forwards to the notes handler: the file is rewritten with the tag appended |
| FileSystemProvider.FileSystemApiProvider.CreateTag | src/api-providers/FileSystemApiProvider/FileSystemApiProvider.ts:73-75 | forwards to the tags handler: the record is returned, with the sidecar holding the client's tags plus it, exactly when that write is accepted; a refused write leaves the sidecar |
| FileSystemProvider.FileSystemApiProvider.GetTags | src/api-providers/FileSystemApiProvider/FileSystemApiProvider.ts:77-79 | forwards to the tags handler: the sidecar's list, with the name table refreshed |
| FileSystemProvider.FileSystemApiProvider.DeleteTag | src/api-providers/FileSystemApiProvider/FileSystemApiProvider.ts:81-83 | forwards to the tags handler: an uncached tag fails when the client has notes |
| FileSystemProvider.FileSystemApiProvider.UpdateTag | src/api-providers/FileSystemApiProvider/FileSystemApiProvider.ts:85-87 | forwards to the tags handler: on success the sidecar holds the updated list, which for an unknown id is the client's tags unchanged; a refused write leaves the sidecar |
| FileSystemProvider.FileSystemApiProvider.CreateCategory | src/api-providers/FileSystemApiProvider/FileSystemApiProvider.ts:89-91 | forwards to the categories handler: a forbidden name fails with the tree unchanged, and a created category has the fresh id |
| FileSystemProvider.FileSystemApiProvider.GetCategories | src/api-providers/FileSystemApiProvider/FileSystemApiProvider.ts:93-95 | forwards to the categories handler: the root's directories except `.` |
| FileSystemProvider.FileSystemApiProvider.DeleteCategory | src/api-providers/FileSystemApiProvider/FileSystemApiProvider.ts:97-99 | forwards to the categories handler: an unknown directory fails with the tree unchanged |
| FileSystemProvider.FileSystemApiProvider.UpdateCategory | src/api-providers/FileSystemApiProvider/FileSystemApiProvider.ts:101-103 | forwards to the categories handler: a forbidden name fails with the tree unchanged |

## Left out

- Real disk and network I/O (`fs.promises`, the JSON database file, HTTP). Reads are parameters; a failed note read is `None`. Writes are recorded in the `Disk` log, the `TagsFile` and the JSON provider's `saved` list, each with a fixed set of refused writes standing for failing calls. The provider's `async`/`await` is sequential here; interleaving of concurrent calls is not modelled.
- JSON encoding of the tags sidecar and of the database. The model keeps the decoded values; a sidecar that is missing or does not parse is `None`.
- `Date.now()` ids for tags and JSON records are parameters (`freshId`). Their uniqueness is not modelled.
- TagsHandler.TagsApiHandler.UpdateTag: `updateTag` calls `_updateTagOnNotes` (src/api-providers/FileSystemApiProvider/TagsApiHandler.ts:53), which only schedules a `setTimeout` callback 100 ms later (lines 77-86) that calls `updateNote` on every client note holding the tag. The call itself returns at once and changes nothing; the delayed callback, which runs outside the call, is not modelled.
- The `client.run` events that `Note`'s setters fire after the back end answers, and `Note.delete`/`getCategory`, which only forward to other client code. The back end's answer to each request is the `accepted` parameter.
- Logging to the console.
- The newer tree class with separate `notes` and `tags` members is not part of this model. The notes root is the tree's root directory, and `tags` is the `TagsFile`.
- Handlers, events and the client cache are identified by value. The JavaScript object identities and the closures they hold are not modelled.
- Events.EventService.Run: the default `args = {}` of `run(name, args)` (services/EventService.ts:33) is not modelled; callers pass the argument. A handler that throws, which stops `forEach` before the later handlers and passes the error to the caller, is not modelled either: handlers here always return.
- JsonProvider.JsonApiProvider.IndexById: `_getIndexInCollectionByID` compares with `===` (src/data-providers/JsonApiProvider.ts:186-193), and the stored ids are numbers from `Date.now()` (line 178) while the `id` parameter is declared a string. The model's ids are opaque values equal only to themselves, so it agrees with the source only for callers that pass a stored id back unchanged; a string spelling of a numeric id, which the source never finds, is not modelled.
- JsonProvider.JsonApiProvider.CreateNote: the record's id is a number in the source (`id: Date.now()`); the model gives it the same opaque `Id` type as the lookup parameters, as under IndexById above.
- JsonProvider.JsonApiProvider.CreateTag: the same numeric id as CreateNote, modelled the same way.
- JsonProvider.JsonApiProvider.CreateCategory: the same numeric id as CreateNote, modelled the same way.
- NotesHandler.NotesApiHandler.GetNotes: on a read or parse failure it states only the error kind. The metadata already cached for earlier files is not stated.
- FileSystemProvider.FileSystemApiProvider.CreateNote: states the forbidden-title case and the returned record only; the full effect is the contract of NotesHandler.NotesApiHandler.CreateNote.
- FileSystemProvider.FileSystemApiProvider.DeleteNote: states the unknown-file case only; the full effect is the contract of NotesHandler.NotesApiHandler.DeleteNote.
- FileSystemProvider.FileSystemApiProvider.UpdateNote: states the uncached-note case only; the full effect is the contract of NotesHandler.NotesApiHandler.UpdateNote.
- FileSystemProvider.FileSystemApiProvider.RemoveTagFromNote: states the rewrite for a cached note only; the uncached case is the contract of NotesHandler.NotesApiHandler.RemoveTagFromNote.
- FileSystemProvider.FileSystemApiProvider.AddTagToNote: states the rewrite for a cached note only; the uncached case is the contract of NotesHandler.NotesApiHandler.AddTagToNote.
- FileSystemProvider.FileSystemApiProvider.CreateTag: does not state the cache update; that is the contract of TagsHandler.TagsApiHandler.CreateTag.
- FileSystemProvider.FileSystemApiProvider.DeleteTag: states one failure case only; the full effect is the contract of TagsHandler.TagsApiHandler.DeleteTag.
- FileSystemProvider.FileSystemApiProvider.UpdateTag: states the unknown-id case only; the full effect is the contract of TagsHandler.TagsApiHandler.UpdateTag.
- FileSystemProvider.FileSystemApiProvider.CreateCategory: states the forbidden-name case and the returned record only; the full effect is the contract of CategoriesHandler.CategoriesApiHandler.CreateCategory.
- FileSystemProvider.FileSystemApiProvider.DeleteCategory: states the unknown-directory case only; the full effect is the contract of CategoriesHandler.CategoriesApiHandler.DeleteCategory.
- FileSystemProvider.FileSystemApiProvider.UpdateCategory: states the forbidden-name case only; the full effect is the contract of CategoriesHandler.CategoriesApiHandler.UpdateCategory.
- Markdown.RoundTrip: holds for metadata whose keys and values contain no colon or line break, whose keys do not start with `---`, whose values are already trimmed, whose entries are in `Object.keys` order and which has no `__proto__` key. Other metadata does not survive the text form in the source either.
- NotesHandler.TagsRoundTrip: holds for tag names without commas and without white space at their ends, each known by name with its own id. Other names do not survive `_tagDataToString` followed by `_parseTagsMeta` in the source either.
- TagsHandler.TagsApiHandler.CacheTag: the name table is a plain object, so caching a tag named `__proto__` replaces the table's prototype instead of storing an entry, and later lookups of names such as `toString` or `constructor` find inherited members. The model stores every name as an ordinary key.
- Ids, tag names, event names and event ids are assumed not to be names of `Object.prototype` members (`constructor`, `toString`, `hasOwnProperty`, ...). The source's plain-object tables find inherited members for them: `_parseTagsMeta` (src/api-providers/FileSystemApiProvider/NotesApiHandler.ts:128) treats a tag named `toString` as known and pushes `undefined`; `getFileById("constructor")` (api-providers/VirtualFileSystem.ts:141) returns `Object`; `subscribe` and `run` with the event name `constructor` (services/EventService.ts:15, :35) throw a `TypeError`. The model's maps hold only what was stored, so NotesHandler.KnownTagIds drops such a name, the tree searches miss it and Events gives it a list. Metadata keys are the exception: `__proto__` is modelled there.
- Integer widths: JavaScript numbers (tag colours, the id counter) are unbounded integers here; the counter cannot reach 2^53.
