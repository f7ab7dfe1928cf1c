/**
 * What the three filesystem handlers share (api-providers/FileSystemApiProvider/ApiHandlerBase.ts
 * and the cache interface of src/api-providers/FileSystemApiProvider/FileSystemApiProvider.ts):
 * one cache object, the tree of the notes directory, and the `tags` sidecar file that
 * holds the list of tag records.
 */
module HandlerBase {
  import opened Wrappers
  import opened Records
  import Tree
  import Markdown

  /** Why a handler call ends in an exception. */
  datatype ApiError =
    | ForbiddenName(sequence: string)   // "The character sequence ... is not allowed"
    | UnknownFile                       // "File with id ... doesn't exist"
    | UnknownDirectory                  // "Directory with id ... doesn't exist"
    | NotInClientCache                  // the client cache has no such note or category
    | MissingMeta                       // reading `meta` of a note the cache has no entry for
    | UnknownTag                        // reading the name of a tag the client cache lacks
    | Unreadable                        // reading a note file failed
    | Unparsable(parseError: Markdown.ParseError)
    | TreeFailure(treeError: Tree.TreeError)
    | DiskFailure                       // the disk refused a write or rename
  {
    /** An error of reading a note file: the read itself, or the parse of its text. */
    predicate FromReading()
    {
      this == Unreadable || this.Unparsable?
    }
  }

  /** `FileSystemApiCache`: the metadata last read or written per note file, the tag records
      by name, and an index from tag ids to note ids that nothing fills. */
  class ApiCache {
    var notesMeta: map<Id, Markdown.Meta>
    var tagsByName: map<string, TagModel>
    var notesIdByTagId: map<Id, seq<Id>>

    /** All three tables start empty. */
    constructor ()
      ensures notesMeta == map[] && tagsByName == map[] && notesIdByTagId == map[]
    {
      notesMeta := map[];
      tagsByName := map[];
      notesIdByTagId := map[];
    }
  }

  /** The `tags` sidecar file: the tag list it holds, or `None` when it is missing or does
      not parse, and the lists whose writing the file system refuses. */
  class TagsFile {
    var content: Option<seq<TagModel>>
    const faults: set<seq<TagModel>>

    constructor (content: Option<seq<TagModel>>, faults: set<seq<TagModel>>)
      ensures this.content == content && this.faults == faults
    {
      this.content := content;
      this.faults := faults;
    }

    /** `write(JSON.stringify(tags))`: the file then holds the list, unless the write is
        refused, which leaves the file as it was and rejects. */
    method Write(tags: seq<TagModel>) returns (ok: bool)
      modifies this
      ensures ok == (tags !in faults)
      ensures content == if ok then Some(tags) else old(content)
    {
      ok := tags !in faults;
      if ok {
        content := Some(tags);
      }
    }
  }
}
