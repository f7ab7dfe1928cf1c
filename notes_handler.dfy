/**
 * Notes as files (src/api-providers/FileSystemApiProvider/NotesApiHandler.ts): a note is
 * a file of the notes tree, its title the file name, its category the directory holding
 * it, its body the text after the metadata block, and its tags the `tags` metadata value,
 * the tag names joined with ", ".
 *
 * The client cache is a parameter of each call. File contents, which the source reads
 * from disk, are given by `source`.
 */
module NotesHandler {
  import opened Wrappers
  import opened Strings
  import opened Records
  import opened HandlerBase
  import Tree
  import Markdown
  import Forbidden

  // ---------------------------------------------------------------------------------
  // The `tags` metadata value
  // ---------------------------------------------------------------------------------

  /** The names of the tags `ids`, from the client cache; `None` as soon as one is missing,
      where the source fails reading the name of an undefined tag. */
  function TagNames(ids: seq<Id>, client: ClientCache): (r: Option<seq<string>>)
    ensures r.None? <==> exists i :: 0 <= i < |ids| && client.Tag(ids[i]).None?
    ensures r.Some? ==> |r.value| == |ids| && forall i :: 0 <= i < |ids| ==> r.value[i] == client.Tag(ids[i]).value.name
  {
    if ids == [] then Some([])
    else
      var rest := TagNames(ids[1..], client);
      assert forall i :: 1 <= i < |ids| ==> ids[i] == ids[1..][i - 1];
      match client.Tag(ids[0])
      case None => None
      case Some(t) => if rest.None? then None else Some([t.name] + rest.value)
  }

  /** `_tagDataToString(tags)`: the names joined with ", ", failing exactly when some id
      is no cached tag. */
  function TagDataToString(ids: seq<Id>, client: ClientCache): (r: Option<string>)
    ensures r.None? <==> exists i :: 0 <= i < |ids| && client.Tag(ids[i]).None?
  {
    match TagNames(ids, client)
    case None => None
    case Some(names) => Some(Join(names, ", "))
  }

  /** Every piece trimmed. */
  function TrimAll(parts: seq<string>): (r: seq<string>)
    ensures |r| == |parts| && forall k :: 0 <= k < |parts| ==> r[k] == Trim(parts[k])
  {
    seq(|parts|, k requires 0 <= k < |parts| => Trim(parts[k]))
  }

  /** The ids of the tags the name cache holds under `names`, in order. */
  function KnownTagIds(names: seq<string>, byName: map<string, TagModel>): (r: seq<Id>)
    ensures |r| <= |names|
  {
    if names == [] then []
    else
      var name := names[|names| - 1];
      KnownTagIds(names[..|names| - 1], byName) + if name in byName then [byName[name].id] else []
  }

  /** Every id found belongs to a name the cache knows. */
  lemma {:induction false} KnownTagIdsKnown(names: seq<string>, byName: map<string, TagModel>)
    ensures forall id :: id in KnownTagIds(names, byName) ==> exists name :: name in byName && byName[name].id == id
    decreases |names|
  {
    if names != [] {
      KnownTagIdsKnown(names[..|names| - 1], byName);
    }
  }

  /** The ids of a run of names followed by another are the ids of the first run followed by
      those of the second: each name contributes its own id, in place, or nothing when the
      cache does not know it. */
  lemma {:induction false} KnownTagIdsAppend(a: seq<string>, b: seq<string>, byName: map<string, TagModel>)
    ensures KnownTagIds(a + b, byName) == KnownTagIds(a, byName) + KnownTagIds(b, byName)
    ensures |b| == 1 ==> KnownTagIds(b, byName) == if b[0] in byName then [byName[b[0]].id] else []
    decreases |b|
  {
    if b == [] {
      assert a + b == a;
    } else {
      var last := b[|b| - 1];
      assert (a + b)[..|a + b| - 1] == a + b[..|b| - 1];
      KnownTagIdsAppend(a, b[..|b| - 1], byName);
      if |b| == 1 {
        assert b[..0] == [];
      }
    }
  }

  /** Every name the cache knows contributes its tag's id. */
  lemma {:induction false} KnownTagIdsComplete(names: seq<string>, byName: map<string, TagModel>)
    ensures forall k :: 0 <= k < |names| && names[k] in byName ==> byName[names[k]].id in KnownTagIds(names, byName)
    decreases |names|
  {
    if names != [] {
      var init := names[..|names| - 1];
      KnownTagIdsComplete(init, byName);
      forall k | 0 <= k < |names| && names[k] in byName
        ensures byName[names[k]].id in KnownTagIds(names, byName)
      {
        if k < |names| - 1 {
          assert names[k] == init[k];
        }
      }
    }
  }

  /** What `_parseTagsMeta(tagsStr)` returns: nothing for a missing or blank value, else the
      ids of the comma-separated names the name cache knows; unknown names are dropped. */
  function ParsedTagIds(tagsStr: Option<string>, byName: map<string, TagModel>): (r: seq<Id>)
  {
    if tagsStr.None? || |Trim(tagsStr.value)| == 0 then [] else KnownTagIds(TrimAll(Split(tagsStr.value, ',')), byName)
  }

  /** A missing or blank value yields no tag, and every id yielded belongs to a name the
      cache knows. */
  lemma ParsedTagIdsKnown(tagsStr: Option<string>, byName: map<string, TagModel>)
    ensures tagsStr.None? || Trim(tagsStr.value) == "" ==> ParsedTagIds(tagsStr, byName) == []
    ensures forall id :: id in ParsedTagIds(tagsStr, byName) ==> exists name :: name in byName && byName[name].id == id
  {
    if tagsStr.Some? {
      KnownTagIdsKnown(TrimAll(Split(tagsStr.value, ',')), byName);
    }
  }

  /** A tag name that survives being joined and split again. */
  predicate Storable(name: string)
  {
    name != "" && ',' !in name && IsTrimmed(name)
  }

  /** Splitting names joined with ", " at the commas gives back the names, each but the
      first with the blank the separator left in front of it. */
  lemma {:induction false} SplitJoined(names: seq<string>, lead: string)
    requires names != [] && (lead == "" || lead == " ")
    requires forall k :: 0 <= k < |names| ==> ',' !in names[k]
    ensures var parts := Split(lead + Join(names, ", "), ',');
            && |parts| == |names| && parts[0] == lead + names[0]
            && forall k :: 1 <= k < |names| ==> parts[k] == " " + names[k]
    decreases |names|
  {
    if |names| == 1 {
      assert ',' !in lead + names[0];
      SplitWithoutSeparator(lead + names[0], ',');
    } else {
      var first, rest := lead + names[0], " " + Join(names[1..], ", ");
      JoinedAtFirst(names, lead);
      SplitAtFirst(first, ',', rest);
      SplitJoined(names[1..], " ");
      var later := Split(rest, ',');
      forall k | 1 <= k < |names| ensures ([first] + later)[k] == " " + names[k] {
        assert names[1..][k - 1] == names[k];
      }
    }
  }

  /** Joined names are the first name, a comma, and a blank before the rest. */
  lemma JoinedAtFirst(names: seq<string>, lead: string)
    requires |names| > 1 && (lead == "" || lead == " ") && ',' !in names[0]
    ensures ',' !in lead + names[0]
    ensures lead + Join(names, ", ") == (lead + names[0]) + [','] + (" " + Join(names[1..], ", "))
  {
    var rest := Join(names[1..], ", ");
    assert Join(names, ", ") == names[0] + ", " + rest;
    CommaRegrouped(lead, names[0], rest);
  }

  /** Regrouping a concatenation around the ", " separator. */
  lemma CommaRegrouped(lead: string, first: string, rest: string)
    ensures lead + (first + ", " + rest) == (lead + first) + [','] + (" " + rest)
  {
    var a, b := lead + (first + ", " + rest), (lead + first) + [','] + (" " + rest);
    assert |a| == |b|;
    forall k | 0 <= k < |a| ensures a[k] == b[k] {
    }
  }

  /** When every name is the name of the tag of the id at its position, the known ids of
      the names are the ids. */
  lemma {:induction false} KnownTagIdsAll(names: seq<string>, ids: seq<Id>, byName: map<string, TagModel>)
    requires |names| == |ids|
    requires forall k :: 0 <= k < |names| ==> names[k] in byName && byName[names[k]].id == ids[k]
    ensures KnownTagIds(names, byName) == ids
    decreases |names|
  {
    if names != [] {
      KnownTagIdsAll(names[..|names| - 1], ids[..|ids| - 1], byName);
    }
  }

  /** Text starting with a character that is not white space does not trim to nothing. */
  lemma {:induction false} TrimEndKeepsFirst(s: string)
    requires s != [] && !IsWhitespace(s[0])
    ensures TrimEnd(s) != []
    decreases |s|
  {
    if IsWhitespace(s[|s| - 1]) {
      TrimEndKeepsFirst(s[..|s| - 1]);
    }
  }

  /** Names joined with ", " and split again at the commas, each piece trimmed, are the
      names, when each is storable. */
  lemma SplitJoinedTrimmed(names: seq<string>)
    requires names != [] && forall k :: 0 <= k < |names| ==> Storable(names[k])
    ensures TrimAll(Split(Join(names, ", "), ',')) == names
  {
    var s := Join(names, ", ");
    SplitJoined(names, "");
    assert "" + s == s;
    var parts := Split(s, ',');
    forall k | 0 <= k < |parts| ensures Trim(parts[k]) == names[k] {
      if k == 0 {
        assert parts[0] == "" + names[0];
        assert "" + names[0] == names[0];
        TrimOfTrimmed(names[0]);
      } else {
        TrimAfterBlank(names[k]);
      }
    }
  }

  /** Storable names joined with ", " are not blank. */
  lemma JoinedNotBlank(names: seq<string>)
    requires names != [] && forall k :: 0 <= k < |names| ==> Storable(names[k])
    ensures Trim(Join(names, ", ")) != ""
  {
    var s := Join(names, ", ");
    assert Storable(names[0]);
    if |names| > 1 {
      var first := names[0] + ", ";
      assert s == first + Join(names[1..], ", ");
      assert s[0] == first[0];
    }
    assert TrimStart(s) == s;
    TrimEndKeepsFirst(s);
  }

  /** The `tags` value round-trips: joining the names of tags the client cache holds and
      parsing the result again gives back the ids, as long as every name is non-empty,
      comma-free and trimmed, and the name cache maps it to its own tag. */
  lemma TagsRoundTrip(ids: seq<Id>, client: ClientCache, byName: map<string, TagModel>)
    requires forall i :: 0 <= i < |ids| ==>
               && client.Tag(ids[i]).Some?
               && Storable(client.Tag(ids[i]).value.name)
               && client.Tag(ids[i]).value.name in byName
               && byName[client.Tag(ids[i]).value.name].id == ids[i]
    ensures TagDataToString(ids, client).Some?
    ensures ParsedTagIds(TagDataToString(ids, client), byName) == ids
  {
    var names := TagNames(ids, client).value;
    if ids != [] {
      SplitJoinedTrimmed(names);
      JoinedNotBlank(names);
      KnownTagIdsAll(names, ids, byName);
    }
  }

  // ---------------------------------------------------------------------------------
  // Listing the notes of the tree
  // ---------------------------------------------------------------------------------

  /** What reading and parsing each file gives. */
  type Reader = Id -> Result<Markdown.Parsed, ApiError>

  /** What `parseMarkdownMetadata(await file.read())` comes to for a file whose read gives
      `text`, `None` when the read fails. */
  function ReadResult(text: Option<string>): (r: Result<Markdown.Parsed, ApiError>)
    ensures text.None? ==> r == Err(Unreadable)
    ensures text.Some? && r.Ok? ==> Markdown.Parse(text.value) == Ok(r.value)
    ensures text.Some? && r.Err? ==> r.error.Unparsable? && Markdown.Parse(text.value) == Err(r.error.parseError)
  {
    if text.None? then Err(Unreadable)
    else match Markdown.Parse(text.value)
      case Ok(p) => Ok(p)
      case Err(e) => Err(Unparsable(e))
  }

  /** `read` gives, for every file, what reading it and parsing its text gives. */
  ghost predicate Reads(read: Reader, source: Id -> Option<string>)
  {
    forall f {:trigger source(f)} :: read(f) == ReadResult(source(f))
  }

  /** The reader of files whose text is `source`. */
  function Reading(source: Id -> Option<string>): (read: Reader)
    ensures Reads(read, source)
  {
    f => ReadResult(source(f))
  }

  /** The directories `dirs` and the files in them are nodes of `m`. */
  ghost predicate ChildrenKnown(m: map<Id, Tree.Node>, dirs: seq<Id>)
  {
    forall d, f | d in dirs :: d in m && (f in m[d].files ==> f in m)
  }

  /** Every file of the directories `dirs` is read and parses. */
  ghost predicate AllParse(m: map<Id, Tree.Node>, dirs: seq<Id>, read: Reader)
    requires ChildrenKnown(m, dirs)
  {
    forall d, f | d in dirs && f in m[d].files :: read(f).Ok?
  }

  /** The note read from file `f` in directory `d`. */
  function NoteOf(m: map<Id, Tree.Node>, d: Id, f: Id, read: Reader, byName: map<string, TagModel>): NoteModel
    requires f in m && read(f).Ok?
  {
    var p := read(f).value;
    NoteModel(f, m[f].name, p.content, ParsedTagIds(Markdown.Get(p.meta, "tags"), byName), Some(d))
  }

  /** The notes of the files `files` of directory `d`, in order. */
  function NotesOfFiles(m: map<Id, Tree.Node>, d: Id, files: seq<Id>, read: Reader,
                        byName: map<string, TagModel>): (r: seq<NoteModel>)
    requires forall f :: f in files ==> f in m && read(f).Ok?
    ensures |r| == |files|
    ensures forall k :: 0 <= k < |files| ==> r[k] == NoteOf(m, d, files[k], read, byName)
  {
    if files == [] then []
    else
      var init := files[..|files| - 1];
      assert forall f :: f in init ==> f in files;
      NotesOfFiles(m, d, init, read, byName) + [NoteOf(m, d, files[|files| - 1], read, byName)]
  }

  /** The notes of all files of the directories `dirs`, directory by directory. */
  function NotesOfDirs(m: map<Id, Tree.Node>, dirs: seq<Id>, read: Reader,
                       byName: map<string, TagModel>): (r: seq<NoteModel>)
    requires ChildrenKnown(m, dirs) && AllParse(m, dirs, read)
  {
    if dirs == [] then []
    else
      var init := dirs[..|dirs| - 1];
      var d := dirs[|dirs| - 1];
      assert forall x :: x in init ==> x in dirs;
      NotesOfDirs(m, init, read, byName) + NotesOfFiles(m, d, m[d].files, read, byName)
  }

  /** The notes of one directory are its files', each with that directory as category. */
  lemma NotesOfFilesMembers(m: map<Id, Tree.Node>, d: Id, files: seq<Id>, read: Reader,
                            byName: map<string, TagModel>)
    requires forall f :: f in files ==> f in m && read(f).Ok?
    ensures forall n :: n in NotesOfFiles(m, d, files, read, byName) ==>
              n.id in files && n.title == m[n.id].name && n.categoryId == Some(d)
    ensures forall f :: f in files ==> NoteOf(m, d, f, read, byName) in NotesOfFiles(m, d, files, read, byName)
  {
    var r := NotesOfFiles(m, d, files, read, byName);
    forall n | n in r ensures n.id in files && n.title == m[n.id].name && n.categoryId == Some(d) {
      var k :| 0 <= k < |r| && r[k] == n;
      assert files[k] in files;
    }
    forall f | f in files ensures NoteOf(m, d, f, read, byName) in r {
      var k :| 0 <= k < |files| && files[k] == f;
      assert r[k] == NoteOf(m, d, f, read, byName);
    }
  }

  /** Every listed note is a file of one of the directories, carries the file's id and
      name, and has that directory as its category. */
  lemma {:induction false} NotesOfDirsSound(m: map<Id, Tree.Node>, dirs: seq<Id>, read: Reader,
                                            byName: map<string, TagModel>)
    requires ChildrenKnown(m, dirs) && AllParse(m, dirs, read)
    ensures forall n :: n in NotesOfDirs(m, dirs, read, byName) ==>
              exists d :: d in dirs && n.id in m[d].files && n.title == m[n.id].name && n.categoryId == Some(d)
    decreases |dirs|
  {
    if dirs != [] {
      var init := dirs[..|dirs| - 1];
      var d := dirs[|dirs| - 1];
      assert forall x :: x in init ==> x in dirs;
      NotesOfDirsSound(m, init, read, byName);
      NotesOfFilesMembers(m, d, m[d].files, read, byName);
      assert d in dirs;
    }
  }

  /** Every file of every directory is listed. */
  lemma {:induction false} NotesOfDirsComplete(m: map<Id, Tree.Node>, dirs: seq<Id>, read: Reader,
                                               byName: map<string, TagModel>)
    requires ChildrenKnown(m, dirs) && AllParse(m, dirs, read)
    ensures forall d, f :: d in dirs && f in m[d].files ==> NoteOf(m, d, f, read, byName) in NotesOfDirs(m, dirs, read, byName)
    decreases |dirs|
  {
    if dirs != [] {
      var init := dirs[..|dirs| - 1];
      var d := dirs[|dirs| - 1];
      assert forall x :: x in init ==> x in dirs;
      NotesOfDirsComplete(m, init, read, byName);
      NotesOfFilesMembers(m, d, m[d].files, read, byName);
      assert forall x :: x in dirs ==> x in init || x == d;
    }
  }

  /** Directory `d` and its files are nodes of `m`. */
  ghost predicate FilesKnown(m: map<Id, Tree.Node>, d: Id)
  {
    d in m && forall f :: f in m[d].files ==> f in m
  }

  /** How far the inner loop of `getNotes` has come after the first `j` files of directory
      `d`: those parse, `notes` are their notes, `done` is `listed` and those files, and the
      metadata cache `meta` holds their metadata over `before`. */
  ghost predicate Progress(m: map<Id, Tree.Node>, d: Id, j: nat, read: Reader, byName: map<string, TagModel>,
                           notes: seq<NoteModel>, before: map<Id, Markdown.Meta>, meta: map<Id, Markdown.Meta>,
                           listed: set<Id>, done: set<Id>)
    requires FilesKnown(m, d) && j <= |m[d].files|
  {
    var files := m[d].files[..j];
    && (forall f :: f in files ==> read(f).Ok?)
    && notes == NotesOfFiles(m, d, files, read, byName)
    && (forall f :: f in done <==> f in listed || f in files)
    && MetaRefreshed(before, meta, done, read)
  }

  /** One more file of the directory read. */
  lemma ProgressStep(m: map<Id, Tree.Node>, d: Id, j: nat, read: Reader, byName: map<string, TagModel>,
                     notes: seq<NoteModel>, before: map<Id, Markdown.Meta>, meta: map<Id, Markdown.Meta>,
                     listed: set<Id>, done: set<Id>, p: Markdown.Parsed)
    requires FilesKnown(m, d) && j < |m[d].files|
    requires Progress(m, d, j, read, byName, notes, before, meta, listed, done)
    requires read(m[d].files[j]) == Ok(p)
    ensures var f := m[d].files[j];
            Progress(m, d, j + 1, read, byName, notes + [NoteOf(m, d, f, read, byName)], before, meta[f := p.meta],
                     listed, done + {f})
  {
    var files := m[d].files;
    assert files[..j + 1] == files[..j] + [files[j]];
    assert files[..j + 1][..j] == files[..j];
    MetaStep(before, meta, done, read, files[j], p);
  }

  /** Every file of the directory read. */
  lemma ProgressDone(m: map<Id, Tree.Node>, d: Id, read: Reader, byName: map<string, TagModel>,
                     notes: seq<NoteModel>, before: map<Id, Markdown.Meta>, meta: map<Id, Markdown.Meta>,
                     listed: set<Id>, done: set<Id>)
    requires FilesKnown(m, d) && Progress(m, d, |m[d].files|, read, byName, notes, before, meta, listed, done)
    ensures forall f :: f in m[d].files ==> read(f).Ok?
    ensures notes == NotesOfFiles(m, d, m[d].files, read, byName)
    ensures MetaRefreshed(before, meta, listed + (set f | f in m[d].files), read)
  {
    var files := m[d].files;
    assert files[..|files|] == files;
    assert done == listed + (set f | f in files);
  }

  /** The files of the directories `dirs`. */
  ghost function ListedFiles(m: map<Id, Tree.Node>, dirs: seq<Id>): set<Id>
    requires ChildrenKnown(m, dirs)
  {
    set d, f | d in dirs && f in m[d].files :: f
  }

  /** The metadata cache `meta` is `before` with the metadata of every file of `listed`
      overwritten or added, and nothing else changed. */
  ghost predicate MetaRefreshed(before: map<Id, Markdown.Meta>, meta: map<Id, Markdown.Meta>, listed: set<Id>,
                                read: Reader)
  {
    && (forall k :: k in meta <==> k in before || k in listed)
    && (forall k :: k in listed ==> read(k).Ok? && meta[k] == read(k).value.meta)
    && (forall k :: k in before && k !in listed ==> meta[k] == before[k])
  }

  /** Storing one more file's metadata. */
  lemma MetaStep(before: map<Id, Markdown.Meta>, meta: map<Id, Markdown.Meta>, listed: set<Id>,
                 read: Reader, f: Id, p: Markdown.Parsed)
    requires MetaRefreshed(before, meta, listed, read) && read(f) == Ok(p)
    ensures MetaRefreshed(before, meta[f := p.meta], listed + {f}, read)
  {
  }

  /** The listed files of one more directory. */
  lemma ListedStep(m: map<Id, Tree.Node>, dirs: seq<Id>, i: nat)
    requires i < |dirs| && ChildrenKnown(m, dirs)
    ensures ChildrenKnown(m, dirs[..i]) && ChildrenKnown(m, dirs[..i + 1])
    ensures ListedFiles(m, dirs[..i + 1]) == ListedFiles(m, dirs[..i]) + (set f | f in m[dirs[i]].files)
  {
    assert dirs[..i + 1] == dirs[..i] + [dirs[i]];
    assert forall x :: x in dirs[..i + 1] ==> x in dirs;
  }

  /** One more directory whose files all parse. */
  lemma NotesStep(m: map<Id, Tree.Node>, dirs: seq<Id>, i: nat, read: Reader, byName: map<string, TagModel>,
                  notes: seq<NoteModel>, more: seq<NoteModel>)
    requires i < |dirs| && ChildrenKnown(m, dirs)
    requires ChildrenKnown(m, dirs[..i]) && AllParse(m, dirs[..i], read)
    requires notes == NotesOfDirs(m, dirs[..i], read, byName)
    requires forall f :: f in m[dirs[i]].files ==> read(f).Ok?
    requires more == NotesOfFiles(m, dirs[i], m[dirs[i]].files, read, byName)
    ensures ChildrenKnown(m, dirs[..i + 1]) && AllParse(m, dirs[..i + 1], read)
    ensures notes + more == NotesOfDirs(m, dirs[..i + 1], read, byName)
  {
    ParseStep(m, dirs, i, read);
    assert dirs[..i + 1][..i] == dirs[..i];
  }

  /** The files of one more directory all parse. */
  lemma ParseStep(m: map<Id, Tree.Node>, dirs: seq<Id>, i: nat, read: Reader)
    requires i < |dirs| && ChildrenKnown(m, dirs)
    requires ChildrenKnown(m, dirs[..i]) && AllParse(m, dirs[..i], read)
    requires forall f :: f in m[dirs[i]].files ==> read(f).Ok?
    ensures ChildrenKnown(m, dirs[..i + 1]) && AllParse(m, dirs[..i + 1], read)
  {
    assert dirs[..i + 1] == dirs[..i] + [dirs[i]];
    assert forall x :: x in dirs[..i + 1] ==> x in dirs;
  }

  /** In a well-formed tree the child directories of a directory, and their files, are
      nodes. */
  lemma ChildDirectoriesKnown(m: map<Id, Tree.Node>, next: nat, d: Id)
    requires Tree.WellFormed(m, next) && d in m
    ensures ChildrenKnown(m, m[d].dirs)
  {
  }

  /** A file that does not parse, in one of the directories, spoils the whole listing. */
  lemma NotAllParse(m: map<Id, Tree.Node>, dirs: seq<Id>, i: nat, f: Id, read: Reader)
    requires i < |dirs| && ChildrenKnown(m, dirs) && f in m[dirs[i]].files
    requires read(f).Err?
    ensures !AllParse(m, dirs, read)
  {
    assert dirs[i] in dirs;
  }

  /** What a tag rewrite of one note file comes to: no file, so nothing happens; a refusal
      before or by the disk; or one accepted write. */
  datatype TagsEffect = Untouched | Refused(error: ApiError) | Written(op: Tree.DiskOp)

  /** The outcome of a tag rewrite and the disk log after it, from the log before it. */
  function ApplyTagsEffect(e: TagsEffect, log: seq<Tree.DiskOp>): (r: (Outcome<ApiError>, seq<Tree.DiskOp>))
    ensures r.0.Fail? <==> e.Refused?
    ensures r.1 == if e.Written? then log + [e.op] else log
  {
    match e
    case Untouched => (Pass, log)
    case Refused(error) => (Fail(error), log)
    case Written(op) => (Pass, log + [op])
  }

  /** A second update of the same key wipes out the first. */
  lemma UpdateTwice<K, V>(m: map<K, V>, k: K, a: V, b: V)
    ensures m[k := a][k := b] == m[k := b]
  {
  }

  class NotesApiHandler {
    const fs: Tree.VirtualFileSystem
    const cache: ApiCache

    constructor (fs: Tree.VirtualFileSystem, cache: ApiCache)
      ensures this.fs == fs && this.cache == cache
    {
      this.fs := fs;
      this.cache := cache;
    }

    /** The directory `createNote` puts a note of category `categoryId` in: the category's
        directory when it names one, otherwise the root. */
    function NoteDirectory(categoryId: Option<Id>): (d: Id)
      reads fs, fs.counter
      requires fs.Valid()
      ensures fs.IsDirectory(d)
      ensures categoryId.Some? && categoryId.value != "" && fs.FindDir(categoryId.value, fs.rootId).Some? ==>
                d == categoryId.value
      ensures !(categoryId.Some? && categoryId.value != "" && fs.FindDir(categoryId.value, fs.rootId).Some?) ==>
                d == fs.rootId
    {
      if categoryId.Some? && categoryId.value != "" && fs.FindDir(categoryId.value, fs.rootId).Some?
      then fs.FindDir(categoryId.value, fs.rootId).value
      else fs.rootId
    }

    /** `createNote(data)`: a forbidden title fails before anything changes. Otherwise the
        file is added to the category's directory (or the root), its raw content written,
        and its metadata cached as empty; the note comes back with the file's id. */
    method CreateNote(data: NoteProperties) returns (r: Result<NoteModel, ApiError>)
      requires fs.Valid()
      modifies fs, fs.counter, fs.disk, cache
      ensures fs.Valid()
      ensures Forbidden.ForbiddenSequence(data.title).Some? ==>
                && r == Err(ForbiddenName(Forbidden.ForbiddenSequence(data.title).value))
                && fs.nodes == old(fs.nodes) && fs.counter.next == old(fs.counter.next)
                && fs.disk.log == old(fs.disk.log) && unchanged(cache)
      ensures Forbidden.ForbiddenSequence(data.title).None? ==>
                var dir := old(NoteDirectory(data.categoryId));
                var f := NatToString(old(fs.counter.next));
                var op := Tree.WriteFile(old(fs.Path(dir)) + "/" + data.title, data.content);
                && f !in old(fs.nodes) && fs.counter.next == old(fs.counter.next) + 1
                && fs.nodes == old(fs.nodes)[f := Tree.Node(false, data.title, old(fs.Path(dir)), old(fs.counter.next), [], [])]
                                            [dir := old(fs.nodes[dir]).(files := old(fs.nodes[dir].files) + [f])]
                && r == (if op !in fs.disk.faults then Ok(WithNoteId(data, f)) else Err(DiskFailure))
                && fs.disk.log == (if r.Ok? then old(fs.disk.log) + [op] else old(fs.disk.log))
                && cache.notesMeta == (if r.Ok? then old(cache.notesMeta)[f := []] else old(cache.notesMeta))
                && cache.tagsByName == old(cache.tagsByName) && cache.notesIdByTagId == old(cache.notesIdByTagId)
    {
      var forbidden := Forbidden.ForbiddenSequence(data.title);
      if forbidden.Some? {
        return Err(ForbiddenName(forbidden.value));
      }
      var directory := CategoryDirectory(data.categoryId);
      ghost var path, next, log := fs.Path(directory), fs.counter.next, fs.disk.log;
      ghost var op := Tree.WriteFile(path + "/" + data.title, data.content);
      var file, ok := AddNoteFile(directory, data.title, data.content);
      assert ok == (op !in fs.disk.faults) && file == NatToString(next);
      assert fs.disk.log == if ok then log + [op] else log;
      if !ok {
        return Err(DiskFailure);
      }
      cache.notesMeta := cache.notesMeta[file := []];
      r := Ok(WithNoteId(data, file));
    }

    /** The lookup of `createNote`: the category's directory when the id is set and names
        one, otherwise the root. */
    method CategoryDirectory(categoryId: Option<Id>) returns (d: Id)
      requires fs.Valid()
      ensures d == NoteDirectory(categoryId)
    {
      d := fs.rootId;
      if categoryId.Some? && categoryId.value != "" {
        var found := fs.GetDirectoryById(categoryId.value, fs.rootId);
        if found.Some? {
          d := found.value;
        }
      }
    }

    /** The file of a new note: added to directory `d` of the tree, then written. */
    method AddNoteFile(d: Id, title: string, content: string) returns (f: Id, ok: bool)
      requires fs.Valid() && fs.IsDirectory(d)
      modifies fs, fs.counter, fs.disk
      ensures fs.Valid()
      ensures f !in old(fs.nodes) && f == NatToString(old(fs.counter.next)) && fs.counter.next == old(fs.counter.next) + 1
      ensures fs.nodes == old(fs.nodes)[f := Tree.Node(false, title, old(fs.Path(d)), old(fs.counter.next), [], [])]
                                       [d := old(fs.nodes[d]).(files := old(fs.nodes[d].files) + [f])]
      ensures var op := Tree.WriteFile(old(fs.Path(d)) + "/" + title, content);
              && ok == (op !in fs.disk.faults)
              && fs.disk.log == if ok then old(fs.disk.log) + [op] else old(fs.disk.log)
    {
      ghost var path := fs.Path(d) + "/" + title;
      f := fs.AddFile(d, title);
      assert fs.Path(f) == path;
      ok := fs.Write(f, content);
    }

    /** `_parseTagsMeta(tagsStr)`. */
    method ParseTagsMeta(tagsStr: Option<string>) returns (r: seq<Id>)
      ensures r == ParsedTagIds(tagsStr, cache.tagsByName)
    {
      if tagsStr.None? || |Trim(tagsStr.value)| == 0 {
        return [];
      }
      var parts := Split(tagsStr.value, ',');
      ghost var names := TrimAll(parts);
      var validTags: seq<Id> := [];
      for i := 0 to |parts|
        invariant validTags == KnownTagIds(names[..i], cache.tagsByName)
      {
        assert names[..i + 1][..i] == names[..i];
        var tagStr := Trim(parts[i]);
        assert tagStr == names[..i + 1][i];
        if tagStr in cache.tagsByName {
          validTags := validTags + [cache.tagsByName[tagStr].id];
        }
      }
      assert names[..|parts|] == names;
      r := validTags;
    }

    /** One file of the inner loop of `getNotes`: its text parsed, and the note it holds,
        tags resolved through the name cache. */
    method ReadNote(d: Id, fileId: Id, source: Id -> Option<string>, ghost read: Reader)
      returns (r: Result<Markdown.Parsed, ApiError>, note: NoteModel)
      requires fileId in fs.nodes && Reads(read, source)
      ensures r.Ok? <==> read(fileId).Ok?
      ensures r.Ok? ==> r.value == read(fileId).value && note == NoteOf(fs.nodes, d, fileId, read, cache.tagsByName)
      ensures r.Err? ==> r == read(fileId) && r.error.FromReading()
      ensures source(fileId).None? ==> r == Err(Unreadable)
    {
      var text := source(fileId);
      if text.None? {
        return Err(Unreadable), NoteModel(fileId, "", "", [], None);
      }
      var md := Markdown.ParseMarkdownMetadata(text.value);
      if md.Err? {
        return Err(Unparsable(md.error)), NoteModel(fileId, "", "", [], None);
      }
      var tagsId := ParseTagsMeta(Markdown.Get(md.value.meta, "tags"));
      r := Ok(md.value);
      note := NoteModel(fileId, fs.nodes[fileId].name, md.value.content, tagsId, Some(d));
    }

    /** The inner loop of `getNotes`: the notes of the files of directory `d`, caching each
        file's metadata; the first file that cannot be read or does not parse ends the
        listing. */
    method ListDirectory(d: Id, source: Id -> Option<string>, ghost read: Reader, ghost before: map<Id, Markdown.Meta>, ghost listed: set<Id>) returns (r: Result<seq<NoteModel>, ApiError>)
      requires FilesKnown(fs.nodes, d) && Reads(read, source)
      requires MetaRefreshed(before, cache.notesMeta, listed, read)
      modifies cache
      ensures cache.tagsByName == old(cache.tagsByName) && cache.notesIdByTagId == old(cache.notesIdByTagId)
      ensures r.Ok? <==> forall f :: f in fs.nodes[d].files ==> read(f).Ok?
      ensures r.Ok? ==> r.value == NotesOfFiles(fs.nodes, d, fs.nodes[d].files, read, cache.tagsByName)
      ensures r.Ok? ==> MetaRefreshed(before, cache.notesMeta, listed + (set f | f in fs.nodes[d].files), read)
      ensures r.Err? ==> r.error.FromReading()
    {
      var files := fs.nodes[d].files;
      var notes: seq<NoteModel> := [];
      ghost var done := listed;
      ghost var m, byName := fs.nodes, cache.tagsByName;
      for j := 0 to |files|
        invariant Progress(m, d, j, read, byName, notes, before, cache.notesMeta, listed, done)
        invariant cache.tagsByName == byName && cache.notesIdByTagId == old(cache.notesIdByTagId)
      {
        var md, note := ReadNote(d, files[j], source, read);
        if md.Err? {
          assert files[j] in files;
          return Err(md.error);
        }
        ProgressStep(m, d, j, read, byName, notes, before, cache.notesMeta, listed, done, md.value);
        cache.notesMeta := cache.notesMeta[files[j] := md.value.meta];
        done := done + {files[j]};
        notes := notes + [note];
      }
      ProgressDone(m, d, read, byName, notes, before, cache.notesMeta, listed, done);
      r := Ok(notes);
    }

    /** `getNotes()`: the notes of every file of every direct child directory of the root,
        directory by directory, each with that directory as its category; each file's
        metadata is cached on the way. Files directly in the root are not listed. */
    method GetNotes(source: Id -> Option<string>, ghost read: Reader) returns (r: Result<seq<NoteModel>, ApiError>)
      requires fs.Valid() && Reads(read, source)
      modifies cache
      ensures cache.tagsByName == old(cache.tagsByName) && cache.notesIdByTagId == old(cache.notesIdByTagId)
      ensures ChildrenKnown(fs.nodes, fs.nodes[fs.rootId].dirs)
      ensures r.Ok? <==> AllParse(fs.nodes, fs.nodes[fs.rootId].dirs, read)
      ensures r.Ok? ==> r.value == NotesOfDirs(fs.nodes, fs.nodes[fs.rootId].dirs, read, cache.tagsByName)
      ensures r.Ok? ==> MetaRefreshed(old(cache.notesMeta), cache.notesMeta,
                                      ListedFiles(fs.nodes, fs.nodes[fs.rootId].dirs), read)
      ensures r.Err? ==> r.error.FromReading()
    {
      var dirs := fs.nodes[fs.rootId].dirs;
      ghost var m, byName, before := fs.nodes, cache.tagsByName, cache.notesMeta;
      ChildDirectoriesKnown(m, fs.counter.next, fs.rootId);
      var notes: seq<NoteModel> := [];
      for i := 0 to |dirs|
        invariant ChildrenKnown(m, dirs[..i]) && AllParse(m, dirs[..i], read)
        invariant notes == NotesOfDirs(m, dirs[..i], read, byName)
        invariant MetaRefreshed(before, cache.notesMeta, ListedFiles(m, dirs[..i]), read)
        invariant cache.tagsByName == byName && cache.notesIdByTagId == old(cache.notesIdByTagId)
      {
        ListedStep(m, dirs, i);
        var more := ListDirectory(dirs[i], source, read, before, ListedFiles(m, dirs[..i]));
        if more.Err? {
          ghost var f :| f in m[dirs[i]].files && read(f).Err?;
          NotAllParse(m, dirs, i, f, read);
          return more;
        }
        NotesStep(m, dirs, i, read, byName, notes, more.value);
        notes := notes + more.value;
      }
      assert dirs[..|dirs|] == dirs;
      r := Ok(notes);
    }

    /** `deleteNote(id)`: an id no file of the tree has fails; otherwise the file is
        deleted from the tree and the disk. */
    method DeleteNote(id: Id) returns (r: Outcome<ApiError>)
      requires fs.Valid()
      modifies fs, fs.disk
      ensures fs.Valid()
      ensures old(fs.FindFile(id, fs.rootId)).None? ==>
                r == Fail(UnknownFile) && fs.nodes == old(fs.nodes) && fs.disk.log == old(fs.disk.log)
      ensures old(fs.FindFile(id, fs.rootId)).Some? && old(fs.FindParent(id, fs.rootId)).None? ==>
                r == Fail(TreeFailure(Tree.NoParent)) && fs.nodes == old(fs.nodes) && fs.disk.log == old(fs.disk.log)
      ensures old(fs.FindFile(id, fs.rootId)).Some? && old(fs.FindParent(id, fs.rootId)).Some? ==>
                var p := old(fs.FindParent(id, fs.rootId)).value;
                var op := Tree.Rm(old(fs.Path(id)));
                && fs.nodes == old(fs.nodes)[p := old(fs.nodes[p]).(files := Tree.Without(old(fs.nodes[p]).files, id))]
                && r == (if op !in fs.disk.faults then Pass else Fail(TreeFailure(Tree.DiskFailure)))
                && fs.disk.log == if r.Pass? then old(fs.disk.log) + [op] else old(fs.disk.log)
    {
      var file := fs.GetFileById(id, fs.rootId);
      if file.None? {
        return Fail(UnknownFile);
      }
      var deleted := fs.DeleteFile(id);
      r := if deleted.Pass? then Pass else Fail(TreeFailure(deleted.error));
    }

    /** The title step of `updateNote`: a forbidden title fails before anything changes;
        otherwise the file is renamed in its directory, on disk first. */
    method RetitleNote(id: Id, title: string) returns (r: Outcome<ApiError>)
      requires fs.Valid() && id in fs.nodes
      modifies fs, fs.disk
      ensures fs.Valid()
      ensures Forbidden.ForbiddenSequence(title).Some? ==>
                && r == Fail(ForbiddenName(Forbidden.ForbiddenSequence(title).value))
                && fs.nodes == old(fs.nodes) && fs.disk.log == old(fs.disk.log)
      ensures Forbidden.ForbiddenSequence(title).None? ==>
                var op := Tree.RenamePath(old(fs.Path(id)), old(fs.nodes[id].basePath) + "/" + title);
                && r == (if op !in fs.disk.faults then Pass else Fail(DiskFailure))
                && fs.disk.log == (if r.Pass? then old(fs.disk.log) + [op] else old(fs.disk.log))
                && fs.nodes == if r.Pass? then old(fs.nodes)[id := old(fs.nodes[id]).(name := title)] else old(fs.nodes)
    {
      var forbidden := Forbidden.ForbiddenSequence(title);
      if forbidden.Some? {
        return Fail(ForbiddenName(forbidden.value));
      }
      var ok := fs.Rename(id, title);
      r := if ok then Pass else Fail(DiskFailure);
    }

    /** The category step of `updateNote`: the destination is the category's directory, or
        the root when the note has no category; an id naming no directory fails before
        anything changes; otherwise the file moves there, on disk first. */
    method MoveNote(id: Id, categoryId: Option<Id>) returns (r: Outcome<ApiError>)
      requires fs.Valid() && id in fs.nodes
      modifies fs, fs.disk
      ensures fs.Valid()
      ensures var dest := if categoryId.Some? then categoryId.value else fs.rootId;
              old(fs.FindDir(dest, fs.rootId)).None? ==>
                r == Fail(UnknownDirectory) && fs.nodes == old(fs.nodes) && fs.disk.log == old(fs.disk.log)
      ensures var dest := if categoryId.Some? then categoryId.value else fs.rootId;
              old(fs.FindDir(dest, fs.rootId)).Some? ==>
                var op := Tree.RenamePath(old(fs.Path(id)), old(fs.Path(dest)) + "/" + old(fs.nodes[id].name));
                && r == (if op !in fs.disk.faults then Pass else Fail(TreeFailure(Tree.DiskFailure)))
                && fs.disk.log == (if r.Pass? then old(fs.disk.log) + [op] else old(fs.disk.log))
                && fs.nodes == if r.Pass? then old(fs.nodes)[id := old(fs.nodes[id]).(basePath := old(fs.Path(dest)))]
                               else old(fs.nodes)
    {
      var directoryId := if categoryId.Some? then categoryId.value else fs.rootId;
      var directory := fs.GetDirectoryById(directoryId, fs.rootId);
      if directory.None? {
        return Fail(UnknownDirectory);
      }
      var moved := fs.MoveTo(id, directory.value);
      r := if moved.Pass? then Pass else Fail(TreeFailure(moved.error));
    }

    /** The last step of `updateNote`: the cached metadata of the note, with `tags` set to
        the names of the new tags, over the new body. Reading the metadata of a note the
        cache lacks fails first, then naming a tag the client cache lacks. */
    method RewriteNote(id: Id, content: string, tagsId: seq<Id>, client: ClientCache) returns (r: Outcome<ApiError>)
      requires fs.Valid() && id in fs.nodes
      modifies fs.disk
      ensures id !in cache.notesMeta ==> r == Fail(MissingMeta) && fs.disk.log == old(fs.disk.log)
      ensures id in cache.notesMeta && TagDataToString(tagsId, client).None? ==>
                r == Fail(UnknownTag) && fs.disk.log == old(fs.disk.log)
      ensures id in cache.notesMeta && TagDataToString(tagsId, client).Some? ==>
                var meta := Markdown.Put(cache.notesMeta[id], "tags", TagDataToString(tagsId, client).value);
                var op := Tree.WriteFile(fs.Path(id), Markdown.Generate(content, meta));
                && r == (if op !in fs.disk.faults then Pass else Fail(DiskFailure))
                && fs.disk.log == (if r.Pass? then old(fs.disk.log) + [op] else old(fs.disk.log))
      ensures Rewritten(old(fs.disk.log), fs.Path(id), id, content, tagsId, client, r)
    {
      if id !in cache.notesMeta {
        return Fail(MissingMeta);
      }
      var tags := TagDataToString(tagsId, client);
      if tags.None? {
        return Fail(UnknownTag);
      }
      var text := Markdown.GenerateMarkdownWithMetadata(content, Markdown.Put(cache.notesMeta[id], "tags", tags.value));
      var ok := fs.Write(id, text);
      r := if ok then Pass else Fail(DiskFailure);
    }

    /** The directory a changed category moves the note to: `data.categoryId ?? root`. */
    function Destination(data: NoteProperties): Id
    {
      if data.categoryId.Some? then data.categoryId.value else fs.rootId
    }

    /** The destination is a directory of the tree in the arena `m`. */
    ghost predicate Found(m: map<Id, Tree.Node>, data: NoteProperties)
      reads fs.counter
      requires Tree.WellFormed(m, fs.counter.next) && fs.rootId in m && m[fs.rootId].isDir
    {
      Tree.DirSearch(m, fs.counter.next, Destination(data), fs.rootId).Some?
    }

    /** The directory path of note `id` once the category step is done. */
    ghost function PlacedBase(m: map<Id, Tree.Node>, id: Id, data: NoteProperties, moved: bool): string
      reads fs.counter
      requires Tree.WellFormed(m, fs.counter.next) && id in m && fs.rootId in m && m[fs.rootId].isDir
    {
      if moved && Found(m, data) then m[Destination(data)].basePath + "/" + m[Destination(data)].name
      else m[id].basePath
    }

    /** The disk rename of the category step. */
    ghost function MoveOp(m: map<Id, Tree.Node>, id: Id, data: NoteProperties, moved: bool): Tree.DiskOp
      reads fs.counter
      requires Tree.WellFormed(m, fs.counter.next) && id in m && fs.rootId in m && m[fs.rootId].isDir
    {
      Tree.RenamePath(m[id].basePath + "/" + m[id].name, PlacedBase(m, id, data, moved) + "/" + m[id].name)
    }

    /** The category step passes: nothing to move, or a found destination and an accepted
        rename. */
    ghost predicate Placed(m: map<Id, Tree.Node>, id: Id, data: NoteProperties, moved: bool)
      reads fs.counter, fs.disk
      requires Tree.WellFormed(m, fs.counter.next) && id in m && fs.rootId in m && m[fs.rootId].isDir
    {
      !moved || (Found(m, data) && MoveOp(m, id, data, moved) !in fs.disk.faults)
    }

    /** The rewrite of the note at `path` passes: its metadata is cached, every tag is in
        the client cache, and the disk accepts the write. */
    predicate WriteAccepted(path: string, id: Id, content: string, tagsId: seq<Id>, client: ClientCache)
      reads fs.disk, cache
    {
      && id in cache.notesMeta && TagDataToString(tagsId, client).Some?
      && Tree.WriteFile(path, Markdown.Generate(content,
           Markdown.Put(cache.notesMeta[id], "tags", TagDataToString(tagsId, client).value))) !in fs.disk.faults
    }

    /** What the rewrite of note `id` at `path` did, from the disk log `log`, with `r` its
        outcome: missing metadata, then an uncached tag, then a refused write fail, and
        only an accepted write is logged. */
    ghost predicate Rewritten(log: seq<Tree.DiskOp>, path: string, id: Id, content: string, tagsId: seq<Id>,
                              client: ClientCache, r: Outcome<ApiError>)
      reads fs.disk, cache
    {
      var tags := TagDataToString(tagsId, client);
      && (id !in cache.notesMeta ==> r == Fail(MissingMeta) && fs.disk.log == log)
      && (id in cache.notesMeta && tags.None? ==> r == Fail(UnknownTag) && fs.disk.log == log)
      && (id in cache.notesMeta && tags.Some? ==>
            var op := Tree.WriteFile(path, Markdown.Generate(content, Markdown.Put(cache.notesMeta[id], "tags", tags.value)));
            && (op in fs.disk.faults ==> r == Fail(DiskFailure))
            && fs.disk.log == if op in fs.disk.faults then log else log + [op])
      && (r.Pass? <==> WriteAccepted(path, id, content, tagsId, client))
    }

    /** The steps of `updateNote` after the title pass. */
    ghost predicate RelocateAccepted(m: map<Id, Tree.Node>, id: Id, data: NoteProperties, moved: bool, client: ClientCache)
      reads fs.counter, fs.disk, cache
      requires Tree.WellFormed(m, fs.counter.next) && id in m && fs.rootId in m && m[fs.rootId].isDir
    {
      && Placed(m, id, data, moved)
      && WriteAccepted(PlacedBase(m, id, data, moved) + "/" + m[id].name, id, data.content, data.tagsId, client)
    }

    /** What the steps of `updateNote` after the title did, from the arena `m` and the
        disk log `log` they started with, with `r` their outcome. A destination that is
        no directory of the tree fails with `UnknownDirectory`, a refused move with the
        tree's disk failure, both with nothing changed. Once the note is in place, the
        rewrite follows. The steps pass exactly when RelocateAccepted holds. */
    ghost predicate Relocated(m: map<Id, Tree.Node>, log: seq<Tree.DiskOp>, id: Id, data: NoteProperties,
                              moved: bool, client: ClientCache, r: Outcome<ApiError>)
      reads fs, fs.counter, fs.disk, cache
      requires Tree.WellFormed(m, fs.counter.next) && id in m && fs.rootId in m && m[fs.rootId].isDir
    {
      && (moved && !Found(m, data) ==> r == Fail(UnknownDirectory) && fs.nodes == m && fs.disk.log == log)
      && (moved && Found(m, data) && MoveOp(m, id, data, moved) in fs.disk.faults ==>
            r == Fail(TreeFailure(Tree.DiskFailure)) && fs.nodes == m && fs.disk.log == log)
      && (Placed(m, id, data, moved) ==>
            && fs.nodes == m[id := m[id].(basePath := PlacedBase(m, id, data, moved))]
            && Rewritten(log + (if moved then [MoveOp(m, id, data, moved)] else []),
                         PlacedBase(m, id, data, moved) + "/" + m[id].name, id, data.content, data.tagsId, client, r))
      && (r.Pass? <==> RelocateAccepted(m, id, data, moved, client))
    }

    /** The steps of `updateNote` after the title: a move when `moved`, then the rewrite. */
    method RelocateNote(id: Id, data: NoteProperties, moved: bool, client: ClientCache) returns (r: Outcome<ApiError>)
      requires fs.Valid() && id in fs.nodes && !fs.nodes[id].isDir
      modifies fs, fs.disk
      ensures fs.Valid()
      ensures Relocated(old(fs.nodes), old(fs.disk.log), id, data, moved, client, r)
      ensures r.Pass? ==>
                && id in old(fs.nodes) && id in cache.notesMeta && TagDataToString(data.tagsId, client).Some?
                && var before := old(fs.nodes[id]);
                   var dest := if data.categoryId.Some? then data.categoryId.value else fs.rootId;
                   && (moved ==> dest in old(fs.nodes) && old(fs.nodes[dest].isDir))
                   && var base := if moved then old(fs.Path(dest)) else before.basePath;
                   && fs.nodes == old(fs.nodes)[id := before.(basePath := base)]
                   && fs.disk.log == old(fs.disk.log)
                        + (if moved then [Tree.RenamePath(before.basePath + "/" + before.name, base + "/" + before.name)] else [])
                        + [Tree.WriteFile(base + "/" + before.name,
                             Markdown.Generate(data.content,
                               Markdown.Put(cache.notesMeta[id], "tags", TagDataToString(data.tagsId, client).value)))]
    {
      ghost var nodes0, log0, before := fs.nodes, fs.disk.log, fs.nodes[id];
      ghost var dest := Destination(data);
      fs.FindDirIsSearch(dest, fs.rootId);
      ghost var found := Found(nodes0, data);
      ghost var base := PlacedBase(nodes0, id, data, moved);
      ghost var moveOp := MoveOp(nodes0, id, data, moved);
      assert found == fs.FindDir(dest, fs.rootId).Some?;
      assert moved && found ==> base == fs.Path(dest);
      if moved {
        r := MoveNote(id, data.categoryId);
        if r.Fail? {
          assert fs.nodes == nodes0 && fs.disk.log == log0;
          assert !found ==> r == Fail(UnknownDirectory);
          assert found ==> moveOp in fs.disk.faults && r == Fail(TreeFailure(Tree.DiskFailure));
          return;
        }
        assert found && moveOp !in fs.disk.faults;
      } else {
        assert nodes0[id := before.(basePath := base)] == nodes0;
      }
      assert fs.nodes == nodes0[id := before.(basePath := base)];
      assert fs.disk.log == log0 + (if moved then [moveOp] else []);
      assert fs.Path(id) == base + "/" + before.name;
      r := RewriteNote(id, data.content, data.tagsId, client);
    }

    /** The arena once the title step of `updateNote` is done: the note under its new
        name when `renamed`. */
    ghost function Retitle(m: map<Id, Tree.Node>, id: Id, data: NoteProperties, renamed: bool): (m': map<Id, Tree.Node>)
      reads fs.counter
      requires Tree.WellFormed(m, fs.counter.next) && id in m && fs.rootId in m && m[fs.rootId].isDir
      ensures Tree.WellFormed(m', fs.counter.next) && id in m' && fs.rootId in m' && m'[fs.rootId].isDir
    {
      Tree.RefitKeepsWellFormed(m, fs.counter.next, id, m[id].(name := if renamed then data.title else m[id].name));
      m[id := m[id].(name := if renamed then data.title else m[id].name)]
    }

    /** The disk rename of the title step. */
    ghost function RenameOp(m: map<Id, Tree.Node>, id: Id, data: NoteProperties): Tree.DiskOp
      requires id in m
    {
      Tree.RenamePath(m[id].basePath + "/" + m[id].name, m[id].basePath + "/" + data.title)
    }

    /** The title step passes: nothing to rename, or an allowed title and an accepted
        rename. */
    ghost predicate Titled(m: map<Id, Tree.Node>, id: Id, data: NoteProperties, renamed: bool)
      reads fs.disk
      requires id in m
    {
      !renamed || (Forbidden.ForbiddenSequence(data.title).None? && RenameOp(m, id, data) !in fs.disk.faults)
    }

    /** Every step of `updateNote` after the lookups passes. */
    ghost predicate UpdateAccepted(m: map<Id, Tree.Node>, id: Id, data: NoteProperties, renamed: bool, moved: bool,
                                   client: ClientCache)
      reads fs.counter, fs.disk, cache
      requires Tree.WellFormed(m, fs.counter.next) && id in m && fs.rootId in m && m[fs.rootId].isDir
    {
      Titled(m, id, data, renamed) && RelocateAccepted(Retitle(m, id, data, renamed), id, data, moved, client)
    }

    /** What the steps of `updateNote` after the lookups did, from the arena `m` and the
        disk log `log` they started with, with `r` their outcome. A forbidden title fails
        with its message and a refused rename with `DiskFailure`, both with nothing
        changed; once the title is in place, the move and the rewrite follow. The update
        passes exactly when UpdateAccepted holds. */
    ghost predicate Updated(m: map<Id, Tree.Node>, log: seq<Tree.DiskOp>, id: Id, data: NoteProperties,
                            renamed: bool, moved: bool, client: ClientCache, r: Outcome<ApiError>)
      reads fs, fs.counter, fs.disk, cache
      requires Tree.WellFormed(m, fs.counter.next) && id in m && fs.rootId in m && m[fs.rootId].isDir
    {
      && (renamed && Forbidden.ForbiddenSequence(data.title).Some? ==>
            r == Fail(ForbiddenName(Forbidden.ForbiddenSequence(data.title).value)) && fs.nodes == m && fs.disk.log == log)
      && (renamed && Forbidden.ForbiddenSequence(data.title).None? && RenameOp(m, id, data) in fs.disk.faults ==>
            r == Fail(DiskFailure) && fs.nodes == m && fs.disk.log == log)
      && (Titled(m, id, data, renamed) ==>
            Relocated(Retitle(m, id, data, renamed), log + (if renamed then [RenameOp(m, id, data)] else []),
                      id, data, moved, client, r))
      && (r.Pass? <==> UpdateAccepted(m, id, data, renamed, moved, client))
    }

    /** A refused title step is the whole update. */
    lemma UpdateRefused(m: map<Id, Tree.Node>, log: seq<Tree.DiskOp>, id: Id, data: NoteProperties,
                        renamed: bool, moved: bool, client: ClientCache, r: Outcome<ApiError>)
      requires Tree.WellFormed(m, fs.counter.next) && id in m && fs.rootId in m && m[fs.rootId].isDir
      requires renamed && fs.nodes == m && fs.disk.log == log
      requires Forbidden.ForbiddenSequence(data.title).Some? ==>
                 r == Fail(ForbiddenName(Forbidden.ForbiddenSequence(data.title).value))
      requires Forbidden.ForbiddenSequence(data.title).None? ==>
                 RenameOp(m, id, data) in fs.disk.faults && r == Fail(DiskFailure)
      ensures Updated(m, log, id, data, renamed, moved, client, r)
    {
      assert !Titled(m, id, data, renamed);
    }

    /** Once the title step passes, the update does what the move and the rewrite do. */
    lemma UpdateOnceTitled(m: map<Id, Tree.Node>, log: seq<Tree.DiskOp>, id: Id, data: NoteProperties,
                           renamed: bool, moved: bool, client: ClientCache, r: Outcome<ApiError>)
      requires Tree.WellFormed(m, fs.counter.next) && id in m && fs.rootId in m && m[fs.rootId].isDir
      requires Titled(m, id, data, renamed)
      requires Relocated(Retitle(m, id, data, renamed), log + (if renamed then [RenameOp(m, id, data)] else []),
                         id, data, moved, client, r)
      ensures Updated(m, log, id, data, renamed, moved, client, r)
    {
    }

    /** The state a passing update leaves: the note under its new name in its new
        directory, and the disk log with the rename, the move and the write appended, each
        only when its step ran. */
    ghost predicate PassedUpdate(m: map<Id, Tree.Node>, log: seq<Tree.DiskOp>, id: Id, data: NoteProperties,
                                 renamed: bool, moved: bool, client: ClientCache)
      reads fs, fs.disk, cache
      requires id in m
    {
      && id in cache.notesMeta && TagDataToString(data.tagsId, client).Some?
      && var before := m[id];
         var dest := Destination(data);
         var name := if renamed then data.title else before.name;
         && (moved ==> dest in m && m[dest].isDir)
         && var base := if moved then m[dest].basePath + "/" + m[dest].name else before.basePath;
         && fs.nodes == m[id := before.(name := name, basePath := base)]
         && fs.disk.log == log
              + (if renamed then [Tree.RenamePath(before.basePath + "/" + before.name, before.basePath + "/" + name)] else [])
              + (if moved then [Tree.RenamePath(before.basePath + "/" + name, base + "/" + name)] else [])
              + [Tree.WriteFile(base + "/" + name,
                   Markdown.Generate(data.content,
                     Markdown.Put(cache.notesMeta[id], "tags", TagDataToString(data.tagsId, client).value)))]
    }

    /** An update that passes leaves the PassedUpdate state. */
    lemma UpdatePassed(m: map<Id, Tree.Node>, log: seq<Tree.DiskOp>, id: Id, data: NoteProperties,
                       renamed: bool, moved: bool, client: ClientCache)
      requires Tree.WellFormed(m, fs.counter.next) && id in m && !m[id].isDir && fs.rootId in m && m[fs.rootId].isDir
      requires Updated(m, log, id, data, renamed, moved, client, Pass)
      ensures PassedUpdate(m, log, id, data, renamed, moved, client)
    {
      var before, dest := m[id], Destination(data);
      var name := if renamed then data.title else before.name;
      var m1 := Retitle(m, id, data, renamed);
      assert m1[id] == before.(name := name);
      assert RelocateAccepted(m1, id, data, moved, client);
      if moved {
        assert Found(m1, data);
        assert dest in m1 && m1[dest].isDir && dest != id;
        assert m1[dest] == m[dest];
      }
      var base := if moved then m[dest].basePath + "/" + m[dest].name else before.basePath;
      assert PlacedBase(m1, id, data, moved) == base;
      assert m1 == m[id := before.(name := name)];
      assert m1[id].(basePath := base) == before.(name := name, basePath := base);
      UpdateTwice(m, id, before.(name := name), before.(name := name, basePath := base));
    }

    /** The steps of `updateNote` once the file is found: a rename when `renamed`, then
        the move and the rewrite. */
    method UpdateFile(id: Id, data: NoteProperties, renamed: bool, moved: bool, client: ClientCache)
      returns (r: Outcome<ApiError>)
      requires fs.Valid() && id in fs.nodes && !fs.nodes[id].isDir
      modifies fs, fs.disk
      ensures fs.Valid()
      ensures renamed && Forbidden.ForbiddenSequence(data.title).Some? ==>
                && r == Fail(ForbiddenName(Forbidden.ForbiddenSequence(data.title).value))
                && fs.nodes == old(fs.nodes) && fs.disk.log == old(fs.disk.log)
      ensures Updated(old(fs.nodes), old(fs.disk.log), id, data, renamed, moved, client, r)
      ensures r.Pass? ==> PassedUpdate(old(fs.nodes), old(fs.disk.log), id, data, renamed, moved, client)
    {
      ghost var nodes0, log0, before := fs.nodes, fs.disk.log, fs.nodes[id];
      ghost var name := if renamed then data.title else before.name;
      ghost var log1 := log0 + (if renamed then [RenameOp(nodes0, id, data)] else []);
      ghost var m1 := Retitle(nodes0, id, data, renamed);
      if renamed {
        r := RetitleNote(id, data.title);
        if r.Fail? {
          UpdateRefused(nodes0, log0, id, data, renamed, moved, client, r);
          return;
        }
      } else {
        assert nodes0[id := before.(name := name)] == nodes0;
      }
      assert Titled(nodes0, id, data, renamed);
      assert fs.nodes == nodes0[id := before.(name := name)] == m1;
      assert fs.disk.log == log1;
      r := RelocateNote(id, data, moved, client);
      UpdateOnceTitled(nodes0, log0, id, data, renamed, moved, client, r);
      if r.Pass? {
        UpdatePassed(nodes0, log0, id, data, renamed, moved, client);
      }
    }

    /** `updateNote(id, data)`: the note must be in the client cache and its file in the
        tree. A changed title renames the file, a changed category moves it, and then the
        file is rewritten with the new body and tags; each step that fails ends the update
        and keeps what the earlier steps did. */
    method UpdateNote(id: Id, data: NoteProperties, client: ClientCache) returns (r: Outcome<ApiError>)
      requires fs.Valid()
      modifies fs, fs.disk
      ensures fs.Valid()
      ensures client.Note(id).None? ==>
                r == Fail(NotInClientCache) && fs.nodes == old(fs.nodes) && fs.disk.log == old(fs.disk.log)
      ensures client.Note(id).Some? && old(fs.FindFile(id, fs.rootId)).None? ==>
                r == Fail(UnknownFile) && fs.nodes == old(fs.nodes) && fs.disk.log == old(fs.disk.log)
      ensures client.Note(id).Some? && client.Note(id).value.title != data.title
              && Forbidden.ForbiddenSequence(data.title).Some? ==>
                fs.nodes == old(fs.nodes) && fs.disk.log == old(fs.disk.log)
                && (r == Fail(UnknownFile) || r == Fail(ForbiddenName(Forbidden.ForbiddenSequence(data.title).value)))
      ensures client.Note(id).Some? && old(fs.FindFile(id, fs.rootId)).Some? ==>
                && Tree.WellFormed(old(fs.nodes), fs.counter.next) && id in old(fs.nodes)
                && fs.rootId in old(fs.nodes) && old(fs.nodes[fs.rootId].isDir)
                && Updated(old(fs.nodes), old(fs.disk.log), id, data, client.Note(id).value.title != data.title,
                           client.Note(id).value.categoryId != data.categoryId, client, r)
      ensures r.Pass? ==>
                && client.Note(id).Some? && id in old(fs.nodes) && id in cache.notesMeta
                && TagDataToString(data.tagsId, client).Some?
                && var before := old(fs.nodes[id]);
                   var renamed := client.Note(id).value.title != data.title;
                   var moved := client.Note(id).value.categoryId != data.categoryId;
                   var dest := if data.categoryId.Some? then data.categoryId.value else fs.rootId;
                   var name := if renamed then data.title else before.name;
                   && (moved ==> dest in old(fs.nodes))
                   && var base := if moved then old(fs.Path(dest)) else before.basePath;
                   && fs.nodes == old(fs.nodes)[id := before.(name := name, basePath := base)]
                   && fs.disk.log == old(fs.disk.log)
                        + (if renamed then [Tree.RenamePath(old(fs.Path(id)), before.basePath + "/" + name)] else [])
                        + (if moved then [Tree.RenamePath(before.basePath + "/" + name, base + "/" + name)] else [])
                        + [Tree.WriteFile(base + "/" + name,
                             Markdown.Generate(data.content,
                               Markdown.Put(cache.notesMeta[id], "tags", TagDataToString(data.tagsId, client).value)))]
    {
      var oldNote := client.Note(id);
      if oldNote.None? {
        return Fail(NotInClientCache);
      }
      var file := fs.GetFileById(id, fs.rootId);
      if file.None? {
        return Fail(UnknownFile);
      }
      r := UpdateFile(id, data, oldNote.value.title != data.title, oldNote.value.categoryId != data.categoryId, client);
    }

    /** `addTagToNote(noteId, tagId)`: the tag id is appended to the client's copy of the
        note, with no duplicate check, and the file, if the tree has it, is rewritten with
        that tag list as its only metadata. */
    method AddTagToNote(noteId: Id, tagId: Id, client: ClientCache) returns (r: Outcome<ApiError>)
      requires fs.Valid()
      modifies fs.disk
      ensures client.Note(noteId).None? ==> r == Fail(NotInClientCache) && fs.disk.log == old(fs.disk.log)
      ensures client.Note(noteId).Some? ==>
                (r, fs.disk.log) == TagsRewrite(noteId, client.Note(noteId).value.tagsId + [tagId], client, old(fs.disk.log))
    {
      var note := client.Note(noteId);
      if note.None? {
        return Fail(NotInClientCache);
      }
      var tagsId := note.value.tagsId + [tagId];
      r := WriteTags(noteId, note.value, tagsId, client);
    }

    /** `removeTagFromNote(noteId, tagId)`: the first occurrence of the tag id leaves the
        client's copy of the note, if it is there, and the file, if the tree has it, is
        rewritten with that tag list as its only metadata. */
    method RemoveTagFromNote(noteId: Id, tagId: Id, client: ClientCache) returns (r: Outcome<ApiError>)
      requires fs.Valid()
      modifies fs.disk
      ensures client.Note(noteId).None? ==> r == Fail(NotInClientCache) && fs.disk.log == old(fs.disk.log)
      ensures client.Note(noteId).Some? ==>
                (r, fs.disk.log) == TagsRewrite(noteId, RemoveFirst(client.Note(noteId).value.tagsId, tagId), client, old(fs.disk.log))
    {
      var note := client.Note(noteId);
      if note.None? {
        return Fail(NotInClientCache);
      }
      var tagsId := note.value.tagsId;
      var index := IndexOf(tagsId, tagId);
      if index != -1 {
        tagsId := SpliceOne(tagsId, index);
      }
      assert tagsId == RemoveFirst(note.value.tagsId, tagId);
      r := WriteTags(noteId, note.value, tagsId, client);
    }

    /** What rewriting note `noteId` with the tag list `tagsId` comes to: nothing when the
        tree has no such file; a failure when a tag is missing from the client cache; otherwise
        one write of the body under a metadata block holding only `tags`, which the disk may
        refuse. */
    ghost function TagsRewriteEffect(noteId: Id, tagsId: seq<Id>, client: ClientCache): (e: TagsEffect)
      reads fs, fs.counter
      requires fs.Valid() && client.Note(noteId).Some?
      ensures e.Untouched? <==> fs.FindFile(noteId, fs.rootId).None?
      ensures e.Written? ==> e.op.WriteFile? && noteId in fs.nodes && e.op.path == fs.Path(noteId)
    {
      if fs.FindFile(noteId, fs.rootId).None? then Untouched
      else if TagDataToString(tagsId, client).None? then Refused(UnknownTag)
      else
        var op := Tree.WriteFile(fs.Path(noteId),
                                 Markdown.Generate(client.Note(noteId).value.content,
                                                   [("tags", TagDataToString(tagsId, client).value)]));
        if op !in fs.disk.faults then Written(op) else Refused(DiskFailure)
    }

    /** The outcome of that rewrite and the disk log after it, from the log `log` before. */
    ghost function TagsRewrite(noteId: Id, tagsId: seq<Id>, client: ClientCache, log: seq<Tree.DiskOp>)
      : (Outcome<ApiError>, seq<Tree.DiskOp>)
      reads fs, fs.counter
      requires fs.Valid() && client.Note(noteId).Some?
    {
      ApplyTagsEffect(TagsRewriteEffect(noteId, tagsId, client), log)
    }

    /** The write shared by `addTagToNote` and `removeTagFromNote`: `file?.write(...)` skips
        building the text, tag names included, when there is no file. */
    method WriteTags(noteId: Id, note: NoteModel, tagsId: seq<Id>, client: ClientCache) returns (r: Outcome<ApiError>)
      requires fs.Valid() && client.Note(noteId) == Some(note)
      modifies fs.disk
      ensures (r, fs.disk.log) == TagsRewrite(noteId, tagsId, client, old(fs.disk.log))
    {
      ghost var expected := TagsRewrite(noteId, tagsId, client, fs.disk.log);
      var file := fs.GetFileById(noteId, fs.rootId);
      if file.None? {
        return Pass;
      }
      var tags := TagDataToString(tagsId, client);
      if tags.None? {
        return Fail(UnknownTag);
      }
      var content := Markdown.GenerateMarkdownWithMetadata(note.content, [("tags", tags.value)]);
      var ok := fs.Write(noteId, content);
      r := if ok then Pass else Fail(DiskFailure);
      assert (r, fs.disk.log) == expected;
    }
  }
}
