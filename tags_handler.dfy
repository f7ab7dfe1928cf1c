/**
 * The tag store of the filesystem backend (src/api-providers/FileSystemApiProvider/TagsApiHandler.ts).
 * Tags live as one list of `{id, name, color}` records in the `tags` sidecar file, which every
 * change rewrites from the client's cache, and the shared cache keeps a table from tag names
 * to records that `getNotes` uses to turn the names in a note's metadata back into ids.
 */
module TagsHandler {
  import opened Wrappers
  import opened Records
  import opened HandlerBase
  import Tree
  import NotesHandler

  // ---------------------------------------------------------------------------------
  // The name table
  // ---------------------------------------------------------------------------------

  /** `_cacheTags(tags)`: the name table after each record of `tags`, in order, was stored
      under its name. */
  function CacheAll(byName: map<string, TagModel>, tags: seq<TagModel>): map<string, TagModel>
    decreases |tags|
  {
    if tags == [] then byName
    else
      var last := tags[|tags| - 1];
      CacheAll(byName, tags[..|tags| - 1])[last.name := last]
  }

  /** Caching a list only adds names: a name is in the table afterwards iff it was before
      or some record carries it. */
  lemma {:induction false} CacheAllKeys(byName: map<string, TagModel>, tags: seq<TagModel>, name: string)
    ensures name in CacheAll(byName, tags) <==> name in byName || exists k :: 0 <= k < |tags| && tags[k].name == name
    decreases |tags|
  {
    if tags != [] {
      var init := tags[..|tags| - 1];
      CacheAllKeys(byName, init, name);
      if exists k :: 0 <= k < |init| && init[k].name == name {
        var k :| 0 <= k < |init| && init[k].name == name;
        assert tags[k].name == name;
      }
      if exists k :: 0 <= k < |tags| - 1 && tags[k].name == name {
        var k :| 0 <= k < |tags| - 1 && tags[k].name == name;
        assert init[k].name == name;
      }
    }
  }

  /** A name carried by some record maps to the LAST record carrying it. */
  lemma {:induction false} CacheAllLast(byName: map<string, TagModel>, tags: seq<TagModel>, k: nat)
    requires k < |tags| && forall j :: k < j < |tags| ==> tags[j].name != tags[k].name
    ensures tags[k].name in CacheAll(byName, tags) && CacheAll(byName, tags)[tags[k].name] == tags[k]
    decreases |tags|
  {
    if k < |tags| - 1 {
      var init := tags[..|tags| - 1];
      assert forall j :: k < j < |init| ==> init[j] == tags[j];
      CacheAllLast(byName, init, k);
    }
  }

  /** A name no record carries keeps the record it had. */
  lemma {:induction false} CacheAllOthers(byName: map<string, TagModel>, tags: seq<TagModel>, name: string)
    requires name in byName && forall k :: 0 <= k < |tags| ==> tags[k].name != name
    ensures name in CacheAll(byName, tags) && CacheAll(byName, tags)[name] == byName[name]
    decreases |tags|
  {
    if tags != [] {
      var init := tags[..|tags| - 1];
      assert forall k :: 0 <= k < |init| ==> init[k] == tags[k];
      CacheAllOthers(byName, init, name);
    }
  }

  class TagsApiHandler {
    const tagsFile: TagsFile
    const cache: ApiCache
    /** `_parent.removeTagFromNote` forwards to the notes handler of the same provider. */
    const notesHandler: NotesHandler.NotesApiHandler

    constructor (tagsFile: TagsFile, cache: ApiCache, notesHandler: NotesHandler.NotesApiHandler)
      ensures this.tagsFile == tagsFile && this.cache == cache && this.notesHandler == notesHandler
    {
      this.tagsFile := tagsFile;
      this.cache := cache;
      this.notesHandler := notesHandler;
    }

    /** `_cacheTag(tag)`: the record is stored under its name, replacing any record of that
        name; nothing is ever removed. */
    method CacheTag(tag: TagModel)
      modifies cache
      ensures cache.tagsByName == old(cache.tagsByName)[tag.name := tag]
      ensures cache.notesMeta == old(cache.notesMeta) && cache.notesIdByTagId == old(cache.notesIdByTagId)
    {
      cache.tagsByName := cache.tagsByName[tag.name := tag];
    }

    /** `_cacheTags(tags)`: `_cacheTag` on each record in order. */
    method CacheTags(tags: seq<TagModel>)
      modifies cache
      ensures cache.tagsByName == CacheAll(old(cache.tagsByName), tags)
      ensures cache.notesMeta == old(cache.notesMeta) && cache.notesIdByTagId == old(cache.notesIdByTagId)
    {
      for i := 0 to |tags|
        invariant cache.tagsByName == CacheAll(old(cache.tagsByName), tags[..i])
        invariant cache.notesMeta == old(cache.notesMeta) && cache.notesIdByTagId == old(cache.notesIdByTagId)
      {
        assert tags[..i + 1][..i] == tags[..i];
        CacheTag(tags[i]);
      }
      assert tags[..|tags|] == tags;
    }

    /** `createTag(data)`: the new record `{...data, id}`, with `freshId` standing for
        `Date.now()`, goes into the name table, and the sidecar is rewritten with the client's
        tags followed by it; a refused write rejects, after the record was cached, and leaves
        the sidecar as it was. */
    method CreateTag(data: TagProperties, freshId: Id, client: ClientCache) returns (r: Result<TagModel, ApiError>)
      modifies cache, tagsFile
      ensures var tag := WithTagId(data, freshId);
              && tag.id == freshId && tag.name == data.name && tag.color == data.color
              && cache.tagsByName == old(cache.tagsByName)[data.name := tag]
              && (r.Ok? <==> client.tags + [tag] !in tagsFile.faults)
              && (r.Ok? ==> r.value == tag && tagsFile.content == Some(client.tags + [tag]))
              && (r.Err? ==> r.error == DiskFailure && tagsFile.content == old(tagsFile.content))
      ensures cache.notesMeta == old(cache.notesMeta) && cache.notesIdByTagId == old(cache.notesIdByTagId)
    {
      var tags := client.tags;
      var tag := WithTagId(data, freshId);
      tags := tags + [tag];
      CacheTag(tag);
      var ok := tagsFile.Write(tags);
      if !ok {
        return Err(DiskFailure);
      }
      return Ok(tag);
    }

    /** `getTags()`: the list in the sidecar, every record of which is cached by name; a
        sidecar that cannot be read or parsed gives the empty list and caches nothing. */
    method GetTags() returns (tags: seq<TagModel>)
      modifies cache
      ensures tagsFile.content.None? ==> tags == [] && cache.tagsByName == old(cache.tagsByName)
      ensures tagsFile.content.Some? ==>
                tags == tagsFile.content.value && cache.tagsByName == CacheAll(old(cache.tagsByName), tags)
      ensures cache.notesMeta == old(cache.notesMeta) && cache.notesIdByTagId == old(cache.notesIdByTagId)
    {
      var content := tagsFile.content;
      if content.None? {
        return [];
      }
      tags := content.value;
      CacheTags(tags);
    }

    /** The client's tags where each record with id `id` becomes `{...data, id}`: the list
        `updateTag(id, data)` writes. */
    static function Updated(tags: seq<TagModel>, id: Id, data: TagProperties): (r: seq<TagModel>)
      ensures |r| == |tags|
      ensures forall k :: 0 <= k < |tags| ==> r[k] == if tags[k].id == id then WithTagId(data, id) else tags[k]
      ensures (forall t :: t in tags ==> t.id != id) ==> r == tags
    {
      seq(|tags|, k requires 0 <= k < |tags| => if tags[k].id == id then WithTagId(data, id) else tags[k])
    }

    /** `updateTag(id, data)`: `{...data, id}` is cached by name whether or not the id is
        known, and the sidecar is rewritten with the `Updated` list, so an unknown id rewrites
        the same list; a refused write rejects and leaves the sidecar as it was. */
    method UpdateTag(id: Id, data: TagProperties, client: ClientCache) returns (r: Outcome<ApiError>)
      modifies cache, tagsFile
      ensures r.Pass? <==> Updated(client.tags, id, data) !in tagsFile.faults
      ensures r.Pass? ==> tagsFile.content == Some(Updated(client.tags, id, data))
      ensures r.Pass? && client.Tag(id).None? ==> tagsFile.content == Some(client.tags)
      ensures r.Fail? ==> r.error == DiskFailure && tagsFile.content == old(tagsFile.content)
      ensures cache.tagsByName == old(cache.tagsByName)[data.name := WithTagId(data, id)]
      ensures cache.notesMeta == old(cache.notesMeta) && cache.notesIdByTagId == old(cache.notesIdByTagId)
    {
      var tags := Updated(client.tags, id, data);
      CacheTag(WithTagId(data, id));
      var ok := tagsFile.Write(tags);
      if !ok {
        return Fail(DiskFailure);
      }
      return Pass;
    }

    /** What `removeTagFromNote(n.id, tagId)` would come to for each note `n` of `notes`. */
    ghost function RemovalEffects(notes: seq<NoteModel>, tagId: Id, client: ClientCache): (effects: seq<NotesHandler.TagsEffect>)
      reads notesHandler.fs, notesHandler.fs.counter
      requires notesHandler.fs.Valid() && forall n :: n in notes ==> client.Note(n.id).Some?
      ensures |effects| == |notes|
      ensures forall k :: 0 <= k < |notes| ==>
                effects[k] == notesHandler.TagsRewriteEffect(notes[k].id, RemoveFirst(client.Note(notes[k].id).value.tagsId, tagId), client)
      decreases |notes|
    {
      if notes == [] then []
      else
        [notesHandler.TagsRewriteEffect(notes[0].id, RemoveFirst(client.Note(notes[0].id).value.tagsId, tagId), client)]
        + RemovalEffects(notes[1..], tagId, client)
    }

    /** The loop of `_removeTagFromNotes` over `notes`, where `effects` says what
        `removeTagFromNote` comes to for each: every note holding the tag, in order, has it
        removed, and the first failure ends the loop; reading the tag's id fails as soon as
        there is a note to test and the client cache has no such tag. The result is the
        outcome and the disk log after the loop, from the log `log` before it. */
    static function Cascade(notes: seq<NoteModel>, tag: Option<TagModel>, effects: seq<NotesHandler.TagsEffect>,
                            log: seq<Tree.DiskOp>): (Outcome<ApiError>, seq<Tree.DiskOp>)
      requires |effects| == |notes|
      decreases |notes|
    {
      if notes == [] then (Pass, log)
      else if tag.None? then (Fail(UnknownTag), log)
      else if tag.value.id !in notes[0].tagsId then Cascade(notes[1..], tag, effects[1..], log)
      else
        var step := NotesHandler.ApplyTagsEffect(effects[0], log);
        if step.0.Fail? then step else Cascade(notes[1..], tag, effects[1..], step.1)
    }

    /** `op` is the accepted rewrite of some note of `notes` that holds the tag. */
    static ghost predicate WrittenForTagged(notes: seq<NoteModel>, tag: Option<TagModel>,
                                           effects: seq<NotesHandler.TagsEffect>, op: Tree.DiskOp)
      requires |effects| == |notes|
    {
      exists j :: 0 <= j < |notes| && tag.Some? && tag.value.id in notes[j].tagsId && effects[j] == NotesHandler.Written(op)
    }

    /** The cascade only appends to the log, and each write it appends is the accepted
        rewrite of a note that holds the tag. */
    static lemma {:induction false} CascadeWritesTagged(notes: seq<NoteModel>, tag: Option<TagModel>,
                                                        effects: seq<NotesHandler.TagsEffect>, log: seq<Tree.DiskOp>)
      requires |effects| == |notes|
      ensures log <= Cascade(notes, tag, effects, log).1
      ensures forall k :: |log| <= k < |Cascade(notes, tag, effects, log).1| ==>
                WrittenForTagged(notes, tag, effects, Cascade(notes, tag, effects, log).1[k])
      decreases |notes|
    {
      if notes != [] && tag.Some? {
        var out := Cascade(notes, tag, effects, log).1;
        var step := NotesHandler.ApplyTagsEffect(effects[0], log);
        var tagged := tag.value.id in notes[0].tagsId;
        var next := if tagged then step.1 else log;
        if tagged && step.0.Fail? {
          return;
        }
        CascadeWritesTagged(notes[1..], tag, effects[1..], next);
        assert out == Cascade(notes[1..], tag, effects[1..], next).1;
        forall k | |log| <= k < |out| ensures WrittenForTagged(notes, tag, effects, out[k]) {
          if k < |next| {
            assert tagged && effects[0].Written? && next == log + [effects[0].op];
            assert out[k] == next[k];
            assert effects[0] == NotesHandler.Written(out[k]);
          } else {
            assert WrittenForTagged(notes[1..], tag, effects[1..], out[k]);
            var j :| 0 <= j < |notes[1..]| && tag.Some? && tag.value.id in notes[1..][j].tagsId
                     && effects[1..][j] == NotesHandler.Written(out[k]);
            assert notes[j + 1] == notes[1..][j] && effects[j + 1] == effects[1..][j];
          }
        }
      }
    }

    /** When the tag is known and no note holds it, the cascade writes nothing and succeeds. */
    static lemma {:induction false} CascadeUntagged(notes: seq<NoteModel>, tag: TagModel,
                                                    effects: seq<NotesHandler.TagsEffect>, log: seq<Tree.DiskOp>)
      requires |effects| == |notes|
      requires forall n :: n in notes ==> tag.id !in n.tagsId
      ensures Cascade(notes, Some(tag), effects, log) == (Pass, log)
      decreases |notes|
    {
      if notes != [] {
        assert notes[0] in notes;
        assert forall n :: n in notes[1..] ==> n in notes;
        CascadeUntagged(notes[1..], tag, effects[1..], log);
      }
    }

    /** One turn of the loop: the cascade from position `i` on. */
    static lemma CascadeFrom(notes: seq<NoteModel>, i: nat, tag: Option<TagModel>,
                             effects: seq<NotesHandler.TagsEffect>, log: seq<Tree.DiskOp>)
      requires |effects| == |notes| && i < |notes|
      ensures Cascade(notes[i..], tag, effects[i..], log) ==
                if tag.None? then (Fail(UnknownTag), log)
                else if tag.value.id !in notes[i].tagsId then Cascade(notes[i + 1..], tag, effects[i + 1..], log)
                else
                  var step := NotesHandler.ApplyTagsEffect(effects[i], log);
                  if step.0.Fail? then step else Cascade(notes[i + 1..], tag, effects[i + 1..], step.1)
    {
      assert notes[i..][0] == notes[i] && notes[i..][1..] == notes[i + 1..];
      assert effects[i..][0] == effects[i] && effects[i..][1..] == effects[i + 1..];
    }

    /** `_parent.removeTagFromNote(note.id, tagId)` for a note of the client cache, whose
        effect on the disk is `effect`. */
    method RemoveFromNote(note: NoteModel, tagId: Id, client: ClientCache, ghost effect: NotesHandler.TagsEffect)
      returns (r: Outcome<ApiError>)
      requires notesHandler.fs.Valid() && note in client.notes
      requires effect == notesHandler.TagsRewriteEffect(note.id, RemoveFirst(client.Note(note.id).value.tagsId, tagId), client)
      modifies notesHandler.fs.disk
      ensures (r, notesHandler.fs.disk.log) == NotesHandler.ApplyTagsEffect(effect, old(notesHandler.fs.disk.log))
    {
      r := notesHandler.RemoveTagFromNote(note.id, tagId, client);
    }

    /** `_removeTagFromNotes(tagId)`: the loop over the client's notes. */
    method RemoveTagFromNotes(tagId: Id, client: ClientCache) returns (r: Outcome<ApiError>)
      requires notesHandler.fs.Valid()
      modifies notesHandler.fs.disk
      ensures (r, notesHandler.fs.disk.log) ==
                Cascade(client.notes, client.Tag(tagId), old(RemovalEffects(client.notes, tagId, client)),
                        old(notesHandler.fs.disk.log))
    {
      var tag := client.Tag(tagId);
      var notes := client.notes;
      ghost var effects := RemovalEffects(notes, tagId, client);
      ghost var log0 := notesHandler.fs.disk.log;
      r := Pass;
      for i := 0 to |notes|
        invariant r == Pass
        invariant unchanged(notesHandler.fs, notesHandler.fs.counter)
        invariant Cascade(notes, tag, effects, log0) == Cascade(notes[i..], tag, effects[i..], notesHandler.fs.disk.log)
      {
        CascadeFrom(notes, i, tag, effects, notesHandler.fs.disk.log);
        if tag.None? {
          return Fail(UnknownTag);
        }
        if tag.value.id in notes[i].tagsId {
          r := RemoveFromNote(notes[i], tagId, client, effects[i]);
          if r.Fail? {
            return;
          }
        }
      }
      assert notes[|notes|..] == [];
    }

    /** The sidecar rewrite of `deleteTag(id)`: the client's tags less the one at the index
        `findIndex` gives, under the guard `if (index)`. A match at index 0 is kept, a missing
        id (index -1) makes `splice(-1, 1)` drop the LAST record, and any other match is
        dropped. */
    method WriteTagsWithout(id: Id, client: ClientCache) returns (ok: bool)
      modifies tagsFile
      ensures var index := FirstIndex(client.tags, TagId, id);
              var kept := if index == 0 then client.tags
                          else if index == -1 then (if client.tags == [] then [] else client.tags[..|client.tags| - 1])
                          else client.tags[..index] + client.tags[index + 1..];
              && ok == (kept !in tagsFile.faults)
              && tagsFile.content == if ok then Some(kept) else old(tagsFile.content)
    {
      var tags := client.tags;
      var index := FirstIndex(tags, TagId, id);
      if index != 0 {
        tags := SpliceOne(tags, index);
        if index == -1 && client.tags != [] {
          assert tags == client.tags[..|client.tags| - 1] + client.tags[|client.tags|..];
          assert client.tags[|client.tags|..] == [];
          assert tags == client.tags[..|client.tags| - 1];
        }
      }
      ok := tagsFile.Write(tags);
    }

    /** `deleteTag(id)`: the sidecar rewrite above, then the tag is removed from every
        client note that holds it; a refused sidecar write rejects before any note is
        touched. */
    method DeleteTag(id: Id, client: ClientCache) returns (r: Outcome<ApiError>)
      requires notesHandler.fs.Valid()
      modifies tagsFile, notesHandler.fs.disk
      ensures var index := FirstIndex(client.tags, TagId, id);
              var kept := if index == 0 then client.tags
                          else if index == -1 then (if client.tags == [] then [] else client.tags[..|client.tags| - 1])
                          else client.tags[..index] + client.tags[index + 1..];
              && (kept in tagsFile.faults ==>
                    r == Fail(DiskFailure) && tagsFile.content == old(tagsFile.content)
                    && notesHandler.fs.disk.log == old(notesHandler.fs.disk.log))
              && (kept !in tagsFile.faults ==>
                    tagsFile.content == Some(kept)
                    && (r, notesHandler.fs.disk.log) ==
                         Cascade(client.notes, client.Tag(id), old(RemovalEffects(client.notes, id, client)),
                                 old(notesHandler.fs.disk.log)))
    {
      ghost var effects := RemovalEffects(client.notes, id, client);
      var ok := WriteTagsWithout(id, client);
      if !ok {
        return Fail(DiskFailure);
      }
      r := RemoveTagFromNotes(id, client);
      assert old(RemovalEffects(client.notes, id, client)) == effects;
    }
  }
}
