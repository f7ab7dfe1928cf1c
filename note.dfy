/**
 * The client-side note object (src/structures/Note.ts). A note keeps a private copy of
 * its data; every change first goes to the storage back end and lands locally only once
 * the back end has accepted it. The back end is out of view: each change takes, as a
 * parameter, whether the back end accepts it, and the note records the requests it made.
 */
module ClientNote {
  import opened Wrappers
  import opened Records

  /** A request the note sends to the storage back end. */
  datatype ApiCall =
    | UpdateNote(noteId: Id, data: NoteProperties)
    | AddTagToNote(noteId: Id, tagId: Id)
    | RemoveTagFromNote(noteId: Id, tagId: Id)

  /** The back end rejected the request. */
  datatype Rejected = Rejected

  /** The tag list after `addTag`: unchanged when the tag is there, else one more id. */
  function WithTag(tags: seq<Id>, tagId: Id): seq<Id>
  {
    if tagId in tags then tags else tags + [tagId]
  }

  /** The tag list after `removeTag`: the first occurrence goes, if there is one. */
  function WithoutTag(tags: seq<Id>, tagId: Id): seq<Id>
  {
    RemoveFirst(tags, tagId)
  }

  /** Adding a tag leaves it in the list, and adding it twice is adding it once. */
  lemma WithTagIdempotent(tags: seq<Id>, tagId: Id)
    ensures tagId in WithTag(tags, tagId)
    ensures WithTag(WithTag(tags, tagId), tagId) == WithTag(tags, tagId)
    ensures tagId !in tags ==> |WithTag(tags, tagId)| == |tags| + 1
  {
  }

  /** A list without repetitions stays without repetitions under both changes, and the
      removed tag is gone afterwards. */
  lemma TagChangesKeepDistinct(tags: seq<Id>, tagId: Id)
    requires Distinct(tags)
    ensures Distinct(WithTag(tags, tagId))
    ensures Distinct(WithoutTag(tags, tagId)) && tagId !in WithoutTag(tags, tagId)
  {
    if tagId !in tags {
      AppendDistinct(tags, tagId);
    }
    RemoveFirstDistinct(tags, tagId);
  }

  /** Removing a tag just added to a list that lacked it restores the list. */
  lemma RemoveUndoesAdd(tags: seq<Id>, tagId: Id)
    requires tagId !in tags
    ensures WithoutTag(WithTag(tags, tagId), tagId) == tags
  {
    var s := tags + [tagId];
    assert IndexOf(s, tagId) == |tags| by {
      assert s[|tags|] == tagId && s[..|tags|] == tags;
    }
    assert s[..|tags|] == tags;
  }

  /** `getTags()`: the cached tag of every id of `ids` that has one, in order; ids the
      cache lacks are dropped. */
  function TagsOf(ids: seq<Id>, cache: ClientCache): (r: seq<TagModel>)
    ensures |r| <= |ids|
    ensures forall t :: t in r ==> t.id in ids && cache.Tag(t.id) == Some(t)
    ensures forall i :: 0 <= i < |ids| && cache.Tag(ids[i]).Some? ==> cache.Tag(ids[i]).value in r
    ensures (forall i :: 0 <= i < |ids| ==> cache.Tag(ids[i]).Some?) ==> |r| == |ids|
  {
    if ids == [] then []
    else
      var rest := TagsOf(ids[1..], cache);
      assert forall i :: 1 <= i < |ids| ==> ids[i] == ids[1..][i - 1];
      match cache.Tag(ids[0])
      case Some(t) => [t] + rest
      case None => rest
  }

  class Note {
    const id: Id
    var data: NoteProperties
    /** The requests sent to the back end so far. */
    var calls: seq<ApiCall>

    /** Copies the model's data; the tag list is a fresh value, shared with nothing. */
    constructor (model: NoteModel)
      ensures id == model.id && data == model.Properties() && calls == []
    {
      id := model.id;
      data := NoteProperties(model.title, model.content, model.tagsId, model.categoryId);
      calls := [];
    }

    /** `hasTag(tag)`. */
    predicate HasTag(tagId: Id)
      reads this
      ensures HasTag(tagId) <==> tagId in data.tagsId
    {
      IndexOf(data.tagsId, tagId) != -1
    }

    /** `belongToCategory(category)`: a note without category belongs to none. */
    predicate BelongsToCategory(categoryId: Id)
      reads this
      ensures BelongsToCategory(categoryId) <==> data.categoryId.Some? && data.categoryId.value == categoryId
    {
      data.categoryId == Some(categoryId)
    }

    /** `getTags()`. */
    function GetTags(cache: ClientCache): (r: seq<TagModel>)
      reads this
      ensures forall t :: t in r ==> HasTag(t.id) && cache.Tag(t.id) == Some(t)
      ensures forall tagId :: HasTag(tagId) && cache.Tag(tagId).Some? ==> cache.Tag(tagId).value in r
    {
      TagsOf(data.tagsId, cache)
    }

    /** `setTitle(title)`: the whole data with the new title goes to the back end; the
        title changes only once the back end accepts. */
    method SetTitle(title: string, accepted: bool) returns (r: Outcome<Rejected>)
      modifies this
      ensures calls == old(calls) + [UpdateNote(id, old(data).(title := title))]
      ensures data == if accepted then old(data).(title := title) else old(data)
      ensures r == if accepted then Pass else Fail(Rejected)
    {
      calls := calls + [UpdateNote(id, data.(title := title))];
      if !accepted {
        return Fail(Rejected);
      }
      data := data.(title := title);
      r := Pass;
    }

    /** `setContent(content)`. */
    method SetContent(content: string, accepted: bool) returns (r: Outcome<Rejected>)
      modifies this
      ensures calls == old(calls) + [UpdateNote(id, old(data).(content := content))]
      ensures data == if accepted then old(data).(content := content) else old(data)
      ensures r == if accepted then Pass else Fail(Rejected)
    {
      calls := calls + [UpdateNote(id, data.(content := content))];
      if !accepted {
        return Fail(Rejected);
      }
      data := data.(content := content);
      r := Pass;
    }

    /** `setCategory(category)`: no category (`null`) becomes an undefined category id. */
    method SetCategory(categoryId: Option<Id>, accepted: bool) returns (r: Outcome<Rejected>)
      modifies this
      ensures calls == old(calls) + [UpdateNote(id, old(data).(categoryId := categoryId))]
      ensures data == if accepted then old(data).(categoryId := categoryId) else old(data)
      ensures r == if accepted then Pass else Fail(Rejected)
    {
      calls := calls + [UpdateNote(id, data.(categoryId := categoryId))];
      if !accepted {
        return Fail(Rejected);
      }
      data := data.(categoryId := categoryId);
      r := Pass;
    }

    /** `addTag(tag)`: a tag already there is neither sent nor added again; otherwise the
        request goes out and the id is appended once the back end accepts. */
    method AddTag(tagId: Id, accepted: bool) returns (r: Outcome<Rejected>)
      modifies this
      ensures old(tagId in data.tagsId) ==> r == Pass && calls == old(calls) && data == old(data)
      ensures old(tagId !in data.tagsId) ==>
                && calls == old(calls) + [AddTagToNote(id, tagId)]
                && r == (if accepted then Pass else Fail(Rejected))
                && data == if accepted then old(data).(tagsId := WithTag(old(data.tagsId), tagId)) else old(data)
    {
      if IndexOf(data.tagsId, tagId) != -1 {
        return Pass;
      }
      calls := calls + [AddTagToNote(id, tagId)];
      if !accepted {
        return Fail(Rejected);
      }
      data := data.(tagsId := data.tagsId + [tagId]);
      r := Pass;
    }

    /** `removeTag(tag)`: an absent tag is neither sent nor removed; otherwise the request
        goes out and the first occurrence goes once the back end accepts. */
    method RemoveTag(tagId: Id, accepted: bool) returns (r: Outcome<Rejected>)
      modifies this
      ensures old(tagId !in data.tagsId) ==> r == Pass && calls == old(calls) && data == old(data)
      ensures old(tagId in data.tagsId) ==>
                && calls == old(calls) + [RemoveTagFromNote(id, tagId)]
                && r == (if accepted then Pass else Fail(Rejected))
                && data == if accepted then old(data).(tagsId := WithoutTag(old(data.tagsId), tagId)) else old(data)
    {
      var index := IndexOf(data.tagsId, tagId);
      if index == -1 {
        return Pass;
      }
      calls := calls + [RemoveTagFromNote(id, tagId)];
      if !accepted {
        return Fail(Rejected);
      }
      data := data.(tagsId := data.tagsId[..index] + data.tagsId[index + 1..]);
      r := Pass;
    }
  }
}
