/**
 * The single-document store (src/data-providers/JsonApiProvider.ts): three in-memory
 * collections of notes, tags and categories, searched linearly by id, appended to,
 * spliced and overwritten in place, and written out whole after every change.
 *
 * The database file is out of view. Reading it is a parameter (`None` when reading or
 * parsing fails); every write is recorded as the snapshot of the collections it would
 * serialise, and the snapshots in `faults` are those whose writing the store refuses.
 * Fresh ids, which the source takes from the clock, are parameters too.
 */
module JsonProvider {
  import opened Wrappers
  import opened Records

  /** The whole database: what `setup` reads and `_saveDatabase` writes. */
  datatype Collections = Collections(notes: seq<NoteModel>, tags: seq<TagModel>, categories: seq<CategoryModel>)

  /** Why a call rejects: indexing the result of a failed id search
      (`collection[-1].tagsId`), or `_writeDatabase` refusing the write. */
  datatype StoreError = UnknownNote | SaveRefused

  /** Removing at a position takes exactly that one document away. */
  lemma RemoveAtCounts<T>(s: seq<T>, i: nat)
    requires i < |s|
    ensures |RemoveAt(s, i)| == |s| - 1
    ensures multiset(RemoveAt(s, i)) + multiset{s[i]} == multiset(s)
  {
    assert s == s[..i] + [s[i]] + s[i + 1..];
  }

  /** When ids are unique, a deleted document's id is no longer found. */
  lemma DeleteForgetsId<T>(s: seq<T>, idOf: T -> Id, id: Id)
    requires forall a, b :: 0 <= a < b < |s| ==> idOf(s[a]) != idOf(s[b])
    requires FirstIndex(s, idOf, id) != -1
    ensures FirstIndex(RemoveAt(s, FirstIndex(s, idOf, id)), idOf, id) == -1
  {
    var i := FirstIndex(s, idOf, id);
    var r := RemoveAt(s, i);
    forall k | 0 <= k < |r| ensures idOf(r[k]) != id {
      if k < i {
        assert r[k] == s[k];
      } else {
        assert r[k] == s[k + 1] && idOf(s[i]) != idOf(s[k + 1]);
      }
    }
  }

  /** After an update the document is found at the same position, and the collection
      keeps its length. */
  lemma UpdateKeepsPosition<T>(s: seq<T>, idOf: T -> Id, id: Id, x: T)
    requires FirstIndex(s, idOf, id) != -1 && idOf(x) == id
    ensures var i := FirstIndex(s, idOf, id);
            |s[i := x]| == |s| && FirstIndex(s[i := x], idOf, id) == i && s[i := x][i] == x
  {
    var i := FirstIndex(s, idOf, id);
    assert s[i := x][i] == x;
    assert forall k :: 0 <= k < i ==> s[i := x][k] == s[k];
  }

  /** `removeTagFromNote` on a tag list: `splice(indexOf(tagId), 1)`. It removes the first
      occurrence when there is one, and otherwise, as `indexOf` then gives -1, the last tag. */
  lemma RemoveTagSplice(tagsId: seq<Id>, tagId: Id)
    ensures tagId in tagsId ==> SpliceOne(tagsId, IndexOf(tagsId, tagId)) == RemoveFirst(tagsId, tagId)
    ensures tagId !in tagsId && tagsId != [] ==> SpliceOne(tagsId, IndexOf(tagsId, tagId)) == tagsId[..|tagsId| - 1]
    ensures tagId !in tagsId && tagsId == [] ==> SpliceOne(tagsId, IndexOf(tagsId, tagId)) == []
  {
    if tagId !in tagsId && tagsId != [] {
      assert tagsId[|tagsId| - 1 + 1..] == [];
    }
  }

  class JsonApiProvider {
    var notes: seq<NoteModel>
    var tags: seq<TagModel>
    var categories: seq<CategoryModel>
    var didSetup: bool
    /** What `_saveDatabase` has written so far, oldest first. */
    var saved: seq<Collections>
    /** The databases whose writing `writeDatabase` refuses. */
    const faults: set<Collections>

    function Snapshot(): Collections
      reads this
    {
      Collections(notes, tags, categories)
    }

    /** The write of the current collections, from the written list `before`, came to
        `ok`: it is accepted exactly when the store does not refuse this database, and only
        an accepted write is recorded. */
    ghost predicate Saved(before: seq<Collections>, ok: bool)
      reads this
    {
      && ok == (Snapshot() !in faults)
      && saved == if ok then before + [Snapshot()] else before
    }

    /** Starts with three empty collections, not yet set up, nothing written. */
    constructor (faults: set<Collections>)
      ensures Snapshot() == Collections([], [], []) && !didSetup && saved == [] && this.faults == faults
    {
      notes := [];
      tags := [];
      categories := [];
      didSetup := false;
      saved := [];
      this.faults := faults;
    }

    /** `_saveDatabase()`: the whole database is written, unless the store refuses it. */
    method Save() returns (ok: bool)
      modifies this
      ensures Saved(old(saved), ok)
      ensures Snapshot() == old(Snapshot()) && didSetup == old(didSetup)
    {
      ok := Snapshot() !in faults;
      if ok {
        saved := saved + [Collections(notes, tags, categories)];
      }
    }

    /** `setup()`: the database read replaces all three collections; a failed read or
        parse leaves them as they were. */
    method Setup(read: Option<Collections>)
      modifies this
      ensures Snapshot() == if read.Some? then read.value else old(Snapshot())
      ensures didSetup == old(didSetup) && saved == old(saved)
    {
      if read.Some? {
        notes := read.value.notes;
        tags := read.value.tags;
        categories := read.value.categories;
      }
    }

    /** `_getIndexInCollectionByID(collection, id)`: a linear search with `===`. */
    static method IndexById<T>(collection: seq<T>, idOf: T -> Id, id: Id) returns (r: int)
      ensures r == FirstIndex(collection, idOf, id)
    {
      for i := 0 to |collection|
        invariant forall k :: 0 <= k < i ==> idOf(collection[k]) != id
      {
        if idOf(collection[i]) == id {
          return i;
        }
      }
      return -1;
    }

    /** `getNotes()`: the first call sets the store up from the database; every call
        returns the notes. */
    method GetNotes(read: Option<Collections>) returns (r: seq<NoteModel>)
      modifies this
      ensures didSetup && saved == old(saved)
      ensures old(didSetup) ==> Snapshot() == old(Snapshot())
      ensures !old(didSetup) ==> Snapshot() == if read.Some? then read.value else old(Snapshot())
      ensures r == notes
    {
      if !didSetup {
        Setup(read);
        didSetup := true;
      }
      r := notes;
    }

    /** `getTags()`. */
    method GetTags() returns (r: seq<TagModel>)
      ensures r == tags
    {
      r := tags;
    }

    /** `getCategories()`. */
    method GetCategories() returns (r: seq<CategoryModel>)
      ensures r == categories
    {
      r := categories;
    }

    /** `createNote(properties)`: the document with a fresh id goes at the end of the
        notes and the database is written; a copy is returned, or, when the write is
        refused, the call rejects with the document still in the collection. */
    method CreateNote(properties: NoteProperties, freshId: Id) returns (r: Result<NoteModel, StoreError>)
      modifies this
      ensures var doc := WithNoteId(properties, freshId);
              && doc.Properties() == properties
              && notes == old(notes) + [doc] && tags == old(tags) && categories == old(categories)
              && Saved(old(saved), r.Ok?)
              && (r.Ok? ==> r.value == doc)
              && (r.Err? ==> r.error == SaveRefused)
      ensures didSetup == old(didSetup)
    {
      var doc := WithNoteId(properties, freshId);
      notes := notes + [doc];
      var ok := Save();
      r := if ok then Ok(doc) else Err(SaveRefused);
    }

    /** `createTag(document)`. */
    method CreateTag(properties: TagProperties, freshId: Id) returns (r: Result<TagModel, StoreError>)
      modifies this
      ensures var doc := WithTagId(properties, freshId);
              && doc.name == properties.name && doc.color == properties.color
              && tags == old(tags) + [doc] && notes == old(notes) && categories == old(categories)
              && Saved(old(saved), r.Ok?)
              && (r.Ok? ==> r.value == doc)
              && (r.Err? ==> r.error == SaveRefused)
      ensures didSetup == old(didSetup)
    {
      var doc := WithTagId(properties, freshId);
      tags := tags + [doc];
      var ok := Save();
      r := if ok then Ok(doc) else Err(SaveRefused);
    }

    /** `createCategory(document)`. */
    method CreateCategory(properties: CategoryProperties, freshId: Id) returns (r: Result<CategoryModel, StoreError>)
      modifies this
      ensures var doc := WithCategoryId(properties, freshId);
              && doc.name == properties.name
              && categories == old(categories) + [doc] && notes == old(notes) && tags == old(tags)
              && Saved(old(saved), r.Ok?)
              && (r.Ok? ==> r.value == doc)
              && (r.Err? ==> r.error == SaveRefused)
      ensures didSetup == old(didSetup)
    {
      var doc := WithCategoryId(properties, freshId);
      categories := categories + [doc];
      var ok := Save();
      r := if ok then Ok(doc) else Err(SaveRefused);
    }

    /** `deleteNote(id)`: the first note with the id goes and the database is written;
        an unknown id changes and writes nothing. */
    method DeleteNote(id: Id) returns (r: Outcome<StoreError>)
      modifies this
      ensures var i := FirstIndex(old(notes), NoteId, id);
              if i == -1 then r == Pass && Snapshot() == old(Snapshot()) && saved == old(saved)
              else notes == RemoveAt(old(notes), i) && tags == old(tags) && categories == old(categories)
                   && Saved(old(saved), r.Pass?) && (r.Fail? ==> r.error == SaveRefused)
      ensures didSetup == old(didSetup)
    {
      var index := IndexById(notes, NoteId, id);
      r := Pass;
      if index != -1 {
        notes := RemoveAt(notes, index);
        var ok := Save();
        if !ok {
          r := Fail(SaveRefused);
        }
      }
    }

    /** `deleteTag(id)`. */
    method DeleteTag(id: Id) returns (r: Outcome<StoreError>)
      modifies this
      ensures var i := FirstIndex(old(tags), TagId, id);
              if i == -1 then r == Pass && Snapshot() == old(Snapshot()) && saved == old(saved)
              else tags == RemoveAt(old(tags), i) && notes == old(notes) && categories == old(categories)
                   && Saved(old(saved), r.Pass?) && (r.Fail? ==> r.error == SaveRefused)
      ensures didSetup == old(didSetup)
    {
      var index := IndexById(tags, TagId, id);
      r := Pass;
      if index != -1 {
        tags := RemoveAt(tags, index);
        var ok := Save();
        if !ok {
          r := Fail(SaveRefused);
        }
      }
    }

    /** `deleteCategory(id)`. */
    method DeleteCategory(id: Id) returns (r: Outcome<StoreError>)
      modifies this
      ensures var i := FirstIndex(old(categories), CategoryId, id);
              if i == -1 then r == Pass && Snapshot() == old(Snapshot()) && saved == old(saved)
              else categories == RemoveAt(old(categories), i) && notes == old(notes) && tags == old(tags)
                   && Saved(old(saved), r.Pass?) && (r.Fail? ==> r.error == SaveRefused)
      ensures didSetup == old(didSetup)
    {
      var index := IndexById(categories, CategoryId, id);
      r := Pass;
      if index != -1 {
        categories := RemoveAt(categories, index);
        var ok := Save();
        if !ok {
          r := Fail(SaveRefused);
        }
      }
    }

    /** `updateNote(id, data)`: the first note with the id becomes `{...data, id}` in its
        place; an unknown id changes and writes nothing. */
    method UpdateNote(id: Id, data: NoteProperties) returns (r: Outcome<StoreError>)
      modifies this
      ensures var i := FirstIndex(old(notes), NoteId, id);
              if i == -1 then r == Pass && Snapshot() == old(Snapshot()) && saved == old(saved)
              else notes == old(notes)[i := WithNoteId(data, id)] && tags == old(tags) && categories == old(categories)
                   && Saved(old(saved), r.Pass?) && (r.Fail? ==> r.error == SaveRefused)
      ensures didSetup == old(didSetup)
    {
      var index := IndexById(notes, NoteId, id);
      r := Pass;
      if index != -1 {
        notes := notes[index := WithNoteId(data, id)];
        var ok := Save();
        if !ok {
          r := Fail(SaveRefused);
        }
      }
    }

    /** `updateTag(id, data)`. */
    method UpdateTag(id: Id, data: TagProperties) returns (r: Outcome<StoreError>)
      modifies this
      ensures var i := FirstIndex(old(tags), TagId, id);
              if i == -1 then r == Pass && Snapshot() == old(Snapshot()) && saved == old(saved)
              else tags == old(tags)[i := WithTagId(data, id)] && notes == old(notes) && categories == old(categories)
                   && Saved(old(saved), r.Pass?) && (r.Fail? ==> r.error == SaveRefused)
      ensures didSetup == old(didSetup)
    {
      var index := IndexById(tags, TagId, id);
      r := Pass;
      if index != -1 {
        tags := tags[index := WithTagId(data, id)];
        var ok := Save();
        if !ok {
          r := Fail(SaveRefused);
        }
      }
    }

    /** `updateCategory(id, data)`. */
    method UpdateCategory(id: Id, data: CategoryProperties) returns (r: Outcome<StoreError>)
      modifies this
      ensures var i := FirstIndex(old(categories), CategoryId, id);
              if i == -1 then r == Pass && Snapshot() == old(Snapshot()) && saved == old(saved)
              else categories == old(categories)[i := WithCategoryId(data, id)] && notes == old(notes) && tags == old(tags)
                   && Saved(old(saved), r.Pass?) && (r.Fail? ==> r.error == SaveRefused)
      ensures didSetup == old(didSetup)
    {
      var index := IndexById(categories, CategoryId, id);
      r := Pass;
      if index != -1 {
        categories := categories[index := WithCategoryId(data, id)];
        var ok := Save();
        if !ok {
          r := Fail(SaveRefused);
        }
      }
    }

    /** `addTagToNote(noteId, tagId)`: the tag id is appended to the first note with the
        id, even when already there; an unknown note fails before any change, and a refused
        write rejects after it. */
    method AddTagToNote(noteId: Id, tagId: Id) returns (r: Outcome<StoreError>)
      modifies this
      ensures var i := FirstIndex(old(notes), NoteId, noteId);
              if i == -1 then r == Fail(UnknownNote) && Snapshot() == old(Snapshot()) && saved == old(saved)
              else notes == old(notes)[i := old(notes[i]).(tagsId := old(notes[i].tagsId) + [tagId])]
                   && tags == old(tags) && categories == old(categories)
                   && Saved(old(saved), r.Pass?) && (r.Fail? ==> r.error == SaveRefused)
      ensures didSetup == old(didSetup)
    {
      var index := IndexById(notes, NoteId, noteId);
      if index == -1 {
        return Fail(UnknownNote);
      }
      notes := notes[index := notes[index].(tagsId := notes[index].tagsId + [tagId])];
      var ok := Save();
      r := if ok then Pass else Fail(SaveRefused);
    }

    /** `removeTagFromNote(noteId, tagId)`: the note's tag list is spliced at the tag's
        `indexOf`; an unknown note fails before any change, and a refused write rejects
        after it. */
    method RemoveTagFromNote(noteId: Id, tagId: Id) returns (r: Outcome<StoreError>)
      modifies this
      ensures var i := FirstIndex(old(notes), NoteId, noteId);
              if i == -1 then r == Fail(UnknownNote) && Snapshot() == old(Snapshot()) && saved == old(saved)
              else notes == old(notes)[i := old(notes[i]).(tagsId := SpliceOne(old(notes[i].tagsId), IndexOf(old(notes[i].tagsId), tagId)))]
                   && tags == old(tags) && categories == old(categories)
                   && Saved(old(saved), r.Pass?) && (r.Fail? ==> r.error == SaveRefused)
      ensures didSetup == old(didSetup)
    {
      var index := IndexById(notes, NoteId, noteId);
      if index == -1 {
        return Fail(UnknownNote);
      }
      var tagIndex := IndexOf(notes[index].tagsId, tagId);
      notes := notes[index := notes[index].(tagsId := SpliceOne(notes[index].tagsId, tagIndex))];
      var ok := Save();
      r := if ok then Pass else Fail(SaveRefused);
    }
  }
}
