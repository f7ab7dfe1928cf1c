/**
 * The records the storage back ends exchange with the client (src/api-providers/Api.ts,
 * src/structures/Note.ts, src/objects/Tag.ts, src/objects/Category.ts), the client's
 * cache of live objects (src/SoftWikiClient.ts) as the handlers see it, and the array
 * operations of JavaScript that the back ends rely on.
 */
module Records {
  import opened Wrappers

  type Id = string

  /** A tag colour; the source keeps JavaScript numbers, the model keeps integers. */
  datatype Color = Color(r: int, g: int, b: int, a: Option<int>)

  datatype NoteProperties = NoteProperties(title: string, content: string, tagsId: seq<Id>, categoryId: Option<Id>)
  datatype TagProperties = TagProperties(name: string, color: Color)
  datatype CategoryProperties = CategoryProperties(name: string)

  /** A stored note, tag or category: its properties together with its id. */
  datatype NoteModel = NoteModel(id: Id, title: string, content: string, tagsId: seq<Id>, categoryId: Option<Id>)
  {
    function Properties(): NoteProperties
    {
      NoteProperties(title, content, tagsId, categoryId)
    }
  }
  datatype TagModel = TagModel(id: Id, name: string, color: Color)
  datatype CategoryModel = CategoryModel(id: Id, name: string)

  /** The `id` field of each kind of record. */
  function NoteId(n: NoteModel): Id { n.id }
  function TagId(t: TagModel): Id { t.id }
  function CategoryId(c: CategoryModel): Id { c.id }

  /** `{...data, id}`. */
  function WithNoteId(data: NoteProperties, id: Id): NoteModel
  {
    NoteModel(id, data.title, data.content, data.tagsId, data.categoryId)
  }

  function WithTagId(data: TagProperties, id: Id): TagModel
  {
    TagModel(id, data.name, data.color)
  }

  function WithCategoryId(data: CategoryProperties, id: Id): CategoryModel
  {
    CategoryModel(id, data.name)
  }

  /**
   * The client's cache of live objects (`client.cache`), each table in the order
   * `Object.values` visits it. Its keys are the objects' ids.
   */
  datatype ClientCache = ClientCache(notes: seq<NoteModel>, tags: seq<TagModel>, categories: seq<CategoryModel>)
  {
    /** `cache.notes[id]`. */
    function Note(id: Id): (r: Option<NoteModel>)
      ensures r.Some? ==> r.value in notes && r.value.id == id
      ensures r.None? <==> forall n :: n in notes ==> n.id != id
    {
      FindNote(notes, id)
    }

    /** `cache.tags[id]`. */
    function Tag(id: Id): (r: Option<TagModel>)
      ensures r.Some? ==> r.value in tags && r.value.id == id
      ensures r.None? <==> forall t :: t in tags ==> t.id != id
    {
      FindTag(tags, id)
    }

    /** `cache.categories[id]`. */
    function Category(id: Id): (r: Option<CategoryModel>)
      ensures r.Some? ==> r.value in categories && r.value.id == id
      ensures r.None? <==> forall c :: c in categories ==> c.id != id
    {
      FindCategory(categories, id)
    }
  }

  function FindNote(notes: seq<NoteModel>, id: Id): (r: Option<NoteModel>)
    ensures r.Some? ==> r.value in notes && r.value.id == id
    ensures r.None? <==> forall n :: n in notes ==> n.id != id
  {
    if notes == [] then None
    else if notes[0].id == id then Some(notes[0])
    else FindNote(notes[1..], id)
  }

  function FindTag(tags: seq<TagModel>, id: Id): (r: Option<TagModel>)
    ensures r.Some? ==> r.value in tags && r.value.id == id
    ensures r.None? <==> forall t :: t in tags ==> t.id != id
  {
    if tags == [] then None
    else if tags[0].id == id then Some(tags[0])
    else FindTag(tags[1..], id)
  }

  function FindCategory(categories: seq<CategoryModel>, id: Id): (r: Option<CategoryModel>)
    ensures r.Some? ==> r.value in categories && r.value.id == id
    ensures r.None? <==> forall c :: c in categories ==> c.id != id
  {
    if categories == [] then None
    else if categories[0].id == id then Some(categories[0])
    else FindCategory(categories[1..], id)
  }

  // ---------------------------------------------------------------------------------
  // JavaScript array operations
  // ---------------------------------------------------------------------------------

  /** `Array.prototype.indexOf`: the first position holding `x`, or -1. */
  function IndexOf(s: seq<Id>, x: Id): (r: int)
    ensures r == -1 <==> x !in s
    ensures r != -1 ==> 0 <= r < |s| && s[r] == x && x !in s[..r]
  {
    if s == [] then -1
    else if s[0] == x then 0
    else
      var k := IndexOf(s[1..], x);
      assert s[1..][..if k == -1 then 0 else k] == s[1..if k == -1 then 1 else k + 1];
      if k == -1 then -1 else k + 1
  }

  /** `findIndex(x => x.id === id)`: the position of the first element of `s` whose id is
      `id`, or -1. */
  function FirstIndex<T>(s: seq<T>, idOf: T -> Id, id: Id): (r: int)
    ensures -1 <= r < |s|
    ensures r == -1 <==> forall k :: 0 <= k < |s| ==> idOf(s[k]) != id
    ensures r != -1 ==> idOf(s[r]) == id && forall k :: 0 <= k < r ==> idOf(s[k]) != id
  {
    if s == [] then -1
    else if idOf(s[0]) == id then 0
    else
      var k := FirstIndex(s[1..], idOf, id);
      assert forall j :: 1 <= j < |s| ==> s[j] == s[1..][j - 1];
      if k == -1 then -1 else k + 1
  }

  /** `s` without the element at `i` (`splice(i, 1)` with a valid index). */
  function RemoveAt<T>(s: seq<T>, i: nat): seq<T>
    requires i < |s|
  {
    s[..i] + s[i + 1..]
  }

  /** `s.splice(start, 1)` on what remains: a negative start counts from the end, a start
      before the beginning removes the first element, a start past the end removes nothing. */
  function SpliceOne<T>(s: seq<T>, start: int): (r: seq<T>)
    ensures -|s| <= start < |s| ==>
              var at := if start < 0 then |s| + start else start;
              && |r| == |s| - 1
              && multiset(r) + multiset{s[at]} == multiset(s)
              && (forall i :: 0 <= i < at ==> r[i] == s[i])
              && (forall i :: at <= i < |r| ==> r[i] == s[i + 1])
    ensures start >= |s| ==> r == s
    ensures start < -|s| ==> r == if s == [] then [] else s[1..]
  {
    var at := if start < 0 then (if |s| + start < 0 then 0 else |s| + start) else start;
    if at < |s| then
      assert s == s[..at] + [s[at]] + s[at + 1..];
      s[..at] + s[at + 1..]
    else s
  }

  /** `s` without its first `x`, if any. */
  function RemoveFirst(s: seq<Id>, x: Id): (r: seq<Id>)
  {
    var i := IndexOf(s, x);
    if i == -1 then s else s[..i] + s[i + 1..]
  }

  /** Removing the first occurrence takes exactly one `x` away and nothing else. */
  lemma RemoveFirstCounts(s: seq<Id>, x: Id)
    ensures x in s ==> multiset(RemoveFirst(s, x)) == multiset(s) - multiset{x}
    ensures x !in s ==> RemoveFirst(s, x) == s
  {
    var i := IndexOf(s, x);
    if i != -1 {
      assert s == s[..i] + [x] + s[i + 1..];
      assert multiset(s) == multiset(s[..i]) + multiset{x} + multiset(s[i + 1..]);
    }
  }

  /** A list without repetitions. */
  predicate Distinct(s: seq<Id>)
  {
    forall i, j :: 0 <= i < j < |s| ==> s[i] != s[j]
  }

  /** Removing an element keeps a list without repetitions free of them, and the
      element is then gone. */
  lemma RemoveFirstDistinct(s: seq<Id>, x: Id)
    requires Distinct(s)
    ensures Distinct(RemoveFirst(s, x)) && x !in RemoveFirst(s, x)
  {
    var i := IndexOf(s, x);
    if i != -1 {
      var r := s[..i] + s[i + 1..];
      forall a, b | 0 <= a < b < |r| ensures r[a] != r[b] {
        var a' := if a < i then a else a + 1;
        var b' := if b < i then b else b + 1;
        assert r[a] == s[a'] && r[b] == s[b'];
      }
      forall a | 0 <= a < |r| ensures r[a] != x {
        var a' := if a < i then a else a + 1;
        assert r[a] == s[a'] && s[i] == x;
      }
    }
  }

  /** Appending an absent element keeps a list without repetitions free of them. */
  lemma AppendDistinct(s: seq<Id>, x: Id)
    requires Distinct(s) && x !in s
    ensures Distinct(s + [x])
  {
  }
}
