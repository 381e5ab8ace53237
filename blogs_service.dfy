/** The in-memory blog store: a module-level array of blog records and a
    `lastId` counter. Every operation that takes an id parses it first and
    throws 'Invalid blog ID' when it does not parse and 'Blog not found' when
    no record carries it. The 300 ms delay before each operation is not part
    of this model; `now` stands for `new Date().toISOString()`. */
module BlogsService {
  import opened JsValues
  import opened Seqs
  import opened RecordStore
  import JsStrings

  /** The two errors the store throws: 'Invalid blog ID' when the id does not
      parse, 'Blog not found' when no record carries it. */
  datatype BlogError = InvalidId | NotFound

  /** A resolved call (a copy of a record) or a thrown error. */
  datatype Outcome = Ok(blog: Record) | Thrown(error: BlogError)

  /** `now.split('T')[0]`: the date part of an ISO timestamp. */
  function DatePart(now: string): (d: string)
    ensures 'T' !in d
    ensures |d| <= |now| && d == now[..|d|]
    ensures |d| < |now| ==> now[|d|] == 'T'
  {
    var parts := JsStrings.Split(now, 'T');
    JsStrings.JoinSplit(now, 'T');
    SplitHeadIsPrefix(now);
    parts[0]
  }

  lemma {:induction false} SplitHeadIsPrefix(s: string)
    ensures var d := JsStrings.Split(s, 'T')[0];
      |d| <= |s| && d == s[..|d|] && (|d| < |s| ==> s[|d|] == 'T')
  {
    if s != [] {
      SplitHeadIsPrefix(s[1..]);
    }
  }

  /** The fields `create` always sets itself, whatever the caller passed. */
  const CreateStamped: set<string> := {"Id", "publishDate", "createdAt", "updatedAt"}

  /** `{ ...blogData, Id: id, publishDate, createdAt, updatedAt }`. */
  function NewBlog(id: int, blogData: Fields, now: string): (b: Record)
    ensures b.Id == id && "Id" !in b.fields
    ensures b.fields.Keys == blogData.Keys - {"Id"} + {"publishDate", "createdAt", "updatedAt"}
    ensures b.fields["publishDate"] == Str(DatePart(now))
    ensures b.fields["createdAt"] == Str(now) && b.fields["updatedAt"] == Str(now)
    ensures forall k :: k in blogData && k !in CreateStamped ==> b.fields[k] == blogData[k]
  {
    Record(id, (blogData - {"Id"}) + map["publishDate" := Str(DatePart(now)), "createdAt" := Str(now), "updatedAt" := Str(now)])
  }

  /** `{ ...blog, ...updateData, Id: id, updatedAt }`. */
  function UpdatedBlog(blog: Record, id: int, updateData: Fields, now: string): (b: Record)
    ensures b.Id == id && "Id" !in b.fields
    ensures b.fields.Keys == blog.fields.Keys + updateData.Keys - {"Id"} + {"updatedAt"}
    ensures b.fields["updatedAt"] == Str(now)
    ensures forall k :: k in updateData && k !in {"Id", "updatedAt"} ==> b.fields[k] == updateData[k]
    ensures forall k :: k in blog.fields && k !in updateData && k !in {"Id", "updatedAt"} ==> b.fields[k] == blog.fields[k]
  {
    Record(id, ((blog.fields + updateData) - {"Id"})["updatedAt" := Str(now)])
  }

  class BlogStore {
    /** The `blogs` array. */
    var blogs: seq<Record>
    /** The `lastId` counter. */
    var lastId: int
    /** Every id this store has held or handed out. */
    ghost var issued: set<int>

    ghost predicate Valid()
      reads this
    {
      Consistent(blogs, lastId, issued)
    }

    /** Module initialisation: the seed records and `lastId` at their largest id. */
    constructor (seed: seq<Record>)
      requires |seed| > 0 && UniqueIds(seed)
      requires forall i :: 0 <= i < |seed| ==> "Id" !in seed[i].fields
      ensures Valid()
      ensures blogs == seed && lastId == MaxId(seed) && issued == Ids(seed)
    {
      blogs := seed;
      lastId := MaxId(seed);
      issued := Ids(seed);
      new;
      SeedConsistent(seed);
    }

    /** `getAll`: a copy of every record, in store order. */
    method GetAll() returns (all: seq<Record>)
      ensures all == blogs
    {
      all := blogs;
    }

    /** `getById`. `id` is `parseInt(id)`, None standing for NaN. */
    method GetById(id: Option<int>) returns (res: Outcome)
      ensures id.None? ==> res == Thrown(InvalidId)
      ensures id.Some? && FindById(blogs, id.value).None? ==> res == Thrown(NotFound)
      ensures id.Some? && FindById(blogs, id.value).Some? ==> res == Ok(blogs[FindById(blogs, id.value).value])
      ensures res.Ok? ==> id.Some? && res.blog.Id == id.value
    {
      if id.None? {
        return Thrown(InvalidId);
      }
      var index := FindById(blogs, id.value);
      if index.None? {
        return Thrown(NotFound);
      }
      res := Ok(blogs[index.value]);
    }

    /** `create`: the next id, fresh timestamps, appended at the end. */
    method Create(blogData: Fields, now: string) returns (b: Record)
      requires Valid()
      modifies this
      ensures Valid()
      ensures lastId == old(lastId) + 1
      ensures b == NewBlog(lastId, blogData, now)
      ensures blogs == old(blogs) + [b]
      ensures forall i :: 0 <= i < |old(blogs)| ==> old(blogs)[i].Id < b.Id
      ensures b.Id !in old(issued) && issued == old(issued) + {b.Id}
    {
      b := NewBlog(lastId + 1, blogData, now);
      AppendKeepsConsistent(blogs, lastId, issued, b);
      lastId := lastId + 1;
      blogs := blogs + [b];
      issued := issued + {b.Id};
    }

    /** `update`: merges `updateData` into the record with that id, in place. */
    method Update(id: Option<int>, updateData: Fields, now: string) returns (res: Outcome)
      requires Valid()
      modifies this
      ensures Valid() && lastId == old(lastId) && issued == old(issued)
      ensures id.None? ==> res == Thrown(InvalidId) && blogs == old(blogs)
      ensures id.Some? && FindById(old(blogs), id.value).None? ==> res == Thrown(NotFound) && blogs == old(blogs)
      ensures id.Some? && FindById(old(blogs), id.value).Some? ==>
        var i := FindById(old(blogs), id.value).value;
        && res == Ok(UpdatedBlog(old(blogs)[i], id.value, updateData, now))
        && blogs == old(blogs)[i := res.blog]
    {
      if id.None? {
        return Thrown(InvalidId);
      }
      var index := FindById(blogs, id.value);
      if index.None? {
        return Thrown(NotFound);
      }
      var i := index.value;
      var updated := UpdatedBlog(blogs[i], id.value, updateData, now);
      ReplaceKeepsConsistent(blogs, lastId, issued, i, updated);
      blogs := blogs[i := updated];
      res := Ok(updated);
    }

    /** `delete`: splices the record with that id out and returns it. */
    method Delete(id: Option<int>) returns (res: Outcome)
      requires Valid()
      modifies this
      ensures Valid() && lastId == old(lastId) && issued == old(issued)
      ensures id.None? ==> res == Thrown(InvalidId) && blogs == old(blogs)
      ensures id.Some? && FindById(old(blogs), id.value).None? ==> res == Thrown(NotFound) && blogs == old(blogs)
      ensures id.Some? && FindById(old(blogs), id.value).Some? ==>
        var i := FindById(old(blogs), id.value).value;
        && res == Ok(old(blogs)[i])
        && blogs == RemoveAt(old(blogs), i)
        && id.value !in Ids(blogs)
    {
      if id.None? {
        return Thrown(InvalidId);
      }
      var index := FindById(blogs, id.value);
      if index.None? {
        return Thrown(NotFound);
      }
      var i := index.value;
      res := Ok(blogs[i]);
      RemoveKeepsConsistent(blogs, lastId, issued, i);
      blogs := RemoveAt(blogs, i);
    }
  }

  /** A `delete` that succeeds followed by a `create`: the new record never
      reuses the deleted id, because `lastId` only grows. */
  method DeleteThenCreate(store: BlogStore, id: int, blogData: Fields, now: string)
    returns (deleted: Outcome, created: Record)
    requires store.Valid()
    modifies store
    ensures store.Valid()
    ensures deleted.Ok? ==> deleted.blog.Id == id && created.Id != id
    ensures created.Id > old(store.lastId)
  {
    deleted := store.Delete(Some(id));
    created := store.Create(blogData, now);
  }
}
