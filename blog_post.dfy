/**
 * The post service of the blog: create, look up, partially update and remove posts.
 *
 * A post's content is a map from field name to value; a field missing from the map is
 * `undefined`. An update names, per field, either a value or `undefined`. The update
 * copies onto the stored post every field that is defined and differs from the stored
 * value, and writes the repository only when some field changed.
 */
module BlogPost {
  import opened Wrappers

  type PostId = nat
  type Field = string

  /**
   * A field value as JavaScript's strict equality `!==` sees it: `null`, strings,
   * integral numbers and booleans compare by type and content, objects (arrays, dates)
   * by the address they live at. For these values datatype equality on Value agrees
   * with `===`.
   */
  datatype Value =
    | Null
    | Text(text: string)
    | Number(number: int)
    | Boolean(boolean: bool)
    | Reference(address: nat)

  /** The fields of a post; a field absent from the map is undefined. */
  type Fields = map<Field, Value>

  /**
   * The entries of an update object: Some(v) for a defined field, None for `undefined`
   * only. A field set to `null` is defined: it is Some(Null), and it is copied.
   */
  type UpdateFields = map<Field, Option<Value>>

  datatype PostEntity = PostEntity(id: PostId, fields: Fields)

  datatype PostError =
    | NotFound(id: PostId)      // the repository rejected the id (lookup or delete)
    | NullPropertyRead          // a field was read from the `null` that findById resolved to

  /** The update defines field `k`. */
  predicate Defined(update: UpdateFields, k: Field) {
    k in update && update[k].Some?
  }

  /** Some field of the update is defined. */
  predicate AnyDefined(update: UpdateFields) {
    exists k :: k in update && Defined(update, k)
  }

  /** Some defined field of the update differs (`!==`) from the stored value. */
  predicate Differs(stored: Fields, update: UpdateFields) {
    exists k :: k in update && Defined(update, k) && (k !in stored || stored[k] != update[k].value)
  }

  /** The stored fields with every defined field of the update copied over them. */
  function Merge(stored: Fields, update: UpdateFields): (r: Fields)
    ensures r.Keys == stored.Keys + set k | k in update && update[k].Some?
    ensures forall k :: Defined(update, k) ==> r[k] == update[k].value
    ensures forall k :: k in stored && !Defined(update, k) ==> r[k] == stored[k]
  {
    map k | k in stored.Keys + (set k | k in update && update[k].Some?) ::
      if Defined(update, k) then update[k].value else stored[k]
  }

  /** The update entries whose field names are in `done`. */
  function Restrict(update: UpdateFields, done: set<Field>): (r: UpdateFields)
    ensures r.Keys == update.Keys * done
    ensures forall k :: k in r ==> r[k] == update[k]
  {
    map k | k in update && k in done :: update[k]
  }

  /** Merging changes nothing exactly when no defined field differs. */
  lemma NoDifferenceIffNoChange(stored: Fields, update: UpdateFields)
    ensures Merge(stored, update) == stored <==> !Differs(stored, update)
  {
  }

  /** Applying the same update a second time finds no difference and changes nothing. */
  lemma MergeIdempotent(stored: Fields, update: UpdateFields)
    ensures !Differs(Merge(stored, update), update)
    ensures Merge(Merge(stored, update), update) == Merge(stored, update)
  {
  }

  /** One step of the merge loop: handling field `key`, not yet handled, extends the merge by it. */
  lemma MergeStep(existing: Fields, update: UpdateFields, done: set<Field>, key: Field)
    requires key in update && key !in done
    ensures var before := Merge(existing, Restrict(update, done));
            Merge(existing, Restrict(update, done + {key}))
            == if Defined(update, key) then before[key := update[key].value] else before
  {
  }

  /** One step of the merge loop, for the change flag: the new field differs, or an earlier one did. */
  lemma DiffersStep(existing: Fields, update: UpdateFields, done: set<Field>, key: Field)
    requires key in update && key !in done
    ensures Differs(existing, Restrict(update, done + {key}))
            <==> Differs(existing, Restrict(update, done))
                 || (Defined(update, key) && (key !in existing || existing[key] != update[key].value))
  {
  }

  /**
   * The loop of the update: walk the update's entries, copy each defined field that
   * differs from the current value, and note that something changed. The order in which
   * the entries are visited is left open; the result does not depend on it.
   */
  method MergeUpdate(existing: Fields, update: UpdateFields) returns (merged: Fields, hasChanges: bool)
    ensures merged == Merge(existing, update)
    ensures hasChanges == Differs(existing, update)
  {
    merged := existing;
    hasChanges := false;
    var pending := update.Keys;
    ghost var done: set<Field> := {};
    assert Restrict(update, {}) == map[];
    while pending != {}
      invariant pending + done == update.Keys && pending !! done
      invariant merged == Merge(existing, Restrict(update, done))
      invariant hasChanges == Differs(existing, Restrict(update, done))
      decreases pending
    {
      var key :| key in pending;
      MergeStep(existing, update, done, key);
      DiffersStep(existing, update, done, key);
      assert key in merged <==> key in existing;
      assert key in merged ==> merged[key] == existing[key];
      var value := update[key];
      if value.Some? && (key !in merged || merged[key] != value.value) {
        merged := merged[key := value.value];
        hasChanges := true;
      }
      pending := pending - {key};
      done := done + {key};
    }
    assert Restrict(update, done) == update;
  }

  /** The post repository: stored posts by id and a log of every `update` call. */
  class PostRepository {
    var posts: map<PostId, Fields>
    var writes: seq<PostEntity>
    var nextId: PostId

    ghost predicate Valid()
      reads this
    {
      forall id :: id in posts ==> id < nextId
    }

    constructor ()
      ensures Valid() && posts == map[] && writes == []
    {
      posts, writes, nextId := map[], [], 0;
    }

    /** Stores a new post under an id no stored post has. */
    method Save(fields: Fields) returns (id: PostId)
      requires Valid()
      modifies this
      ensures Valid()
      ensures id !in old(posts)
      ensures posts == old(posts)[id := fields] && writes == old(writes)
    {
      id := nextId;
      posts := posts[id := fields];
      nextId := nextId + 1;
    }

    /**
     * The post stored under `id`. For an id with no post the lookup either resolves to
     * `null` (None) or rejects with NotFound; which of the two is left open.
     */
    method FindById(id: PostId) returns (r: Result<Option<PostEntity>, PostError>)
      ensures id in posts ==> r == Success(Some(PostEntity(id, posts[id])))
      ensures id !in posts ==> r == Success(None) || r == Failure(NotFound(id))
    {
      var rejectsMissing: bool := *;
      if id in posts {
        r := Success(Some(PostEntity(id, posts[id])));
      } else if rejectsMissing {
        r := Failure(NotFound(id));
      } else {
        r := Success(None);
      }
    }

    /** Writes a post back under its id and logs the write. */
    method Update(post: PostEntity)
      requires Valid()
      modifies this
      ensures Valid()
      ensures posts == old(posts)[post.id := post.fields]
      ensures writes == old(writes) + [post]
    {
      posts := posts[post.id := post.fields];
      writes := writes + [post];
      if post.id >= nextId {
        nextId := post.id + 1;
      }
    }

    /**
     * Deletes the post stored under `id`. The call rejects when there is no such post,
     * and may also reject for reasons of the store itself (chosen freely here); a
     * rejected call deletes nothing.
     */
    method DeleteById(id: PostId) returns (deleted: bool)
      requires Valid()
      modifies this
      ensures Valid()
      ensures id !in old(posts) ==> !deleted
      ensures deleted ==> posts == old(posts) - {id}
      ensures !deleted ==> posts == old(posts)
      ensures writes == old(writes)
    {
      var storeFailed: bool := *;
      deleted := id in posts && !storeFailed;
      if deleted {
        posts := posts - {id};
      }
    }
  }

  class PostService {
    const repository: PostRepository

    constructor (repository: PostRepository)
      ensures this.repository == repository
    {
      this.repository := repository;
    }

    /** Saves a new post and returns that same entity, now carrying its id. */
    method Create(fields: Fields) returns (post: PostEntity)
      requires repository.Valid()
      modifies repository
      ensures repository.Valid()
      ensures post.fields == fields && post.id !in old(repository.posts)
      ensures repository.posts == old(repository.posts)[post.id := fields]
      ensures repository.writes == old(repository.writes)
    {
      var id := repository.Save(fields);
      post := PostEntity(id, fields);
    }

    /** The post stored under `id`; for a missing id, `null` (None) or NotFound, as the lookup gives. */
    method FindOne(id: PostId) returns (r: Result<Option<PostEntity>, PostError>)
      ensures id in repository.posts ==> r == Success(Some(PostEntity(id, repository.posts[id])))
      ensures id !in repository.posts ==> r == Success(None) || r == Failure(NotFound(id))
    {
      r := repository.FindById(id);
    }

    /**
     * Partial update. The stored post gets every defined, differing field of the update;
     * the repository is written once when something changed and not at all otherwise;
     * the merged post is returned either way. For a missing post, a findById that
     * rejects makes the update reject with NotFound; one that resolves to `null` makes
     * reading the first defined field throw, and with no defined field `null` is returned.
     */
    method Update(id: PostId, update: UpdateFields) returns (r: Result<Option<PostEntity>, PostError>)
      requires repository.Valid()
      modifies repository
      ensures repository.Valid()
      ensures id !in old(repository.posts) ==>
                && (|| r == Failure(NotFound(id))
                    || r == (if AnyDefined(update) then Failure(NullPropertyRead) else Success(None)))
                && repository.posts == old(repository.posts)
                && repository.writes == old(repository.writes)
      ensures id in old(repository.posts) ==>
                var merged := PostEntity(id, Merge(old(repository.posts)[id], update));
                && r == Success(Some(merged))
                && if Differs(old(repository.posts)[id], update) then
                     && repository.posts == old(repository.posts)[id := merged.fields]
                     && repository.writes == old(repository.writes) + [merged]
                   else
                     && repository.posts == old(repository.posts)
                     && repository.writes == old(repository.writes)
    {
      var found := repository.FindById(id);
      if found.Failure? {
        return Failure(found.error);
      }
      var existsPost := found.value;
      if existsPost.None? {
        if AnyDefined(update) {
          return Failure(NullPropertyRead);
        }
        return Success(None);
      }
      var merged, hasChanges := MergeUpdate(existsPost.value.fields, update);
      var post := PostEntity(id, merged);
      if !hasChanges {
        NoDifferenceIffNoChange(existsPost.value.fields, update);
        return Success(Some(post));
      }
      repository.Update(post);
      r := Success(Some(post));
    }

    /**
     * The same update applied twice to a stored post returns the same result both times,
     * and the second call writes nothing: the final state is that of a single update.
     */
    method UpdateTwice(id: PostId, update: UpdateFields)
      returns (first: Result<Option<PostEntity>, PostError>, second: Result<Option<PostEntity>, PostError>)
      requires repository.Valid()
      modifies repository
      ensures repository.Valid()
      ensures id in old(repository.posts) ==> first == second
      ensures id !in old(repository.posts) ==>
                && repository.posts == old(repository.posts)
                && repository.writes == old(repository.writes)
      ensures id in old(repository.posts) ==>
                var merged := PostEntity(id, Merge(old(repository.posts)[id], update));
                if Differs(old(repository.posts)[id], update) then
                  && repository.posts == old(repository.posts)[id := merged.fields]
                  && repository.writes == old(repository.writes) + [merged]
                else
                  && repository.posts == old(repository.posts)
                  && repository.writes == old(repository.writes)
    {
      first := Update(id, update);
      ghost var posts, writes := repository.posts, repository.writes;
      if id in repository.posts {
        MergeIdempotent(old(repository.posts)[id], update);
      }
      second := Update(id, update);
      assert repository.posts == posts && repository.writes == writes;
    }

    /** Removes a post; every rejection of the repository delete becomes NotFound. */
    method Remove(id: PostId) returns (r: Outcome<PostError>)
      requires repository.Valid()
      modifies repository
      ensures repository.Valid()
      ensures id !in old(repository.posts) ==> r == Fail(NotFound(id))
      ensures r.Fail? ==> r == Fail(NotFound(id)) && repository.posts == old(repository.posts)
      ensures r.Pass? ==> repository.posts == old(repository.posts) - {id}
      ensures repository.writes == old(repository.writes)
    {
      var deleted := repository.DeleteById(id);
      if !deleted {
        return Fail(NotFound(id));
      }
      r := Pass;
    }
  }
}
