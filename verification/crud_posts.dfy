/** api/crud/posts.py on the store: tags, posts, comments and reactions
    follow the common soft-delete pattern; a post's tags are attached through
    a batch lookup. */
module PostsCrud {
  import opened Wrappers
  import opened Ascii
  import opened Json
  import opened Store
  import Fields
  import PostSchemas

  // ---------------------------------------------------------------------------
  // Batch tag lookup

  /** The elements of a request, as a set. */
  function Elems(xs: seq<int>): (s: set<int>)
    ensures forall x :: x in s <==> x in xs
  {
    set x | x in xs
  }

  predicate Distinct(xs: seq<int>) {
    forall i, j :: 0 <= i < j < |xs| ==> xs[i] != xs[j]
  }

  /** A request has at least as many entries as distinct ids, and exactly as
      many when no id repeats. */
  lemma {:induction false} ElemsCard(xs: seq<int>)
    ensures |Elems(xs)| <= |xs|
    ensures |Elems(xs)| == |xs| <==> Distinct(xs)
  {
    if |xs| > 0 {
      var rest := xs[1..];
      ElemsCard(rest);
      assert Elems(xs) == {xs[0]} + Elems(rest);
      if xs[0] in rest {
        assert Elems(xs) == Elems(rest);
        var j :| 0 <= j < |rest| && rest[j] == xs[0];
        assert xs[0] == xs[j + 1];
      } else {
        assert Distinct(xs) <==> Distinct(rest) by {
          if Distinct(rest) {
            forall i, j | 0 <= i < j < |xs|
              ensures xs[i] != xs[j]
            {
              if i > 0 {
                assert xs[i] == rest[i - 1] && xs[j] == rest[j - 1];
              } else {
                assert xs[j] in rest;
              }
            }
          }
          if Distinct(xs) {
            forall i, j | 0 <= i < j < |rest|
              ensures rest[i] != rest[j]
            {
              assert rest[i] == xs[i + 1] && rest[j] == xs[j + 1];
            }
          }
        }
      }
    }
  }

  /** Ascending ids never repeat. */
  lemma IncreasingDistinct(xs: seq<nat>)
    requires Increasing(xs)
    ensures Distinct(xs)
  {
  }

  /** The active rows a request names, ascending:
      `WHERE id IN (...) AND NOT deleted`. */
  function Requested(t: Table, ids: seq<int>): (r: seq<nat>)
    ensures forall x :: x in r <==> x in t.rows && !t.rows[x].deleted && x as int in ids
    ensures Increasing(r)
  {
    FilterIncreasing(Ids(t), x => x in t.rows && !t.rows[x].deleted && x as int in ids);
    Filter(Ids(t), x => x in t.rows && !t.rows[x].deleted && x as int in ids)
  }

  /** The ids a tag request names that are not active tags: the set the 404
      message reports. */
  function Missing(t: Table, ids: seq<int>): (m: set<int>)
    ensures forall x :: x in m <==> x in ids && GetActive(t, x).None?
  {
    set x | x in ids && GetActive(t, x).None?
  }

  /** `get_tags_by_ids`: the active tags the request names, or 404 when
      their number differs from the request's length. */
  function TagsByIds(t: Table, ids: seq<int>): (r: Result<seq<nat>>)
    ensures r.Ok? <==> Distinct(ids) && forall i :: 0 <= i < |ids| ==> GetActive(t, ids[i]).Some?
    ensures r.Ok? ==> Increasing(r.value) && forall x :: x in r.value <==> x as int in ids
    ensures r.Err? ==> r.error.Http? && r.error.status == 404
  {
    var found := Requested(t, ids);
    TagsByIdsCard(t, ids, found);
    if |found| != |ids| then Err(Http(404, "Tags not found")) else Ok(found)
  }

  lemma TagsByIdsCard(t: Table, ids: seq<int>, found: seq<nat>)
    requires found == Requested(t, ids)
    ensures Increasing(found)
    ensures |found| == |ids| <==> Distinct(ids) && forall i :: 0 <= i < |ids| ==> GetActive(t, ids[i]).Some?
  {
    IncreasingDistinct(found);
    var allActive := forall i :: 0 <= i < |ids| ==> GetActive(t, ids[i]).Some?;
    FoundWithin(t, ids, found);
    if allActive {
      FoundAll(t, ids, found);
      CountFound(ids, found, allActive, 0);
    } else {
      var i :| 0 <= i < |ids| && GetActive(t, ids[i]).None?;
      assert ids[i] !in found;
      CountFound(ids, found, allActive, ids[i]);
    }
  }

  /** The counting argument: a duplicate-free answer within the request is as
      long as the request exactly when it covers the request and the request
      has no duplicate. */
  lemma CountFound(ids: seq<int>, found: seq<int>, covered: bool, absent: int)
    requires Distinct(found) && Elems(found) <= Elems(ids)
    requires covered ==> Elems(found) == Elems(ids)
    requires !covered ==> absent in ids && absent !in found
    ensures |found| == |ids| <==> Distinct(ids) && covered
  {
    ElemsCard(found);
    ElemsCard(ids);
    if !covered {
      var a, b := Elems(found), Elems(ids);
      assert b == a + (b - a) && a * (b - a) == {};
      assert {absent} <= b - a;
      assert |b| > |a|;
    }
  }

  /** Every found id was requested. */
  lemma FoundWithin(t: Table, ids: seq<int>, found: seq<nat>)
    requires found == Requested(t, ids)
    ensures Elems(found) <= Elems(ids)
  {
  }

  /** With every request active, every request is found. */
  lemma FoundAll(t: Table, ids: seq<int>, found: seq<nat>)
    requires found == Requested(t, ids)
    requires forall i :: 0 <= i < |ids| ==> GetActive(t, ids[i]).Some?
    ensures Elems(found) == Elems(ids)
  {
    forall x | x in Elems(ids)
      ensures x in Elems(found)
    {
      var i :| 0 <= i < |ids| && ids[i] == x;
      assert GetActive(t, ids[i]).Some?;
      var n: nat := x;
      assert n in Ids(t);
    }
  }

  /** A request naming an existing tag twice fails although nothing is
      missing. */
  lemma DuplicateRequestFails(t: Table, id: nat)
    requires GetActive(t, id).Some?
    ensures TagsByIds(t, [id, id]).Err? && Missing(t, [id, id]) == {}
  {
    var xs: seq<int> := [id, id];
    assert xs[0] == xs[1];
    assert Missing(t, xs) == {};
  }

  // ---------------------------------------------------------------------------
  // Posts with tags

  /** A post's tags: ids of tag rows, in the order they were attached. */
  type PostTags = map<nat, seq<nat>>

  /** `create_post` as it is meant to work: the post is stored with the slug
      of its title and, when tags are requested, linked to them; a failed tag
      lookup stops the creation. Other posts and their tags are untouched. */
  function CreatePost(posts: Table, tags: Table, links: PostTags, data: Object, tagIds: seq<int>): (r: Result<(Table, PostTags, nat)>)
    requires "title" in data && data["title"].Text?
    ensures |tagIds| == 0 ==> r.Ok? && r.value.1 == links[r.value.2 := []]
    ensures |tagIds| > 0 ==> (r.Ok? <==> TagsByIds(tags, tagIds).Ok?)
    ensures r.Ok? ==> var (p, l, id) := r.value;
      && id !in posts.rows && GetActive(p, id).Some? && p.rows.Keys == posts.rows.Keys + {id}
      && id in l && (forall x :: x in l[id] <==> x as int in tagIds)
      && Get(p.rows[id].fields, "slug") == Text(PostSchemas.CreateSlug(data["title"].s))
      && (forall k :: k in data && k != "slug" ==> Get(p.rows[id].fields, k) == data[k])
    ensures r.Ok? ==> forall id :: id in posts.rows ==> r.value.0.rows[id] == posts.rows[id]
    ensures r.Ok? ==> r.value.1.Keys == links.Keys + {r.value.2}
    ensures r.Ok? ==> forall id :: id in links && id != r.value.2 ==> id in r.value.1 && r.value.1[id] == links[id]
    ensures r.Err? ==> r.error == Http(404, "Tags not found")
  {
    var attached :- if |tagIds| > 0 then TagsByIds(tags, tagIds) else Ok([]);
    var fields := data["slug" := Text(PostSchemas.CreateSlug(data["title"].s))];
    var (p, id) := Create(posts, fields);
    Ok((p, links[id := attached], id))
  }

  /** `create_post` as written: it reads `tag_ids` from a schema that does not
      declare it, so the attribute access fails before anything is stored. */
  function CreatePostAsWritten(posts: Table, tags: Table, links: PostTags, data: Object, tagIds: seq<int>): (r: Result<(Table, PostTags, nat)>)
    requires "title" in data && data["title"].Text?
    ensures "tag_ids" !in Fields.Names(PostSchemas.PostCreateRules) ==> r.Err? && r.error.Crash?
    ensures "tag_ids" in Fields.Names(PostSchemas.PostCreateRules) ==> r == CreatePost(posts, tags, links, data, tagIds)
  {
    if "tag_ids" !in Fields.Names(PostSchemas.PostCreateRules) then
      Err(Crash("AttributeError: 'PostCreate' object has no attribute 'tag_ids'"))
    else CreatePost(posts, tags, links, data, tagIds)
  }

  /** Every post creation fails, whatever the payload. */
  lemma CreatePostAlwaysFails(posts: Table, tags: Table, links: PostTags, data: Object, tagIds: seq<int>)
    requires "title" in data && data["title"].Text?
    ensures CreatePostAsWritten(posts, tags, links, data, tagIds).Err?
    ensures CreatePostAsWritten(posts, tags, links, data, tagIds).error.Crash?
  {
    assert forall i :: 0 <= i < |PostSchemas.PostCreateRules| ==> PostSchemas.PostCreateRules[i].name != "tag_ids";
  }

  const SlugNotNull: Error := Rejected("NOT NULL constraint failed: post.slug")

  /** `create_post` with `tag_ids` declared but otherwise as written: the row
      is built from the validated payload alone, so its slug is whatever the
      payload holds; a failed tag lookup is raised before the commit, and the
      commit refuses a post without a slug. */
  function CreatePostSlugUnset(posts: Table, tags: Table, links: PostTags, data: Object, tagIds: seq<int>): (r: Result<(Table, PostTags, nat)>)
    ensures |tagIds| > 0 && TagsByIds(tags, tagIds).Err? ==> r == Err(Http(404, "Tags not found"))
    ensures r.Ok? ==> "slug" in data && !data["slug"].Null?
    ensures ("slug" !in data || data["slug"].Null?) && (|tagIds| == 0 || TagsByIds(tags, tagIds).Ok?) ==> r == Err(SlugNotNull)
  {
    var attached :- if |tagIds| > 0 then TagsByIds(tags, tagIds) else Ok([]);
    if "slug" !in data || data["slug"].Null? then Err(SlugNotNull)
    else
      var (p, id) := Create(posts, data);
      Ok((p, links[id := attached], id))
  }

  /** No validated post payload carries a slug, so even with `tag_ids`
      declared every creation that gets past the tag lookup is refused,
      while the corrected creation stores the post. */
  lemma SlugNeverStored(posts: Table, tags: Table, links: PostTags, o: Object, tagIds: seq<int>)
    requires PostSchemas.PostCreate(o).Ok?
    requires |tagIds| == 0 || TagsByIds(tags, tagIds).Ok?
    ensures CreatePostSlugUnset(posts, tags, links, PostSchemas.PostCreate(o).value, tagIds) == Err(SlugNotNull)
    ensures CreatePost(posts, tags, links, PostSchemas.PostCreate(o).value, tagIds).Ok?
  {
  }
}
