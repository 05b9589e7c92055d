/** api/routers/posts.py: post, comment and reaction creation, each checking
    the rows it refers to in a fixed order before handing the payload to the
    store with the author's user id replaced by their profile id. */
module PostsRouter {
  import opened Wrappers
  import opened Json
  import opened Store
  import PostsCrud
  import UsersCrud

  const TitleTaken: Error := Http(409, "Post already exists!")
  const UserNotFound: Error := Http(404, "User not found!")
  const PostNotFound: Error := Http(404, "Post not found!")
  const CommentNotFound: Error := Http(404, "Comment not found!")
  const NoProfile: Error := Crash("AttributeError: 'NoneType' object has no attribute 'id'")

  /** The profile id that replaces the author's user id, once the user is
      known to be active. */
  function AuthorProfile(users: Table, profiles: Table, uid: int): (r: Result<nat>)
    ensures GetActive(users, uid).None? ==> r == Err(UserNotFound)
    ensures GetActive(users, uid).Some? && UsersCrud.ProfileOf(profiles, uid).None? ==> r == Err(NoProfile)
    ensures r.Ok? ==> r.value in profiles.rows && UsersCrud.OwnedBy(profiles.rows[r.value], uid)
    ensures r.Ok? <==> GetActive(users, uid).Some? && UsersCrud.ProfileOf(profiles, uid).Some?
  {
    if GetActive(users, uid).None? then Err(UserNotFound)
    else match UsersCrud.ProfileOf(profiles, uid)
      case None => Err(NoProfile)
      case Some(pid) => Ok(pid)
  }

  /** `create_post`: a title already used by an active post (in any case) is
      reported before a missing author, and an author without a profile
      crashes; then the post is created with the author's profile id, and
      with the requested tags, whose lookup may still fail with a 404. */
  function CreatePost(posts: Table, tags: Table, links: PostsCrud.PostTags, users: Table, profiles: Table,
                      data: Object, tagIds: seq<int>): (r: Result<(Table, PostsCrud.PostTags, nat)>)
    requires "title" in data && data["title"].Text?
    requires "author_id" in data && data["author_id"].Int?
    ensures FindFolded(posts, "title", data["title"].s).Some? ==> r == Err(TitleTaken)
    ensures FindFolded(posts, "title", data["title"].s).None? && GetActive(users, data["author_id"].i).None? ==>
      r == Err(UserNotFound)
    ensures
      (&& FindFolded(posts, "title", data["title"].s).None? && GetActive(users, data["author_id"].i).Some?
       && UsersCrud.ProfileOf(profiles, data["author_id"].i).None?)
      ==> r == Err(NoProfile)
    ensures
      (&& FindFolded(posts, "title", data["title"].s).None? && GetActive(users, data["author_id"].i).Some?
       && UsersCrud.ProfileOf(profiles, data["author_id"].i).Some?
       && |tagIds| > 0 && PostsCrud.TagsByIds(tags, tagIds).Err?)
      ==> r == Err(Http(404, "Tags not found"))
    ensures r.Ok? <==>
      && FindFolded(posts, "title", data["title"].s).None? && GetActive(users, data["author_id"].i).Some?
      && UsersCrud.ProfileOf(profiles, data["author_id"].i).Some?
      && (|tagIds| == 0 || PostsCrud.TagsByIds(tags, tagIds).Ok?)
    ensures r.Ok? ==> var (p, l, id) := r.value;
      && id !in posts.rows && GetActive(p, id).Some?
      && var author := Get(p.rows[id].fields, "author_id");
      && author.Int? && author.i >= 0 && author.i in profiles.rows
      && UsersCrud.OwnedBy(profiles.rows[author.i], data["author_id"].i)
      && (forall k :: k in data && k != "author_id" && k != "slug" ==> Get(p.rows[id].fields, k) == data[k])
      && id in l && (forall x :: x in l[id] <==> x as int in tagIds)
    ensures r.Ok? ==> var (p, l, id) := r.value;
      && p.rows.Keys == posts.rows.Keys + {id} && (forall other :: other in posts.rows ==> p.rows[other] == posts.rows[other])
      && l.Keys == links.Keys + {id} && (forall other :: other in links && other != id ==> l[other] == links[other])
  {
    if FindFolded(posts, "title", data["title"].s).Some? then Err(TitleTaken)
    else
      var pid :- AuthorProfile(users, profiles, data["author_id"].i);
      var stored := data["author_id" := Int(pid)];
      var created := PostsCrud.CreatePost(posts, tags, links, stored, tagIds);
      if created.Err? then Err(created.error)
      else
        StoredAuthor(posts, tags, links, data, pid, tagIds);
        created
  }

  /** The created post holds the author's profile id and every other field
      of the payload but the slug. */
  lemma StoredAuthor(posts: Table, tags: Table, links: PostsCrud.PostTags, data: Object, pid: nat, tagIds: seq<int>)
    requires "title" in data && data["title"].Text? && "author_id" in data
    requires PostsCrud.CreatePost(posts, tags, links, data["author_id" := Int(pid)], tagIds).Ok?
    ensures var (p, l, id) := PostsCrud.CreatePost(posts, tags, links, data["author_id" := Int(pid)], tagIds).value;
      && id in p.rows && Get(p.rows[id].fields, "author_id") == Int(pid)
      && (forall k :: k in data && k != "author_id" && k != "slug" ==> Get(p.rows[id].fields, k) == data[k])
  {
    var stored := data["author_id" := Int(pid)];
    var (p, l, id) := PostsCrud.CreatePost(posts, tags, links, stored, tagIds).value;
    assert Get(p.rows[id].fields, "author_id") == stored["author_id"];
    assert forall k :: k in data && k != "author_id" ==> stored[k] == data[k];
  }

  /** A post whose title was just used cannot be created again, whatever
      the case of the new title. */
  lemma TitleTakenAfterCreate(posts: Table, tags: Table, links: PostsCrud.PostTags, users: Table, profiles: Table,
                              data: Object, tagIds: seq<int>, again: Object, againTags: seq<int>, links2: PostsCrud.PostTags)
    requires "title" in data && data["title"].Text?
    requires "author_id" in data && data["author_id"].Int?
    requires "title" in again && again["title"].Text? && Ascii.Lower(again["title"].s) == Ascii.Lower(data["title"].s)
    requires "author_id" in again && again["author_id"].Int?
    requires CreatePost(posts, tags, links, users, profiles, data, tagIds).Ok?
    ensures var p := CreatePost(posts, tags, links, users, profiles, data, tagIds).value.0;
      CreatePost(p, tags, links2, users, profiles, again, againTags) == Err(TitleTaken)
  {
    var (p, l, id) := CreatePost(posts, tags, links, users, profiles, data, tagIds).value;
    var pid := UsersCrud.ProfileOf(profiles, data["author_id"].i).value;
    var stored := data["author_id" := Int(pid)];
    assert Get(p.rows[id].fields, "title") == stored["title"] == data["title"];
    Ascii.LowerIdempotent(again["title"].s);
    assert NamedActive(p.rows[id], "title", Ascii.Lower(again["title"].s), true);
  }

  /** `create_comment`: a missing author, then a missing post, then (only
      when `parent_id` is truthy) a missing parent comment, each 404; then
      the comment is created with the author's profile id. */
  function CreateComment(comments: Table, posts: Table, users: Table, profiles: Table, data: Object): (r: Result<(Table, nat)>)
    requires "author_id" in data && data["author_id"].Int?
    requires "post_id" in data && data["post_id"].Int?
    requires Get(data, "parent_id").Null? || Get(data, "parent_id").Int?
    ensures GetActive(users, data["author_id"].i).None? ==> r == Err(UserNotFound)
    ensures GetActive(users, data["author_id"].i).Some? && GetActive(posts, data["post_id"].i).None? ==> r == Err(PostNotFound)
    ensures r == Err(CommentNotFound) <==>
      && GetActive(users, data["author_id"].i).Some? && GetActive(posts, data["post_id"].i).Some?
      && Truthy(Get(data, "parent_id")) && GetActive(comments, Get(data, "parent_id").i).None?
    ensures r.Ok? <==>
      && GetActive(users, data["author_id"].i).Some? && GetActive(posts, data["post_id"].i).Some?
      && (Truthy(Get(data, "parent_id")) ==> GetActive(comments, Get(data, "parent_id").i).Some?)
      && UsersCrud.ProfileOf(profiles, data["author_id"].i).Some?
    ensures r.Ok? ==> var (t, id) := r.value;
      && id !in comments.rows && GetActive(t, id).Some?
      && Get(t.rows[id].fields, "author_id") == Int(UsersCrud.ProfileOf(profiles, data["author_id"].i).value)
      && (forall k :: k in data && k != "author_id" ==> Get(t.rows[id].fields, k) == data[k])
    ensures r.Ok? ==> var (t, id) := r.value;
      t.rows.Keys == comments.rows.Keys + {id} && forall other :: other in comments.rows ==> t.rows[other] == comments.rows[other]
  {
    if GetActive(users, data["author_id"].i).None? then Err(UserNotFound)
    else if GetActive(posts, data["post_id"].i).None? then Err(PostNotFound)
    else if Truthy(Get(data, "parent_id")) && GetActive(comments, Get(data, "parent_id").i).None? then Err(CommentNotFound)
    else
      var pid :- AuthorProfile(users, profiles, data["author_id"].i);
      Ok(Create(comments, data["author_id" := Int(pid)]))
  }

  /** A parent id of 0 is falsy, so it is never looked up: the comment is
      created although no comment 0 exists. */
  lemma ZeroParentUnchecked(comments: Table, posts: Table, users: Table, profiles: Table, data: Object)
    requires "author_id" in data && data["author_id"].Int?
    requires "post_id" in data && data["post_id"].Int?
    requires Get(data, "parent_id") == Int(0)
    requires GetActive(users, data["author_id"].i).Some? && GetActive(posts, data["post_id"].i).Some?
    requires UsersCrud.ProfileOf(profiles, data["author_id"].i).Some?
    ensures CreateComment(comments, posts, users, profiles, data).Ok?
  {
  }

  /** `create_reaction`: a missing author, then a missing comment, each 404;
      then the reaction is created with the author's profile id. */
  function CreateReaction(reactions: Table, comments: Table, users: Table, profiles: Table, data: Object): (r: Result<(Table, nat)>)
    requires "author_id" in data && data["author_id"].Int?
    requires "comment_id" in data && data["comment_id"].Int?
    ensures GetActive(users, data["author_id"].i).None? ==> r == Err(UserNotFound)
    ensures GetActive(users, data["author_id"].i).Some? && GetActive(comments, data["comment_id"].i).None? ==> r == Err(CommentNotFound)
    ensures r.Ok? <==>
      && GetActive(users, data["author_id"].i).Some? && GetActive(comments, data["comment_id"].i).Some?
      && UsersCrud.ProfileOf(profiles, data["author_id"].i).Some?
    ensures r.Ok? ==> var (t, id) := r.value;
      && id !in reactions.rows && GetActive(t, id).Some?
      && Get(t.rows[id].fields, "author_id") == Int(UsersCrud.ProfileOf(profiles, data["author_id"].i).value)
      && (forall k :: k in data && k != "author_id" ==> Get(t.rows[id].fields, k) == data[k])
    ensures r.Ok? ==> var (t, id) := r.value;
      t.rows.Keys == reactions.rows.Keys + {id} && forall other :: other in reactions.rows ==> t.rows[other] == reactions.rows[other]
  {
    if GetActive(users, data["author_id"].i).None? then Err(UserNotFound)
    else if GetActive(comments, data["comment_id"].i).None? then Err(CommentNotFound)
    else
      var pid :- AuthorProfile(users, profiles, data["author_id"].i);
      Ok(Create(reactions, data["author_id" := Int(pid)]))
  }
}
