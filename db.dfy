/** The store the views and the admin act on: one table per model of
    bulletinboard/models.py, each a map from primary key to row with its own
    auto-increment counter, the foreign keys and unique columns the schema
    declares, and the `on_delete=CASCADE` rules as deletions. */
module Db {
  import opened Calendar
  import opened Models

  /** Who makes a request: an anonymous visitor or a logged-in user. */
  datatype Requester = Anonymous | Member(uid: nat)

  predicate ProfilesLinked(profiles: map<nat, Profile>, users: map<nat, User>) {
    forall k :: k in profiles ==> profiles[k].user in users
  }

  predicate PostsLinked(posts: map<nat, Post>, users: map<nat, User>, categories: map<nat, Category>) {
    forall k :: k in posts ==> posts[k].author in users && posts[k].category in categories
  }

  predicate CommentsLinked(comments: map<nat, Comment>, users: map<nat, User>, posts: map<nat, Post>) {
    forall k :: k in comments ==> comments[k].author in users && comments[k].inPost in posts
  }

  /** `Profile.user` is a one-to-one link: no user has two profiles. */
  predicate OneProfileEach(profiles: map<nat, Profile>) {
    forall k, j :: k in profiles && j in profiles && k != j ==> profiles[k].user != profiles[j].user
  }

  /** The ids of the posts in category `c`. */
  function PostsIn(posts: map<nat, Post>, c: nat): set<nat> {
    set k | k in posts && posts[k].category == c
  }

  /** The ids of the posts written by user `u`. */
  function PostsBy(posts: map<nat, Post>, u: nat): set<nat> {
    set k | k in posts && posts[k].author == u
  }

  /** The posts left when the posts `gone` are deleted. */
  function PostsOutside(posts: map<nat, Post>, gone: set<nat>): map<nat, Post> {
    map k | k in posts && k !in gone :: posts[k]
  }

  /** The comments left when the posts `gone` are deleted: a comment goes with its post. */
  function CommentsOutside(comments: map<nat, Comment>, gone: set<nat>): map<nat, Comment> {
    map k | k in comments && comments[k].inPost !in gone :: comments[k]
  }

  /** The comments left when user `u` is deleted, as far as authorship goes. */
  function CommentsNotBy(comments: map<nat, Comment>, u: nat): map<nat, Comment> {
    map k | k in comments && comments[k].author != u :: comments[k]
  }

  /** The profiles left when user `u` is deleted. */
  function ProfilesNotOf(profiles: map<nat, Profile>, u: nat): map<nat, Profile> {
    map k | k in profiles && profiles[k].user != u :: profiles[k]
  }

  /** Deleting posts together with their comments leaves no comment pointing
      at a deleted post. */
  lemma ForgetPostsKeepsLinks(users: map<nat, User>, categories: map<nat, Category>, posts: map<nat, Post>,
                              comments: map<nat, Comment>, gone: set<nat>)
    requires PostsLinked(posts, users, categories) && CommentsLinked(comments, users, posts)
    ensures PostsLinked(PostsOutside(posts, gone), users, categories)
    ensures CommentsLinked(CommentsOutside(comments, gone), users, PostsOutside(posts, gone))
  {
  }

  /** Once a category's posts are deleted, nothing refers to the category. */
  lemma ForgetCategoryKeepsLinks(users: map<nat, User>, categories: map<nat, Category>,
                                 posts: map<nat, Post>, c: nat)
    requires PostsLinked(posts, users, categories)
    ensures PostsLinked(PostsOutside(posts, PostsIn(posts, c)), users, categories - {c})
  {
  }

  /** Once a user's posts are deleted with every comment on them, and its own
      comments and its profile too, nothing refers to the user. */
  lemma ForgetUserKeepsLinks(users: map<nat, User>, profiles: map<nat, Profile>, categories: map<nat, Category>,
                             posts: map<nat, Post>, comments: map<nat, Comment>, u: nat)
    requires ProfilesLinked(profiles, users) && PostsLinked(posts, users, categories)
    requires CommentsLinked(comments, users, posts)
    ensures ProfilesLinked(ProfilesNotOf(profiles, u), users - {u})
    ensures PostsLinked(PostsOutside(posts, PostsBy(posts, u)), users - {u}, categories)
    ensures CommentsLinked(CommentsNotBy(CommentsOutside(comments, PostsBy(posts, u)), u),
                           users - {u}, PostsOutside(posts, PostsBy(posts, u)))
  {
  }

  /** The posts after the posts `selected` are given publication date `now`. */
  function Restamped(posts: map<nat, Post>, selected: set<nat>, now: Timestamp): map<nat, Post> {
    map k | k in posts :: if k in selected then posts[k].(publishedDate := now) else posts[k]
  }

  /** A new publication date changes no link and no bounded field. */
  lemma RestampKeepsLinks(users: map<nat, User>, categories: map<nat, Category>, posts: map<nat, Post>,
                          comments: map<nat, Comment>, selected: set<nat>, now: Timestamp)
    requires PostsLinked(posts, users, categories) && CommentsLinked(comments, users, posts)
    requires forall k :: k in posts ==> PostFits(posts[k])
    ensures var r := Restamped(posts, selected, now);
      PostsLinked(r, users, categories) && CommentsLinked(comments, users, r)
      && r.Keys == posts.Keys && forall k :: k in r ==> PostFits(r[k])
  {
  }

  class Store {
    var users: map<nat, User>
    var profiles: map<nat, Profile>
    var categories: map<nat, Category>
    var posts: map<nat, Post>
    var comments: map<nat, Comment>
    var nextUser: nat
    var nextProfile: nat
    var nextCategory: nat
    var nextPost: nat
    var nextComment: nat

    /** Every primary key was handed out by its table's counter. */
    ghost predicate Keyed()
      reads this
    {
      && (forall k :: k in users ==> k < nextUser)
      && (forall k :: k in profiles ==> k < nextProfile)
      && (forall k :: k in categories ==> k < nextCategory)
      && (forall k :: k in posts ==> k < nextPost)
      && (forall k :: k in comments ==> k < nextComment)
    }

    /** Every foreign key names an existing row. */
    ghost predicate Linked()
      reads this
    {
      && ProfilesLinked(profiles, users)
      && PostsLinked(posts, users, categories)
      && CommentsLinked(comments, users, posts)
    }

    /** The unique columns: `Profile.user` and `User.username`. */
    ghost predicate Unique()
      reads this
    {
      && OneProfileEach(profiles)
      && (forall k, j :: k in users && j in users && k != j ==> users[k].username != users[j].username)
    }

    /** Every stored row keeps its fields' length bounds. */
    ghost predicate Bounded()
      reads this
    {
      && (forall k :: k in categories ==> CategoryFits(categories[k]))
      && (forall k :: k in posts ==> PostFits(posts[k]))
      && (forall k :: k in comments ==> CommentFits(comments[k]))
    }

    ghost predicate Valid()
      reads this
    {
      Keyed() && Linked() && Unique() && Bounded()
    }

    /** The requester is anonymous or an existing user. */
    predicate Authentic(who: Requester)
      reads this
    {
      who.Member? ==> who.uid in users
    }

    constructor ()
      ensures Valid()
      ensures users == map[] && profiles == map[] && categories == map[]
      ensures posts == map[] && comments == map[]
    {
      users, profiles, categories, posts, comments := map[], map[], map[], map[], map[];
      nextUser, nextProfile, nextCategory, nextPost, nextComment := 0, 0, 0, 0, 0;
    }

    /** Saves a new user under the next id; the username column is unique. */
    method InsertUser(u: User) returns (id: nat)
      requires Valid()
      requires forall k :: k in users ==> users[k].username != u.username
      modifies this`users, this`nextUser
      ensures Valid()
      ensures nextUser == old(nextUser) + 1
      ensures id == old(nextUser) && id !in old(users) && users == old(users)[id := u]
    {
      id := nextUser;
      users := users[id := u];
      nextUser := nextUser + 1;
    }

    /** Saves a new profile; its user must exist and have no profile yet. */
    method InsertProfile(p: Profile) returns (id: nat)
      requires Valid()
      requires p.user in users && forall k :: k in profiles ==> profiles[k].user != p.user
      modifies this`profiles, this`nextProfile
      ensures Valid()
      ensures nextProfile == old(nextProfile) + 1
      ensures id == old(nextProfile) && id !in old(profiles) && profiles == old(profiles)[id := p]
    {
      id := nextProfile;
      profiles := profiles[id := p];
      nextProfile := nextProfile + 1;
    }

    /** Saves a new category. */
    method InsertCategory(c: Category) returns (id: nat)
      requires Valid() && CategoryFits(c)
      modifies this`categories, this`nextCategory
      ensures Valid()
      ensures nextCategory == old(nextCategory) + 1
      ensures id == old(nextCategory) && id !in old(categories) && categories == old(categories)[id := c]
    {
      id := nextCategory;
      categories := categories[id := c];
      nextCategory := nextCategory + 1;
    }

    /** Saves a new post; its author and category must exist. */
    method InsertPost(p: Post) returns (id: nat)
      requires Valid() && PostFits(p) && p.author in users && p.category in categories
      modifies this`posts, this`nextPost
      ensures Valid()
      ensures nextPost == old(nextPost) + 1
      ensures id == old(nextPost) && id !in old(posts) && posts == old(posts)[id := p]
    {
      id := nextPost;
      posts := posts[id := p];
      nextPost := nextPost + 1;
    }

    /** Saves a new comment; its author and post must exist. */
    method InsertComment(c: Comment) returns (id: nat)
      requires Valid() && CommentFits(c) && c.author in users && c.inPost in posts
      modifies this`comments, this`nextComment
      ensures Valid()
      ensures nextComment == old(nextComment) + 1
      ensures id == old(nextComment) && id !in old(comments) && comments == old(comments)[id := c]
    {
      id := nextComment;
      comments := comments[id := c];
      nextComment := nextComment + 1;
    }

    /** Saves post `id` with new field values. */
    method UpdatePost(id: nat, p: Post)
      requires Valid() && id in posts
      requires PostFits(p) && p.author in users && p.category in categories
      modifies this`posts
      ensures Valid()
      ensures posts == old(posts)[id := p]
    {
      posts := posts[id := p];
    }

    /** Saves profile `id` with new field values; the new user must exist and
        have no other profile. */
    method UpdateProfile(id: nat, p: Profile)
      requires Valid() && id in profiles
      requires p.user in users && forall k :: k in profiles && k != id ==> profiles[k].user != p.user
      modifies this`profiles
      ensures Valid()
      ensures profiles == old(profiles)[id := p]
    {
      profiles := profiles[id := p];
    }

    /** `queryset.update(published_date=now)` over the posts `selected`; ids
        without a post are ignored. */
    method UpdatePublishedDate(selected: set<nat>, now: Timestamp)
      requires Valid()
      modifies this`posts
      ensures Valid()
      ensures posts == Restamped(old(posts), selected, now)
    {
      RestampKeepsLinks(users, categories, posts, comments, selected, now);
      posts := Restamped(posts, selected, now);
    }

    /** Deleting the posts `gone` deletes, by cascade, every comment on them. */
    method DeletePosts(gone: set<nat>)
      requires Valid()
      modifies this`posts, this`comments
      ensures Valid()
      ensures posts == PostsOutside(old(posts), gone)
      ensures comments == CommentsOutside(old(comments), gone)
    {
      ForgetPostsKeepsLinks(users, categories, posts, comments, gone);
      comments := CommentsOutside(comments, gone);
      posts := PostsOutside(posts, gone);
    }

    /** Deleting a category deletes its posts and, through them, their comments. */
    method DeleteCategory(c: nat)
      requires Valid()
      modifies this`categories, this`posts, this`comments
      ensures Valid()
      ensures categories == old(categories) - {c}
      ensures posts == PostsOutside(old(posts), PostsIn(old(posts), c))
      ensures comments == CommentsOutside(old(comments), PostsIn(old(posts), c))
    {
      ForgetCategoryKeepsLinks(users, categories, posts, c);
      DeletePosts(PostsIn(posts, c));
      categories := categories - {c};
    }

    /** Deleting a user deletes its profile, the posts it wrote with every
        comment on them, and the comments it wrote. */
    method DeleteUser(u: nat)
      requires Valid()
      modifies this`users, this`profiles, this`posts, this`comments
      ensures Valid()
      ensures users == old(users) - {u}
      ensures profiles == ProfilesNotOf(old(profiles), u)
      ensures posts == PostsOutside(old(posts), PostsBy(old(posts), u))
      ensures comments == CommentsNotBy(CommentsOutside(old(comments), PostsBy(old(posts), u)), u)
    {
      ForgetUserKeepsLinks(users, profiles, categories, posts, comments, u);
      DeletePosts(PostsBy(posts, u));
      comments := CommentsNotBy(comments, u);
      profiles := ProfilesNotOf(profiles, u);
      users := users - {u};
    }
  }
}
