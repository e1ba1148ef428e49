/** The records of the bulletin board (bulletinboard/models.py): their
    shapes, the length bounds their fields declare, the `publish()` filter
    and the string forms. Foreign keys are the referenced row's id. */
module Models {
  import opened Results
  import opened Calendar
  import opened Query

  /** Django's `auth.User`, reduced to what the board reads of it. */
  datatype User = User(username: string, email: string)

  /** `Profile`: `user` is a one-to-one link; the avatar is a stored file name. */
  datatype Profile = Profile(user: nat, birthDate: Option<Date>, avatar: string)

  datatype Category = Category(name: string)

  /** `Post` (an announcement). `title` is `announcement_title`, `image` is
      `announcement_image` (a stored file name); `price` is carried and never
      computed with. */
  datatype Post = Post(
    author: nat,
    title: string,
    description: string,
    image: string,
    category: nat,
    publishedDate: Timestamp,
    price: real)

  datatype Comment = Comment(author: nat, text: string, inPost: nat, datePublish: Timestamp)

  const MaxCategoryName: nat := 100
  const MaxTitle: nat := 200
  const MaxDescription: nat := 1500
  const MaxCommentText: nat := 700

  /** `category_name`: a required CharField of at most 100 characters. */
  predicate CategoryFits(c: Category) {
    1 <= |c.name| <= MaxCategoryName
  }

  /** A required title of at most 200 characters and a description of at most
      1500 that may be blank. */
  predicate PostFits(p: Post) {
    1 <= |p.title| <= MaxTitle && |p.description| <= MaxDescription
  }

  /** A comment's text is required (`blank=False`) and at most 700 characters. */
  predicate CommentFits(c: Comment) {
    1 <= |c.text| <= MaxCommentText
  }

  /** `PostQuerySet.publish()` applied to the ids `qs`: the posts dated no
      later than `now`, in the queryset's order. */
  function Publish(posts: map<nat, Post>, qs: seq<nat>, now: Timestamp): (r: seq<nat>)
    ensures forall k :: k in r <==> k in qs && k in posts && posts[k].publishedDate <= now
    ensures Increasing(qs) ==> Increasing(r)
  {
    Where(qs, k => k in posts && posts[k].publishedDate <= now)
  }

  /** `str(user)`: a user renders as its username. */
  function UserStr(u: User): string {
    u.username
  }

  /** `Profile.__str__`: the username of the profile's user. */
  function ProfileStr(p: Profile, users: map<nat, User>): string
    requires p.user in users
  {
    UserStr(users[p.user])
  }

  /** `Category.__str__`: the category's name. */
  function CategoryStr(c: Category): string {
    c.name
  }

  /** `Post.__str__`: the title, the day of `published_date` and the author's
      username, in "Announcement: {}, date: {}, Author: {}". */
  function PostStr(p: Post, author: User): (r: string)
    ensures |r| >= 42 + |p.title| + |UserStr(author)|
    ensures r[..14 + |p.title|] == "Announcement: " + p.title
    ensures r[|r| - 10 - |UserStr(author)|..] == ", Author: " + UserStr(author)
  {
    var head, date, tail := "Announcement: " + p.title, DateText(DateOf(p.publishedDate)), ", Author: " + UserStr(author);
    var r := head + ", date: " + date + tail;
    assert r[..|head|] == head;
    assert r[|r| - |tail|..] == tail;
    r
  }

  /** Within Python's year range the date in a post's string sits at a fixed
      offset after the title and reads back to the day the post was published. */
  lemma PostStrShowsDate(p: Post, author: User)
    requires DateOf(p.publishedDate).year <= 9999
    ensures var r := PostStr(p, author);
      var at := 22 + |p.title|;
      |r| == 42 + |p.title| + |UserStr(author)|
      && r[at - 8..at] == ", date: "
      && ParseDate(r[at..at + 10]) == Some(DateOf(p.publishedDate))
  {
    var d := DateOf(p.publishedDate);
    DateTextRoundTrip(d);
    var r := PostStr(p, author);
    var at := 22 + |p.title|;
    assert r == ("Announcement: " + p.title + ", date: ") + DateText(d) + (", Author: " + UserStr(author));
    assert r[at..at + 10] == DateText(d);
  }

  /** `Comment.__str__`: "{author} : {text[:10]}..." — the three dots are
      appended whether or not the text was cut. */
  function CommentStr(c: Comment, author: User): (r: string)
    ensures |r| == |UserStr(author)| + 6 + (if |c.text| < 10 then |c.text| else 10)
    ensures r[..|UserStr(author)| + 3] == UserStr(author) + " : "
    ensures r[|r| - 3..] == "..."
    ensures r[|UserStr(author)| + 3..|r| - 3] == c.text[..|r| - |UserStr(author)| - 6]
  {
    UserStr(author) + " : " + Take(c.text, 10) + "..."
  }

  /** A text of at most ten characters is shown whole, and still followed by "...". */
  lemma CommentStrShortText(c: Comment, author: User)
    requires |c.text| <= 10
    ensures CommentStr(c, author) == UserStr(author) + " : " + c.text + "..."
  {
    var r := CommentStr(c, author);
    var n := |UserStr(author)|;
    assert r[n + 3..|r| - 3] == c.text;
    assert r == r[..n + 3] + r[n + 3..|r| - 3] + r[|r| - 3..];
  }

  /** A longer text is cut to its first ten characters. */
  lemma CommentStrLongText(c: Comment, author: User)
    requires |c.text| > 10
    ensures CommentStr(c, author) == UserStr(author) + " : " + c.text[..10] + "..."
  {
    var r := CommentStr(c, author);
    var n := |UserStr(author)|;
    assert r[n + 3..|r| - 3] == c.text[..10];
    assert r == r[..n + 3] + r[n + 3..|r| - 3] + r[|r| - 3..];
  }
}
