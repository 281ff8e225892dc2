/** The community feed (`CommunityFeed`): the post list under realtime inserts and deletes, the post guard and author labels. */
module CommunityFeed {
  import opened Wrappers
  import opened JsString
  import Seqs

  /** A feed post with the author's profile name (when the profile is known) and email. */
  datatype FeedPost = FeedPost(id: string, userId: string, content: string, authorFullName: Option<string>, email: Option<string>)

  /** A realtime insert puts the new post first and keeps the rest in order. */
  function Prepend(post: FeedPost, posts: seq<FeedPost>): (r: seq<FeedPost>)
    ensures |r| == |posts| + 1 && r[0] == post && r[1..] == posts
    ensures multiset(r) == multiset(posts) + multiset{post}
  {
    [post] + posts
  }

  /** A delete the backend accepted removes every post with that id; a refused one changes nothing. */
  function DeletePost(posts: seq<FeedPost>, id: string, succeeded: bool): (r: seq<FeedPost>)
    ensures !succeeded ==> r == posts
    ensures succeeded ==> forall i :: 0 <= i < |r| ==> r[i].id != id && r[i] in posts
    ensures succeeded ==> forall p :: p in posts && p.id != id ==> p in r
    ensures multiset(r) <= multiset(posts)
  {
    if succeeded then Seqs.Filter(posts, (p: FeedPost) => p.id != id) else posts
  }

  /** Deleting keeps the order of the remaining posts: it distributes over any split of the list. */
  lemma DeleteKeepsOrder(a: seq<FeedPost>, b: seq<FeedPost>, id: string)
    ensures DeletePost(a + b, id, true) == DeletePost(a, id, true) + DeletePost(b, id, true)
  {
    Seqs.FilterAppend(a, b, (p: FeedPost) => p.id != id);
  }

  /** Deleting an id no post has leaves the list as it is, and deleting after a prepend of that id drops exactly the new post. */
  lemma DeleteAbsentId(posts: seq<FeedPost>, post: FeedPost)
    requires forall i :: 0 <= i < |posts| ==> posts[i].id != post.id
    ensures DeletePost(posts, post.id, true) == posts
    ensures DeletePost(Prepend(post, posts), post.id, true) == posts
  {
    Seqs.FilterAll(posts, (p: FeedPost) => p.id != post.id);
    assert Prepend(post, posts)[1..] == posts;
  }

  /** A post is sent only when it is not blank after trimming. */
  function CanPost(text: string): (r: bool)
    ensures r <==> exists i :: 0 <= i < |text| && !IsSpace(text[i])
  {
    Trim(text) != ""
  }

  /** `email.split('@')[0]`: the local part of an address. */
  function LocalPart(email: string): (r: string)
    ensures '@' !in r
    ensures r <= email
    ensures '@' in email ==> |r| < |email| && email[|r|] == '@'
    ensures '@' !in email ==> r == email
  {
    SplitHead(email, '@');
    Split(email, '@')[0]
  }

  /** The author label: the full name, else the email's local part, else `Unknown`; never empty. */
  function AuthorName(p: FeedPost): (r: string)
    ensures r != ""
    ensures Truthy(p.authorFullName) ==> r == p.authorFullName.value
    ensures !Truthy(p.authorFullName) && p.email.Some? && LocalPart(p.email.value) != "" ==> r == LocalPart(p.email.value)
    ensures !Truthy(p.authorFullName) && (p.email.None? || LocalPart(p.email.value) == "") ==> r == "Unknown"
  {
    if Truthy(p.authorFullName) then p.authorFullName.value
    else if p.email.Some? && LocalPart(p.email.value) != "" then LocalPart(p.email.value)
    else "Unknown"
  }

  /** Without a profile name, the label of `user@domain` is `user`. */
  lemma AuthorFromEmail(p: FeedPost, user: string, domain: string)
    requires !Truthy(p.authorFullName)
    requires user != "" && '@' !in user
    requires p.email == Some(user + "@" + domain)
    ensures AuthorName(p) == user
  {
    assert user + "@" + domain == user + ['@'] + domain;
    SplitFirst(user, '@', domain);
  }

  /** The avatar letter: the label's first character, upper-cased. */
  function AvatarLetter(p: FeedPost): (r: string)
    ensures |r| == 1 && r[0] == UpperChar(AuthorName(p)[0])
  {
    [UpperChar(AuthorName(p)[0])]
  }
}
