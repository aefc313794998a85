/**
 * The blog manager page of the admin panel (Admin/src/pages/BlogList.jsx):
 * the URL slug it derives from a title, the search filter, the list it
 * builds from the server's response and the removal after a delete.
 */
module BlogListPage {
  import opened Js
  import opened Text
  import opened Sorting
  import BlogController
  import opened BlogSlug

  // ---------------------------------------------------------------------------
  // The cards of the list

  /** A blog as the list receives it: the fields `getBlogs` selects, each possibly missing. */
  datatype BlogCard = BlogCard(
    id: string, title: Option<string>, description: Option<string>, senderName: Option<string>,
    imageUrl: Option<string>, featured: bool, createdAt: int, slug: Option<string>)

  /** The JSON the server sends for a stored blog (no content, no slug). */
  function CardOf(b: BlogController.Blog): BlogCard {
    BlogCard(b.id, Some(b.title), Some(b.description), Some(b.senderName), b.imageUrl, b.featured, b.createdAt, None)
  }

  function CardCreatedAt(c: BlogCard): int {
    c.createdAt
  }

  /** `x?.toLowerCase().includes(term.toLowerCase())`: a missing field never matches. */
  predicate FieldMatches(field: Option<string>, term: string) {
    field.Some? && ContainsIgnoreCase(field.value, term)
  }

  predicate CardMatches(c: BlogCard, term: string) {
    FieldMatches(c.title, term) || FieldMatches(c.senderName, term) || FieldMatches(c.description, term)
  }

  /** filteredBlogs: the cards whose title, sender or description contains the term, in list order. */
  function FilteredBlogs(blogs: seq<BlogCard>, term: string): (r: seq<BlogCard>)
    ensures forall c :: c in r <==> c in blogs && CardMatches(c, term)
    ensures |r| <= |blogs|
  {
    if blogs == [] then []
    else (if CardMatches(blogs[0], term) then [blogs[0]] else []) + FilteredBlogs(blogs[1..], term)
  }

  /** Filtering keeps the list order: filtering a concatenation filters each part. */
  lemma {:induction false} FilterKeepsOrder(a: seq<BlogCard>, b: seq<BlogCard>, term: string)
    ensures FilteredBlogs(a + b, term) == FilteredBlogs(a, term) + FilteredBlogs(b, term)
  {
    if a == [] {
      assert a + b == b;
    } else {
      assert (a + b)[1..] == a[1..] + b;
      FilterKeepsOrder(a[1..], b, term);
    }
  }

  /** With an empty search every card with at least one of the three fields is shown. */
  lemma EmptyTermKeepsDefined(blogs: seq<BlogCard>, c: BlogCard)
    requires c in blogs && (c.title.Some? || c.senderName.Some? || c.description.Some?)
    ensures c in FilteredBlogs(blogs, "")
  {
    if c.title.Some? {
      ContainsEmpty(ToLower(c.title.value));
    } else if c.senderName.Some? {
      ContainsEmpty(ToLower(c.senderName.value));
    } else {
      ContainsEmpty(ToLower(c.description.value));
    }
  }

  /** The slug the edit form starts with: `blog.slug`, else createSlug of a non-empty title, else "". */
  function InitialSlug(c: BlogCard): (r: string)
    ensures c.slug.Some? && c.slug.value != "" ==> r == c.slug.value
    ensures !(c.slug.Some? && c.slug.value != "") ==> AllSlugChars(r)
  {
    if c.slug.Some? && c.slug.value != "" then c.slug.value
    else if c.title.Some? && c.title.value != "" then
      CreateSlugChars(c.title.value);
      CreateSlug(c.title.value)
    else ""
  }

  /** A blog from the server has no slug, so the edit form starts from createSlug of its title. */
  lemma ServerBlogSlug(b: BlogController.Blog)
    ensures b.title != "" ==> InitialSlug(CardOf(b)) == CreateSlug(b.title)
    ensures b.title == "" ==> InitialSlug(CardOf(b)) == ""
  {
  }

  /**
   * The effect that follows the title: it runs on mount and after each
   * title change, and sets the slug to createSlug of the title when the
   * blog has a non-empty title and the field holds exactly that title.
   * Otherwise the slug is left as it is.
   */
  function SlugEffect(blogTitle: Option<string>, title: string, slug: string): (r: string)
    ensures blogTitle.Some? && blogTitle.value != "" && title == blogTitle.value ==> r == CreateSlug(title)
    ensures !(blogTitle.Some? && blogTitle.value != "" && title == blogTitle.value) ==> r == slug
  {
    if blogTitle.Some? && blogTitle.value != "" && title == blogTitle.value then CreateSlug(title) else slug
  }

  /** `blog.title || ''` */
  function TitleField(c: BlogCard): (r: string)
    ensures c.title.Some? ==> r == c.title.value
    ensures c.title.None? ==> r == ""
  {
    if c.title.Some? then c.title.value else ""
  }

  /** The edit form of one blog: the title and slug fields, after the effect has run. */
  class EditForm {
    /** The blog the form was opened for. */
    const blog: BlogCard
    var title: string
    var slug: string

    /** Opening the form: the initial state, then the mount run of the effect. */
    constructor (blog: BlogCard)
      ensures this.blog == blog
      ensures title == TitleField(blog)
      ensures slug == SlugEffect(blog.title, TitleField(blog), InitialSlug(blog))
    {
      this.blog := blog;
      title := TitleField(blog);
      slug := SlugEffect(blog.title, TitleField(blog), InitialSlug(blog));
    }

    /** Typing in the title field: the field changes, then the effect runs. */
    method ChangeTitle(t: string)
      modifies this
      ensures title == t
      ensures slug == SlugEffect(blog.title, t, old(slug))
    {
      title := t;
      slug := SlugEffect(blog.title, title, slug);
    }

    /** Typing in the slug field: the title is unchanged, so the effect does not run. */
    method ChangeSlug(s: string)
      modifies this
      ensures title == old(title) && slug == s
    {
      slug := s;
    }
  }

  /**
   * On opening, a blog with a non-empty title shows createSlug of its
   * title: a stored slug that differs from it is replaced, although the
   * initial state took it.
   */
  lemma MountReplacesStoredSlug(c: BlogCard)
    requires c.title.Some? && c.title.value != ""
    ensures SlugEffect(c.title, TitleField(c), InitialSlug(c)) == CreateSlug(c.title.value)
    ensures c.slug.Some? && c.slug.value != "" && c.slug.value != CreateSlug(c.title.value) ==>
      SlugEffect(c.title, TitleField(c), InitialSlug(c)) != InitialSlug(c)
  {
  }

  /** A blog from the server carries no slug, so for it the mount run agrees with the initial state. */
  lemma MountSlugOfServerBlog(b: BlogController.Blog)
    ensures SlugEffect(CardOf(b).title, TitleField(CardOf(b)), InitialSlug(CardOf(b))) == InitialSlug(CardOf(b))
  {
    ServerBlogSlug(b);
  }

  /** `[...(featured ? [featured] : []), ...posts]` */
  function Merged(featured: Option<BlogCard>, posts: seq<BlogCard>): (r: seq<BlogCard>)
    ensures multiset(r) == multiset(posts) + (if featured.Some? then multiset{featured.value} else multiset{})
  {
    (if featured.Some? then [featured.value] else []) + posts
  }

  function OtherId(id: string): BlogCard -> bool {
    (c: BlogCard) => c.id != id
  }

  /** `prev.filter(blog => blog._id !== id)` */
  function WithoutId(blogs: seq<BlogCard>, id: string): (r: seq<BlogCard>)
    ensures forall c :: c in r <==> c in blogs && c.id != id
    ensures |r| <= |blogs|
  {
    Filter(OtherId(id), blogs)
  }

  /** WithoutId keeps the order of what it keeps: filtering two halves is filtering each half. */
  lemma WithoutIdSplits(xs: seq<BlogCard>, ys: seq<BlogCard>, id: string)
    ensures WithoutId(xs + ys, id) == WithoutId(xs, id) + WithoutId(ys, id)
  {
    FilterSplits(OtherId(id), xs, ys);
  }

  /** WithoutId keeps every kept entry as often as it occurs, and no other. */
  lemma WithoutIdCounts(xs: seq<BlogCard>, id: string)
    ensures forall c :: multiset(WithoutId(xs, id))[c] == if c.id != id then multiset(xs)[c] else 0
  {
    FilterCounts(OtherId(id), xs);
  }

  /** The state of the page: the list of cards and the search box. */
  class BlogList {
    var blogs: seq<BlogCard>
    var searchTerm: string

    constructor ()
      ensures blogs == [] && searchTerm == ""
    {
      blogs := [];
      searchTerm := "";
    }

    /**
     * fetchBlogs: the featured card goes in front of the posts and the list
     * is sorted newest first by the stable array sort, so cards of equal
     * date keep their order.
     */
    method FetchBlogs(featured: Option<BlogCard>, posts: seq<BlogCard>)
      modifies this
      ensures blogs == SortDesc(Merged(featured, posts), CardCreatedAt)
      ensures SortedDesc(blogs, CardCreatedAt)
      ensures multiset(blogs) == multiset(Merged(featured, posts))
      ensures searchTerm == old(searchTerm)
    {
      var allPosts := Merged(featured, posts);
      blogs := SortDesc(allPosts, CardCreatedAt);
    }

    /** handleDelete: after the user confirms and the server deletes, every card with that id leaves the list. */
    method HandleDelete(id: string, confirmed: bool, deleted: bool)
      modifies this
      ensures confirmed && deleted ==> blogs == WithoutId(old(blogs), id)
      ensures !(confirmed && deleted) ==> blogs == old(blogs)
      ensures searchTerm == old(searchTerm)
    {
      if confirmed && deleted {
        blogs := WithoutId(blogs, id);
      }
    }

    function Visible(): (r: seq<BlogCard>)
      reads this
      ensures forall c :: c in r <==> c in blogs && CardMatches(c, searchTerm)
    {
      FilteredBlogs(blogs, searchTerm)
    }
  }

  /**
   * The server sends its newest blog both as `featured` and as the head of
   * `posts`, so the merged list holds that blog twice.
   */
  lemma NewestListedTwice(page: BlogController.BlogsPage)
    requires page.posts != [] && page.featured == Some(page.posts[0])
    ensures var featured := Some(CardOf(page.posts[0]));
      var cards := CardsOf(page.posts);
      multiset(SortDesc(Merged(featured, cards), CardCreatedAt))[CardOf(page.posts[0])] >= 2
  {
    var cards := CardsOf(page.posts);
    var m := Merged(Some(CardOf(page.posts[0])), cards);
    assert m == [cards[0]] + cards;
    assert multiset(cards)[cards[0]] >= 1;
  }

  function CardsOf(bs: seq<BlogController.Blog>): (r: seq<BlogCard>)
    ensures |r| == |bs| && forall i :: 0 <= i < |bs| ==> r[i] == CardOf(bs[i])
  {
    if bs == [] then [] else [CardOf(bs[0])] + CardsOf(bs[1..])
  }
}
