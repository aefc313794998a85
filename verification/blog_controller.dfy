/**
 * The blog handlers (Backend/controller/blogController.js) over an
 * in-memory blog collection, fed by the body the `parseJsonFields`
 * middleware leaves behind: create, list newest-first, read, update and
 * delete, with the "only one featured blog" rule.
 */
module BlogController {
  import opened Js
  import opened Text
  import opened Sorting
  import opened BlogRouter

  const DefaultImageUrl: string := "https://via.placeholder.com/800x400"
  const DefaultSenderPhoto: string := "https://via.placeholder.com/80x80"

  datatype Section = Section(title: string, description: string)

  /** A stored blog; a null image path is None. */
  datatype Blog = Blog(
    id: string,
    title: string,
    description: string,
    content: seq<Section>,
    imageUrl: Option<string>,
    featured: bool,
    senderName: string,
    senderPhoto: Option<string>,
    createdAt: int)

  // ---------------------------------------------------------------------------
  // The handler's own checks

  function Field(body: map<string, Value>, key: string): Value {
    Get(Obj(body), key)
  }

  /** `!title || !description || !senderName` fails. */
  predicate RequiredPresent(body: map<string, Value>) {
    Truthy(Field(body, "title")) && Truthy(Field(body, "description")) && Truthy(Field(body, "senderName"))
  }

  predicate SectionComplete(section: Value) {
    Truthy(Get(section, "title")) && Truthy(Get(section, "description"))
  }

  /** A non-empty array whose every section has a truthy title and description. */
  predicate ContentOk(content: Value) {
    content.Arr? && |content.items| > 0 && forall s :: s in content.items ==> SectionComplete(s)
  }

  /** `for (const section of content)`: the first incomplete section stops the check. */
  method CheckSections(sections: seq<Value>) returns (ok: bool)
    ensures ok <==> forall s :: s in sections ==> SectionComplete(s)
  {
    var i := 0;
    while i < |sections|
      invariant 0 <= i <= |sections|
      invariant forall j :: 0 <= j < i ==> SectionComplete(sections[j])
    {
      if !SectionComplete(sections[i]) {
        return false;
      }
      i := i + 1;
    }
    return true;
  }

  /** updateBlog's content check: only a truthy `content` is checked, and it must be a non-empty array of complete sections. */
  method CheckUpdateContent(content: Value) returns (ok: bool)
    ensures ok <==> !Truthy(content) || ContentOk(content)
  {
    if Truthy(content) {
      if !content.Arr? || |content.items| == 0 {
        return false;
      }
      ok := CheckSections(content.items);
      return;
    }
    return true;
  }

  // ---------------------------------------------------------------------------
  // Casting and the schema validators

  /**
   * A required text path: null and undefined fail `required`; otherwise the
   * String cast (numbers and booleans become text, arrays and objects are a
   * cast error), the optional `trim` setter, then `required` on the result.
   */
  function RequiredText(v: Value, trim: bool): (r: Option<string>)
    ensures r.Some? <==> CastString(v).Some? && (if trim then Trim(CastString(v).value) else CastString(v).value) != ""
    ensures r.Some? ==> r.value == (if trim then Trim(CastString(v).value) else CastString(v).value)
  {
    var c := CastString(v);
    if c.None? then None
    else
      var s := if trim then Trim(c.value) else c.value;
      if s == "" then None else Some(s)
  }

  /** An optional path with a default: undefined takes the default, null is stored as null, anything else is String-cast. */
  function OptionalText(v: Value, default: string): (r: Option<Option<string>>)
    ensures v == Undefined ==> r == Some(Some(default))
    ensures v == Null ==> r == Some(None)
    ensures v != Undefined && v != Null ==> (r.Some? <==> CastString(v).Some?) && (r.Some? ==> r.value == CastString(v))
  {
    if v == Undefined then Some(Some(default))
    else if v == Null then Some(None)
    else
      var c := CastString(v);
      if c.Some? then Some(c) else None
  }

  /** A section sub-document: `title` is trimmed and required, `description` required. */
  function CastSection(v: Value): (r: Option<Section>)
    ensures r.Some? <==> RequiredText(Get(v, "title"), true).Some? && RequiredText(Get(v, "description"), false).Some?
  {
    var t := RequiredText(Get(v, "title"), true);
    var d := RequiredText(Get(v, "description"), false);
    if t.Some? && d.Some? then Some(Section(t.value, d.value)) else None
  }

  /** The content array: every item is cast as a section, and one failing item fails the whole cast. */
  function CastSections(vs: seq<Value>): (r: Option<seq<Section>>)
    ensures r.Some? <==> forall i :: 0 <= i < |vs| ==> CastSection(vs[i]).Some?
    ensures r.Some? ==> |r.value| == |vs| && forall i :: 0 <= i < |vs| ==> r.value[i] == CastSection(vs[i]).value
  {
    CastEach(CastSection, vs)
  }


  /** A section whose description arrives as a number is stored with the number's text, not rejected. */
  lemma NumericDescriptionCast(t: string, n: int)
    requires Trim(t) != ""
    ensures CastSection(Obj(map["title" := Str(t), "description" := Num(n)])) == Some(Section(Trim(t), NumberText(n)))
  {
    var v := Obj(map["title" := Str(t), "description" := Num(n)]);
    assert Get(v, "title") == Str(t) && Get(v, "description") == Num(n);
    assert RequiredText(Str(t), true) == Some(Trim(t));
    assert RequiredText(Num(n), false) == Some(NumberText(n)) by {
      assert NumberText(n) != "";
    }
  }

  /** `Blog.create` on the handler's object: None when a cast or a validator fails. */
  function BuildBlog(body: map<string, Value>, imageFile: Option<string>, photoFile: Option<string>, id: string, now: int): (r: Option<Blog>)
    ensures r.Some? ==> r.value.id == id && r.value.createdAt == now
    ensures r.Some? ==> r.value.featured ==> Truthy(Field(body, "featured"))
    ensures r.Some? && imageFile.Some? ==> r.value.imageUrl == imageFile
    ensures r.Some? && imageFile.None? && Field(body, "imageUrl") == Undefined ==> r.value.imageUrl == Some(DefaultImageUrl)
  {
    var title := RequiredText(Field(body, "title"), true);
    var description := RequiredText(Field(body, "description"), false);
    var content := Field(body, "content");
    var sections := if content.Arr? then CastSections(content.items) else None;
    var imageUrl := if imageFile.Some? then Some(imageFile) else OptionalText(Field(body, "imageUrl"), DefaultImageUrl);
    var featured := Field(body, "featured");
    var flag := CastBoolean(if Truthy(featured) then featured else Bool(false));
    var senderName := RequiredText(Field(body, "senderName"), true);
    var senderPhoto := if photoFile.Some? then Some(photoFile) else OptionalText(Field(body, "senderPhoto"), DefaultSenderPhoto);
    if title.Some? && description.Some? && sections.Some? && imageUrl.Some? && flag.Some? && senderName.Some? && senderPhoto.Some? then
      Some(Blog(id, title.value, description.value, sections.value, imageUrl.value, flag.value,
                senderName.value, senderPhoto.value, now))
    else None
  }

  /** The paths of a `$set` after casting; None is a path that is not set. */
  datatype BlogPatch = BlogPatch(
    title: Option<string>,
    description: Option<string>,
    content: Option<seq<Section>>,
    imageUrl: Option<Option<string>>,
    featured: Option<bool>,
    senderName: Option<string>,
    senderPhoto: Option<Option<string>>)

  predicate Present(u: map<string, Value>, key: string) {
    Field(u, key) != Undefined
  }

  /** Casting `$set: updates` and running the update validators on the paths it sets. Null reads as not featured. */
  function CastPatch(u: map<string, Value>): Option<BlogPatch> {
    var title := if Present(u, "title") then (var t := RequiredText(Field(u, "title"), true); if t.Some? then Some(t) else None) else Some(None);
    var description := if Present(u, "description") then (var d := RequiredText(Field(u, "description"), false); if d.Some? then Some(d) else None) else Some(None);
    var content := Field(u, "content");
    var sections := if !Present(u, "content") then Some(None) else if content.Arr? then (var s := CastSections(content.items); if s.Some? then Some(s) else None) else None;
    var imageUrl := if Present(u, "imageUrl") then (var i := OptionalText(Field(u, "imageUrl"), DefaultImageUrl); if i.Some? then Some(i) else None) else Some(None);
    var featured := Field(u, "featured");
    var flag := if !Present(u, "featured") then Some(None) else if featured == Null then Some(Some(false)) else (var b := CastBoolean(featured); if b.Some? then Some(b) else None);
    var senderName := if Present(u, "senderName") then (var n := RequiredText(Field(u, "senderName"), true); if n.Some? then Some(n) else None) else Some(None);
    var senderPhoto := if Present(u, "senderPhoto") then (var p := OptionalText(Field(u, "senderPhoto"), DefaultSenderPhoto); if p.Some? then Some(p) else None) else Some(None);
    if Present(u, "_id") || title.None? || description.None? || sections.None? || imageUrl.None? || flag.None? || senderName.None? || senderPhoto.None? then None
    else Some(BlogPatch(title.value, description.value, sections.value, imageUrl.value, flag.value, senderName.value, senderPhoto.value))
  }

  function ApplyBlogPatch(b: Blog, p: BlogPatch): (r: Blog)
    ensures r.id == b.id && r.createdAt == b.createdAt
    ensures r.featured == (if p.featured.Some? then p.featured.value else b.featured)
  {
    Blog(
      b.id,
      if p.title.Some? then p.title.value else b.title,
      if p.description.Some? then p.description.value else b.description,
      if p.content.Some? then p.content.value else b.content,
      if p.imageUrl.Some? then p.imageUrl.value else b.imageUrl,
      if p.featured.Some? then p.featured.value else b.featured,
      if p.senderName.Some? then p.senderName.value else b.senderName,
      if p.senderPhoto.Some? then p.senderPhoto.value else b.senderPhoto,
      b.createdAt)
  }

  /** `updates` after the uploaded file paths override the body's and a truthy `_id` is dropped. */
  function Updates(body: map<string, Value>, imageFile: Option<string>, photoFile: Option<string>): (u: map<string, Value>)
    ensures imageFile.Some? ==> Field(u, "imageUrl") == Str(imageFile.value)
    ensures photoFile.Some? ==> Field(u, "senderPhoto") == Str(photoFile.value)
    ensures Truthy(Field(body, "_id")) ==> !Present(u, "_id")
    ensures Field(u, "content") == Field(body, "content") && Field(u, "featured") == Field(body, "featured")
  {
    var withImage := if imageFile.Some? then body["imageUrl" := Str(imageFile.value)] else body;
    var withPhoto := if photoFile.Some? then withImage["senderPhoto" := Str(photoFile.value)] else withImage;
    if Truthy(Field(withPhoto, "_id")) then withPhoto - {"_id"} else withPhoto
  }

  // ---------------------------------------------------------------------------
  // The collection

  /** `updateMany({ featured: true }, { $set: { featured: false } })` */
  function Unfeatured(bs: seq<Blog>): (r: seq<Blog>)
    ensures |r| == |bs|
    ensures forall i :: 0 <= i < |bs| ==> r[i] == bs[i].(featured := false)
  {
    if bs == [] then [] else [bs[0].(featured := false)] + Unfeatured(bs[1..])
  }

  /** Clearing the flags moves no blog: an id is found at the same index. */
  lemma {:induction false} IndexOfUnfeatured(bs: seq<Blog>, id: string)
    ensures IndexOfBlog(Unfeatured(bs), id) == IndexOfBlog(bs, id)
  {
    if bs != [] {
      assert Unfeatured(bs)[1..] == Unfeatured(bs[1..]);
      IndexOfUnfeatured(bs[1..], id);
    }
  }

  predicate AtMostOneFeatured(bs: seq<Blog>) {
    forall i, j :: 0 <= i < |bs| && 0 <= j < |bs| && bs[i].featured && bs[j].featured ==> i == j
  }

  predicate DistinctIds(bs: seq<Blog>) {
    forall i, j :: 0 <= i < j < |bs| ==> bs[i].id != bs[j].id
  }

  function IndexOfBlog(bs: seq<Blog>, id: string): (k: int)
    ensures -1 <= k < |bs|
    ensures k >= 0 ==> bs[k].id == id
    ensures k == -1 ==> forall j :: 0 <= j < |bs| ==> bs[j].id != id
  {
    if bs == [] then -1
    else if bs[0].id == id then 0
    else
      var k := IndexOfBlog(bs[1..], id);
      if k == -1 then -1 else k + 1
  }

  function BlogCreatedAt(b: Blog): int {
    b.createdAt
  }

  /** The reply of getBlogs. */
  datatype BlogsPage = BlogsPage(featured: Option<Blog>, posts: seq<Blog>, total: int)

  /** Only the updated blog can carry the flag after the others were cleared. */
  lemma UnfeaturedThenSet(bs: seq<Blog>, k: int, b: Blog)
    requires 0 <= k < |bs|
    ensures AtMostOneFeatured(Unfeatured(bs)[k := b])
  {
  }

  lemma AppendToUnfeatured(bs: seq<Blog>, b: Blog)
    ensures AtMostOneFeatured(Unfeatured(bs) + [b])
  {
    var r := Unfeatured(bs) + [b];
    assert forall i :: 0 <= i < |bs| ==> r[i] == Unfeatured(bs)[i];
  }

  lemma AppendUnfeaturedBlog(bs: seq<Blog>, b: Blog)
    requires AtMostOneFeatured(bs) && !b.featured
    ensures AtMostOneFeatured(bs + [b])
  {
    var r := bs + [b];
    forall i, j | 0 <= i < |r| && 0 <= j < |r| && r[i].featured && r[j].featured ensures i == j {
      assert i < |bs| && j < |bs|;
      assert r[i] == bs[i] && r[j] == bs[j];
    }
  }

  lemma AppendKeepsDistinct(bs: seq<Blog>, b: Blog)
    requires DistinctIds(bs) && forall i :: 0 <= i < |bs| ==> bs[i].id != b.id
    ensures DistinctIds(bs + [b])
  {
    var r := bs + [b];
    forall i, j | 0 <= i < j < |r| ensures r[i].id != r[j].id {
      if j == |bs| {
        assert r[i] == bs[i];
      }
    }
  }

  lemma RemoveKeepsDistinct(bs: seq<Blog>, k: int)
    requires 0 <= k < |bs| && DistinctIds(bs)
    ensures DistinctIds(bs[..k] + bs[k + 1..])
  {
    var r := bs[..k] + bs[k + 1..];
    assert forall i :: 0 <= i < |r| ==> r[i] == bs[if i < k then i else i + 1];
  }

  class BlogStore {
    /** The collection, in insertion order. */
    var blogs: seq<Blog>
    /** Whether an id casts to an ObjectId. */
    const isValidId: string -> bool

    ghost predicate Valid()
      reads this
    {
      DistinctIds(blogs)
    }

    constructor (isValidId: string -> bool)
      ensures Valid() && blogs == [] && this.isValidId == isValidId
    {
      blogs := [];
      this.isValidId := isValidId;
    }

    /** Every check of updateBlog before the lookup passes: the content check, the id cast, and the cast and validators of the update. */
    predicate UpdateChecksPass(id: string, body: map<string, Value>, imageFile: Option<string>, photoFile: Option<string>) {
      var content := Field(body, "content");
      && (!Truthy(content) || ContentOk(content))
      && isValidId(id)
      && CastPatch(Updates(body, imageFile, photoFile)).Some?
    }

    /** updateBlog answers 200: the checks pass and a blog with the id is stored. */
    predicate UpdateGoesThrough(id: string, body: map<string, Value>, imageFile: Option<string>, photoFile: Option<string>, bs: seq<Blog>) {
      UpdateChecksPass(id, body, imageFile, photoFile) && IndexOfBlog(bs, id) >= 0
    }

    /** `findByIdAndUpdate` on the blog at index `k`. */
    method ReplaceBlog(k: int, b: Blog)
      requires Valid() && 0 <= k < |blogs| && b.id == blogs[k].id
      modifies this
      ensures Valid() && blogs == old(blogs)[k := b]
    {
      blogs := blogs[k := b];
    }

    method ClearFeatured()
      modifies this
      ensures blogs == Unfeatured(old(blogs))
    {
      blogs := Unfeatured(blogs);
    }

    /**
     * createBlog: 400 for a missing title, description or sender, for
     * content that is not a non-empty array of complete sections. A truthy
     * `featured` then clears every flag, and only after that does the
     * schema get its say: a rejected create has still cleared the flags.
     */
    method Create(body: map<string, Value>, imageFile: Option<string>, photoFile: Option<string>, newId: string, now: int)
      returns (status: int, created: Option<Blog>)
      requires Valid()
      requires forall i :: 0 <= i < |blogs| ==> blogs[i].id != newId
      modifies this
      ensures Valid()
      ensures status == 201 || status == 400
      ensures status == 201 <==> created.Some?
      ensures status == 201 <==>
        RequiredPresent(body) && ContentOk(Field(body, "content")) && BuildBlog(body, imageFile, photoFile, newId, now).Some?
      ensures !RequiredPresent(body) || !ContentOk(Field(body, "content")) ==> status == 400 && blogs == old(blogs)
      ensures RequiredPresent(body) && ContentOk(Field(body, "content")) ==>
        var before := if Truthy(Field(body, "featured")) then Unfeatured(old(blogs)) else old(blogs);
        && created == BuildBlog(body, imageFile, photoFile, newId, now)
        && blogs == before + (if created.Some? then [created.value] else [])
      ensures AtMostOneFeatured(old(blogs)) ==> AtMostOneFeatured(blogs)
    {
      if !RequiredPresent(body) {
        return 400, None;
      }
      var content := Field(body, "content");
      if !content.Arr? || |content.items| == 0 {
        return 400, None;
      }
      var complete := CheckSections(content.items);
      if !complete {
        return 400, None;
      }
      if Truthy(Field(body, "featured")) {
        ClearFeatured();
      }
      created := BuildBlog(body, imageFile, photoFile, newId, now);
      if created.None? {
        return 400, None;
      }
      if Truthy(Field(body, "featured")) {
        AppendToUnfeatured(old(blogs), created.value);
      } else if AtMostOneFeatured(blogs) {
        AppendUnfeaturedBlog(blogs, created.value);
      }
      AppendKeepsDistinct(blogs, created.value);
      blogs := blogs + [created.value];
      return 201, created;
    }

    /** getBlogs: every blog newest first; `featured` is simply the newest one, flagged or not. */
    method GetBlogs() returns (page: BlogsPage)
      ensures SortedDesc(page.posts, BlogCreatedAt)
      ensures multiset(page.posts) == multiset(blogs)
      ensures page.total == |blogs| == |page.posts|
      ensures page.featured == (if page.posts == [] then None else Some(page.posts[0]))
      ensures page.featured.Some? ==> forall b :: b in blogs ==> b.createdAt <= page.featured.value.createdAt
    {
      var posts := SortDesc(blogs, BlogCreatedAt);
      MembersOfSort(blogs, BlogCreatedAt);
      if posts != [] {
        NewestFirst(posts);
      }
      page := BlogsPage(if posts == [] then None else Some(posts[0]), posts, |posts|);
    }

    /** getBlogById: 500 for an id that does not cast, 404 when absent. */
    method GetById(id: string) returns (status: int, found: Option<Blog>)
      ensures !isValidId(id) ==> status == 500 && found.None?
      ensures isValidId(id) && IndexOfBlog(blogs, id) < 0 ==> status == 404 && found.None?
      ensures isValidId(id) && IndexOfBlog(blogs, id) >= 0 ==> status == 200 && found == Some(blogs[IndexOfBlog(blogs, id)])
    {
      if !isValidId(id) {
        return 500, None;
      }
      var k := IndexOfBlog(blogs, id);
      if k < 0 {
        return 404, None;
      }
      return 200, Some(blogs[k]);
    }

    /**
     * updateBlog as written: file paths override the body, a truthy `_id`
     * is dropped, content is checked when truthy. `featured === true`
     * clears every flag before the id, the cast and the validators are
     * looked at, so a 400 or a 404 still leaves no blog featured; any
     * other `featured` value that casts to true (such as "1") is stored
     * without clearing the others.
     */
    method Update(id: string, body: map<string, Value>, imageFile: Option<string>, photoFile: Option<string>)
      returns (status: int, updated: Option<Blog>)
      requires Valid()
      modifies this
      ensures Valid()
      ensures status == 200 || status == 400 || status == 404
      ensures status == 200 <==> updated.Some?
      ensures var content := Field(body, "content");
        Truthy(content) && !ContentOk(content) ==> status == 400 && blogs == old(blogs)
      ensures var content := Field(body, "content");
        !Truthy(content) || ContentOk(content) ==>
        var before := if Field(body, "featured") == Bool(true) then Unfeatured(old(blogs)) else old(blogs);
        && (status != 200 ==> blogs == before)
        && (status == 200 ==>
              var k := IndexOfBlog(old(blogs), id);
              && k >= 0
              && CastPatch(Updates(body, imageFile, photoFile)).Some?
              && updated.value == ApplyBlogPatch(before[k], CastPatch(Updates(body, imageFile, photoFile)).value)
              && blogs == before[k := updated.value])
      ensures status == 200 <==> UpdateGoesThrough(id, body, imageFile, photoFile, old(blogs))
      ensures !isValidId(id) ==> status == 400
      ensures status == 404 <==> UpdateChecksPass(id, body, imageFile, photoFile) && IndexOfBlog(old(blogs), id) < 0
    {
      var updates := Updates(body, imageFile, photoFile);
      var contentOk := CheckUpdateContent(Field(updates, "content"));
      if !contentOk {
        return 400, None;
      }
      if Field(updates, "featured") == Bool(true) {
        ClearFeatured();
        IndexOfUnfeatured(old(blogs), id);
      }
      if !isValidId(id) {
        return 400, None;
      }
      var patch := CastPatch(updates);
      if patch.None? {
        return 400, None;
      }
      var k := IndexOfBlog(blogs, id);
      if k < 0 {
        return 404, None;
      }
      var b := ApplyBlogPatch(blogs[k], patch.value);
      ReplaceBlog(k, b);
      return 200, Some(b);
    }

    /**
     * updateBlog with the flag handled as the "only one featured blog"
     * rule intends: nothing is cleared unless the update goes through, and
     * the clear follows the stored value (Mongoose's Boolean cast) rather
     * than `=== true`.
     */
    method UpdateCorrected(id: string, body: map<string, Value>, imageFile: Option<string>, photoFile: Option<string>)
      returns (status: int, updated: Option<Blog>)
      requires Valid()
      modifies this
      ensures Valid()
      ensures status == 200 || status == 400 || status == 404
      ensures status == 200 <==> updated.Some?
      ensures status != 200 ==> blogs == old(blogs)
      ensures status == 200 <==> UpdateGoesThrough(id, body, imageFile, photoFile, old(blogs))
      ensures !isValidId(id) ==> status == 400
      ensures status == 404 <==> UpdateChecksPass(id, body, imageFile, photoFile) && IndexOfBlog(old(blogs), id) < 0
      ensures AtMostOneFeatured(old(blogs)) ==> AtMostOneFeatured(blogs)
      ensures status == 200 ==>
        var k := IndexOfBlog(old(blogs), id);
        var patch := CastPatch(Updates(body, imageFile, photoFile));
        && k >= 0 && patch.Some?
        && (patch.value.featured == Some(true) ==>
              updated.value == ApplyBlogPatch(old(blogs)[k], patch.value) && blogs == Unfeatured(old(blogs))[k := updated.value])
        && (patch.value.featured != Some(true) ==>
              updated.value == ApplyBlogPatch(old(blogs)[k], patch.value) && blogs == old(blogs)[k := updated.value])
    {
      var updates := Updates(body, imageFile, photoFile);
      var contentOk := CheckUpdateContent(Field(updates, "content"));
      if !contentOk {
        return 400, None;
      }
      if !isValidId(id) {
        return 400, None;
      }
      var patch := CastPatch(updates);
      if patch.None? {
        return 400, None;
      }
      var k := IndexOfBlog(blogs, id);
      if k < 0 {
        return 404, None;
      }
      var b := ApplyBlogPatch(blogs[k], patch.value);
      if patch.value.featured == Some(true) {
        ClearFeatured();
        UnfeaturedThenSet(old(blogs), k, b);
      } else {
        assert !b.featured ==> AtMostOneFeatured(old(blogs)) ==> AtMostOneFeatured(blogs[k := b]);
      }
      ReplaceBlog(k, b);
      return 200, Some(b);
    }

    /** deleteBlog: 500 for an id that does not cast, 404 when absent, else the blog is removed. */
    method Delete(id: string) returns (status: int)
      requires Valid()
      modifies this
      ensures Valid()
      ensures !isValidId(id) ==> status == 500 && blogs == old(blogs)
      ensures isValidId(id) && IndexOfBlog(old(blogs), id) < 0 ==> status == 404 && blogs == old(blogs)
      ensures isValidId(id) && IndexOfBlog(old(blogs), id) >= 0 ==>
        var k := IndexOfBlog(old(blogs), id);
        status == 200 && blogs == old(blogs)[..k] + old(blogs)[k + 1..]
    {
      if !isValidId(id) {
        return 500;
      }
      var k := IndexOfBlog(blogs, id);
      if k < 0 {
        return 404;
      }
      RemoveKeepsDistinct(blogs, k);
      blogs := blogs[..k] + blogs[k + 1..];
      return 200;
    }
  }

  /**
   * An update whose `featured` is the string "1" is not cleared first but
   * is stored as true: next to an already featured blog, two are featured.
   */
  lemma FeaturedOneMakesTwo(bs: seq<Blog>, k: int, j: int, u: map<string, Value>)
    requires 0 <= k < |bs| && 0 <= j < |bs| && j != k && bs[j].featured
    requires Field(u, "featured") == Str("1") && CastPatch(u).Some?
    ensures Field(u, "featured") != Bool(true)
    ensures !AtMostOneFeatured(bs[k := ApplyBlogPatch(bs[k], CastPatch(u).value)])
  {
    assert CastBoolean(Str("1")) == Some(true);
    var r := bs[k := ApplyBlogPatch(bs[k], CastPatch(u).value)];
    assert r[k].featured && r[j].featured;
  }

  /** A `featured: true` update that ends in 400 or 404 still leaves a store with a featured blog without one. */
  lemma FailedUpdateUnfeaturesAll(bs: seq<Blog>, j: int)
    requires 0 <= j < |bs| && bs[j].featured
    ensures Unfeatured(bs) != bs
    ensures forall i :: 0 <= i < |bs| ==> !Unfeatured(bs)[i].featured
  {
    assert Unfeatured(bs)[j] != bs[j];
  }

  /** In a newest-first list the head is at least as new as every element. */
  lemma {:induction false} NewestFirst(posts: seq<Blog>)
    requires posts != [] && SortedDesc(posts, BlogCreatedAt)
    ensures forall b :: b in posts ==> b.createdAt <= posts[0].createdAt
  {
    if |posts| > 1 {
      assert SortedDesc(posts[1..], BlogCreatedAt);
      NewestFirst(posts[1..]);
      assert forall b :: b in posts ==> b == posts[0] || b in posts[1..];
    }
  }
}
