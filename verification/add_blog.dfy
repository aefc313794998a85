/**
 * The add-blog form of the admin panel (Admin/src/pages/AddBlog.jsx). The
 * content sections are objects that the change handler edits in place, so
 * they are modelled as objects; the request the form sends is then followed
 * through the blog router's middleware into the create handler.
 */
module AddBlogForm {
  import opened Js
  import opened Text
  import BlogRouter
  import BlogController

  /** One content section of the form, edited in place. */
  class SectionRow {
    var title: string
    var description: string

    constructor (title: string, description: string)
      ensures this.title == title && this.description == description
    {
      this.title := title;
      this.description := description;
    }
  }

  /** The two inputs of a section. */
  datatype SectionField = Title | Description

  /** The values of the form at one moment. */
  datatype BlogDraft = BlogDraft(
    title: string, description: string, senderName: string, featured: bool,
    sections: seq<(string, string)>)

  /** The client-side checks before anything is sent. */
  predicate DraftAccepted(d: BlogDraft) {
    && !IsBlank(d.title) && !IsBlank(d.description) && !IsBlank(d.senderName)
    && forall i :: 0 <= i < |d.sections| ==> SectionFilled(d.sections[i])
  }

  /** `sec.title.trim() && sec.description.trim()`. */
  predicate SectionFilled(s: (string, string)) {
    !IsBlank(s.0) && !IsBlank(s.1)
  }

  function SectionValue(s: (string, string)): Value {
    Obj(map["title" := Str(s.0), "description" := Str(s.1)])
  }

  lemma SectionValueFields(s: (string, string))
    ensures Get(SectionValue(s), "title") == Str(s.0) && Get(SectionValue(s), "description") == Str(s.1)
  {
  }

  function SectionValues(ss: seq<(string, string)>): (r: seq<Value>)
    ensures |r| == |ss| && forall i :: 0 <= i < |ss| ==> r[i] == SectionValue(ss[i])
  {
    if ss == [] then [] else [SectionValue(ss[0])] + SectionValues(ss[1..])
  }

  /**
   * The multipart text fields of the request: every form field as a
   * string, and the sections JSON-encoded by `stringify`.
   */
  function DraftBody(d: BlogDraft, stringify: Value -> string): (body: map<string, Value>)
    ensures body.Keys == {"title", "description", "senderName", "featured", "content"}
    ensures body["featured"] == Str(if d.featured then "true" else "false")
  {
    map["title" := Str(d.title), "description" := Str(d.description), "senderName" := Str(d.senderName),
        "featured" := Str(if d.featured then "true" else "false"),
        "content" := Str(stringify(Arr(SectionValues(d.sections))))]
  }

  /** The body as the create handler sees it after the router's middleware. */
  function AfterMiddleware(body: map<string, Value>, parseJson: string -> Option<Value>): map<string, Value>
    requires !BlogRouter.ContentUnparsable(body, parseJson)
  {
    var b := if "content" in body then body["content" := BlogRouter.DecodedContent(body["content"], parseJson)] else body;
    if "featured" in b then b["featured" := BlogRouter.CoerceFeatured(b["featured"])] else b
  }

  /** The checks of handleSubmit in their order: the three text fields, then `content.every(...)`. */
  method CheckDraft(d: BlogDraft) returns (ok: bool)
    ensures ok <==> DraftAccepted(d)
  {
    if IsBlank(d.title) || IsBlank(d.description) || IsBlank(d.senderName) {
      return false;
    }
    ok := CheckSectionsFilled(d.sections);
  }

  /** `content.every((sec) => sec.title.trim() && sec.description.trim())` */
  method CheckSectionsFilled(sections: seq<(string, string)>) returns (ok: bool)
    ensures ok <==> forall i :: 0 <= i < |sections| ==> SectionFilled(sections[i])
  {
    var i := 0;
    while i < |sections|
      invariant 0 <= i <= |sections|
      invariant forall j :: 0 <= j < i ==> SectionFilled(sections[j])
    {
      if !SectionFilled(sections[i]) {
        return false;
      }
      i := i + 1;
    }
    return true;
  }

  class BlogForm {
    var title: string
    var description: string
    var senderName: string
    var featured: bool
    var content: seq<SectionRow>
    var imageUrlFile: Option<string>
    var senderPhotoFile: Option<string>

    /** At least one section, and no section object listed twice. */
    ghost predicate Valid()
      reads this
    {
      |content| >= 1 && forall i, j :: 0 <= i < j < |content| ==> content[i] != content[j]
    }

    function Draft(): (d: BlogDraft)
      reads this, content
      ensures |d.sections| == |content|
      ensures forall i :: 0 <= i < |content| ==> d.sections[i] == (content[i].title, content[i].description)
    {
      BlogDraft(title, description, senderName, featured, SectionsOf(content))
    }

    function SectionsOf(rows: seq<SectionRow>): (r: seq<(string, string)>)
      reads rows
      ensures |r| == |rows| && forall i :: 0 <= i < |rows| ==> r[i] == (rows[i].title, rows[i].description)
    {
      if rows == [] then [] else [(rows[0].title, rows[0].description)] + SectionsOf(rows[1..])
    }

    /** The initial state: empty fields, not featured, one "Introduction" section, no files. */
    constructor ()
      ensures Valid()
      ensures title == "" && description == "" && senderName == "" && !featured
      ensures |content| == 1 && fresh(content[0])
      ensures content[0].title == "Introduction" && content[0].description == ""
      ensures imageUrlFile.None? && senderPhotoFile.None?
    {
      title, description, senderName, featured := "", "", "", false;
      var intro := new SectionRow("Introduction", "");
      content := [intro];
      imageUrlFile, senderPhotoFile := None, None;
    }

    /** handleContentChange: the section object itself is changed; every other section keeps its values. */
    method HandleContentChange(index: int, name: SectionField, value: string)
      requires Valid() && 0 <= index < |content|
      modifies content[index]
      ensures name == Title ==> content[index].title == value && content[index].description == old(content[index].description)
      ensures name == Description ==> content[index].description == value && content[index].title == old(content[index].title)
      ensures forall j :: 0 <= j < |content| && j != index ==>
        content[j].title == old(content[j].title) && content[j].description == old(content[j].description)
    {
      var row := content[index];
      if name == Title {
        row.title := value;
      } else {
        row.description := value;
      }
    }

    /** addContentSection: a new blank section at the end. */
    method AddContentSection()
      requires Valid()
      modifies this
      ensures Valid()
      ensures |content| == |old(content)| + 1 && content[..|old(content)|] == old(content)
      ensures fresh(content[|content| - 1])
      ensures content[|content| - 1].title == "" && content[|content| - 1].description == ""
      ensures title == old(title) && description == old(description) && senderName == old(senderName) && featured == old(featured)
      ensures imageUrlFile == old(imageUrlFile) && senderPhotoFile == old(senderPhotoFile)
    {
      var row := new SectionRow("", "");
      content := content + [row];
    }

    /** removeContentSection: the last remaining section cannot be removed; the user is alerted instead. */
    method RemoveContentSection(index: int) returns (alerted: bool)
      requires Valid()
      modifies this
      ensures Valid()
      ensures alerted <==> |old(content)| == 1
      ensures alerted ==> content == old(content)
      ensures !alerted && 0 <= index < |old(content)| ==> content == old(content)[..index] + old(content)[index + 1..]
      ensures !alerted && !(0 <= index < |old(content)|) ==> content == old(content)
      ensures title == old(title) && description == old(description) && senderName == old(senderName) && featured == old(featured)
      ensures imageUrlFile == old(imageUrlFile) && senderPhotoFile == old(senderPhotoFile)
    {
      if |content| > 1 {
        if 0 <= index < |content| {
          var before := content;
          content := content[..index] + content[index + 1..];
          forall i, j | 0 <= i < j < |content| ensures content[i] != content[j] {
            var i' := if i < index then i else i + 1;
            var j' := if j < index then j else j + 1;
            assert content[i] == before[i'] && content[j] == before[j'];
          }
        }
        alerted := false;
      } else {
        alerted := true;
      }
    }

    /** resetForm: back to the initial state with a new "Introduction" section. */
    method ResetForm()
      modifies this
      ensures Valid()
      ensures title == "" && description == "" && senderName == "" && !featured
      ensures |content| == 1 && fresh(content[0])
      ensures content[0].title == "Introduction" && content[0].description == ""
      ensures imageUrlFile.None? && senderPhotoFile.None?
    {
      title, description, senderName, featured := "", "", "", false;
      var intro := new SectionRow("Introduction", "");
      content := [intro];
      imageUrlFile, senderPhotoFile := None, None;
    }

    /**
     * handleSubmit: the three text checks, then `content.every(...)`; only
     * an accepted form produces a request, whose files are the chosen ones.
     */
    method Submit(stringify: Value -> string) returns (request: Option<map<string, Value>>, imageFile: Option<string>, photoFile: Option<string>)
      requires Valid()
      ensures request.Some? <==> DraftAccepted(Draft())
      ensures request.Some? ==> request.value == DraftBody(Draft(), stringify)
      ensures imageFile == imageUrlFile && photoFile == senderPhotoFile
    {
      imageFile, photoFile := imageUrlFile, senderPhotoFile;
      var d := Draft();
      var accepted := CheckDraft(d);
      if !accepted {
        return None, imageFile, photoFile;
      }
      request := Some(DraftBody(d, stringify));
    }
  }

  /** A section as the schema stores it: title trimmed, description as typed. */
  function StoredSection(s: (string, string)): BlogController.Section {
    BlogController.Section(Trim(s.0), s.1)
  }

  /** The stored form of each section, in order. */
  function StoredSections(ss: seq<(string, string)>): seq<BlogController.Section> {
    seq(|ss|, i requires 0 <= i < |ss| => StoredSection(ss[i]))
  }


  lemma NotBlankNotEmpty(s: string)
    requires !IsBlank(s)
    ensures s != ""
  {
  }

  lemma CastAcceptedSection(s: (string, string))
    requires SectionFilled(s)
    ensures BlogController.CastSection(SectionValue(s)) == Some(StoredSection(s))
  {
    NotBlankNotEmpty(s.1);
    SectionValueFields(s);
  }

  lemma AcceptedSectionsCast(ss: seq<(string, string)>)
    requires forall i :: 0 <= i < |ss| ==> SectionFilled(ss[i])
    ensures BlogController.CastSections(SectionValues(ss)) == Some(StoredSections(ss))
  {
    var vs, stored := SectionValues(ss), StoredSections(ss);
    forall i | 0 <= i < |ss|
      ensures BlogController.CastSection(vs[i]) == Some(stored[i])
    {
      CastAcceptedSection(ss[i]);
    }
    CastEachOfCasts(BlogController.CastSection, vs, stored);
  }

  /** The router decodes the sections and turns the checkbox string back into a boolean. */
  lemma DraftAfterMiddleware(d: BlogDraft, stringify: Value -> string, parseJson: string -> Option<Value>)
    requires stringify(Arr(SectionValues(d.sections))) != ""
    requires parseJson(stringify(Arr(SectionValues(d.sections)))) == Some(Arr(SectionValues(d.sections)))
    ensures !BlogRouter.ContentUnparsable(DraftBody(d, stringify), parseJson)
    ensures AfterMiddleware(DraftBody(d, stringify), parseJson) == DecodedBody(d)
  {
    var raw := DraftBody(d, stringify);
    assert Get(Obj(raw), "content") == raw["content"];
    assert Truthy(raw["content"]);
  }

  /** The body after the middleware, field by field. */
  function DecodedBody(d: BlogDraft): map<string, Value> {
    map["title" := Str(d.title), "description" := Str(d.description), "senderName" := Str(d.senderName),
        "featured" := Bool(d.featured), "content" := Arr(SectionValues(d.sections))]
  }

  /** What the create handler reads from `body` is what the draft holds, and no picture path is set. */
  predicate HasDraftFields(body: map<string, Value>, d: BlogDraft) {
    && BlogController.Field(body, "title") == Str(d.title)
    && BlogController.Field(body, "description") == Str(d.description)
    && BlogController.Field(body, "senderName") == Str(d.senderName)
    && BlogController.Field(body, "content") == Arr(SectionValues(d.sections))
    && BlogController.Field(body, "featured") == Bool(d.featured)
    && BlogController.Field(body, "imageUrl") == Undefined
    && BlogController.Field(body, "senderPhoto") == Undefined
  }

  lemma DecodedBodyFields(d: BlogDraft)
    ensures HasDraftFields(DecodedBody(d), d)
  {
  }

  /** Filled sections all have a truthy title and description. */
  lemma FilledContentOk(ss: seq<(string, string)>)
    requires |ss| >= 1 && forall i :: 0 <= i < |ss| ==> SectionFilled(ss[i])
    ensures BlogController.ContentOk(Arr(SectionValues(ss)))
  {
    var items := SectionValues(ss);
    forall i | 0 <= i < |items| ensures BlogController.SectionComplete(items[i]) {
      FilledSectionComplete(ss[i]);
    }
    assert forall s :: s in items ==> BlogController.SectionComplete(s);
  }

  lemma FilledSectionComplete(s: (string, string))
    requires SectionFilled(s)
    ensures BlogController.SectionComplete(SectionValue(s))
  {
    NotBlankNotEmpty(s.0);
    NotBlankNotEmpty(s.1);
    SectionValueFields(s);
  }

  /** BuildBlog once each of its casts is known. */
  lemma BuildFromCasts(body: map<string, Value>, imageFile: Option<string>, photoFile: Option<string>, id: string, now: int,
                       title: string, description: string, sections: seq<BlogController.Section>, imageUrl: Option<string>,
                       flag: bool, senderName: string, senderPhoto: Option<string>)
    requires BlogController.RequiredText(BlogController.Field(body, "title"), true) == Some(title)
    requires BlogController.RequiredText(BlogController.Field(body, "description"), false) == Some(description)
    requires BlogController.Field(body, "content").Arr?
    requires BlogController.CastSections(BlogController.Field(body, "content").items) == Some(sections)
    requires (if imageFile.Some? then Some(imageFile)
              else BlogController.OptionalText(BlogController.Field(body, "imageUrl"), BlogController.DefaultImageUrl)) == Some(imageUrl)
    requires var f := BlogController.Field(body, "featured");
      BlogRouter.CastBoolean(if Truthy(f) then f else Bool(false)) == Some(flag)
    requires BlogController.RequiredText(BlogController.Field(body, "senderName"), true) == Some(senderName)
    requires (if photoFile.Some? then Some(photoFile)
              else BlogController.OptionalText(BlogController.Field(body, "senderPhoto"), BlogController.DefaultSenderPhoto)) == Some(senderPhoto)
    ensures BlogController.BuildBlog(body, imageFile, photoFile, id, now)
      == Some(BlogController.Blog(id, title, description, sections, imageUrl, flag, senderName, senderPhoto, now))
  {
  }

  /** A string path casts to itself, trimmed when the path trims; a blank result is rejected. */
  lemma StringCasts(s: string, trim: bool)
    ensures var t := if trim then Trim(s) else s;
      BlogController.RequiredText(Str(s), trim) == if t == "" then None else Some(t)
  {
  }

  /** A boolean `featured` path is stored as it is, `false` included. */
  lemma FlagCasts(f: Value, featured: bool)
    requires f == Bool(featured)
    ensures BlogRouter.CastBoolean(if Truthy(f) then f else Bool(false)) == Some(featured)
  {
    assert (if Truthy(f) then f else Bool(false)) == Bool(featured);
  }

  /** BuildBlog on a body whose paths are known, once each of them casts. */
  lemma BodyBuilds(body: map<string, Value>, title: string, description: string, senderName: string, featured: bool,
                   items: seq<Value>, stored: seq<BlogController.Section>,
                   imageFile: Option<string>, photoFile: Option<string>, id: string, now: int)
    requires BlogController.Field(body, "title") == Str(title) && Trim(title) != ""
    requires BlogController.Field(body, "description") == Str(description) && description != ""
    requires BlogController.Field(body, "senderName") == Str(senderName) && Trim(senderName) != ""
    requires BlogController.Field(body, "content") == Arr(items) && BlogController.CastSections(items) == Some(stored)
    requires BlogController.Field(body, "featured") == Bool(featured)
    requires BlogController.Field(body, "imageUrl") == Undefined && BlogController.Field(body, "senderPhoto") == Undefined
    ensures BlogController.BuildBlog(body, imageFile, photoFile, id, now) ==
      Some(BlogController.Blog(id, Trim(title), description, stored,
        if imageFile.Some? then imageFile else Some(BlogController.DefaultImageUrl), featured, Trim(senderName),
        if photoFile.Some? then photoFile else Some(BlogController.DefaultSenderPhoto), now))
  {
    assert BlogController.RequiredText(BlogController.Field(body, "title"), true) == Some(Trim(title)) by {
      StringCasts(title, true);
    }
    assert BlogController.RequiredText(BlogController.Field(body, "description"), false) == Some(description) by {
      StringCasts(description, false);
    }
    assert BlogController.RequiredText(BlogController.Field(body, "senderName"), true) == Some(Trim(senderName)) by {
      StringCasts(senderName, true);
    }
    assert BlogController.Field(body, "content").Arr?;
    assert BlogController.CastSections(BlogController.Field(body, "content").items) == Some(stored);
    assert (if imageFile.Some? then Some(imageFile)
            else BlogController.OptionalText(BlogController.Field(body, "imageUrl"), BlogController.DefaultImageUrl))
      == Some(if imageFile.Some? then imageFile else Some(BlogController.DefaultImageUrl));
    FlagCasts(BlogController.Field(body, "featured"), featured);
    assert (if photoFile.Some? then Some(photoFile)
            else BlogController.OptionalText(BlogController.Field(body, "senderPhoto"), BlogController.DefaultSenderPhoto))
      == Some(if photoFile.Some? then photoFile else Some(BlogController.DefaultSenderPhoto));
    BuildFromCasts(body, imageFile, photoFile, id, now, Trim(title), description, stored,
      if imageFile.Some? then imageFile else Some(BlogController.DefaultImageUrl), featured, Trim(senderName),
      if photoFile.Some? then photoFile else Some(BlogController.DefaultSenderPhoto));
  }

  /** The create handler's own checks pass on a body that carries an accepted draft. */
  lemma DraftFieldsChecked(body: map<string, Value>, d: BlogDraft)
    requires d.title != "" && d.description != "" && d.senderName != ""
    requires |d.sections| >= 1 && forall i :: 0 <= i < |d.sections| ==> SectionFilled(d.sections[i])
    requires HasDraftFields(body, d)
    ensures BlogController.RequiredPresent(body)
    ensures BlogController.ContentOk(BlogController.Field(body, "content"))
  {
    FilledContentOk(d.sections);
  }

  /** The schema accepts a body that carries an accepted draft. */
  lemma DraftFieldsBuild(body: map<string, Value>, d: BlogDraft, imageFile: Option<string>, photoFile: Option<string>, id: string, now: int)
    requires DraftAccepted(d) && HasDraftFields(body, d)
    ensures var b := BlogController.BuildBlog(body, imageFile, photoFile, id, now);
      && b.Some?
      && b.value.title == Trim(d.title) && b.value.description == d.description
      && b.value.senderName == Trim(d.senderName) && b.value.featured == d.featured
      && b.value.content == StoredSections(d.sections)
      && b.value.imageUrl == (if imageFile.Some? then imageFile else Some(BlogController.DefaultImageUrl))
      && b.value.senderPhoto == (if photoFile.Some? then photoFile else Some(BlogController.DefaultSenderPhoto))
  {
    assert Trim(d.title) != "" && Trim(d.senderName) != "";
    NotBlankNotEmpty(d.description);
    AcceptedSectionsCast(d.sections);
    BodyBuilds(body, d.title, d.description, d.senderName, d.featured,
               SectionValues(d.sections), StoredSections(d.sections), imageFile, photoFile, id, now);
  }

  /**
   * A form the client accepts, once its sections survive the JSON round
   * trip, passes the router and every check of the create handler, and the
   * blog stored has the trimmed title and sender, the typed description,
   * the sections, the default pictures when no file was chosen, and the
   * featured flag of the checkbox.
   */
  lemma AcceptedDraftIsCreated(d: BlogDraft, stringify: Value -> string, parseJson: string -> Option<Value>,
                               imageFile: Option<string>, photoFile: Option<string>, id: string, now: int)
    requires DraftAccepted(d) && |d.sections| >= 1
    requires stringify(Arr(SectionValues(d.sections))) != ""
    requires parseJson(stringify(Arr(SectionValues(d.sections)))) == Some(Arr(SectionValues(d.sections)))
    ensures !BlogRouter.ContentUnparsable(DraftBody(d, stringify), parseJson)
    ensures var body := AfterMiddleware(DraftBody(d, stringify), parseJson);
      && BlogController.RequiredPresent(body)
      && BlogController.ContentOk(BlogController.Field(body, "content"))
      && var b := BlogController.BuildBlog(body, imageFile, photoFile, id, now);
      && b.Some?
      && b.value.title == Trim(d.title) && b.value.description == d.description
      && b.value.senderName == Trim(d.senderName) && b.value.featured == d.featured
      && b.value.content == StoredSections(d.sections)
      && b.value.imageUrl == (if imageFile.Some? then imageFile else Some(BlogController.DefaultImageUrl))
      && b.value.senderPhoto == (if photoFile.Some? then photoFile else Some(BlogController.DefaultSenderPhoto))
  {
    DraftAfterMiddleware(d, stringify, parseJson);
    DecodedBodyFields(d);
    NotBlankNotEmpty(d.title);
    NotBlankNotEmpty(d.description);
    NotBlankNotEmpty(d.senderName);
    DraftFieldsChecked(AfterMiddleware(DraftBody(d, stringify), parseJson), d);
    DraftFieldsBuild(AfterMiddleware(DraftBody(d, stringify), parseJson), d, imageFile, photoFile, id, now);
  }
}
