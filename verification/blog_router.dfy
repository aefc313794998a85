/**
 * The `parseJsonFields` middleware of Backend/route/blogRouter.js: it
 * rewrites a multipart request body in place before the blog handlers run.
 */
module BlogRouter {
  import opened Js

  /** `req.body` of a blog create or update request. */
  class BlogRequest {
    var body: map<string, Value>

    constructor (body: map<string, Value>)
      ensures this.body == body
    {
      this.body := body;
    }

    /**
     * A truthy string `content` is replaced by its JSON decoding; when that
     * throws the request ends with 400 and nothing is changed. Then
     * `featured` "true" and "false" become booleans and any other value is
     * left as it is. `parseJson` is JSON.parse, None when it throws.
     */
    method ParseJsonFields(parseJson: string -> Option<Value>) returns (next: bool, status: int)
      modifies this
      ensures !next <==> ContentUnparsable(old(body), parseJson)
      ensures !next ==> status == 400 && body == old(body)
      ensures next ==> status == 0
      ensures next ==> body.Keys == old(body).Keys
      ensures next ==> Get(Obj(body), "content") == DecodedContent(Get(Obj(old(body)), "content"), parseJson)
      ensures next ==> Get(Obj(body), "featured") == CoerceFeatured(Get(Obj(old(body)), "featured"))
      ensures next ==> forall k :: k in body && k != "content" && k != "featured" ==> body[k] == old(body)[k]
    {
      var content := Get(Obj(body), "content");
      if Truthy(content) && content.Str? {
        var parsed := parseJson(content.s);
        if parsed.None? {
          return false, 400;
        }
        body := body["content" := parsed.value];
      }
      var featured := Get(Obj(body), "featured");
      if featured == Str("true") {
        body := body["featured" := Bool(true)];
      } else if featured == Str("false") {
        body := body["featured" := Bool(false)];
      }
      return true, 0;
    }
  }

  predicate ContentUnparsable(body: map<string, Value>, parseJson: string -> Option<Value>) {
    var content := Get(Obj(body), "content");
    Truthy(content) && content.Str? && parseJson(content.s).None?
  }

  /** The content after the middleware: a truthy string is decoded, anything else is kept. */
  function DecodedContent(content: Value, parseJson: string -> Option<Value>): (r: Value)
    requires !(Truthy(content) && content.Str? && parseJson(content.s).None?)
    ensures !content.Str? || content.s == "" ==> r == content
  {
    if Truthy(content) && content.Str? then parseJson(content.s).value else content
  }

  /** The `featured` coercion: only the strings "true" and "false" are converted. */
  function CoerceFeatured(v: Value): (r: Value)
    ensures v == Str("true") ==> r == Bool(true)
    ensures v == Str("false") ==> r == Bool(false)
    ensures v != Str("true") && v != Str("false") ==> r == v
  {
    if v == Str("true") then Bool(true)
    else if v == Str("false") then Bool(false)
    else v
  }

  /**
   * Mongoose's Boolean cast: true, "true", 1, "1" and "yes" give true;
   * false, "false", 0, "0" and "no" give false; anything else fails.
   */
  function CastBoolean(v: Value): (r: Option<bool>)
    ensures r.Some? && r.value ==> v in {Bool(true), Str("true"), Num(1), Str("1"), Str("yes")}
    ensures r.Some? && !r.value ==> v in {Bool(false), Str("false"), Num(0), Str("0"), Str("no")}
    ensures v.Bool? ==> r == Some(v.b)
  {
    if v in {Bool(true), Str("true"), Num(1), Str("1"), Str("yes")} then Some(true)
    else if v in {Bool(false), Str("false"), Num(0), Str("0"), Str("no")} then Some(false)
    else None
  }

  /** The coercion never changes what the stored flag becomes, and applying it twice is applying it once. */
  lemma CoerceAgreesWithCast(v: Value)
    ensures CastBoolean(CoerceFeatured(v)) == CastBoolean(v)
    ensures CoerceFeatured(CoerceFeatured(v)) == CoerceFeatured(v)
  {
  }

  /** "1" survives the middleware as a string: truthy for create's check, not `=== true` for update's, yet stored as true. */
  lemma OneStaysString()
    ensures CoerceFeatured(Str("1")) == Str("1")
    ensures Truthy(CoerceFeatured(Str("1"))) && CoerceFeatured(Str("1")) != Bool(true)
    ensures CastBoolean(CoerceFeatured(Str("1"))) == Some(true)
  {
  }
}
