# cure-care core in Dafny

This project models the logic of the cure-care pharmacy site: an Express/Mongoose back end, a React admin console and a React public front end. Persistence, uploads and the browser are replaced by in-memory state:

- **Stores.** Each Mongo collection the handlers touch is a class holding a `seq` of records in insertion order: categories, products, blogs and subscribers.
- **Disk.** The upload directory is a `set<string>` of stored file names, and `fs.unlinkSync` removes a name from it.
- **Request bodies.** These are JavaScript values (`Js.Value`). Truthiness, `typeof` and property reads follow JavaScript.
- **Library internals become parameters.** `mongoose.Types.ObjectId.isValid`, `JSON.parse`, `JSON.stringify` and the subscriber e-mail pattern are functions passed in, so every property holds for any behaviour they have.
- **Server-side code.** The category slug hook, the product and blog controllers, the `parseJsonFields` middleware and `subscribeUser` are methods on those stores. Each method states the status it answers with and the whole new state.
- **Admin pages.** The list editors and submit checks of `allproduct.jsx`, `AddProduct.jsx`, `AddBlog.jsx` and `BlogList.jsx` are functions over the page state. The `AddBlog` form, whose `handleContentChange` mutates a section object in place, is a class over `SectionRow` objects.
- **Public front end.** Pagination in `allpostblog.jsx` and the testimonial carousel are arithmetic functions, with lemmas about sequences of button presses.

Several lemmas link the client and the server:
- what `AddBlog` lets through is created by `createBlog`;
- the blank row `AddProduct` sends is rejected by the product schema.

The modules are:
- `Js`: JavaScript values, truthiness and Mongoose's String cast.
- `Text`: ASCII `toLowerCase`, JavaScript white space, `trim` and `includes`.
- `Sorting`: a stable newest-first sort.
- `CategoryModel` and `CategoryController`.
- `ProductModel` and `ProductController`.
- `BlogController` and `BlogRouter`.
- `SubscribeController`.
- `AdminProductList`, `AddProductForm`, `AddBlogForm`, `BlogListPage` and `BlogSlug`.
- `BlogPagination` and `Testimonials`.

## Model

| member | source | states |
|---|---|---|
| Js.CastString | Backend/model/blogModel.js:5-13 | Mongoose's String cast keeps a string, turns a number into decimal text that reads back as the number, a boolean into "true" or "false" and an object with a string `_id` into that id, and fails exactly on the other values |
| Js.DigitsRoundTrip | Backend/model/blogModel.js:5-13 | the decimal digits of a natural number read back as that number |
| Js.NumberTextRoundTrip | Backend/model/blogModel.js:5-13 | the decimal text of an integer, with its sign, reads back as that integer |
| Js.CastEach | Backend/model/productModel.js:118-121 | an array cast succeeds exactly when every item casts, and then holds each item's cast in order |
| Js.Filter | Admin/src/pages/allproduct.jsx:169-182 | `Array.prototype.filter` keeps exactly the entries the callback accepts, and never grows the list |
| Js.FilterSplits | Admin/src/pages/allproduct.jsx:169-182 | the filter keeps the order of the entries it keeps |
| Js.FilterCounts | Admin/src/pages/allproduct.jsx:169-182 | an accepted entry appears as often as in the input, and a rejected one not at all |
| Text.ToLower | Backend/model/categoryModel.js:41 | lower-casing keeps the length and maps every character by itself (ASCII letters only) |
| Text.TrimStart | Admin/src/pages/AddProduct.jsx:134-136 | the result is a suffix of the input, every dropped character is white space, and the result does not start with white space |
| Text.TrimEnd | Admin/src/pages/AddProduct.jsx:134-136 | the result is a prefix of the input, every dropped character is white space, and the result does not end with white space |
| Text.Trim | Admin/src/pages/AddProduct.jsx:134-136 | a trimmed string is empty or starts and ends with a character that is not white space |
| Text.BlankIffAllSpace | Admin/src/pages/AddBlog.jsx:76-80 | `!s.trim()` holds exactly when every character of `s` is white space |
| Sorting.SortDesc | Backend/controller/productController.js:291-293 | the sort by a key, largest first, is ordered and is a permutation of its input |
| Sorting.SortDescOfSorted | Backend/controller/productController.js:473-475 | a list already sorted newest first comes back unchanged |
| Sorting.MembersOfSort | Backend/controller/productController.js:473-475 | sorting neither adds nor loses a record |
| CategoryModel.SlugifyIsJoinedWords | Backend/model/categoryModel.js:40-43 | the slug equals the maximal `[a-z0-9]` runs of the lower-cased name joined by single hyphens. This is an independent description of the two `replace` calls |
| CategoryModel.SlugIsWellFormed | Backend/model/categoryModel.js:41-43 | a slug holds only `[a-z0-9-]`, never starts or ends with `-` and never holds `--` |
| CategoryModel.SlugifyIdempotent | Backend/model/categoryModel.js:40-43 | deriving a slug from a slug gives it back |
| CategoryModel.SlugOfTwoWords | Backend/model/categoryModel.js:40-43 | two alphanumeric words separated by a space, in any case, become `word-word` in lower case (e.g. "Pain Relief" gives "pain-relief") |
| CategoryModel.SlugExampleNoAlphanumerics | Backend/model/categoryModel.js:40-43 | a name with no ASCII letter or digit gets the empty slug |
| CategoryModel.PreSave | Backend/model/categoryModel.js:38-46 | the hook recomputes a well-formed slug when the name was modified and leaves the document unchanged otherwise |
| CategoryModel.SameSlugNotStored | Backend/model/categoryModel.js:13-16 | with the unique indexes, two stored categories never share a slug |
| CategoryController.IndexOfId | Backend/controller/categoryController.js:61 | `findById` finds the first record with the id, or reports that none has it |
| CategoryController.SortByName | Backend/controller/categoryController.js:46 | `.sort({ name: 1 })` is ordered by name and is a permutation of its input |
| CategoryController.Active | Backend/controller/categoryController.js:44 | `find({ isActive: true })` keeps exactly the active categories |
| CategoryController.ActiveByNameSpec | Backend/controller/categoryController.js:44-46 | the listing holds exactly the active categories, ordered by name, each once |
| CategoryController.AppendKeepsKeysUnique | Backend/model/categoryModel.js:9-15 | inserting a category whose name and slug collide with no stored one keeps both indexes unique |
| CategoryController.ReplaceKeepsKeysUnique | Backend/model/categoryModel.js:9-15 | overwriting a record with one that collides with no other record keeps both indexes unique |
| CategoryController.ApplyPatch | Backend/controller/categoryController.js:74-78 | `$set` keeps the id, trims a new slug, and takes `isActive` from the body when given. The name changes only when the body has one |
| CategoryController.RenameKeepsSlug | Backend/controller/categoryController.js:74-78 | a rename through update leaves the old slug in place, because `findByIdAndUpdate` does not run the save hook |
| CategoryController.CategoryStore.Insert | Backend/controller/categoryController.js:16-33 | `Category.create` stores the record exactly when its name and slug are both unused; a duplicate key leaves the store unchanged |
| CategoryController.NewCategory | Backend/controller/categoryController.js:16-20 | the record `Category.create` builds has the new id, the trimmed name with its slug, the trimmed description, the given or placeholder icon, and is active |
| CategoryController.CategoryStore.Create | Backend/controller/categoryController.js:5-39 | 201 exactly when the name is present and non-empty, the trimmed name and the description pass the validators, and neither the name nor the slug of the new record is stored; then the record is appended. No name gives 400, a validator failure 500, a duplicate name or slug 400; the store changes only on 201 |
| CategoryController.CategoryStore.GetCategories | Backend/controller/categoryController.js:42-56 | the reply holds exactly the active categories, ordered by name |
| CategoryController.CategoryStore.GetById | Backend/controller/categoryController.js:59-69 | 200 with the record when the id is stored, 404 when it is not, and 500 for an id Mongoose cannot cast |
| CategoryController.CategoryStore.Update | Backend/controller/categoryController.js:72-86 | 200 exactly when the id casts, the patch passes the validators, the id is stored and the patched record clashes with no other record; then exactly that record is overwritten by the patch. A missing id gives 404; invalid fields or a clash give 400; the store changes only on 200 |
| CategoryController.CategoryStore.Delete | Backend/controller/categoryController.js:89-103 | a soft delete: 200 exactly when the id casts and is stored, and then `isActive` is cleared on that record and every record is kept; 404 for a missing id, 500 for one that does not cast |
| ProductModel.TrimCompositions | Backend/model/productModel.js:49-52 | each composition entry has its name and strength trimmed, element by element |
| ProductModel.TrimMoas | Backend/model/productModel.js:55-61 | each mechanism entry has its drug and text trimmed, element by element |
| ProductModel.NewProduct | Backend/model/productModel.js:63-124 | a created product takes the given id, category, images and time. Its defaults are `prescriptionRequired` true, `isFeatured` false and `color` null. It has no `name` or `description` |
| ProductModel.InvalidRowRejected | Backend/model/productModel.js:82 | one invalid composition or mechanism row makes the whole product invalid |
| ProductModel.BlankCompositionRejected | Backend/model/productModel.js:49-52 | a composition row whose name or strength is blank after trim fails the schema |
| ProductModel.BlankMoaRejected | Backend/model/productModel.js:95-102 | a mechanism row whose drug or text is blank after trim fails the schema |
| ProductModel.ApplyPatch | Backend/controller/productController.js:262-266 | `$set` keeps the id and the stray fields, and replaces the images and the category exactly when the patch has them |
| ProductModel.PatchPreservesValidity | Backend/controller/productController.js:262-266 | a valid product patched with fields that pass `runValidators` is still valid |
| ProductModel.PatchIgnoresAbsentPaths | Backend/controller/productController.js:260-266 | a patch that only sets images changes nothing else |
| ProductController.ParseObjectId | Backend/controller/productController.js:12-36 | the id is null for a falsy input; a valid string comes back unchanged; `$oid` is unwrapped from an object or a JSON string; the result always passes `isValid` |
| ProductController.ParseObjectIdRoundTrip | Backend/controller/productController.js:12-36 | a valid id, the object `{ $oid: id }` and a JSON string of it all normalise to the same id |
| ProductController.UploadPathsOf | Backend/controller/productController.js:97-104 | each upload becomes `/uploads/products/<file>`, in upload order |
| ProductController.UploadPaths | Backend/controller/productController.js:253-258 | the `forEach`/`push` loop builds exactly that list |
| ProductController.LastSegment | Backend/controller/productController.js:41 | `path.basename` is the longest suffix without `/`, cut at a `/` |
| ProductController.LastSegmentOfJoin | Backend/controller/productController.js:41 | the basename of `dir/file` is `file` |
| ProductController.Unlinked | Backend/controller/productController.js:38-47 | `deleteFile` removes at most one file, and nothing for an empty path or the placeholder URL |
| ProductController.UnlinkUploadedFile | Backend/controller/productController.js:38-47 | deleting the upload path of a plain file name removes exactly that stored file |
| ProductController.ImagesToDelete | Backend/controller/productController.js:233-235 | the paths to unlink are exactly the stored paths that start with `/uploads` and are not among the kept items as the same string |
| ProductController.Without | Backend/controller/productController.js:229-231 | an item survives the placeholder filter exactly when it was in the list and is not the placeholder |
| ProductController.WithoutCounts | Backend/controller/productController.js:229-231 | the filter drops every occurrence of the placeholder, and every other item keeps its number of occurrences |
| ProductController.WithoutSplits | Backend/controller/productController.js:229-231 | filtering works piecewise over a concatenation, so the kept items stay in order |
| ProductController.CastStrings | Backend/model/productModel.js:118-121 | the `[String]` cast of the image list succeeds exactly when every item casts, and then casts item by item |
| ProductController.KeptImages | Backend/controller/productController.js:223-231 | the kept list is the decoded or given array with every placeholder removed; it is an error exactly when `JSON.parse` throws or the value is not an array; an omitted or falsy value keeps nothing |
| ProductController.NumericKeptImageStored | Backend/controller/productController.js:223-231 | a kept list sent as the JSON text `[5]` keeps the number 5, which the image cast stores as "5" |
| ProductController.OmittedExistingImagesUnlinksAll | Backend/controller/productController.js:223-236 | without `existingImages`, every stored `/uploads` path is unlinked |
| ProductController.IndexOfProduct | Backend/controller/productController.js:190 | `findById` finds a record with the id, or reports that none has it |
| ProductController.AppendKeepsInvariant | Backend/model/productModel.js:64 | inserting a valid product with a fresh id and an unused name keeps the store valid and `productName` unique |
| ProductController.ReplaceKeepsInvariant | Backend/model/productModel.js:64 | overwriting a record with a valid product whose name no other record has keeps the store valid |
| ProductController.RemoveKeepsInvariant | Backend/controller/productController.js:374 | removing a record keeps the store valid |
| ProductController.FindBySlug | Backend/controller/productController.js:407 | `findOne({ slug })` gives a stored category with that slug, or none when no category has it, active or not |
| ProductController.CategoryIdsMatching | Backend/controller/productController.js:439-442 | the ids are exactly those of categories whose name contains the search text, ignoring case |
| ProductController.BuildQueryMeansWanted | Backend/controller/productController.js:401-471 | the query built step by step selects exactly the products the filter describes. With a category: that category AND a text match. Without one: a text match OR a matching category name. An unknown slug selects nothing |
| ProductController.FilterBy | Backend/controller/productController.js:473 | `Product.find(query)` keeps exactly the products the query accepts |
| ProductController.ProductStore.DeleteFile | Backend/controller/productController.js:38-47 | the disk loses exactly what `deleteFile` unlinks, and the products stay |
| ProductController.ProductStore.DeleteFiles | Backend/controller/productController.js:367-368 | `forEach(deleteFile)` removes the union of what each path unlinks |
| ProductController.ProductStore.Insert | Backend/controller/productController.js:109 | `Product.create` stores the product exactly when it is valid and its name is unused; otherwise the store is unchanged |
| ProductController.ProductStore.CheckCreate | Backend/controller/productController.js:59-83 | the checks pass exactly when every list field that is a non-empty string parses, and the category id parses and names a stored category |
| ProductController.ProductStore.Create | Backend/controller/productController.js:50-177 | 201 exactly when the list fields parse, the category id parses and is stored, and the new product passes the schema with its trimmed name unused; then the product with the parsed category and the upload paths is appended. Every other outcome is 400 and leaves the products unchanged. Uploaded files stay on disk either way |
| ProductController.ProductStore.PreparePatch | Backend/controller/productController.js:207-231 | the category and kept-image checks pass exactly when the inputs are acceptable; the patch then carries the parsed category, and the kept list is the filtered one |
| ProductController.ProductStore.CheckUpdate | Backend/controller/productController.js:185-231 | an invalid id gives 400; 404 exactly when the id is valid and no product has it; then come the list fields, the category and the kept images, each a 400. All pass exactly when `UpdateChecksPass` holds |
| ProductController.ProductStore.CommitPatch | Backend/controller/productController.js:262-272 | `findByIdAndUpdate` with `runValidators` writes the patched record exactly when it passes the validators and keeps the name unique; an empty `uses` always fails |
| ProductController.ProductStore.CastAndCommit | Backend/controller/productController.js:258-272 | the write fails with 400 when an item of the image list does not cast; otherwise it is CommitPatch on the cast list followed by the uploads |
| ProductController.ProductStore.FinalPatchOf | Backend/controller/productController.js:207-258 | the `$set` exists exactly when the kept items cast, and then holds the parsed category and the cast kept items followed by the uploads |
| ProductController.ProductStore.UnlinkThenCommit | Backend/controller/productController.js:231-272 | the uploads stay on disk and the dropped stored images are unlinked whatever happens next; the write then succeeds exactly when the image list casts and the patch passes the validators and the unique name |
| ProductController.ProductStore.CommitThenUnlink | Backend/controller/productController.js:231-272 | the same write, with the dropped images unlinked only on success: a rejected update leaves the stored files as they were, plus the uploads |
| ProductController.ProductStore.GoesThroughOf | Backend/controller/productController.js:180-272 | once the early checks pass, the update succeeds exactly when the kept list casts and the final `$set` is accepted, and that `$set` is the one FinalPatch describes |
| ProductController.ProductStore.Update | Backend/controller/productController.js:180-283 | 200 exactly when the checks pass, the image list casts and the write passes the validators with a unique name; then the record becomes `ApplyPatch` of the old one with that `$set`. 404 exactly when the id is valid and not stored; every other failure, the invalid id included, is 400. Once the checks pass, the dropped `/uploads` images are unlinked before the write, even when the write then fails (finding C) |
| ProductController.ProductStore.UpdateCorrected | Backend/controller/productController.js:180-283 | the same handler with the cast and the write validated before any unlink: it answers 200 and 404 in exactly the same cases with the same record, 400 otherwise, and a rejected update leaves the disk as it was, apart from the new uploads |
| ProductController.ProductStore.Delete | Backend/controller/productController.js:351-379 | 200 exactly when the id casts and is stored; 400 for an invalid id and 404 for a missing one, both before any unlink. On 200 every stored image is unlinked and the record is removed |
| ProductController.ProductStore.GetProducts | Backend/controller/productController.js:289-298 | every product, newest first |
| ProductController.ProductStore.GetFilterProducts | Backend/controller/productController.js:397-485 | exactly the wanted products, newest first, each at most as often as it is stored; an unknown category slug gives an empty list |
| ProductController.RejectedUpdateStillUnlinks | Backend/controller/productController.js:233-236 | with `existingImages` omitted, a stored upload is unlinked whatever happens to the write afterwards |
| BlogController.CheckSections | Backend/controller/blogController.js:31-38 | the `for` loop accepts exactly when every section has a truthy title and description |
| BlogController.CheckUpdateContent | Backend/controller/blogController.js:144-159 | the content is checked only when it is truthy, with the same non-empty and per-section rules as create |
| BlogController.RequiredText | Backend/model/blogModel.js:17-21 | a required path is accepted exactly when the String cast succeeds and the result, trimmed where the path trims, is non-empty; that result is stored |
| BlogController.OptionalText | Backend/model/blogModel.js:27-43 | an absent path takes the default, null is stored as null, and any other value is stored exactly when the String cast succeeds |
| BlogController.CastSection | Backend/model/blogModel.js:4-14 | a section casts exactly when its title and its description both cast as required strings |
| BlogController.NumericDescriptionCast | Backend/model/blogModel.js:4-14 | a section whose description is a number is stored with the number as text |
| BlogController.CastSections | Backend/model/blogModel.js:4-14 | the section array casts exactly when every item casts, and then item by item into one stored section each |
| BlogController.BuildBlog | Backend/controller/blogController.js:44-54 | the created blog gets the new id and time; an uploaded file overrides `imageUrl`; without one, the schema default applies; `featured` is set only when the body's flag is truthy |
| BlogController.ApplyBlogPatch | Backend/controller/blogController.js:165-169 | `$set` keeps the id and creation time and takes `featured` from the patch when given |
| BlogController.Updates | Backend/controller/blogController.js:131-142 | uploaded file paths override `imageUrl` and `senderPhoto`, a truthy `_id` is dropped, and `content` and `featured` pass through |
| BlogController.Unfeatured | Backend/controller/blogController.js:41 | `updateMany` clears `featured` on every blog and changes nothing else |
| BlogController.IndexOfUnfeatured | Backend/controller/blogController.js:161-169 | clearing the flags moves no blog, so the `findByIdAndUpdate` after the clear finds the id at the same place |
| BlogController.IndexOfBlog | Backend/controller/blogController.js:165 | `findByIdAndUpdate` finds the blog with the id, or reports that none has it |
| BlogController.UnfeaturedThenSet | Backend/controller/blogController.js:161-169 | clearing every flag and then writing one blog leaves at most one featured blog |
| BlogController.AppendToUnfeatured | Backend/controller/blogController.js:40-54 | clearing every flag and then inserting leaves at most one featured blog |
| BlogController.AppendUnfeaturedBlog | Backend/controller/blogController.js:44-49 | inserting an unfeatured blog keeps at most one featured blog |
| BlogController.AppendKeepsDistinct | Backend/controller/blogController.js:44 | inserting a blog with a fresh id keeps ids distinct |
| BlogController.RemoveKeepsDistinct | Backend/controller/blogController.js:195 | removing a blog keeps ids distinct |
| BlogController.BlogStore.ClearFeatured | Backend/controller/blogController.js:41 | the store becomes its unfeatured copy |
| BlogController.BlogStore.ReplaceBlog | Backend/controller/blogController.js:165-169 | the write replaces exactly the record at that position |
| BlogController.BlogStore.Create | Backend/controller/blogController.js:5-68 | 201 exactly when the title, description and sender are present, the content is acceptable and the schema builds the blog. A missing field or bad content gives 400 and changes nothing. Otherwise a truthy `featured` first clears every flag, and 201 appends the built blog. At most one featured blog is kept |
| BlogController.BlogStore.GetBlogs | Backend/controller/blogController.js:71-100 | `posts` is every blog newest first; `featured` is its first element or null; `total` is the count; the featured post is the newest |
| BlogController.BlogStore.GetById | Backend/controller/blogController.js:103-125 | 200 with the blog, 404 when the id is not stored, 500 for an id Mongoose cannot cast |
| BlogController.BlogStore.Update | Backend/controller/blogController.js:128-190 | 200 exactly when the content is acceptable, the id casts, the update casts and the id is stored; 404 exactly when those checks pass but the id is not stored; every other failure is 400. `featured === true` clears every flag before the lookup, and the clear survives a 404 or a 400 (finding A). On 200 the record becomes the patched one |
| BlogController.BlogStore.UpdateCorrected | Backend/controller/blogController.js:128-190 | the same handler with the flags cleared only once the write is certain, and for any flag that casts to true: it answers 200 and 404 in exactly the same cases, 400 otherwise, changes nothing unless it answers 200, and keeps at most one featured blog |
| BlogController.BlogStore.Delete | Backend/controller/blogController.js:193-216 | 200 removes exactly the blog with the id, 404 for a missing one, 500 for an id Mongoose cannot cast |
| BlogController.FeaturedOneMakesTwo | Backend/controller/blogController.js:161 | an update whose `featured` is the string "1" skips the clear but stores `true`, leaving two featured blogs (finding B) |
| BlogController.FailedUpdateUnfeaturesAll | Backend/controller/blogController.js:161-176 | when some blog is featured, the clear before a failed update changes the store and leaves no blog featured (finding A) |
| BlogController.NewestFirst | Backend/controller/blogController.js:74-81 | in a newest-first list the first post is at least as new as every other |
| BlogRouter.BlogRequest.ParseJsonFields | Backend/route/blogRouter.js:16-34 | a truthy string `content` that does not parse gives 400 and stops the request with the body unchanged. Otherwise `content` is decoded, `featured` is coerced and every other field is kept |
| BlogRouter.DecodedContent | Backend/route/blogRouter.js:18-20 | only a non-empty string `content` is replaced; any other value is left untouched |
| BlogRouter.CoerceFeatured | Backend/route/blogRouter.js:30-31 | "true" becomes `true`, "false" becomes `false`, and any other value is left as it is |
| BlogRouter.CastBoolean | Backend/model/blogModel.js:31-34 | Mongoose's Boolean cast accepts only its true and false spellings and keeps a boolean as it is |
| BlogRouter.CoerceAgreesWithCast | Backend/route/blogRouter.js:30-31 | the coercion never changes what the stored flag becomes, and applying it twice is applying it once |
| BlogRouter.OneStaysString | Backend/route/blogRouter.js:30-31 | "1" stays a string: truthy for create, not `=== true` for update, yet stored as `true` |
| SubscribeController.NormalizeEmail | Backend/model/subscribeModel.js:8-9 | the stored form of an address has no upper-case letter and no white space at either end |
| SubscribeController.NormalizeEmailIdempotent | Backend/model/subscribeModel.js:8-9 | a stored address normalises to itself, so looking it up again finds it |
| SubscribeController.Occurrences | Backend/model/subscribeModel.js:7 | the count of an address is zero exactly when the address is absent |
| SubscribeController.SubscriberList.Subscribe | Backend/controller/subscribeController.js:7-63 | 400 exactly when there is no address, with no change. Then the lookup: a cast error gives 500 and a match gives 200 with `success` false. Then the create casts the value: a cast error, an empty address or one the pattern rejects gives 500; an address already stored is the duplicate key, 200; otherwise it is appended with 201. After 200 or 201 a cast address is stored exactly once, whatever `sendEmail` returned |
| SubscribeController.Lookup | Backend/controller/subscribeController.js:19 | `findOne({ email })` hands an operator object to the database; it matches an array when one of its items, cast and normalised, is stored; it matches any other value when its cast, normalised, is stored; a failed cast is an error |
| SubscribeController.ArrayEmailFindsStored | Backend/controller/subscribeController.js:19-24 | an array holding a stored address finds that subscriber |
| SubscribeController.IdObjectLooksUpId | Backend/controller/subscribeController.js:19 | an object with a string `_id` is looked up exactly as that id would be |
| SubscribeController.SameSubscriber | Backend/model/subscribeModel.js:8-9 | addresses that differ only by surrounding white space are the same subscriber |
| AdminProductList.RemoveIndex | Admin/src/pages/allproduct.jsx:150 | filtering out index `idx` drops exactly that element and leaves an out-of-range index without effect |
| AdminProductList.AddField | Admin/src/pages/allproduct.jsx:147 | appending keeps every earlier element and adds the value last |
| AdminProductList.RemoveArrayObj | Admin/src/pages/allproduct.jsx:148-151 | a one-row list becomes `[default]`, a longer one loses index `idx`, and the list never becomes empty |
| AdminProductList.RemoveStringArray | Admin/src/pages/allproduct.jsx:152-155 | a one-entry list becomes `[""]`, a longer one loses exactly index `idx`, and the list never becomes empty |
| AdminProductList.UpdateField | Admin/src/pages/allproduct.jsx:156-159 | the length is kept; only row `i` changes, and only its one field |
| AdminProductList.UpdateArray | Admin/src/pages/allproduct.jsx:160-161 | the length is kept and only entry `i` changes |
| AdminProductList.RemoveExistingImage | Admin/src/pages/allproduct.jsx:144-145 | every occurrence of the path goes and every other path stays |
| AdminProductList.RemoveExistingImageSplits | Admin/src/pages/allproduct.jsx:144-145 | removal works piecewise over a concatenation, so the kept paths stay in order |
| AdminProductList.RemoveAbsentImage | Admin/src/pages/allproduct.jsx:144-145 | removing a path that is not listed changes nothing |
| AdminProductList.NormalizeImages | Admin/src/pages/allproduct.jsx:68-72 | an array is kept, a truthy scalar becomes a one-element list, and a missing value becomes empty |
| AdminProductList.NormalizeImagesIdempotent | Admin/src/pages/allproduct.jsx:68-72 | normalising a normalised list changes nothing |
| AdminProductList.OrBlank | Admin/src/pages/allproduct.jsx:115-117 | a missing or empty list becomes one blank entry, and a non-empty one is kept |
| AdminProductList.OpenEditLists | Admin/src/pages/allproduct.jsx:114-129 | the edit modal opens with no list empty, blank rows standing in for missing lists, and the product's image paths |
| AdminProductList.FilterRows | Admin/src/pages/allproduct.jsx:169 | a row is kept exactly when one of its two fields is non-empty |
| AdminProductList.FilterRowsSplits | Admin/src/pages/allproduct.jsx:169 | the kept rows stay in their order: filtering two halves is filtering each half |
| AdminProductList.FilterRowsCounts | Admin/src/pages/allproduct.jsx:169 | a kept row appears as often as in the input, and no other row appears |
| AdminProductList.NonBlank | Admin/src/pages/allproduct.jsx:171 | an entry is kept exactly when it is not blank after trim |
| AdminProductList.NonBlankSplits | Admin/src/pages/allproduct.jsx:171 | the kept entries stay in their order |
| AdminProductList.NonBlankCounts | Admin/src/pages/allproduct.jsx:171 | a kept entry appears as often as in the input, and no blank entry appears |
| AdminProductList.BuildUpdatePayload | Admin/src/pages/allproduct.jsx:163-185 | the update sends exactly the non-blank rows and entries of each list, each list being FilterRows or NonBlank of the edited one (so in order, by their Splits lemmas), and the current image paths as `existingImages` |
| AdminProductList.UntouchedModalSendsEmptyLists | Admin/src/pages/allproduct.jsx:114-183 | the blank rows the modal adds for missing lists are filtered out again, so every list is sent empty |
| AdminProductList.BlankRowsDropped | Admin/src/pages/allproduct.jsx:169-174 | the blank composition and mechanism rows are dropped by the update filters |
| AdminProductList.BlankStringDropped | Admin/src/pages/allproduct.jsx:171 | the blank entry of a string list is dropped by the update filter |
| AddProductForm.RemoveImage | Admin/src/pages/AddProduct.jsx:77-79 | exactly the given index is dropped |
| AddProductForm.UpdateArrayObj | Admin/src/pages/AddProduct.jsx:81-85 | the copy differs from the list only in the one key of row `index` |
| AddProductForm.UpdateStringArray | Admin/src/pages/AddProduct.jsx:94-98 | the copy differs from the list only at `idx` |
| AddProductForm.RemoveEntry | Admin/src/pages/AddProduct.jsx:89-92 | a one-entry list is left as it is, a longer one loses exactly `idx`, and the list never becomes empty |
| AddProductForm.ResetForm | Admin/src/pages/AddProduct.jsx:107-128 | every list is back to one blank entry, the images are empty, and every text field is empty |
| AddProductForm.Submit | Admin/src/pages/AddProduct.jsx:130-166 | the request is sent exactly when the names, strength and category are filled and one use is non-blank. It carries the form fields and images as they are, uses, indications and contraindications through NonBlank, and composition and mechanism unfiltered (finding D) |
| AddProductForm.RowsToCompositions | Backend/controller/productController.js:59-60 | the decoded composition rows become schema entries, row by row |
| AddProductForm.RowsToMoas | Backend/controller/productController.js:67-68 | the decoded mechanism rows become schema entries, row by row |
| AddProductForm.BlankRowRejectedByServer | Admin/src/pages/AddProduct.jsx:154 | a form that passes every client check but keeps the untouched blank composition row is refused by the product schema (finding D) |
| AddProductForm.SubmitCorrected | Admin/src/pages/AddProduct.jsx:154-156 | the same request as Submit, except that composition and mechanism go through DropUntouched |
| AddProductForm.DropUntouched | Admin/src/pages/AddProduct.jsx:154-156 | a row is kept exactly when it is not the untouched blank row, and the list never grows |
| AddProductForm.DropUntouchedSplits | Admin/src/pages/AddProduct.jsx:154-156 | the kept rows stay in their order |
| AddProductForm.DropUntouchedCounts | Admin/src/pages/AddProduct.jsx:154-156 | a kept row appears as often as in the input, and no untouched row appears |
| AddProductForm.FilledCompositionsValid | Backend/model/productModel.js:49-52 | composition rows whose name and strength are filled pass the row validators once trimmed |
| AddProductForm.FilledMoasValid | Backend/model/productModel.js:55-61 | mechanism rows whose drug and text are filled pass the row validators once trimmed |
| AddProductForm.CorrectedRowsAccepted | Admin/src/pages/AddProduct.jsx:154-156 | when every row is either untouched or fully filled, the corrected request passes the row validators |
| AddBlogForm.BlogForm.constructor | Admin/src/pages/AddBlog.jsx:12-24 | the form starts with empty fields, not featured, one "Introduction" section and no files |
| AddBlogForm.BlogForm.HandleContentChange | Admin/src/pages/AddBlog.jsx:38-42 | only the named field of section `index` changes |
| AddBlogForm.BlogForm.AddContentSection | Admin/src/pages/AddBlog.jsx:44-46 | one new blank section is appended and the rest of the form is kept |
| AddBlogForm.BlogForm.RemoveContentSection | Admin/src/pages/AddBlog.jsx:48-54 | with one section the alert fires and nothing changes; otherwise exactly section `index` goes, so at least one section remains |
| AddBlogForm.BlogForm.ResetForm | Admin/src/pages/AddBlog.jsx:56-67 | the form is back to one "Introduction" section with an empty description, not featured, with no files |
| AddBlogForm.CheckDraft | Admin/src/pages/AddBlog.jsx:76-97 | the draft passes exactly when title, description and sender are non-blank and every section is filled |
| AddBlogForm.CheckSectionsFilled | Admin/src/pages/AddBlog.jsx:88-90 | `content.every(...)` holds exactly when each section has a non-blank title and description |
| AddBlogForm.BlogForm.Submit | Admin/src/pages/AddBlog.jsx:70-113 | a request is sent exactly when the draft passes, with the fields, `featured` as a string and the stringified content |
| AddBlogForm.DraftBody | Admin/src/pages/AddBlog.jsx:100-104 | the form data holds the four form fields and `content`, with `featured` sent as "true" or "false" |
| AddBlogForm.AcceptedSectionsCast | Backend/model/blogModel.js:4-14 | filled sections cast to stored sections one for one |
| AddBlogForm.CastAcceptedSection | Backend/model/blogModel.js:4-14 | a section the form accepts casts to the stored section with a trimmed title and the description as typed |
| AddBlogForm.FilledContentOk | Backend/controller/blogController.js:24-38 | a non-empty list of filled sections passes the content checks of `createBlog` |
| AddBlogForm.DraftAfterMiddleware | Backend/route/blogRouter.js:16-34 | the submitted body passes the middleware, which decodes the content and turns `featured` back into a boolean |
| AddBlogForm.AcceptedDraftIsCreated | Admin/src/pages/AddBlog.jsx:76-104 | every draft the form accepts passes `createBlog`'s checks and is created with the form's values (title and sender trimmed), when stringify and parse round-trip |
| BlogListPage.FilteredBlogs | Admin/src/pages/BlogList.jsx:349-354 | a blog is kept exactly when the lower-cased term occurs in its lower-cased title, sender or description |
| BlogListPage.FilterKeepsOrder | Admin/src/pages/BlogList.jsx:349-354 | filtering works piecewise over a concatenation, so the order is preserved |
| BlogListPage.EmptyTermKeepsDefined | Admin/src/pages/BlogList.jsx:349-354 | an empty term keeps every blog with one of the three fields defined |
| BlogListPage.InitialSlug | Admin/src/pages/BlogList.jsx:38 | the initial state takes the stored slug when non-empty, and otherwise a slug of slug characters |
| BlogListPage.SlugEffect | Admin/src/pages/BlogList.jsx:47-54 | the effect sets the slug to `createSlug` of the title exactly when the blog has a non-empty title and the field holds it, and leaves the slug otherwise |
| BlogListPage.TitleField | Admin/src/pages/BlogList.jsx:35 | the title field starts as the blog's title, or "" without one |
| BlogListPage.EditForm.constructor | Admin/src/pages/BlogList.jsx:33-54 | opening the form sets the title field and then runs the effect on the initial slug |
| BlogListPage.EditForm.ChangeTitle | Admin/src/pages/BlogList.jsx:57-63 | typing a title sets the field and runs the effect, which keeps a hand-typed slug unless the title is the blog's own |
| BlogListPage.EditForm.ChangeSlug | Admin/src/pages/BlogList.jsx:57-63 | typing a slug changes only the slug |
| BlogListPage.MountReplacesStoredSlug | Admin/src/pages/BlogList.jsx:38-54 | a blog with a non-empty title opens on `createSlug` of the title, so a stored slug that differs from it is not shown |
| BlogListPage.MountSlugOfServerBlog | Admin/src/pages/BlogList.jsx:38-54 | for a blog from the server, which has no slug, the effect agrees with the initial state |
| BlogListPage.ServerBlogSlug | Admin/src/pages/BlogList.jsx:38 | for a blog from the server, which has no slug, the edit slug is `createSlug(title)`, or "" for an empty title |
| BlogListPage.Merged | Admin/src/pages/BlogList.jsx:295-298 | the merged list is the posts plus the featured post when there is one |
| BlogListPage.WithoutId | Admin/src/pages/BlogList.jsx:322 | exactly the entries with that id go |
| BlogListPage.WithoutIdSplits | Admin/src/pages/BlogList.jsx:322 | the remaining cards stay in their order |
| BlogListPage.WithoutIdCounts | Admin/src/pages/BlogList.jsx:322 | every card with another id stays as often as it was listed |
| BlogListPage.BlogList.FetchBlogs | Admin/src/pages/BlogList.jsx:290-310 | the list becomes the merged posts sorted newest first, and the search term is kept |
| BlogListPage.BlogList.HandleDelete | Admin/src/pages/BlogList.jsx:316-329 | a confirmed, successful delete removes exactly the entries with that id; otherwise the list is unchanged |
| BlogListPage.BlogList.Visible | Admin/src/pages/BlogList.jsx:349-354 | the shown cards are exactly the stored cards that match the search term |
| BlogListPage.NewestListedTwice | Admin/src/pages/BlogList.jsx:295-301 | since `posts` already holds the featured blog, the merged list holds the newest blog twice |
| BlogSlug.StripLeavesAllowed | Admin/src/pages/BlogList.jsx:26 | after the first `replace`, only `[a-z0-9]`, white space and `-` remain |
| BlogSlug.HyphenateChars | Admin/src/pages/BlogList.jsx:26 | every character of the result is a `-` or an input character that is not white space |
| BlogSlug.CreateSlugChars | Admin/src/pages/BlogList.jsx:25-27 | a slug holds only `[a-z0-9-]` and no white space |
| BlogSlug.SlugCharsFixed | Admin/src/pages/BlogList.jsx:25-27 | a string of slug characters is its own slug, hyphens included |
| BlogSlug.CreateSlugIdempotent | Admin/src/pages/BlogList.jsx:25-27 | `createSlug` applied twice equals `createSlug` applied once |
| BlogSlug.SpaceRunBecomesHyphen | Admin/src/pages/BlogList.jsx:26 | a run of white space between two slug words becomes one `-` |
| BlogSlug.TrailingHyphen | Admin/src/pages/BlogList.jsx:26 | a title ending in a space and a dropped character gets a slug ending in `-` |
| BlogPagination.TotalPages | Frontend/src/component/allpostblog.jsx:67 | the page count is `ceil(n / 5)`, and zero exactly when there are no posts |
| BlogPagination.JsSlice | Frontend/src/component/allpostblog.jsx:74 | `slice` clamps its bounds to the list, and agrees with a subsequence when they are in range |
| BlogPagination.PageContents | Frontend/src/component/allpostblog.jsx:70-74 | page `p` shows the posts from `(p-1)*5` up to `p*5` or the end, between one and five of them |
| BlogPagination.PagesCoverPosts | Frontend/src/component/allpostblog.jsx:67-74 | the pages 1 to `totalPages`, concatenated, are exactly the posts |
| BlogPagination.FirstPagesArePrefix | Frontend/src/component/allpostblog.jsx:70-74 | the first `k` pages, concatenated, are the first `5k` posts, or all of them |
| BlogPagination.NextPage | Frontend/src/component/allpostblog.jsx:77-79 | next gives `min(p + 1, totalPages)` |
| BlogPagination.PrevPage | Frontend/src/component/allpostblog.jsx:81-83 | prev gives `max(p - 1, 1)` |
| BlogPagination.NavigationStaysInRange | Frontend/src/component/allpostblog.jsx:77-83 | from any page in range, any sequence of next and prev stays in `1..totalPages` |
| BlogPagination.FromFirstPage | Frontend/src/component/allpostblog.jsx:14 | starting on page 1 with at least one post, the page always exists |
| Testimonials.JsRem | Frontend/src/component/TestimonialsSection.jsx:47 | JavaScript's `%`: the remainder is smaller than the divisor in size, has the sign of the dividend, and completes the quotient rounded toward zero |
| Testimonials.Next | Frontend/src/component/TestimonialsSection.jsx:46-48 | next moves to `i + 1`, wrapping from the last to 0 |
| Testimonials.Prev | Frontend/src/component/TestimonialsSection.jsx:50-55 | prev moves to `i - 1`, wrapping from 0 to the last |
| Testimonials.PressStaysInRange | Frontend/src/component/TestimonialsSection.jsx:44-55 | from any index in range, any sequence of presses stays in `[0, n)` |
| Testimonials.ShownIndexExists | Frontend/src/component/TestimonialsSection.jsx:44-57 | from the initial 0, the shown testimonial always exists |
| Testimonials.NextPrevInverse | Frontend/src/component/TestimonialsSection.jsx:46-55 | prev after next, and next after prev, are the identity |
| Testimonials.NextCycle | Frontend/src/component/TestimonialsSection.jsx:47 | `n` presses of next return to the start |
| Testimonials.NextTimesClimb | Frontend/src/component/TestimonialsSection.jsx:47 | below the last testimonial, `k` presses of next move exactly `k` forward |
| Testimonials.WrapAround | Frontend/src/component/TestimonialsSection.jsx:46-55 | prev from 0 gives `n - 1`, and next from `n - 1` gives 0 |

## Left out

- **Letter case.** Lower-casing covers the ASCII letters only. The Unicode case mapping of `toLowerCase` and of the `$regex` `i` flag is not modelled.
- **`$regex`.** Search text is matched as a case-insensitive substring. Regular-expression metacharacters in user input are not interpreted.
- **Library internals.** `ObjectId.isValid`, `JSON.parse`, `JSON.stringify`, the subscriber e-mail pattern and what a filter of query operators (such as `$ne`) matches are uninterpreted parameters. Multer file names are given strings.
- **Failed unlinks.** `fs.existsSync`/`unlinkSync` are membership in and removal from a set. A stored path that names a directory, and an unlink that throws, are not modelled.
- **Numbers and dates.** JavaScript numbers and dates are mathematical integers. `mrp` is a real.
- **The clock.** It is a parameter (`now`). The order between records with equal `createdAt` is whatever SortDesc produces; the model promises nothing about it, and JavaScript's sort is stable while SortDesc is not proved to be.
- **Concurrency.** Every handler runs to completion before the next starts. The race between two requests that both pass a uniqueness check (the 11000 duplicate-key path) and the race in the featured-blog clear are not modelled. The duplicate key is modelled as the check itself.
- **E-mail delivery.** The notification block of `createProduct` and `sendEmail` are out of scope. `Subscribe` takes the mail outcome as a parameter that does not influence the reply.
- **Populated fields and projections.** `populate`, the `.select` projections of `getBlogs` and `getCategories`, and `.lean()` are not modelled. Replies hold whole records.
- **Other handlers.** `getLatestBlog`, `getProductById` and `getProductsByCategory` are not modelled. Neither is the second `getCategories` in the product controller, which runs the same query as `CategoryStore.GetCategories`.
- **Legacy scalar images.** `deleteProduct`'s fallback for a scalar `productImage` is not modelled; the stored list is always an array.
- **Kept images.** Paths kept on update are not checked against the stored list. The model keeps them as sent, as the handler does.
- **Uploads on failure.** Files uploaded with a rejected create or update stay on disk. `Create`, `Update` and `UpdateCorrected` state this instead of cleaning up.
- **The React front end.** Rendering, alerts, toasts, loading flags, `FormData` encoding and the HTTP calls are not modelled. The request a form sends is the value its submit function returns. A failed delete request is a parameter of `HandleDelete`.
- **EditBlog.** The edit form's other fields and its save request are not modelled; only its title and slug fields and the effect that ties them are.
- **Decoded list fields.** `createProduct` and `updateProduct` receive the five list fields twice: as they arrive, to decide whether `JSON.parse` throws (a 400), and already decoded into rows and strings. How Mongoose casts a decoded value of another shape is not modelled.
- **Number text.** The String cast writes an integer in decimal. JavaScript numbers are integers here, so fractions and exponent notation do not arise. An object with its own `toString` method cannot be written as a `Js.Value`; every other object without a string `_id` is a failed cast.
- **Shared list editors.** `addArrayObj` and `addStringArray` of the add-product form are the same append as `AdminProductList.AddField`. `removeStringArray` of that form is the same as `AddProductForm.RemoveEntry`.
- BlogSlug.TrailingHyphen: stated for a title that ends in one space and one dropped character, not for every title whose slug ends in `-`.
- BlogController.BuildBlog: states the id, the time, the image override and the featured flag. The other fields are stated through `AcceptedDraftIsCreated`, for the bodies the admin form sends.
- ProductController.CastStrings: a `null` item of the image list is a failed cast (400), whereas Mongoose stores it as `null`.
- CategoryController.CategoryStore.Create: the 500 branch, for errors other than validation and duplicates, never occurs in the model.
- **Scalar body fields.** The category and product handlers take their scalar body fields (`name`, `description`, `productName` and the like) as strings or absent. A JSON number or boolean there, which Mongoose would cast to text and `!name` would accept, cannot be expressed.
- BlogController.CastPatch: a `createdAt` in the update body is ignored and the stored date kept, whereas the `$set` would overwrite it, since the schema does not make the path immutable.
- BlogController.CastPatch: `featured: null` in an update is stored as `false`, whereas a `$set` of null on a Boolean path stores null.
- BlogController.BlogStore.Create: the image and photo files are given as options, so a request that is not multipart, where `req.files` is undefined and reading `req.files.imageUrl` throws after the flags have been cleared (a 400 with no blog featured), cannot be expressed.
- SubscribeController.SubscriberList.Subscribe: what a filter of query operators matches is the parameter `operatorLookup`, so that `{"$ne": null}` matches any stored subscriber is not derived. The trim and lower-case setters are taken to apply to each item of a `$in` array as they do to a plain value.

## Findings

| source | as written | input that shows it | evidently intended | confidence | as-written member | corrected member |
|---|---|---|---|---|---|---|
| Backend/controller/blogController.js:161-176 | `featured === true` clears the flag on every blog before the lookup and the validated write | an update of a missing id, or with a section that fails validation, with `featured` "true" while another blog is featured: the reply is 404 or 400, and no blog is featured any more | clear the other flags only when the update succeeds | not executed | BlogController.FailedUpdateUnfeaturesAll | BlogController.BlogStore.UpdateCorrected |
| Backend/controller/blogController.js:161 | the clear runs only for the boolean `true`, yet the schema casts "1", 1 and "yes" to `true` | an update with `featured` "1" while another blog is featured: the reply is 200 and two blogs are featured | clear the other flags for any value that is stored as `true` | not executed | BlogController.FeaturedOneMakesTwo | BlogController.BlogStore.UpdateCorrected |
| Backend/controller/productController.js:233-236 | dropped images are unlinked before `findByIdAndUpdate` runs the validators | an update with `existingImages` omitted and `uses` "[]" for a product with stored uploads: the reply is 400, the record is unchanged, and its image files are gone | unlink only after the write succeeds | not executed | ProductController.RejectedUpdateStillUnlinks | ProductController.ProductStore.UpdateCorrected |
| Admin/src/pages/AddProduct.jsx:154-156 | composition and mechanism of action are sent unfiltered, unlike the other lists | a form with name, generic name, strength, category and one use filled, and the initial blank composition row left untouched: the server rejects the product | drop untouched rows before sending, as the edit modal in `allproduct.jsx` does | not executed | AddProductForm.BlankRowRejectedByServer | AddProductForm.SubmitCorrected |
