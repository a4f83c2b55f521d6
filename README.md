# RentIt services: JSON serializer and product endpoints

This project models two parts of the RentIt web services.

**The serializer** (`Services/JsonSerializer.cs`) turns data-contract objects into JSON text by reflection.
- A registry of nine contract classes is the only set of runtime types the serializer accepts.
- `JsonString` checks the registry, walks the object's properties, skips null values and dispatches each remaining value:
  - a string goes through `escape`;
  - a `uint` becomes its decimal digits;
  - a `bool` becomes `true` or `false`;
  - anything else goes back through `JsonString`, registry check included.
- The pairs `"name":text` are then written into an array and joined inside braces.
- `nullOutBut` nulls every property whose name is not in a keep-set, in place. The keep-overloads of `Json` project first and encode after.
- `JsonArray` and `StrArray` frame arrays of numbers and strings.

**The product controller** (`Services/Controllers/ProductController.cs`) wraps persistence calls in try/catch blocks that set HTTP status codes. The model covers its pure fragments:
- the conversion of a stored product into a `ProductData` contract, and back in `UpdateProduct`;
- the content-type to file-extension step and the thumbnail allow-list;
- the upload paths and the folders the file lookups search;
- the status code each endpoint sets for each outcome.

Structure:
- `wrappers.dfy`: `Option` and `Result`.
- `text.dfy`, module `Text`: join, split, first index of a character and decimal text.
- `json_serializer.dfy`, module `JsonSerializer`:
  - An object the serializer is handed is a class `Obj`. Its `props` field is the declared-order list of properties, which the projector rewrites in place.
  - Values reachable through properties are immutable datatype values.
  - `JsonString` is the method with the source's loops, proved equal to the specification function `EncodeRecord`.
  - The lemmas are stated about `EncodeRecord`.
- `product_controller.dfy`, module `ProductController`:
  - Outcomes of the persistence layer and the file system are parameters: a lookup `Result`, the fault `Product.update` raises, and whether a file write succeeds.
  - An endpoint's result is the status it sets together with its body or the path it writes.
  - Each endpoint that one of the findings below touches takes a `Build`: `AsWritten` gives the code as written, `Corrected` gives it with that finding corrected.

## Model

| member | source | states |
|---|---|---|
| `JsonSerializer.NonNullFields` | Services/JsonSerializer.cs:51-53 | the properties a pass keeps are exactly the non-null ones, never more than there were; one property is kept exactly when it is not null |
| `JsonSerializer.NonNullFieldsAppend` | Services/JsonSerializer.cs:48-53 | filtering distributes over concatenation, so with the one-property case the kept properties keep their declared order and multiplicity |
| `JsonSerializer.NonNullFieldsSnoc` | Services/JsonSerializer.cs:48-53 | one more property adds itself to the kept ones exactly when it is not null |
| `JsonSerializer.EncodeRecord` | Services/JsonSerializer.cs:42-75 | an unregistered type fails with the class-not-supported error, the only error there is; a success is framed by `{` and `}` |
| `JsonSerializer.EncodeProperties` | Services/JsonSerializer.cs:48-62 | the property loop fails only with the class-not-supported error, and collects at most one pair per property; `PairsFollowFields` gives the exact pairs |
| `JsonSerializer.Collect` | Services/JsonSerializer.cs:51-61 | one turn of the loop: an earlier failure propagates and a null value is skipped, both leaving the accumulator as it was; a new failure comes only from the dispatch; otherwise exactly one pair is appended, under the property's name, and the earlier pairs are kept |
| `JsonSerializer.EncodeValue` | Services/JsonSerializer.cs:56-61 | the dispatch of a non-null value: a string gives `escape(s)`; a uint gives digits that read back as the number; a bool gives `true` exactly when it is true, else `false`; a nested object gives its own encoding; any other value fails |
| `JsonSerializer.EncodeSucceedsIff` | Services/JsonSerializer.cs:44-61 | encoding succeeds exactly when the object's type is registered, and so is every object reached through non-null properties, and no property holds a value with no dispatch branch |
| `JsonSerializer.PropertiesSucceedIff` | Services/JsonSerializer.cs:48-62 | the property loop completes exactly when every property value is encodable |
| `JsonSerializer.NestedUnsupportedFails` | Services/JsonSerializer.cs:61 | a nested object of an unregistered type makes the whole call fail |
| `JsonSerializer.OtherValueFails` | Services/JsonSerializer.cs:56-61 | a non-null value that is not a string, uint, bool or registered object (a signed int) makes the call fail |
| `JsonSerializer.PairsFollowFields` | Services/JsonSerializer.cs:48-72 | the collected pairs match the non-null properties one to one, in declared order; each pair has the property's name and the dispatched text of its value |
| `JsonSerializer.NullFieldHasNoKey` | Services/JsonSerializer.cs:51-53 | a name whose properties are all null appears as no key |
| `JsonSerializer.NonNullFieldHasKey` | Services/JsonSerializer.cs:53-61 | every non-null property's name appears as a key |
| `JsonSerializer.EncodeIgnoresNulls` | Services/JsonSerializer.cs:51-53 | the pairs are those of the non-null properties alone, whatever the null ones were |
| `JsonSerializer.AllNullEncodesEmpty` | Services/JsonSerializer.cs:66-74 | a registered object whose properties are all null encodes to `{}` |
| `JsonSerializer.PrefixFailurePropagates` | Services/JsonSerializer.cs:48-62 | once a property fails to encode, the whole loop fails |
| `JsonSerializer.JsonString` | Services/JsonSerializer.cs:42-75 | the registry check, the loop and the array-and-join produce exactly the specified encoding, failures included |
| `JsonSerializer.CollectProperties` | Services/JsonSerializer.cs:47-62 | the `foreach` over the properties yields exactly the specified pairs, or the first failure |
| `JsonSerializer.ValueText` | Services/JsonSerializer.cs:56-61 | first-match dispatch: escape for strings, decimal text for uints, true/false for bools, a recursive `JsonString` otherwise |
| `JsonSerializer.PairArray` | Services/JsonSerializer.cs:66-72 | the counter loop fills a fresh array with `"name":text` for each pair, in order |
| `JsonSerializer.Json` | Services/JsonSerializer.cs:36-39 | the text is the encoding of the object's current properties |
| `JsonSerializer.Project` | Services/JsonSerializer.cs:120-128 | after projection every property outside keep is null, every one in keep is unchanged, and the number, names and order of the properties are kept |
| `JsonSerializer.ProjectIdempotent` | Services/JsonSerializer.cs:120-125 | projecting twice with the same keep-set is projecting once |
| `JsonSerializer.ProjectIgnoresUnknownNames` | Services/JsonSerializer.cs:122-124 | names in keep that match no property have no effect |
| `JsonSerializer.ProjectedKeys` | Services/JsonSerializer.cs:78-83 | after projection a name is emitted exactly when it is in keep and names a non-null property |
| `JsonSerializer.ProjectedSucceedsIff` | Services/JsonSerializer.cs:78-83 | a projected object encodes exactly when its type is registered and its kept properties are encodable |
| `JsonSerializer.NullOutBut` | Services/JsonSerializer.cs:120-128 | nulls the properties outside keep in place, changes nothing else, and returns the same object |
| `JsonSerializer.JsonProjected` | Services/JsonSerializer.cs:82 | the object is left projected, and the text is the encoding of the projection, so an unsupported object is mutated and then rejected |
| `JsonSerializer.JsonKeep` | Services/JsonSerializer.cs:78-83 | the same with the keep array turned into a set |
| `JsonSerializer.EncodeAllSpec` | Services/JsonSerializer.cs:86-91 | the per-object texts exist exactly when every object encodes, and then they are those encodings, in order |
| `JsonSerializer.EncodeAll` | Services/JsonSerializer.cs:88 | the per-object texts: one text per object when all succeed, and otherwise the class-not-supported error; `EncodeAllSpec` gives the texts themselves |
| `JsonSerializer.EncodeArray` | Services/JsonSerializer.cs:86-91 | an empty array encodes to `[]`; a success is framed by `[` and `]` |
| `JsonSerializer.ArrayFailsIff` | Services/JsonSerializer.cs:86-91 | an array fails exactly when one of its objects is not encodable |
| `JsonSerializer.TwoElementFraming` | Services/JsonSerializer.cs:86-91 | two encodable objects give `[` + first text + `,` + second text + `]` |
| `JsonSerializer.EncodeAllStep` | Services/JsonSerializer.cs:88 | an object that encodes extends the mapped texts by its own text |
| `JsonSerializer.EncodeAllStops` | Services/JsonSerializer.cs:88 | the first object that fails decides the array's error |
| `JsonSerializer.JsonObjects` | Services/JsonSerializer.cs:86-91 | the loop over the objects gives exactly the specified array encoding |
| `JsonSerializer.ProjectedStep` | Services/JsonSerializer.cs:98 | projecting the next object, and nothing else, extends the projected prefix by one |
| `JsonSerializer.ProjectNext` | Services/JsonSerializer.cs:98 | projects one object in place and returns the encoding of its projection |
| `JsonSerializer.JsonObjectsKeep` | Services/JsonSerializer.cs:94-101 | the result is the array encoding of the projected objects; on success all objects are projected; on failure the objects before the first failing one encode, the failing one does not, those up to and including it are projected and the rest are untouched |
| `JsonSerializer.JsonArray` | Services/JsonSerializer.cs:114-117 | an empty array gives `[]`; the text is framed by brackets, and between them holds only digits and commas |
| `JsonSerializer.JoinDigits` | Services/JsonSerializer.cs:116 | joining digit strings with a separator leaves only digits and that separator |
| `JsonSerializer.JsonArrayRoundTrip` | Services/JsonSerializer.cs:114-117 | reading the text of `JsonArray` back gives the numbers it was written from, `[]` for none |
| `JsonSerializer.SplitDecimalTexts` | Services/JsonSerializer.cs:116 | the comma-joined decimal texts split back into the texts |
| `JsonSerializer.DecimalTextsValues` | Services/JsonSerializer.cs:116 | each decimal text reads back as its number |
| `JsonSerializer.StrArray` | Services/JsonSerializer.cs:103-112 | the `+=` loop yields `[`, then `"s",` for each element, then `]`, with no escaping |
| `JsonSerializer.QuotedWithCommas` | Services/JsonSerializer.cs:105-108 | the text between the brackets is empty exactly for no elements; otherwise it opens with a quote and ends with a comma |
| `JsonSerializer.QuotedWithCommasIsJoinPlusComma` | Services/JsonSerializer.cs:105-109 | the text the loop accumulates is the comma-joined quoted elements plus one extra comma |
| `JsonSerializer.StrArrayTrailingComma` | Services/JsonSerializer.cs:107-109 | a non-empty array's text ends in `,]` |
| `JsonSerializer.StrArrayFramed` | Services/JsonSerializer.cs:103-112 | the intended text: `[]` for none, otherwise ending in a quote and the bracket |
| `JsonSerializer.StrArrayExtraComma` | Services/JsonSerializer.cs:107-109 | the text as written is the intended text with `,` inserted before the closing bracket |
| `JsonSerializer.PriceExample` | Services/JsonSerializer.cs:42-75 | a PriceData with buy 1000 and no rent encodes to `{"buy":1000}` |
| `JsonSerializer.ProjectionExample` | Services/JsonSerializer.cs:78-83 | a ProductData projected on `title` encodes to the title alone, whatever the description was |
| `Text.Decimal` | Services/JsonSerializer.cs:57-58 | the text of a uint is digits only, with no leading zero except `0` itself |
| `Text.IndexOf` | Services/Controllers/ProductController.cs:139 | an ordinal search for one character: -1 exactly when the character is absent, otherwise the position of its first occurrence |
| `ProductController.ToInt32` | Services/Controllers/ProductController.cs:104-105 | the unchecked `(int)` cast keeps the bits: equal modulo 2^32, non-negative exactly below 2^31, and then unchanged |
| `ProductController.ParseUInt` | Services/Controllers/ProductController.cs:289-290 | a non-negative int passes through; a negative one throws |
| `ProductController.PriceOrZero` | Services/Controllers/ProductController.cs:289-290 | an absent price reads as 0; a present one is parsed |
| `ProductController.ToProductData` | Services/Controllers/ProductController.cs:279-292 | copies name, type and owner; an absent description becomes null; absent prices become 0; it fails only on a negative price |
| `ProductController.ToProductDataAsWritten` | Services/Controllers/ProductController.cs:286-290 | as written, an absent description or price throws; with all three present the result is the intended one |
| `ProductController.Convert` | Services/Controllers/ProductController.cs:279-292 | the conversion in either build: as written it succeeds exactly when description and both prices are present and the corrected conversion succeeds; every success agrees with the corrected conversion; every failure is the catch-all fault |
| `ProductController.AbsentDescriptionThrowsAsWritten` | Services/Controllers/ProductController.cs:286 | a product without a description throws as written and converts to a null description as intended |
| `ProductController.ProductRecord` | Services/Controllers/ProductController.cs:281-292 | the contract object as the serializer reads it: a ProductData with five properties, in the order of the initializer; this assumes the ProductData class declares exactly these five |
| `ProductController.PriceRecord` | Services/Controllers/ProductController.cs:287-291 | the price seen by the serializer: a PriceData with two properties |
| `ProductController.ProductDataEncodes` | Services/Controllers/ProductController.cs:75-78 | every ProductData serializes |
| `ProductController.NewProduct` | Services/Controllers/ProductController.cs:99-105 | keeps the creation date, wraps the description in Some, maps a null rent to None and any other rent to Some, always sets buy; a null price or null buy price throws |
| `ProductController.ReadWriteRoundTrip` | Services/Controllers/ProductController.cs:97-105 | in either build, converting a product that has a description and two non-negative prices and writing it back gives the same product |
| `ProductController.AbsentRentWrittenBackAsZero` | Services/Controllers/ProductController.cs:104 | a product without a rent: as written the read throws (line 290); as corrected the rent is read as 0 and written back as Some(0), so it is no longer absent |
| `ProductController.LargePriceBreaksReadBack` | Services/Controllers/ProductController.cs:105 | a buy price of 2^31 or more is stored negative, and the stored product then no longer converts |
| `ProductController.Subtype` | Services/Controllers/ProductController.cs:176 | what follows the first slash, or the whole string when there is no slash |
| `ProductController.MediaExtension` | Services/Controllers/ProductController.cs:138-139 | a dot followed by the subtype |
| `ProductController.SubtypeAfterSlash` | Services/Controllers/ProductController.cs:175-176 | for `main/sub` with no slash in `main`, the subtype is `sub` |
| `ProductController.JpegExtension` | Services/Controllers/ProductController.cs:134-139 | `image/jpeg` is saved with extension `.jpeg` |
| `ProductController.NoSlashExtension` | Services/Controllers/ProductController.cs:139 | a content type without a slash is used whole after the dot |
| `ProductController.PngRefusedAsWritten` | Services/Controllers/ProductController.cs:178-183 | as written a PNG thumbnail is refused; the intended check accepts it |
| `ProductController.PlainTextAcceptedAsWritten` | Services/Controllers/ProductController.cs:178-185 | as written a plain-text thumbnail is accepted; the intended check refuses it |
| `ProductController.ThumbnailAsWrittenRefusesListed` | Services/Controllers/ProductController.cs:178-183 | the check as written refuses `main/sub` exactly when `sub` is one of jpeg, jpg, gif, png |
| `ProductController.ThumbnailRefusedAsWritten` | Services/Controllers/ProductController.cs:179 | the check as written: the subtype is in the listed set |
| `ProductController.ThumbnailRefused` | Services/Controllers/ProductController.cs:178-185 | the corrected check: the subtype is not in the listed set |
| `ProductController.Refused` | Services/Controllers/ProductController.cs:179 | the thumbnail check of the given build |
| `ProductController.ThumbnailAcceptsListedTypes` | Services/Controllers/ProductController.cs:178-185 | the intended check accepts `main/sub` exactly when `sub` is one of jpeg, jpg, gif, png |
| `ProductController.UploadNameAsWrittenNotFound` | Services/Controllers/ProductController.cs:142-144 | a file saved as `id_name.ext` never matches the lookup pattern `id.*` |
| `ProductController.UploadNameFound` | Services/Controllers/ProductController.cs:334 | a file saved as `id.ext` always matches `id.*` |
| `ProductController.MatchesIdPattern` | Services/Controllers/ProductController.cs:334 | an `id.` prefix test: the id, a dot, then anything; it agrees with `GetFiles(id + ".*")` on the names the endpoints save |
| `ProductController.UploadFileNameAsWritten` | Services/Controllers/ProductController.cs:144 | the name as written: the id, `_`, the product name, then the extension |
| `ProductController.UploadFileName` | Services/Controllers/ProductController.cs:141 | the corrected name: the id followed by the extension |
| `ProductController.SavedName` | Services/Controllers/ProductController.cs:144 | the name in either build starts with the id and ends with the media extension; the `id.*` lookup matches it exactly in the corrected build |
| `ProductController.UploadFolder` | Services/Controllers/ProductController.cs:329-331 | the owner's upload folder: the base directory, `Uploads\`, then the owner |
| `ProductController.ThumbnailFolder` | Services/Controllers/ProductController.cs:346-348 | the owner's thumbnail folder: the upload folder followed by `\thumbnails`, so a different folder |
| `ProductController.MediaPath` | Services/Controllers/ProductController.cs:142-144 | the upload path is the owner's upload folder `{base}Uploads\{owner}`, a backslash, then the file name |
| `ProductController.ThumbnailPath` | Services/Controllers/ProductController.cs:188-190 | the thumbnail path is the same with `thumbnails\` inserted after the owner, that is, inside the owner's thumbnail folder |
| `ProductController.DeleteAsWrittenMissesThumbnails` | Services/Controllers/ProductController.cs:216-217 | as written DeleteProduct never searches the thumbnail folder |
| `ProductController.DeleteFoldersCoverBoth` | Services/Controllers/ProductController.cs:216-217 | as intended DeleteProduct searches the upload folder and then the thumbnail folder, two different folders |
| `ProductController.DeleteFoldersAsWritten` | Services/Controllers/ProductController.cs:216-217 | as written both lookups search the owner's upload folder |
| `ProductController.DeleteFolders` | Services/Controllers/ProductController.cs:216-217 | as corrected the lookups search the upload folder, then the thumbnail folder |
| `ProductController.DeleteSearch` | Services/Controllers/ProductController.cs:216-217 | the folders of either build: the upload folder first; the thumbnail folder among them exactly in the corrected build |
| `ProductController.DeleteProductResponse` | Services/Controllers/ProductController.cs:209-233 | in either build: 204 exactly when the product exists and the search of its upload folder succeeds, plus, as corrected, that of its thumbnail folder; as written a product without a thumbnail still gets 204; 404 exactly for NoSuchProduct; otherwise 500 |
| `ProductController.Status` | Services/Controllers/ProductController.cs:35-319 | per endpoint: 200 or 204 exactly on success (200 for the two file downloads); 404 exactly for the endpoint's not-found fault; 403 only for UpdateProduct's UpdateNotAllowed; 400 only for ArgumentException in GetProducts and UpdateProduct; nothing outside these codes and 500 |
| `ProductController.NotFoundFault` | Services/Controllers/ProductController.cs:52-82 | the fault reported as 404 is NoSuchProductType for the listing and NoSuchProduct for every other endpoint |
| `ProductController.UncaughtIsServerError` | Services/Controllers/ProductController.cs:121-124 | a fault no catch clause names gives 500 |
| `ProductController.GetProductResponse` | Services/Controllers/ProductController.cs:68-89 | in either build: 204 with the product's JSON exactly when the lookup and the build's conversion succeed; 404 exactly for NoSuchProduct; otherwise 500 and no body |
| `ProductController.NoDescriptionGetProduct` | Services/Controllers/ProductController.cs:74-86 | a product without a description: as written GetProduct answers 500 with no body; as corrected it answers 204 |
| `ProductController.AllProductData` | Services/Controllers/ProductController.cs:41-47 | in either build: the converted listing exists exactly when every product converts, and then holds each conversion in order |
| `ProductController.ProductArrayEncodes` | Services/Controllers/ProductController.cs:50 | an array of ProductData always serializes |
| `ProductController.GetProductsResponse` | Services/Controllers/ProductController.cs:35-66 | in either build: 204 with the array's JSON exactly when the listing and every conversion succeed; 404 exactly for NoSuchProductType; 400 exactly for ArgumentException; otherwise 500 and no body |
| `ProductController.NoDescriptionListingFailsAsWritten` | Services/Controllers/ProductController.cs:44-63 | as written one product without a description makes the whole listing answer 500 with no body |
| `ProductController.GetProductsEndpoint` | Services/Controllers/ProductController.cs:41-51 | in either build, the `for` loop filling the contract array gives exactly the specified response |
| `ProductController.UpdateProductResponse` | Services/Controllers/ProductController.cs:91-125 | 204 exactly when the lookup, the construction and the store succeed, and then the new product is the one stored; 404, 403 and 400 exactly for their faults from the lookup or the store; the status is always one of 204, 404, 403, 400 or 500, so every other fault gives 500 |
| `ProductController.UpdateProductMediaResponse` | Services/Controllers/ProductController.cs:127-162 | in either build, for a product that exists: 204 exactly when the file is written in the owner's upload folder under the build's file name, and a failed write gives 500 and no write is reported; 404 exactly for NoSuchProduct; the status is always 204, 404 or 500 |
| `ProductController.MediaPathAsWritten` | Services/Controllers/ProductController.cs:138-144 | as written the media file is written at `{base}Uploads\{owner}\{id}_{name}.{subtype}` |
| `ProductController.UpdateProductThumbnailResponse` | Services/Controllers/ProductController.cs:164-207 | in either build: 412 exactly when the product exists and the build's check refuses the type, with nothing written; for an existing product whose type is accepted, 204 exactly when the thumbnail is written in the owner's thumbnail folder under the build's file name, and a failed write gives 500 and no write is reported; 404 exactly for NoSuchProduct |
| `ProductController.ThumbnailAsWritten412Iff` | Services/Controllers/ProductController.cs:175-183 | as written a found product's thumbnail of type `main/sub` gets 412 exactly when `sub` is one of jpeg, jpg, gif, png |
| `ProductController.PngThumbnailResponses` | Services/Controllers/ProductController.cs:178-183 | for `image/png` the code as written answers 412 and writes nothing; the corrected code does not refuse it |
| `ProductController.ThumbnailLandsInThumbnailFolder` | Services/Controllers/ProductController.cs:185-197 | in either build, a thumbnail the check accepts and that can be written gets 204 and lands in the owner's thumbnail folder; the `id.*` lookup finds it exactly in the corrected build |

## Left out

- `escape` (Services/JsonSerializer.cs:131-141) calls the C# CodeDom code generator, a foreign library. It is a parameter of every encoder, and nothing is assumed or claimed about its output.
- Reflection:
  - `GetProperties`, `GetValue` and `SetValue` are replaced by the explicit property list of an `Obj`.
  - `SetValue(obj, null)` (Services/JsonSerializer.cs:124) throws on a property without a setter; every property in the model can be set.
  - The order of properties, and so the order of the collected pairs, is taken to be declared order. .NET's `Dictionary` enumeration order is not modelled.
  - The order of a `ProductData`'s properties is taken from the object initializer.
- The contract classes are assumed to have distinct property names. A property hidden with `new` would make `GetProperties()` report a name twice; the `Dictionary` would then keep the last non-null value under that key, at the position of the first. The model keeps every pair instead.
- Every property in the model can hold null. For a property of a non-nullable value type, `SetValue(obj, null)` stores the type's zero value (0 or false). That property is then not null, so `JsonString` would emit it after projection; the model does not capture this.
- A nested object is a value. Sharing between objects and reference cycles, which would make `JsonString` recurse forever, are not modelled.
- `asStream` (UTF-8 into a `MemoryStream`) is left out: every encoder returns the text.
- The object-array overloads join the results of `Json(o)`, which are streams, through `Helper.Join`:
  - `Helper` is not part of this model.
  - Each element's text is taken to be `JsonString(o)`, and the join is plain join with a separator.
  - `JsonArray`'s `Helper.Join` over a `uint[]` is taken as the join of the decimal texts.
- The persistence module (`Product.getProductById`, `getAllByType`, `update`) and the WCF contexts are parameters:
  - a lookup `Result`;
  - the fault the store raises;
  - the incoming content type, the base directory and the product id, all given as strings.
- File I/O is reduced to whether the write of a path succeeds (`FileStream`, `CopyTo`). A failed write gives the catch-all status.
  - `File.Delete`, `File.OpenRead` and `DirectoryInfo.GetFiles` are left out, apart from the `id.*` pattern and the folders searched.
  - MatchesIdPattern: `GetFiles(id + ".*")` also matches case-insensitively, matches a file named exactly `id`, and matches 8.3 short names. The model's test is a case-sensitive `id.` prefix; the two agree on `id.ext` and `id_name.ext`, the names the endpoints save.
  - UpdateProductMediaResponse, UpdateProductThumbnailResponse: `new FileStream(path, FileMode.Create)` creates or truncates the file before `CopyTo` runs (Services/Controllers/ProductController.cs:145-149, 191-195). A write that fails after the path was opened leaves a created or truncated partial file, and an earlier upload there is already gone; the model does not record this.
  - GetPurchasedMedia and GetProductThumbnail are modelled only through `Status` and the folders they search; DeleteProduct's find-and-delete of one folder is reduced to whether it succeeds.
- A null content type and a null `data` argument are not modelled; each would throw and give the catch-all status.
- StrArray: its strings are never null. In the source a null element is concatenated as the empty string, giving `""`, and a null array makes the `foreach` throw (Services/JsonSerializer.cs:106-107).
- The model's strings are never null, so `ProductRecord` always emits `title`, `type` and `owner`. In the source a null string property, such as a null `product.name`, is omitted from the JSON (Services/JsonSerializer.cs:53). `UpdateProduct` also passes a null `data.title` to the F# constructor (Services/Controllers/ProductController.cs:99) without throwing.
- ProductRecord: the ProductData class is not part of this model. Its declared properties are assumed to be exactly the five set by the initializer at Services/Controllers/ProductController.cs:281-292. Any other property would keep its default value: a value-type default would then be emitted, and a signed integer would make the serializer fail.
- Text.IndexOf: the source calls the string overload `IndexOf("/")` (Services/Controllers/ProductController.cs:139, 176), which compares culture-sensitively. The model searches ordinally for the one character `/`; the two agree on ASCII content types.
- `FSharpOption.ToString()` on the description (Services/Controllers/ProductController.cs:286) in fact renders `Some(...)`. The model treats a present value as passing through unchanged.
- `uint.Parse(v.ToString())` of a stored price is modelled as pass-through for non-negative values and a fault for negative ones.
- The stub endpoints that only set 501 (Services/Controllers/ProductController.cs:27-33, 235-246) are left out.
- GetProduct and GetProducts declare a `string` result but return the `Stream` from `Json`. The model returns the JSON text.
- Concurrency and the timing of writes relative to other requests are not modelled.

## Findings

| source | as written | input that shows it | evidently intended | confidence | as-written member | corrected member |
|---|---|---|---|---|---|---|
| Services/JsonSerializer.cs:107-109 | every element, the last included, is followed by a comma | `["a"]` gives `["a",]` | `["a"]`: elements joined by commas | not executed; high | `JsonSerializer.StrArray`, `JsonSerializer.StrArrayExtraComma` | `JsonSerializer.StrArrayFramed` |
| Services/Controllers/ProductController.cs:178-183 | a thumbnail is refused when its subtype is in the allowed set | `image/png` is refused and `text/plain` is accepted | refuse a subtype outside the allowed set | not executed; high | `ProductController.ThumbnailAsWrittenRefusesListed`, `ProductController.PngThumbnailResponses` | `ProductController.ThumbnailAcceptsListedTypes` |
| Services/Controllers/ProductController.cs:286-290 | `option.Equals(None)` is called on the option itself, and F# represents None as null | a product with no description throws a null dereference, and GetProduct answers 500 | an absent description becomes null and an absent price 0 | not executed; high | `ProductController.ToProductDataAsWritten`, `ProductController.NoDescriptionGetProduct` | `ProductController.ToProductData` |
| Services/Controllers/ProductController.cs:142-144 | uploads are saved as `id_name.ext` | id `7`, name `film`, `video/mp4` is saved as `7_film.mp4`, which the lookup pattern `7.*` does not match | `id.ext`, as the comments and the lookup at line 334 expect | not executed; medium | `ProductController.UploadNameAsWrittenNotFound`, `ProductController.MediaPathAsWritten` | `ProductController.UploadNameFound` |
| Services/Controllers/ProductController.cs:216-217 | the thumbnail file is looked up with the product-file finder | any product: the thumbnail folder is never searched, and the media file is found twice | search the thumbnail folder with the thumbnail finder | not executed; high | `ProductController.DeleteAsWrittenMissesThumbnails` | `ProductController.DeleteFoldersCoverBoth` |

Every endpoint a finding touches takes a `Build` argument, and its contract is proved for both the code as written and the corrected code:
- `UpdateProductThumbnailResponse` checks with `Refused`, which is `ThumbnailRefusedAsWritten` or `ThumbnailRefused`.
- The upload endpoints save under `SavedName`, which is `UploadFileNameAsWritten` or `UploadFileName`.
- `GetProductResponse`, `AllProductData`, `GetProductsResponse` and `GetProductsEndpoint` convert with `Convert`, which is `ToProductDataAsWritten` or `ToProductData`.
- `DeleteProductResponse` searches `DeleteSearch`, which is `DeleteFoldersAsWritten` or `DeleteFolders`.

The consequences as written are stated by `ThumbnailAsWritten412Iff`, `PngThumbnailResponses`, `MediaPathAsWritten`, `NoDescriptionGetProduct`, `NoDescriptionListingFailsAsWritten`, `AbsentRentWrittenBackAsZero` and `DeleteProductResponse`.
