/**
  The pure fragments of the product endpoints
  (Services/Controllers/ProductController.cs): the conversion of a stored
  product into its data contract and back, the content-type to file-extension
  step, the thumbnail allow-list, the upload paths and the status code each
  endpoint sets for each outcome.

  The persistence module, the WCF response context and the file system are
  outside the model: what they return is a parameter (a lookup result, the
  fault a store raises, whether a file write succeeds), and an endpoint's result is the status
  code it sets together with what it returns or where it writes.
*/
module ProductController {
  import opened Wrappers
  import opened Text
  import J = JsonSerializer

  type UInt32 = J.UInt32
  type Int32 = x: int | -0x8000_0000 <= x < 0x8000_0000

  /** A .NET string reference, which may be null. */
  type NullableString = Option<string>

  /** The persistence module's product record (an F# record; F# options
      become Option, and an F# string option may hold a null string). */
  datatype Product = Product(
    name: string,
    createDate: int,
    productType: string,
    owner: string,
    description: Option<NullableString>,
    rentPrice: Option<Int32>,
    buyPrice: Option<Int32>)

  /** The PriceData contract: two nullable unsigned prices. */
  datatype PriceData = PriceData(buy: Option<UInt32>, rent: Option<UInt32>)

  /** The ProductData contract (reference-typed members may be null). */
  datatype ProductData = ProductData(
    title: string,
    productType: string,
    owner: string,
    description: NullableString,
    price: Option<PriceData>)

  /** The exceptions the endpoints tell apart; OtherFault is every other one
      (a null dereference, an overflow, a missing file, ...). */
  datatype Fault = NoSuchProduct | NoSuchProductType | UpdateNotAllowed | ArgumentError | OtherFault

  // ---------------------------------------------------------------------
  // Integer conversions
  // ---------------------------------------------------------------------

  /** The unchecked C# cast (int) of a uint: the same bits read as signed. */
  function ToInt32(u: UInt32): (i: Int32)
    ensures (i - u) % 0x1_0000_0000 == 0
    ensures i >= 0 <==> u < 0x8000_0000
    ensures i >= 0 ==> i == u
  {
    if u < 0x8000_0000 then u else u - 0x1_0000_0000
  }

  /** uint.Parse(i.ToString()): the decimal text of a negative int does not
      parse as a uint (an OverflowException). */
  function ParseUInt(i: Int32): (r: Result<UInt32, Fault>)
    ensures r.Success? <==> i >= 0
    ensures r.Failure? ==> r.error == OtherFault
    ensures r.Success? ==> r.value == i
  {
    if i < 0 then Failure(OtherFault) else Success(i)
  }

  // ---------------------------------------------------------------------
  // ProductTypeToProductData
  // ---------------------------------------------------------------------

  /** The price of a stored product as the contract shows it: 0 when absent. */
  function PriceOrZero(p: Option<Int32>): (r: Result<UInt32, Fault>)
    ensures p.None? ==> r == Success(0)
    ensures p.Some? ==> r == ParseUInt(p.value)
  {
    match p
    case None => Success(0)
    case Some(v) => ParseUInt(v)
  }

  /** ProductTypeToProductData, as its authors evidently meant it: the names
      are copied, an absent description becomes null, an absent price 0. */
  function ToProductData(p: Product): (r: Result<ProductData, Fault>)
    ensures r.Success? <==> PriceOrZero(p.buyPrice).Success? && PriceOrZero(p.rentPrice).Success?
    ensures r.Failure? ==> r.error == OtherFault
    ensures r.Success? ==>
      && r.value.title == p.name
      && r.value.productType == p.productType
      && r.value.owner == p.owner
      && (p.description.None? ==> r.value.description.None?)
      && (p.description.Some? ==> r.value.description == p.description.value)
      && r.value.price == Some(PriceData(Some(PriceOrZero(p.buyPrice).value), Some(PriceOrZero(p.rentPrice).value)))
  {
    var buy :- PriceOrZero(p.buyPrice);
    var rent :- PriceOrZero(p.rentPrice);
    Success(ProductData(
      p.name, p.productType, p.owner,
      p.description.GetOr(None),
      Some(PriceData(Some(buy), Some(rent)))))
  }

  /** ProductTypeToProductData as written: F# represents None as a null
      reference, so `option.Equals(None)` on an absent option dereferences
      null and throws before any comparison is made. */
  function ToProductDataAsWritten(p: Product): (r: Result<ProductData, Fault>)
    ensures p.description.None? || p.buyPrice.None? || p.rentPrice.None? ==> r == Failure(OtherFault)
    ensures p.description.Some? && p.buyPrice.Some? && p.rentPrice.Some? ==> r == ToProductData(p)
  {
    if p.description.None? || p.buyPrice.None? || p.rentPrice.None? then Failure(OtherFault)
    else ToProductData(p)
  }

  /** The program an endpoint model describes: the code as written, or the
      code with the defects listed under Findings in the README corrected. */
  datatype Build = AsWritten | Corrected

  /** ProductTypeToProductData in the given build.  Whenever the conversion
      as written succeeds it agrees with the corrected one. */
  function Convert(b: Build, p: Product): (r: Result<ProductData, Fault>)
    ensures r.Failure? ==> r.error == OtherFault
    ensures r.Success? ==> r == ToProductData(p)
    ensures b.Corrected? ==> r == ToProductData(p)
    ensures b.AsWritten? ==>
      (r.Success? <==> p.description.Some? && p.buyPrice.Some? && p.rentPrice.Some? && ToProductData(p).Success?)
  {
    if b.AsWritten? then ToProductDataAsWritten(p) else ToProductData(p)
  }

  /** A product with no description converts as written only by throwing,
      while the intended conversion succeeds with a null description. */
  lemma {:induction false} AbsentDescriptionThrowsAsWritten(p: Product)
    requires p.description.None? && p.buyPrice == Some(1000) && p.rentPrice == Some(20)
    ensures ToProductDataAsWritten(p).Failure?
    ensures ToProductData(p).Success? && ToProductData(p).value.description.None?
  {
  }

  /** The fields of a ProductData as the serializer reads them, in the order
      of the object initializer. */
  function ProductRecord(d: ProductData): (r: J.Record)
    ensures r.tag == J.ProductData && |r.fields| == 5
  {
    J.Record(J.ProductData, [
      J.Field("title", J.Str(d.title)),
      J.Field("type", J.Str(d.productType)),
      J.Field("owner", J.Str(d.owner)),
      J.Field("description", match d.description case None => J.Null case Some(s) => J.Str(s)),
      J.Field("price", match d.price case None => J.Null case Some(q) => J.Nested(PriceRecord(q)))])
  }

  function PriceRecord(q: PriceData): (r: J.Record)
    ensures r.tag == J.PriceData && |r.fields| == 2
  {
    J.Record(J.PriceData, [
      J.Field("buy", match q.buy case None => J.Null case Some(n) => J.UInt(n)),
      J.Field("rent", match q.rent case None => J.Null case Some(n) => J.UInt(n))])
  }

  /** Every ProductData serializes: both contracts are registered and every
      member is a string, a uint or a nested PriceData. */
  lemma {:induction false} ProductDataEncodes(d: ProductData, escape: J.Escaper)
    ensures J.EncodeRecord(ProductRecord(d), escape).Success?
  {
    var r := ProductRecord(d);
    if d.price.Some? {
      var q := PriceRecord(d.price.value);
      assert forall i :: 0 <= i < |q.fields| ==> J.EncodableValue(q.fields[i].value);
      assert J.EncodableValue(r.fields[4].value);
    }
    assert forall i :: 0 <= i < |r.fields| ==> J.EncodableValue(r.fields[i].value);
    J.EncodeSucceedsIff(r, escape);
  }

  // ---------------------------------------------------------------------
  // UpdateProduct: from the contract back to a product
  // ---------------------------------------------------------------------

  /** The product UpdateProduct builds from the old one and the incoming data:
      the creation date is kept, the description wrapped in Some even when
      null, a null rent becomes None, the buy price is always present.  A null
      price, or a null buy price, throws. */
  function NewProduct(previous: Product, data: ProductData): (r: Result<Product, Fault>)
    ensures r.Success? <==> data.price.Some? && data.price.value.buy.Some?
    ensures r.Success? ==>
      && r.value.name == data.title
      && r.value.createDate == previous.createDate
      && r.value.productType == data.productType
      && r.value.owner == data.owner
      && r.value.description == Some(data.description)
      && (data.price.value.rent.None? <==> r.value.rentPrice.None?)
      && (data.price.value.rent.Some? ==> r.value.rentPrice == Some(ToInt32(data.price.value.rent.value)))
      && r.value.buyPrice == Some(ToInt32(data.price.value.buy.value))
  {
    match data.price
    case None => Failure(OtherFault)
    case Some(price) =>
      var rent := match price.rent case None => None case Some(n) => Some(ToInt32(n));
      match price.buy
      case None => Failure(OtherFault)
      case Some(b) =>
        Success(Product(data.title, previous.createDate, data.productType, data.owner,
                        Some(data.description), rent, Some(ToInt32(b))))
  }

  /** In either build, reading a product and writing the result straight back
      leaves it as it was, when it has a description and both prices. */
  lemma {:induction false} ReadWriteRoundTrip(b: Build, p: Product)
    requires p.description.Some? && p.buyPrice.Some? && p.rentPrice.Some?
    requires p.buyPrice.value >= 0 && p.rentPrice.value >= 0
    ensures Convert(b, p).Success?
    ensures NewProduct(p, Convert(b, p).value) == Success(p)
  {
  }

  /** An absent rent price: as written the read throws; as corrected it is read
      as 0 and so written back as Some(0), no longer absent. */
  lemma {:induction false} AbsentRentWrittenBackAsZero(p: Product)
    requires p.buyPrice.Some? && p.buyPrice.value >= 0 && p.rentPrice.None?
    ensures Convert(AsWritten, p).Failure?
    ensures Convert(Corrected, p).Success?
    ensures NewProduct(p, Convert(Corrected, p).value).Success?
    ensures NewProduct(p, Convert(Corrected, p).value).value.rentPrice == Some(0)
  {
  }

  /** A buy price of 2^31 or more wraps to a negative int when stored, and the
      stored product then no longer converts. */
  lemma {:induction false} LargePriceBreaksReadBack(previous: Product, data: ProductData)
    requires data.price.Some? && data.price.value.buy.Some? && data.price.value.buy.value >= 0x8000_0000
    ensures NewProduct(previous, data).Success?
    ensures NewProduct(previous, data).value.buyPrice.value < 0
    ensures ToProductData(NewProduct(previous, data).value).Failure?
  {
  }

  // ---------------------------------------------------------------------
  // Content types, extensions, folders
  // ---------------------------------------------------------------------

  /** contentType.Substring(contentType.IndexOf("/") + 1): what follows the
      first slash, or the whole string when there is none. */
  function Subtype(contentType: string): (sub: string)
    ensures '/' in contentType ==>
      exists k :: 0 <= k < |contentType| && contentType[k] == '/' && '/' !in contentType[..k] && sub == contentType[k + 1..]
    ensures '/' !in contentType ==> sub == contentType
    ensures |sub| <= |contentType|
  {
    var k := IndexOf(contentType, '/');
    contentType[k + 1..]
  }

  /** The extension an upload is saved with. */
  function MediaExtension(contentType: string): (ext: string)
    ensures |ext| >= 1 && ext[0] == '.' && ext[1..] == Subtype(contentType)
  {
    "." + Subtype(contentType)
  }

  /** A type with no slash, a slash and a subtype: the subtype is what
      follows the slash. */
  lemma {:induction false} SubtypeAfterSlash(mainType: string, sub: string)
    requires '/' !in mainType
    ensures Subtype(mainType + "/" + sub) == sub
  {
    IndexOfAfterPrefix(mainType, '/', sub);
    assert mainType + "/" + sub == mainType + ['/'] + sub;
  }

  /** image/jpeg is saved with the extension .jpeg. */
  lemma {:induction false} JpegExtension(contentType: string)
    requires contentType == "image/jpeg"
    ensures Subtype(contentType) == "jpeg"
    ensures MediaExtension(contentType) == ".jpeg"
  {
    SubtypeAfterSlash("image", "jpeg");
    assert "image" + "/" + "jpeg" == contentType;
  }

  /** A content type without a slash is used whole. */
  lemma {:induction false} NoSlashExtension(contentType: string)
    requires '/' !in contentType
    ensures MediaExtension(contentType) == "." + contentType
  {
  }

  /** The subtypes the thumbnail endpoint lists. */
  const ThumbnailTypes: set<string> := {"jpeg", "jpg", "gif", "png"}

  /** The thumbnail check as written: refuses exactly the listed image types. */
  predicate ThumbnailRefusedAsWritten(contentType: string)
  {
    Subtype(contentType) in ThumbnailTypes
  }

  /** The check as evidently meant: refuses every type not listed. */
  predicate ThumbnailRefused(contentType: string)
  {
    Subtype(contentType) !in ThumbnailTypes
  }

  /** As written a PNG thumbnail is refused; the intended check accepts it. */
  lemma {:induction false} PngRefusedAsWritten(contentType: string)
    requires contentType == "image/png"
    ensures ThumbnailRefusedAsWritten(contentType) && !ThumbnailRefused(contentType)
  {
    SubtypeAfterSlash("image", "png");
    assert "image" + "/" + "png" == contentType;
  }

  /** As written a plain-text thumbnail is accepted; the intended check
      refuses it. */
  lemma {:induction false} PlainTextAcceptedAsWritten(contentType: string)
    requires contentType == "text/plain"
    ensures !ThumbnailRefusedAsWritten(contentType) && ThumbnailRefused(contentType)
  {
    SubtypeAfterSlash("text", "plain");
    assert "text" + "/" + "plain" == contentType;
  }

  /** The check as written refuses `main/sub` exactly when `sub` is listed. */
  lemma {:induction false} ThumbnailAsWrittenRefusesListed(mainType: string, sub: string)
    requires '/' !in mainType
    ensures ThumbnailRefusedAsWritten(mainType + "/" + sub) <==> sub in ThumbnailTypes
  {
    SubtypeAfterSlash(mainType, sub);
  }

  /** The intended check accepts a type exactly when its subtype is listed. */
  lemma {:induction false} ThumbnailAcceptsListedTypes(mainType: string, sub: string)
    requires '/' !in mainType
    ensures ThumbnailRefused(mainType + "/" + sub) <==> sub !in ThumbnailTypes
  {
    SubtypeAfterSlash(mainType, sub);
  }

  /** The thumbnail check of the given build. */
  predicate Refused(b: Build, contentType: string)
  {
    if b.AsWritten? then ThumbnailRefusedAsWritten(contentType) else ThumbnailRefused(contentType)
  }

  /** "{0}Uploads\{1}": the owner's upload folder. */
  function UploadFolder(baseDirectory: string, owner: string): (folder: string)
    ensures |folder| == |baseDirectory| + 8 + |owner|
    ensures folder[..|baseDirectory|] == baseDirectory
    ensures folder[|baseDirectory|..|baseDirectory| + 8] == "Uploads\\"
    ensures folder[|baseDirectory| + 8..] == owner
  {
    baseDirectory + "Uploads\\" + owner
  }

  /** "{0}Uploads\{1}\thumbnails": the owner's thumbnail folder. */
  function ThumbnailFolder(baseDirectory: string, owner: string): (folder: string)
    ensures |folder| == |UploadFolder(baseDirectory, owner)| + 11
    ensures folder[..|UploadFolder(baseDirectory, owner)|] == UploadFolder(baseDirectory, owner)
    ensures folder[|UploadFolder(baseDirectory, owner)|..] == "\\thumbnails"
    ensures folder != UploadFolder(baseDirectory, owner)
  {
    UploadFolder(baseDirectory, owner) + "\\thumbnails"
  }

  /** The file name an upload is saved under, as written: id_name.ext. */
  function UploadFileNameAsWritten(id: string, name: string, ext: string): (fileName: string)
    ensures |fileName| == |id| + 1 + |name| + |ext|
    ensures fileName[..|id|] == id && fileName[|id|] == '_'
    ensures fileName[|id| + 1..|id| + 1 + |name|] == name
    ensures fileName[|fileName| - |ext|..] == ext
  {
    id + "_" + name + ext
  }

  /** The file name the comments and the file lookup expect: id.ext. */
  function UploadFileName(id: string, ext: string): (fileName: string)
    ensures |fileName| == |id| + |ext|
    ensures fileName[..|id|] == id && fileName[|id|..] == ext
  {
    id + ext
  }

  /** A file name the pattern `id + ".*"` matches: id, a dot, then anything. */
  predicate MatchesIdPattern(fileName: string, id: string)
  {
    |fileName| > |id| && fileName[..|id| + 1] == id + "."
  }

  /** The lookup never finds a file saved under the name as written. */
  lemma {:induction false} UploadNameAsWrittenNotFound(id: string, name: string, ext: string)
    ensures !MatchesIdPattern(UploadFileNameAsWritten(id, name, ext), id)
  {
    var f := UploadFileNameAsWritten(id, name, ext);
    assert f[|id|] == '_';
    assert (id + ".")[|id|] == '.';
  }

  /** It always finds a file saved under the intended name. */
  lemma {:induction false} UploadNameFound(id: string, contentType: string)
    ensures MatchesIdPattern(UploadFileName(id, MediaExtension(contentType)), id)
  {
    var f := UploadFileName(id, MediaExtension(contentType));
    assert f[..|id| + 1] == id + ".";
  }

  /** Where UpdateProductMedia writes: the upload folder, then the file. */
  function MediaPath(baseDirectory: string, owner: string, fileName: string): (path: string)
    ensures path == UploadFolder(baseDirectory, owner) + "\\" + fileName
  {
    baseDirectory + "Uploads\\" + owner + "\\" + fileName
  }

  /** Where UpdateProductThumbnail writes: the thumbnail folder, then the file. */
  function ThumbnailPath(baseDirectory: string, owner: string, fileName: string): (path: string)
    ensures path == ThumbnailFolder(baseDirectory, owner) + "\\" + fileName
    ensures path == UploadFolder(baseDirectory, owner) + "\\thumbnails\\" + fileName
  {
    baseDirectory + "Uploads\\" + owner + "\\thumbnails\\" + fileName
  }

  /** The folders DeleteProduct searches, as written: the upload folder twice
      (the thumbnail lookup calls the product-file finder). */
  function DeleteFoldersAsWritten(baseDirectory: string, owner: string): (folders: seq<string>)
    ensures |folders| == 2 && folders[0] == folders[1] == UploadFolder(baseDirectory, owner)
  {
    [UploadFolder(baseDirectory, owner), UploadFolder(baseDirectory, owner)]
  }

  /** The folders DeleteProduct evidently means to search. */
  function DeleteFolders(baseDirectory: string, owner: string): (folders: seq<string>)
    ensures |folders| == 2 && folders[0] == UploadFolder(baseDirectory, owner)
    ensures folders[1] == ThumbnailFolder(baseDirectory, owner)
  {
    [UploadFolder(baseDirectory, owner), ThumbnailFolder(baseDirectory, owner)]
  }

  /** As written the thumbnail folder is never searched. */
  lemma {:induction false} DeleteAsWrittenMissesThumbnails(baseDirectory: string, owner: string)
    ensures ThumbnailFolder(baseDirectory, owner) !in DeleteFoldersAsWritten(baseDirectory, owner)
  {
    assert |ThumbnailFolder(baseDirectory, owner)| > |UploadFolder(baseDirectory, owner)|;
  }

  /** The file name an upload is saved under in the given build.  Only the
      corrected name is ever found by the `id.*` lookup. */
  function SavedName(b: Build, id: string, name: string, contentType: string): (fileName: string)
    ensures |fileName| >= |id| + |MediaExtension(contentType)|
    ensures fileName[..|id|] == id
    ensures fileName[|fileName| - |MediaExtension(contentType)|..] == MediaExtension(contentType)
    ensures MatchesIdPattern(fileName, id) <==> b.Corrected?
  {
    var ext := MediaExtension(contentType);
    if b.AsWritten? then
      UploadNameAsWrittenNotFound(id, name, ext);
      UploadFileNameAsWritten(id, name, ext)
    else
      UploadNameFound(id, contentType);
      UploadFileName(id, ext)
  }

  /** The folders DeleteProduct searches in the given build: the thumbnail
      folder is among them only when corrected. */
  function DeleteSearch(b: Build, baseDirectory: string, owner: string): (folders: seq<string>)
    ensures |folders| == 2 && folders[0] == UploadFolder(baseDirectory, owner)
    ensures ThumbnailFolder(baseDirectory, owner) in folders <==> b.Corrected?
  {
    if b.AsWritten? then
      DeleteAsWrittenMissesThumbnails(baseDirectory, owner);
      DeleteFoldersAsWritten(baseDirectory, owner)
    else
      DeleteFolders(baseDirectory, owner)
  }

  /** As meant, both the upload folder and the thumbnail folder are searched,
      and they are different folders. */
  lemma {:induction false} DeleteFoldersCoverBoth(baseDirectory: string, owner: string)
    ensures DeleteFolders(baseDirectory, owner)[0] == UploadFolder(baseDirectory, owner)
    ensures DeleteFolders(baseDirectory, owner)[1] == ThumbnailFolder(baseDirectory, owner)
    ensures DeleteFolders(baseDirectory, owner)[0] != DeleteFolders(baseDirectory, owner)[1]
  {
    assert |ThumbnailFolder(baseDirectory, owner)| > |UploadFolder(baseDirectory, owner)|;
  }

  // ---------------------------------------------------------------------
  // Status codes
  // ---------------------------------------------------------------------

  /** The endpoints with a try/catch around a persistence call. */
  datatype Endpoint =
    | GetProducts | GetProduct | UpdateProduct | UpdateProductMedia
    | UpdateProductThumbnail | DeleteProduct | GetPurchasedMedia | GetProductThumbnail

  const OK := 200
  const NoContent := 204
  const BadRequest := 400
  const Forbidden := 403
  const NotFound := 404
  const PreconditionFailed := 412
  const InternalServerError := 500

  /** The fault an endpoint reports as 404: an unknown product type for the
      listing, an unknown product everywhere else. */
  function NotFoundFault(ep: Endpoint): (f: Fault)
    ensures f == NoSuchProductType <==> ep.GetProducts?
    ensures f == NoSuchProduct <==> !ep.GetProducts?
  {
    if ep.GetProducts? then NoSuchProductType else NoSuchProduct
  }

  /** The status code an endpoint sets when its try block completes (None) or
      throws the given fault. */
  function Status(ep: Endpoint, outcome: Option<Fault>): (code: int)
    ensures outcome.None? <==> code == OK || code == NoContent
    ensures code == OK <==> outcome.None? && (ep.GetPurchasedMedia? || ep.GetProductThumbnail?)
    ensures code == NotFound <==> outcome == Some(NotFoundFault(ep))
    ensures code == Forbidden <==> ep.UpdateProduct? && outcome == Some(UpdateNotAllowed)
    ensures code == BadRequest <==> (ep.GetProducts? || ep.UpdateProduct?) && outcome == Some(ArgumentError)
    ensures code in {OK, NoContent, BadRequest, Forbidden, NotFound, InternalServerError}
  {
    match outcome
    case None =>
      if ep.GetPurchasedMedia? || ep.GetProductThumbnail? then OK else NoContent
    case Some(f) =>
      match ep
      case GetProducts =>
        (match f
         case NoSuchProductType => NotFound
         case ArgumentError => BadRequest
         case _ => InternalServerError)
      case UpdateProduct =>
        (match f
         case NoSuchProduct => NotFound
         case UpdateNotAllowed => Forbidden
         case ArgumentError => BadRequest
         case _ => InternalServerError)
      case _ =>
        if f == NoSuchProduct then NotFound else InternalServerError
  }

  /** A fault no catch clause names falls through to the catch-all. */
  lemma {:induction false} UncaughtIsServerError(ep: Endpoint, f: Fault)
    requires f != NotFoundFault(ep)
    requires !(ep.UpdateProduct? && f == UpdateNotAllowed)
    requires !((ep.GetProducts? || ep.UpdateProduct?) && f == ArgumentError)
    ensures Status(ep, Some(f)) == InternalServerError
  {
  }

  // ---------------------------------------------------------------------
  // Endpoints
  // ---------------------------------------------------------------------

  /** What an endpoint sets and returns: the status code and the JSON text
      (null when absent). */
  datatype Response = Response(status: int, body: Option<string>)

  /** What a file-writing endpoint sets and where it wrote, if anywhere. */
  datatype Upload = Upload(status: int, written: Option<string>)

  /** GetProduct: look the product up, convert it, serialize it. */
  function GetProductResponse(b: Build, lookup: Result<Product, Fault>, escape: J.Escaper): (res: Response)
    ensures res.status == NoContent <==> lookup.Success? && Convert(b, lookup.value).Success?
    ensures res.status == NotFound <==> lookup == Failure(NoSuchProduct)
    ensures res.status in {NoContent, NotFound, InternalServerError}
    ensures res.body.Some? <==> res.status == NoContent
    ensures res.body.Some? ==>
      J.EncodeRecord(ProductRecord(ToProductData(lookup.value).value), escape) == Success(res.body.value)
  {
    match lookup
    case Failure(f) => Response(Status(GetProduct, Some(f)), None)
    case Success(p) =>
      match Convert(b, p)
      case Failure(f) => Response(Status(GetProduct, Some(f)), None)
      case Success(d) =>
        ProductDataEncodes(d, escape);
        var text := J.EncodeRecord(ProductRecord(d), escape);
        Response(Status(GetProduct, None), Some(text.value))
  }

  /** A product without a description: as written GetProduct answers 500 with
      no body; as corrected it answers 204 with the product's JSON. */
  lemma {:induction false} NoDescriptionGetProduct(p: Product, escape: J.Escaper)
    requires p.description.None? && ToProductData(p).Success?
    ensures GetProductResponse(AsWritten, Success(p), escape) == Response(InternalServerError, None)
    ensures GetProductResponse(Corrected, Success(p), escape).status == NoContent
  {
  }

  /** The contract objects of a product listing, or the first conversion
      that throws. */
  function AllProductData(b: Build, ps: seq<Product>): (r: Result<seq<ProductData>, Fault>)
    ensures r.Success? <==> forall i :: 0 <= i < |ps| ==> Convert(b, ps[i]).Success?
    ensures r.Failure? ==> r.error == OtherFault
    ensures r.Success? ==> |r.value| == |ps| && forall i :: 0 <= i < |ps| ==> r.value[i] == Convert(b, ps[i]).value
  {
    if |ps| == 0 then Success([])
    else
      var init := ps[..|ps| - 1];
      assert forall i :: 0 <= i < |init| ==> init[i] == ps[i];
      var ds :- AllProductData(b, init);
      var d :- Convert(b, ps[|ps| - 1]);
      Success(ds + [d])
  }

  function ProductRecords(ds: seq<ProductData>): seq<J.Record>
  {
    seq(|ds|, i requires 0 <= i < |ds| => ProductRecord(ds[i]))
  }

  /** An array of contract objects always serializes. */
  lemma {:induction false} ProductArrayEncodes(ds: seq<ProductData>, escape: J.Escaper)
    ensures J.EncodeArray(ProductRecords(ds), escape).Success?
  {
    var rs := ProductRecords(ds);
    forall i | 0 <= i < |rs| ensures J.EncodableRecord(rs[i]) {
      ProductDataEncodes(ds[i], escape);
      J.EncodeSucceedsIff(rs[i], escape);
    }
    J.ArrayFailsIff(rs, escape);
  }

  /** The listing endpoint's result for a listing and the conversions. */
  function GetProductsResponse(b: Build, listing: Result<seq<Product>, Fault>, escape: J.Escaper): (res: Response)
    ensures res.status == NoContent <==> listing.Success? && AllProductData(b, listing.value).Success?
    ensures res.status == NotFound <==> listing == Failure(NoSuchProductType)
    ensures res.status == BadRequest <==> listing == Failure(ArgumentError)
    ensures res.status in {NoContent, NotFound, BadRequest, InternalServerError}
    ensures res.body.Some? <==> res.status == NoContent
    ensures res.body.Some? ==>
      J.EncodeArray(ProductRecords(AllProductData(b, listing.value).value), escape) == Success(res.body.value)
  {
    match listing
    case Failure(f) => Response(Status(GetProducts, Some(f)), None)
    case Success(ps) =>
      match AllProductData(b, ps)
      case Failure(f) => Response(Status(GetProducts, Some(f)), None)
      case Success(ds) =>
        ProductArrayEncodes(ds, escape);
        var text := J.EncodeArray(ProductRecords(ds), escape);
        Response(Status(GetProducts, None), Some(text.value))
  }

  /** As written one product without a description makes the whole listing
      answer 500. */
  lemma {:induction false} NoDescriptionListingFailsAsWritten(ps: seq<Product>, i: nat, escape: J.Escaper)
    requires i < |ps| && ps[i].description.None?
    ensures GetProductsResponse(AsWritten, Success(ps), escape) == Response(InternalServerError, None)
  {
    assert Convert(AsWritten, ps[i]).Failure?;
  }

  /** GetProducts: fills the contract array in a loop, then serializes it. */
  method GetProductsEndpoint(b: Build, listing: Result<seq<Product>, Fault>, escape: J.Escaper) returns (res: Response)
    ensures res == GetProductsResponse(b, listing, escape)
  {
    if listing.Failure? {
      return Response(Status(GetProducts, Some(listing.error)), None);
    }
    var products := listing.value;
    var returnData := new ProductData[|products|];
    for i := 0 to |products|
      invariant forall j :: 0 <= j < i ==> Convert(b, products[j]).Success?
      invariant forall j :: 0 <= j < i ==> returnData[j] == Convert(b, products[j]).value
    {
      var d := Convert(b, products[i]);
      if d.Failure? {
        assert AllProductData(b, products).Failure?;
        assert AllProductData(b, products).error == d.error;
        return Response(Status(GetProducts, Some(d.error)), None);
      }
      returnData[i] := d.value;
    }
    assert returnData[..] == AllProductData(b, products).value;
    var ds := returnData[..];
    ProductArrayEncodes(ds, escape);
    var text := J.EncodeArray(ProductRecords(ds), escape);
    res := Response(Status(GetProducts, None), Some(text.value));
  }

  /** What UpdateProduct sets and what it hands to the store, if anything. */
  datatype Update = Update(status: int, stored: Option<Product>)

  /** UpdateProduct: look the old product up, build the new one, store it.
      `store` is the fault Product.update raises for a product, if any.  No
      finding touches this endpoint, so it has no build parameter. */
  function UpdateProductResponse(lookup: Result<Product, Fault>, data: ProductData, store: Product -> Option<Fault>): (res: Update)
    ensures res.status == NoContent <==>
      lookup.Success? && NewProduct(lookup.value, data).Success? && store(NewProduct(lookup.value, data).value).None?
    ensures res.status == NotFound <==>
      lookup == Failure(NoSuchProduct) ||
      (lookup.Success? && NewProduct(lookup.value, data).Success? && store(NewProduct(lookup.value, data).value) == Some(NoSuchProduct))
    ensures res.status == Forbidden <==>
      lookup == Failure(UpdateNotAllowed) ||
      (lookup.Success? && NewProduct(lookup.value, data).Success? && store(NewProduct(lookup.value, data).value) == Some(UpdateNotAllowed))
    ensures res.status == BadRequest <==>
      lookup == Failure(ArgumentError) ||
      (lookup.Success? && NewProduct(lookup.value, data).Success? && store(NewProduct(lookup.value, data).value) == Some(ArgumentError))
    ensures res.stored.Some? <==> res.status == NoContent
    ensures res.stored.Some? ==> res.stored == Some(NewProduct(lookup.value, data).value)
    ensures res.status in {NoContent, NotFound, Forbidden, BadRequest, InternalServerError}
  {
    match lookup
    case Failure(f) => Update(Status(UpdateProduct, Some(f)), None)
    case Success(previous) =>
      match NewProduct(previous, data)
      case Failure(f) => Update(Status(UpdateProduct, Some(f)), None)
      case Success(np) =>
        match store(np)
        case Some(f) => Update(Status(UpdateProduct, Some(f)), None)
        case None => Update(Status(UpdateProduct, None), Some(np))
  }

  /** UpdateProductMedia: look the product up, write the stream into the
      owner's upload folder under the build's file name.  `written` says
      whether writing a path succeeds. */
  function UpdateProductMediaResponse(
    b: Build, lookup: Result<Product, Fault>, id: string, contentType: string,
    baseDirectory: string, written: string -> bool): (res: Upload)
    ensures res.status == NoContent <==> res.written.Some?
    ensures res.written.Some? ==>
      lookup.Success? &&
      res.written.value == MediaPath(baseDirectory, lookup.value.owner, SavedName(b, id, lookup.value.name, contentType))
    ensures res.status == NotFound <==> lookup == Failure(NoSuchProduct)
    ensures res.status in {NoContent, NotFound, InternalServerError}
    ensures lookup.Success? ==>
      var path := MediaPath(baseDirectory, lookup.value.owner, SavedName(b, id, lookup.value.name, contentType));
      (res.status == NoContent <==> written(path)) &&
      (!written(path) ==> res == Upload(InternalServerError, None))
  {
    match lookup
    case Failure(f) => Upload(Status(UpdateProductMedia, Some(f)), None)
    case Success(p) =>
      var path := MediaPath(baseDirectory, p.owner, SavedName(b, id, p.name, contentType));
      if written(path) then Upload(Status(UpdateProductMedia, None), Some(path))
      else Upload(Status(UpdateProductMedia, Some(OtherFault)), None)
  }

  /** As written the media file lands at
      {base}Uploads\{owner}\{id}_{name}.{subtype}. */
  lemma {:induction false} MediaPathAsWritten(
    p: Product, id: string, contentType: string, baseDirectory: string, written: string -> bool)
    requires written(MediaPath(baseDirectory, p.owner, SavedName(AsWritten, id, p.name, contentType)))
    ensures UpdateProductMediaResponse(AsWritten, Success(p), id, contentType, baseDirectory, written).written
         == Some(baseDirectory + "Uploads\\" + p.owner + "\\" + id + "_" + p.name + "." + Subtype(contentType))
  {
    var path := baseDirectory + "Uploads\\" + p.owner + "\\" + id + "_" + p.name + "." + Subtype(contentType);
    assert MediaPath(baseDirectory, p.owner, SavedName(AsWritten, id, p.name, contentType)) == path;
  }

  /** UpdateProductThumbnail: as above into the thumbnail folder, after the
      build's allow-list check, which refuses before anything is written. */
  function UpdateProductThumbnailResponse(
    b: Build, lookup: Result<Product, Fault>, id: string, contentType: string,
    baseDirectory: string, written: string -> bool): (res: Upload)
    ensures res.status == PreconditionFailed <==> lookup.Success? && Refused(b, contentType)
    ensures res.status == PreconditionFailed ==> res.written.None?
    ensures res.status == NoContent <==> res.written.Some?
    ensures res.written.Some? ==>
      lookup.Success? && !Refused(b, contentType) &&
      res.written.value == ThumbnailPath(baseDirectory, lookup.value.owner, SavedName(b, id, lookup.value.name, contentType))
    ensures res.status == NotFound <==> lookup == Failure(NoSuchProduct)
    ensures res.status in {NoContent, NotFound, PreconditionFailed, InternalServerError}
    ensures lookup.Success? && !Refused(b, contentType) ==>
      var path := ThumbnailPath(baseDirectory, lookup.value.owner, SavedName(b, id, lookup.value.name, contentType));
      (res.status == NoContent <==> written(path)) &&
      (!written(path) ==> res == Upload(InternalServerError, None))
  {
    match lookup
    case Failure(f) => Upload(Status(UpdateProductThumbnail, Some(f)), None)
    case Success(p) =>
      if Refused(b, contentType) then Upload(PreconditionFailed, None)
      else
        var path := ThumbnailPath(baseDirectory, p.owner, SavedName(b, id, p.name, contentType));
        if written(path) then Upload(Status(UpdateProductThumbnail, None), Some(path))
        else Upload(Status(UpdateProductThumbnail, Some(OtherFault)), None)
  }

  /** As written a found product's thumbnail gets 412 exactly when its subtype
      is one of jpeg, jpg, gif, png. */
  lemma {:induction false} ThumbnailAsWritten412Iff(
    p: Product, id: string, mainType: string, sub: string, baseDirectory: string, written: string -> bool)
    requires '/' !in mainType
    ensures UpdateProductThumbnailResponse(AsWritten, Success(p), id, mainType + "/" + sub, baseDirectory, written).status == PreconditionFailed
        <==> sub in ThumbnailTypes
  {
    ThumbnailAsWrittenRefusesListed(mainType, sub);
  }

  /** image/png: 412 and nothing written as written, not refused as corrected. */
  lemma {:induction false} PngThumbnailResponses(
    p: Product, id: string, contentType: string, baseDirectory: string, written: string -> bool)
    requires contentType == "image/png"
    ensures UpdateProductThumbnailResponse(AsWritten, Success(p), id, contentType, baseDirectory, written)
         == Upload(PreconditionFailed, None)
    ensures UpdateProductThumbnailResponse(Corrected, Success(p), id, contentType, baseDirectory, written).status != PreconditionFailed
  {
    PngRefusedAsWritten(contentType);
  }

  /** A thumbnail the build accepts and that can be written lands in the
      owner's thumbnail folder; the `id.*` lookup finds it only as corrected. */
  lemma {:induction false} ThumbnailLandsInThumbnailFolder(
    b: Build, p: Product, id: string, contentType: string, baseDirectory: string, written: string -> bool)
    requires !Refused(b, contentType)
    requires written(ThumbnailPath(baseDirectory, p.owner, SavedName(b, id, p.name, contentType)))
    ensures UpdateProductThumbnailResponse(b, Success(p), id, contentType, baseDirectory, written).status == NoContent
    ensures UpdateProductThumbnailResponse(b, Success(p), id, contentType, baseDirectory, written).written
         == Some(ThumbnailFolder(baseDirectory, p.owner) + "\\" + SavedName(b, id, p.name, contentType))
    ensures MatchesIdPattern(SavedName(b, id, p.name, contentType), id) <==> b.Corrected?
  {
  }

  /** DeleteProduct: look the product up, find its file in each folder the
      build searches and delete it.  `deleted` says whether finding and
      deleting a file of the id in a folder succeeds; as written both lookups
      run before either delete and find the same file, so the second delete
      is of the same path. */
  function DeleteProductResponse(
    b: Build, lookup: Result<Product, Fault>, baseDirectory: string, deleted: string -> bool): (res: int)
    ensures res == NoContent <==>
      lookup.Success? &&
      deleted(UploadFolder(baseDirectory, lookup.value.owner)) &&
      (b.Corrected? ==> deleted(ThumbnailFolder(baseDirectory, lookup.value.owner)))
    ensures res == NotFound <==> lookup == Failure(NoSuchProduct)
    ensures res in {NoContent, NotFound, InternalServerError}
  {
    match lookup
    case Failure(f) => Status(DeleteProduct, Some(f))
    case Success(p) =>
      var folders := DeleteSearch(b, baseDirectory, p.owner);
      if deleted(folders[0]) && deleted(folders[1]) then Status(DeleteProduct, None)
      else Status(DeleteProduct, Some(OtherFault))
  }
}
