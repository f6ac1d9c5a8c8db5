/**
 * The Express routes of the API that carry logic of their own: the Amazon
 * product lookup (`GET /amazon-product`) and post creation
 * (`POST /postcontent`), with the upload limits configured for it.
 * The redirect follower, the scraper, `JSON.parse`, the image host and the
 * database are passed in as functions.
 */
module PostsRoute {
  import opened Common
  import opened JsText
  import opened Posts

  // -----------------------------------------------------------------------
  // responses

  datatype Body =
    | ErrorBody(error: string)
    | MessageBody(message: string)
    | ProductBody(title: string, image: string, price: string)
    | PostBody(post: Post)

  datatype Response = Response(status: nat, body: Body)

  const UrlRequired := "URL is required"
  const AsinNotFound := "ASIN not found in URL"
  const ProductFailed := "Failed to fetch product information"
  const UploadFailed := "Failed to upload image to ImgBB"
  const ImagesOnly := "Error: Images Only!"
  /** The message of the `TypeError` Node.js throws for `req.files.map` when
      the request was not multipart, so the upload middleware set no files. */
  const FilesUndefined := "Cannot read properties of undefined (reading 'map')"

  // -----------------------------------------------------------------------
  // ASIN extraction: finalUrl.match(/\/(?:dp|gp\/product)\/([A-Z0-9]{10})/)

  const AsinLength := 10

  predicate IsAsinChar(c: char)
  {
    'A' <= c <= 'Z' || '0' <= c <= '9'
  }

  /** Ten characters from [A-Z0-9]. */
  predicate IsAsin(a: string)
  {
    |a| == AsinLength && forall k :: 0 <= k < |a| ==> IsAsinChar(a[k])
  }

  /** The pattern matches at `i` with capture group `asin`. */
  predicate MatchesAt(s: string, i: nat, asin: string)
  {
    IsAsin(asin) && (OccursAt(s, "/dp/" + asin, i) || OccursAt(s, "/gp/product/" + asin, i))
  }

  ghost predicate NoMatchAt(s: string, i: nat)
  {
    forall a :: !MatchesAt(s, i, a)
  }

  lemma {:induction false} OccursConcat(s: string, p: string, q: string, i: nat)
    ensures OccursAt(s, p + q, i) <==> OccursAt(s, p, i) && OccursAt(s, q, i + |p|)
  {
    if i + |p| + |q| <= |s| {
      assert s[i..i + |p| + |q|] == s[i..i + |p|] + s[i + |p|..i + |p| + |q|];
      if OccursAt(s, p + q, i) {
        assert s[i..i + |p|] == (p + q)[..|p|] == p;
        assert s[i + |p|..i + |p| + |q|] == (p + q)[|p|..] == q;
      }
    }
  }

  /** The capture at `i`, if the pattern matches there: `/dp/` is tried
      first, then `/gp/product/`. */
  function CaptureAt(s: string, i: nat): Option<string>
  {
    if OccursAt(s, "/dp/", i) && i + 4 + AsinLength <= |s| && IsAsin(s[i + 4..i + 4 + AsinLength]) then
      Some(s[i + 4..i + 4 + AsinLength])
    else if OccursAt(s, "/gp/product/", i) && i + 12 + AsinLength <= |s| && IsAsin(s[i + 12..i + 12 + AsinLength]) then
      Some(s[i + 12..i + 12 + AsinLength])
    else None
  }

  /** The capture agrees with the pattern: it is a match, and every match at
      `i` is that capture. */
  lemma {:induction false} CaptureAtCorrect(s: string, i: nat)
    ensures CaptureAt(s, i).Some? ==> MatchesAt(s, i, CaptureAt(s, i).value)
    ensures CaptureAt(s, i).None? ==> NoMatchAt(s, i)
    ensures forall a :: MatchesAt(s, i, a) ==> CaptureAt(s, i) == Some(a)
  {
    forall a
      ensures MatchesAt(s, i, a) <==> CaptureAt(s, i) == Some(a)
    {
      OccursConcat(s, "/dp/", a, i);
      OccursConcat(s, "/gp/product/", a, i);
      if OccursAt(s, "/dp/", i) {
        // the two alternatives differ in their second character
        assert s[i + 1] == s[i..i + 4][1] == 'd';
        assert i + 12 <= |s| ==> s[i..i + 12][1] == 'd';
      }
    }
  }

  datatype AsinMatch = AsinMatch(index: nat, asin: string)

  /** `String.prototype.match` with that pattern, searched from `from`: the
      leftmost match and its capture. */
  function FindAsin(s: string, from: nat): (m: Option<AsinMatch>)
    ensures m.Some? ==> from <= m.value.index && MatchesAt(s, m.value.index, m.value.asin)
    ensures m.Some? ==> forall i :: from <= i < m.value.index ==> NoMatchAt(s, i)
    ensures m.None? ==> forall i :: from <= i ==> NoMatchAt(s, i)
    decreases |s| - from
  {
    CaptureAtCorrect(s, from);
    if from >= |s| then
      assert forall i, a :: from <= i ==> !OccursAt(s, "/dp/" + a, i) && !OccursAt(s, "/gp/product/" + a, i);
      None
    else match CaptureAt(s, from)
      case Some(a) => Some(AsinMatch(from, a))
      case None => FindAsin(s, from + 1)
  }

  /** `asinMatch[1]`, or `None` when `match` gives null. */
  function Asin(finalUrl: string): (a: Option<string>)
    ensures a.Some? ==> IsAsin(a.value)
    ensures a.Some? ==> exists i: nat :: MatchesAt(finalUrl, i, a.value)
    ensures a.None? ==> forall i: nat :: NoMatchAt(finalUrl, i)
  {
    match FindAsin(finalUrl, 0)
    case Some(m) =>
      assert MatchesAt(finalUrl, m.index, m.asin);
      Some(m.asin)
    case None => None
  }

  /** Text after the ten characters does not matter: only ten are captured. */
  lemma {:induction false} AsinAfterDp(asin: string, rest: string)
    requires IsAsin(asin)
    ensures Asin("/dp/" + asin + rest) == Some(asin)
  {
    var s := "/dp/" + asin + rest;
    assert s[0..4] == "/dp/";
    assert s[4..4 + AsinLength] == asin;
    assert CaptureAt(s, 0) == Some(asin);
  }

  /** The leftmost match wins over any later one. */
  lemma {:induction false} AsinIsLeftmost(s: string, i: nat, a: string)
    requires MatchesAt(s, i, a)
    ensures Asin(s).Some?
    ensures (forall j: nat :: j < i ==> NoMatchAt(s, j)) ==> Asin(s) == Some(a)
  {
    var m := FindAsin(s, 0);
    assert !NoMatchAt(s, i);
    assert m.Some?;
    if forall j: nat :: j < i ==> NoMatchAt(s, j) {
      assert !NoMatchAt(s, m.value.index);
      assert m.value.index == i;
      CaptureAtCorrect(s, i);
    }
  }

  // -----------------------------------------------------------------------
  // GET /amazon-product

  /** A product as the scraper reports it; `price` is absent when the
      scraper gives no `price` object. */
  datatype ScrapedProduct = ScrapedProduct(title: string, mainImage: string, price: Option<string>)

  /** The calls the handler makes to the outside, in order. */
  datatype ExternalCall = FollowRedirects(url: string) | ScrapeAsin(asin: string, country: string)

  const Country := "IN"

  /** `req.query.url` is present and not empty. */
  predicate Given(url: Option<string>)
  {
    url.Some? && url.value != ""
  }

  /** The handler. `redirect(u)` is the final URL after following redirects
      (`None` when the request fails); `scrape(asin, country)` is the
      scraper's `result` list (`None` when it throws). */
  method AmazonProduct(url: Option<string>, redirect: string -> Option<string>,
                       scrape: (string, string) -> Option<seq<ScrapedProduct>>)
    returns (resp: Response, calls: seq<ExternalCall>)
    ensures !Given(url) ==> resp == Response(400, ErrorBody(UrlRequired)) && calls == []
    ensures Given(url) ==> |calls| >= 1 && calls[0] == FollowRedirects(url.value)
    ensures Given(url) && redirect(url.value).None? ==>
            resp == Response(500, ErrorBody(ProductFailed)) && calls == [FollowRedirects(url.value)]
    ensures Given(url) && redirect(url.value).Some? && Asin(redirect(url.value).value).None? ==>
            resp == Response(400, ErrorBody(AsinNotFound)) && calls == [FollowRedirects(url.value)]
    ensures Given(url) && redirect(url.value).Some? && Asin(redirect(url.value).value).Some? ==>
            var asin := Asin(redirect(url.value).value).value;
            var result := scrape(asin, Country);
            calls == [FollowRedirects(url.value), ScrapeAsin(asin, Country)] &&
            (resp.status == 200 <==> result.Some? && result.value != [] && result.value[0].price.Some?) &&
            (resp.status == 200 ==>
               resp.body == ProductBody(result.value[0].title, result.value[0].mainImage, result.value[0].price.value)) &&
            (resp.status != 200 ==> resp == Response(500, ErrorBody(ProductFailed)))
  {
    calls := [];
    if !Given(url) {
      return Response(400, ErrorBody(UrlRequired)), calls;
    }
    calls := calls + [FollowRedirects(url.value)];
    var finalUrl := redirect(url.value);
    if finalUrl.None? {
      return Response(500, ErrorBody(ProductFailed)), calls;
    }
    var asinMatch := Asin(finalUrl.value);
    if asinMatch.None? {
      return Response(400, ErrorBody(AsinNotFound)), calls;
    }
    var asin := asinMatch.value;
    calls := calls + [ScrapeAsin(asin, Country)];
    var productResult := scrape(asin, Country);
    if productResult.None? || productResult.value == [] {
      // the scraper threw, or `result[0]` is undefined and reading its title throws
      return Response(500, ErrorBody(ProductFailed)), calls;
    }
    var product := productResult.value[0];
    if product.price.None? {
      return Response(500, ErrorBody(ProductFailed)), calls;
    }
    resp := Response(200, ProductBody(product.title, product.mainImage, product.price.value));
  }

  // -----------------------------------------------------------------------
  // upload limits: upload.array('images', 10) with the configured multer

  const MaxFileSize := 5 * 1024 * 1024
  const MaxFiles := 10
  const ImagesField := "images"

  datatype UploadedFile = UploadedFile(fieldname: string, mimetype: string, buffer: seq<bv8>)

  /** `/jpeg|jpg|png|gif|webp/.test(mimetype)`: any of the five anywhere. */
  predicate IsImageType(mimetype: string)
  {
    || Includes(mimetype, "jpeg") || Includes(mimetype, "jpg") || Includes(mimetype, "png")
    || Includes(mimetype, "gif") || Includes(mimetype, "webp")
  }

  lemma ImageTypeIff(mimetype: string)
    ensures IsImageType(mimetype) <==>
            exists i: nat, t :: t in ["jpeg", "jpg", "png", "gif", "webp"] && OccursAt(mimetype, t, i)
  {
    IncludesIff(mimetype, "jpeg");
    IncludesIff(mimetype, "jpg");
    IncludesIff(mimetype, "png");
    IncludesIff(mimetype, "gif");
    IncludesIff(mimetype, "webp");
  }

  /** Why the upload middleware rejects a request: a file under another
      field or past the tenth, a file that is not an image (the filter's own
      error), or a file over the size limit. */
  datatype UploadError = UnexpectedFile(field: string) | NotAnImage(message: string) | TooLarge(field: string)

  /** The check one file meets, in the middleware's order: count, filter,
      size. `seen` is how many files came before it. */
  function FileError(f: UploadedFile, seen: nat): (e: Option<UploadError>)
    ensures e.None? <==> f.fieldname == ImagesField && seen < MaxFiles && IsImageType(f.mimetype) && |f.buffer| <= MaxFileSize
    ensures f.fieldname != ImagesField || seen >= MaxFiles ==> e == Some(UnexpectedFile(f.fieldname))
    ensures f.fieldname == ImagesField && seen < MaxFiles && !IsImageType(f.mimetype) ==> e == Some(NotAnImage(ImagesOnly))
    ensures f.fieldname == ImagesField && seen < MaxFiles && IsImageType(f.mimetype) && |f.buffer| > MaxFileSize ==>
              e == Some(TooLarge(ImagesField))
  {
    if f.fieldname != ImagesField || seen >= MaxFiles then Some(UnexpectedFile(f.fieldname))
    else if !IsImageType(f.mimetype) then Some(NotAnImage(ImagesOnly))
    else if |f.buffer| > MaxFileSize then Some(TooLarge(f.fieldname))
    else None
  }

  /** The files are read in order and the first failing one ends the request. */
  function UploadCheck(files: seq<UploadedFile>, from: nat): (r: Option<(nat, UploadError)>)
    requires from <= |files|
    ensures r.Some? ==> from <= r.value.0 < |files| && FileError(files[r.value.0], r.value.0) == Some(r.value.1)
    ensures r.Some? ==> forall i :: from <= i < r.value.0 ==> FileError(files[i], i).None?
    ensures r.None? ==> forall i :: from <= i < |files| ==> FileError(files[i], i).None?
    decreases |files| - from
  {
    if from == |files| then None
    else match FileError(files[from], from)
      case Some(e) => Some((from, e))
      case None => UploadCheck(files, from + 1)
  }

  /** A request passes the middleware exactly when it has at most ten files,
      all under `images`, all images and none over 5 MiB. */
  lemma {:induction false} UploadAccepted(files: seq<UploadedFile>)
    ensures UploadCheck(files, 0).None? <==>
            |files| <= MaxFiles &&
            forall i :: 0 <= i < |files| ==>
              files[i].fieldname == ImagesField && IsImageType(files[i].mimetype) && |files[i].buffer| <= MaxFileSize
  {
    if |files| > MaxFiles {
      assert FileError(files[MaxFiles], MaxFiles).Some?;
    }
  }

  // -----------------------------------------------------------------------
  // POST /postcontent

  /** `req.body.links` as the multipart parser leaves it. */
  datatype LinksField = NoLinks | LinksText(text: string) | LinksList(items: seq<string>) | LinksOther

  /** What `JSON.parse` makes of a string. */
  datatype Parsed = ParseError | JsonArray(items: seq<string>) | JsonOther

  /** The links stored with a new post. */
  function NormalizedLinks(links: LinksField, parse: string -> Parsed): (r: seq<string>)
    ensures links.LinksList? ==> r == links.items
    ensures links.LinksText? && links.text != "" && parse(links.text).JsonArray? ==> r == parse(links.text).items
    ensures links.LinksText? && links.text != "" && !parse(links.text).JsonArray? ==> r == [links.text]
    ensures links.NoLinks? || links.LinksOther? || links == LinksText("") ==> r == []
  {
    match links
    case LinksList(items) => items
    case LinksText(text) =>
      if text == "" then []
      else (match parse(text)
        case JsonArray(items) => items
        case _ => [text])
    case _ => []
  }

  /** The form fields of the request. Absent fields are `None`. */
  datatype PostForm = PostForm(
    title: Option<string>,
    content: Option<string>,
    shortDescription: Option<string>,
    links: LinksField,
    currentTime: Option<string>)

  /** The document handed to the database. */
  datatype NewPost = NewPost(
    title: Option<string>,
    content: Option<string>,
    images: seq<string>,
    shortDescription: Option<string>,
    links: seq<string>,
    createdAt: string)

  /** What saving gives: the stored post, or the error's message. */
  datatype SaveResult = Saved(post: Post) | SaveFailed(message: string)

  /** `req.body.currentTime || new Date().toISOString()`. */
  function CreatedAt(currentTime: Option<string>, now: string): (t: string)
    ensures currentTime.Some? && currentTime.value != "" ==> t == currentTime.value
    ensures currentTime.None? || currentTime.value == "" ==> t == now
  {
    if currentTime.Some? && currentTime.value != "" then currentTime.value else now
  }

  /** `Promise.all(req.files.map(file => uploadToImgBB(file.buffer)))`: every
      file is sent, in order, and any failure fails the whole. */
  method UploadAll(files: seq<UploadedFile>, upload: seq<bv8> -> Option<string>) returns (urls: Option<seq<string>>)
    ensures urls.None? <==> exists i :: 0 <= i < |files| && upload(files[i].buffer).None?
    ensures urls.Some? ==> |urls.value| == |files|
    ensures urls.Some? ==> forall i :: 0 <= i < |files| ==> urls.value[i] == upload(files[i].buffer).value
  {
    var imgbbUrls: seq<string> := [];
    var failed := false;
    var i := 0;
    while i < |files|
      invariant 0 <= i <= |files|
      invariant failed <==> exists j :: 0 <= j < i && upload(files[j].buffer).None?
      invariant !failed ==> |imgbbUrls| == i
      invariant !failed ==> forall j :: 0 <= j < i ==> imgbbUrls[j] == upload(files[j].buffer).value
    {
      var url := upload(files[i].buffer);
      if url.None? {
        failed := true;
      } else if !failed {
        imgbbUrls := imgbbUrls + [url.value];
      }
      i := i + 1;
    }
    urls := if failed then None else Some(imgbbUrls);
  }

  /** What the request ends in: rejected by the upload middleware before the
      handler runs, or answered by the handler. */
  datatype Outcome = Rejected(index: nat, error: UploadError) | Answered(response: Response)

  /** `upload.array('images', 10)` followed by the handler. `files` is
      `req.files`: `None` when the request was not multipart (a JSON or
      urlencoded body), which the upload middleware lets through untouched.
      `upload(b)` is the image host's URL for an uploaded buffer (`None` when
      uploading fails), `now` the clock's ISO time, `save` the database.
      Besides the outcome, `doc` is the document handed to `save`, if it got
      that far. */
  method PostContent(form: PostForm, files: Option<seq<UploadedFile>>, parse: string -> Parsed,
                     upload: seq<bv8> -> Option<string>, now: string, save: NewPost -> SaveResult)
    returns (outcome: Outcome, doc: Option<NewPost>)
    ensures files.None? ==> outcome == Answered(Response(400, MessageBody(FilesUndefined))) && doc.None?
    ensures files.Some? && UploadCheck(files.value, 0).Some? ==>
            outcome == Rejected(UploadCheck(files.value, 0).value.0, UploadCheck(files.value, 0).value.1) && doc.None?
    ensures files.Some? && UploadCheck(files.value, 0).None? &&
            (exists i :: 0 <= i < |files.value| && upload(files.value[i].buffer).None?) ==>
            outcome == Answered(Response(400, MessageBody(UploadFailed))) && doc.None?
    ensures doc.Some? <==>
            && files.Some? && UploadCheck(files.value, 0).None?
            && forall i :: 0 <= i < |files.value| ==> upload(files.value[i].buffer).Some?
    ensures doc.Some? ==>
            && files.Some?
            && |doc.value.images| == |files.value|
            && (forall i :: 0 <= i < |files.value| ==> doc.value.images[i] == upload(files.value[i].buffer).value)
            && doc.value.links == NormalizedLinks(form.links, parse)
            && doc.value.createdAt == CreatedAt(form.currentTime, now)
            && doc.value.title == form.title && doc.value.content == form.content
            && doc.value.shortDescription == form.shortDescription
            && outcome == Answered(match save(doc.value)
                                   case Saved(p) => Response(201, PostBody(p))
                                   case SaveFailed(m) => Response(400, MessageBody(m)))
  {
    if files.Some? {
      var rejected := UploadCheck(files.value, 0);
      if rejected.Some? {
        return Rejected(rejected.value.0, rejected.value.1), None;
      }
    }
    var currentTime := CreatedAt(form.currentTime, now);

    var processedLinks: seq<string> := [];
    match form.links {
      case LinksList(items) =>
        processedLinks := items;
      case LinksText(text) =>
        if text != "" {
          match parse(text) {
            case JsonArray(items) => processedLinks := items;
            case _ => processedLinks := [text];
          }
        }
      case _ =>
    }

    if files.None? {
      // `req.files.map` throws, and the handler's catch answers 400
      return Answered(Response(400, MessageBody(FilesUndefined))), None;
    }
    var imgbbUrls := UploadAll(files.value, upload);
    if imgbbUrls.None? {
      return Answered(Response(400, MessageBody(UploadFailed))), None;
    }

    var newPost := NewPost(form.title, form.content, imgbbUrls.value, form.shortDescription, processedLinks, currentTime);
    doc := Some(newPost);
    match save(newPost) {
      case Saved(p) => outcome := Answered(Response(201, PostBody(p)));
      case SaveFailed(m) => outcome := Answered(Response(400, MessageBody(m)));
    }
  }
}
