# AstralBlogs: a verified model of the blog's content and product-link logic

AstralBlogs is a small blog: an Express API stores posts (title, body, images
uploaded to an image host, product links) and a React client lists them and
shows each one. This project models, in Dafny, the parts of it that carry
logic of their own and proves what they promise:

- **The post page's body composer** (`renderContent`): the body is cut into
  sentences on `.`, trimmed, and empty pieces are dropped. The sentences are
  grouped four to a paragraph (`chunk.join('. ') + '.'`). After each
  paragraph a random draw may insert an image block. The block takes the
  next unused content image (`images[1..]`; the first image is the
  thumbnail) and up to five of the next links. Links no block took become
  the leftover links shown after the body. The loop is modelled as an
  imperative method (`BlogPostPage.RenderContent`), proved equal to a
  specification (`BlogPostPage.RenderSpec`). The lemmas about that
  specification cover:
  - links are conserved, in order;
  - images are used in order, each at most once;
  - every block holds at most five links;
  - sentences and paragraphs survive a round trip;
  - a post with no content image gets no block.
- **Reading time** on the post page (225 words per minute) and on the post
  card (200 words per minute): `Math.ceil` of the whitespace-separated
  token count of the trimmed text.
- **The post card** (`BlogCard`): zero reading time exactly for an empty
  body, the thumbnail fallback, and the `/post/<id>` link.
- **The product-link card** (`LinkCard`): the module-level product cache,
  the mount-time fetch that only looks up links containing `amzn` and
  caches only successes, the domain shown on the card (`www.` removed once),
  and the choice between the rich product card and the plain link card.
- **The API routes** (`PostsRoute`):
  - `GET /amazon-product`: it follows redirects, extracts the ASIN (Amazon's
    ten-character product id) with
    `/\/(?:dp|gp\/product)\/([A-Z0-9]{10})/`, calls the scraper, and maps
    each outcome to a status code;
  - `POST /postcontent`: the upload limits and MIME filter, the `links`
    normalisation, the `createdAt` fallback, and the order-preserving
    upload of the images.

`Math.random()`, the network, the URL parser, `JSON.parse`, the image host,
the scraper and the database are parameters: `draws: nat -> bool` gives the
outcome of the draw after paragraph `k`. The fetch, the redirect lookup,
the scraper and the image host are functions returning `Option` values
(`None` when the call throws). `JSON.parse` is a function returning
`Parsed` (an array, another value, or a parse error), and the database
save is a function returning `SaveResult` (the stored post, or the
failure's message).

Two behaviours a reader might expect but the code does not have:
- A cache that also kept failed and skipped lookups would stop a later card
  from asking again. This code writes the cache only after a successful
  fetch (src/components/LinkCard.tsx:38-44). A failed lookup is therefore
  retried by the next card for the same link (`LinkCard.FailureIsRetried`).
- Sentences end only at `.` (src/pages/BlogPostPage.tsx:60): `!` and `?`
  do not end a sentence.

Files: `common.dfy` (Option, flattening), `js_text.dfy` (the JavaScript
string operations used: `includes`, `indexOf`, `replace`, `trim`,
`split('.')`, `split(/\s+/)`, `join`, `toUpperCase`), `reading_time.dfy`,
`posts_model.dfy` (the Post record), `blog_post_page.dfy`, `blog_card.dfy`,
`link_card.dfy`, `posts_route.dfy`.

## Model

| member | source | states |
|---|---|---|
| JsText.IndexOfFrom | src/components/LinkCard.tsx:26 | `indexOf` gives the leftmost occurrence at or after the start; when it gives none, the pattern occurs nowhere after the start |
| JsText.IncludesIff | src/components/LinkCard.tsx:26 | `includes` holds exactly when the pattern occurs at some position |
| JsText.ReplaceFirst | src/components/LinkCard.tsx:55 | `replace` with a string pattern leaves text without the pattern unchanged; otherwise the result's length changes by the replacement's length minus the pattern's |
| JsText.ReplaceFirstUndo | src/components/LinkCard.tsx:55 | removing the first occurrence is undone by re-inserting the pattern at its index, and the text before that index does not contain the pattern |
| JsText.TrimStart | src/pages/BlogPostPage.tsx:60 | the result is a suffix of the input, starts with a non-space, and everything dropped is whitespace |
| JsText.TrimEnd | src/pages/BlogPostPage.tsx:60 | the result is a prefix of the input, ends with a non-space, and everything dropped is whitespace |
| JsText.Trim | src/pages/BlogPostPage.tsx:60 | `trim()` neither starts nor ends with whitespace |
| JsText.TrimIsInfix | src/pages/BlogPostPage.tsx:60 | `trim()` is a slice of its input with nothing but whitespace before and after it; with `Trim`'s own contract this pins the result exactly |
| JsText.TrimAround | src/pages/BlogPostPage.tsx:60 | what is left after dropping whitespace from the front and then from the back is surrounded by whitespace only |
| JsText.TrimOfTrimmed | src/pages/BlogPostPage.tsx:60 | trimming text that has no surrounding whitespace changes nothing |
| JsText.TrimAfterBlank | src/pages/BlogPostPage.tsx:60 | the blank left after a `. ` separator is trimmed away again |
| JsText.JoinWith | src/pages/BlogPostPage.tsx:71 | no contract; `join`, characterised by `JsText.SplitOn` (splitting and re-joining gives the text back), `JsText.SplitWsJoin` and `JsText.JoinFirstWord` |
| JsText.SplitOn | src/pages/BlogPostPage.tsx:60 | `split('.')` gives at least one piece, no piece contains the separator, and joining the pieces with it gives the input back |
| JsText.SplitOnPlain | src/pages/BlogPostPage.tsx:60 | text without the separator splits into itself alone |
| JsText.SplitOnFirst | src/pages/BlogPostPage.tsx:60 | the first separator ends the first piece; the rest splits independently |
| JsText.SplitWs | src/pages/BlogPostPage.tsx:17 | `split(/\s+/)` gives at least one token and no token contains whitespace |
| JsText.SplitWsRebuild | src/pages/BlogPostPage.tsx:17 | the tokens, put back together with non-empty runs of whitespace between them, give the text back, and only the first and last token can be empty; with `SplitWs`'s contract this fixes the tokens exactly |
| JsText.SplitWsInner | src/pages/BlogPostPage.tsx:17 | every token but the first and the last is non-empty |
| JsText.SplitWsSeps | src/pages/BlogPostPage.tsx:17 | the runs of whitespace the text is cut at are non-empty, all whitespace, and rebuild the text with the tokens |
| JsText.SplitWsCount | src/pages/BlogPostPage.tsx:17 | there is one token per word, plus an empty token for leading whitespace and one for trailing whitespace (or for the empty text) |
| JsText.WordStartsTrimStart | src/pages/BlogPostPage.tsx:17 | dropping leading whitespace keeps every word |
| JsText.WordStartsTrim | src/pages/BlogPostPage.tsx:17 | `trim()` keeps every word |
| JsText.CountWordStarts | src/pages/BlogPostPage.tsx:17 | no contract; the number of words, counted as non-whitespace characters that start the text or follow whitespace, independently of `split`; tied to it by `JsText.SplitWsCount` |
| JsText.SplitWsWord | src/pages/BlogPostPage.tsx:17 | a word without whitespace is glued onto the first token of what follows |
| JsText.SplitWsJoin | src/pages/BlogPostPage.tsx:17 | non-empty words joined by single blanks split back into exactly those words |
| JsText.SplitWsAfterBlank | src/pages/BlogPostPage.tsx:17 | a blank before a word starts a new token |
| JsText.JoinFirstWord | src/pages/BlogPostPage.tsx:71 | a join whose first word is non-empty starts with that word's first character |
| JsText.UpperChar | src/components/LinkCard.tsx:123 | lower-case ASCII letters map to their capitals; every other character is kept |
| ReadingTime.WordCount | src/pages/BlogPostPage.tsx:17 | the token count of the trimmed text is never 0 |
| ReadingTime.WordCountIsWords | src/pages/BlogPostPage.tsx:17 | the token count of the trimmed text is the number of words in the text, except that a text without words counts as 1 |
| ReadingTime.TokensOfTrimmed | src/pages/BlogPostPage.tsx:17 | text without surrounding whitespace splits into one token per word, or a single token when there is no word |
| ReadingTime.CeilDiv | src/pages/BlogPostPage.tsx:18 | no contract; characterised by `CeilDivIsLeast` |
| ReadingTime.CeilDivIsLeast | src/pages/BlogPostPage.tsx:18 | `Math.ceil(n / d)` is the least `q` with `n <= q * d` |
| ReadingTime.CeilDivPositive | src/pages/BlogPostPage.tsx:18 | a positive count never rounds up to 0 minutes |
| ReadingTime.CeilDivMonotone | src/components/BlogCard.tsx:16 | the rounded-up quotient never decreases as the count grows |
| ReadingTime.Minutes | src/components/BlogCard.tsx:13-17 | the minutes are at least 1 and are the least whole number covering the word count at the given speed |
| ReadingTime.MinutesMonotone | src/components/BlogCard.tsx:16 | more words never give fewer minutes |
| ReadingTime.WordCountOfWords | src/pages/BlogPostPage.tsx:17 | `n` non-empty words separated by single blanks count as exactly `n` words |
| ReadingTime.WordCountOfTrimmed | src/pages/BlogPostPage.tsx:17 | for text without surrounding whitespace the count is its own token count |
| ReadingTime.JoinedIsTrimmed | src/pages/BlogPostPage.tsx:17 | words joined by blanks neither start nor end with whitespace |
| BlogCard.CardReadingTime | src/components/BlogCard.tsx:26 | the card's reading time is 0 exactly when the body is empty, and otherwise the minutes at 200 words per minute |
| BlogCard.ShowsReadingTime | src/components/BlogCard.tsx:50 | no contract; the label is shown when the reading time is positive, which `BlogCard.CardReadingTime` ties to a non-empty body |
| BlogCard.CardReadingTimeMonotone | src/components/BlogCard.tsx:13-17 | a body with more words never shows a shorter reading time |
| BlogCard.Thumbnail | src/components/BlogCard.tsx:38 | the thumbnail is the first image when it exists and is non-empty, otherwise the fixed default; never empty |
| BlogCard.PostPath | src/components/BlogCard.tsx:34 | the link is `/post/` followed by the id, and the id is recovered from it |
| BlogPostPage.EstimateReadingTime | src/pages/BlogPostPage.tsx:16-19 | the page's estimate is at least 1 and is the least whole number of minutes covering the words at 225 per minute |
| BlogPostPage.KeepSentences | src/pages/BlogPostPage.tsx:60 | trimming and dropping empty pieces never yields more sentences than pieces |
| BlogPostPage.KeptAreSentences | src/pages/BlogPostPage.tsx:60 | pieces without `.` yield sentences that are trimmed, non-empty and free of `.` |
| BlogPostPage.KeepSentencesAppend | src/pages/BlogPostPage.tsx:60 | trimming and filtering works piece by piece, so it distributes over concatenation |
| BlogPostPage.Sentences | src/pages/BlogPostPage.tsx:60 | every sentence of the body is trimmed, non-empty and contains no `.` |
| BlogPostPage.KeepSentencesSingle | src/pages/BlogPostPage.tsx:60 | one piece survives as its trimmed text exactly when that is not empty |
| BlogPostPage.SentencesOfPiece | src/pages/BlogPostPage.tsx:60 | a body without `.` gives its trimmed text as its one sentence, or none when it is blank |
| BlogPostPage.SentencesCut | src/pages/BlogPostPage.tsx:60 | the sentences of `a.b`, where `a` has no `.`, are those of `a` followed by those of `b`; with `SentencesOfPiece` this fixes the sentences of every body: the trimmed non-blank pieces between the dots, in order |
| BlogPostPage.ParagraphText | src/pages/BlogPostPage.tsx:71 | a paragraph is never empty and ends with `.` |
| BlogPostPage.Chunks | src/pages/BlogPostPage.tsx:69-70 | no contract; the groups of four, characterised by `BlogPostPage.ChunksShape` and `BlogPostPage.ChunkAt` |
| BlogPostPage.Paragraphs | src/pages/BlogPostPage.tsx:69-71 | no contract; the rendered paragraphs, characterised by `BlogPostPage.ParagraphsAreChunks` and `BlogPostPage.ParagraphAt` |
| BlogPostPage.ChunksShape | src/pages/BlogPostPage.tsx:69-70 | the groups concatenate back to the sentences; there are ceil(n/4) of them; each holds 1 to 4 sentences, and all but the last hold exactly 4 |
| BlogPostPage.ParagraphsAreChunks | src/pages/BlogPostPage.tsx:69-71 | there is one paragraph per group, and paragraph `k` is the text of group `k` |
| BlogPostPage.ParagraphTextShape | src/pages/BlogPostPage.tsx:71 | a paragraph is its first sentence, `.`, then ` s.` for each further sentence |
| BlogPostPage.TailTextSentences | src/pages/BlogPostPage.tsx:60-71 | splitting ` s1. s2. …` on `.` and trimming gives back the sentences |
| BlogPostPage.ParagraphSentences | src/pages/BlogPostPage.tsx:60-71 | splitting a rendered paragraph into sentences gives back exactly its sentences |
| BlogPostPage.NextLinks | src/pages/BlogPostPage.tsx:85-88 | a block's links are a contiguous run of the next links: at most 5, and fewer only when the links run out |
| BlogPostPage.Place | src/pages/BlogPostPage.tsx:71-112 | no contract; one loop iteration, characterised by `BlogPostPage.PlaceInserts`, `BlogPostPage.PlaceLinks`, `BlogPostPage.PlaceImages` and `BlogPostPage.PlaceTexts` |
| BlogPostPage.PlaceInserts | src/pages/BlogPostPage.tsx:71-112 | one iteration appends its paragraph, then an image block exactly when the draw succeeds and an unused image remains; only then does the image cursor move, by one |
| BlogPostPage.CountDraws | src/pages/BlogPostPage.tsx:79 | no contract; how many of the first `n` draws succeed, used by `BlogPostPage.BlocksAreSuccessfulDraws` |
| BlogPostPage.BlocksAreSuccessfulDraws | src/pages/BlogPostPage.tsx:66-112 | after the loop the image cursor is the number of successful draws, capped by the number of content images |
| BlogPostPage.LayoutOf | src/pages/BlogPostPage.tsx:65-113 | both cursors stay within their lists, whatever the draws |
| BlogPostPage.PlaceLinks | src/pages/BlogPostPage.tsx:85-88 | one iteration keeps the blocks' links equal to the links before the link cursor |
| BlogPostPage.PlaceImages | src/pages/BlogPostPage.tsx:79-111 | one iteration keeps the blocks' images equal to the images before the image cursor, which moves by at most one |
| BlogPostPage.PlaceTexts | src/pages/BlogPostPage.tsx:73-77 | one iteration appends exactly its paragraph to the paragraph texts |
| BlogPostPage.LayoutLinks | src/pages/BlogPostPage.tsx:85-88 | after any number of paragraphs, the blocks' links together are exactly the links before the link cursor |
| BlogPostPage.LayoutImages | src/pages/BlogPostPage.tsx:61-111 | the blocks show the content images in order, each once, and there are no more blocks than paragraphs |
| BlogPostPage.LayoutParagraphs | src/pages/BlogPostPage.tsx:69-77 | every paragraph is emitted, in order, whatever the draws |
| BlogPostPage.LayoutBlocks | src/pages/BlogPostPage.tsx:79-109 | every block has at most 5 links, and fewer only when the links up to and including that block are all the links, so no later block has any; every block directly follows a paragraph |
| BlogPostPage.LayoutWithoutImages | src/pages/BlogPostPage.tsx:79 | with no content image, no block is produced and the link cursor never moves |
| BlogPostPage.ContentImages | src/pages/BlogPostPage.tsx:61 | the content images are all the images but the first (none when there are none) |
| BlogPostPage.RenderSpec | src/pages/BlogPostPage.tsx:57-117 | no contract; what `renderContent` returns, characterised by `BlogPostPage.RenderWithoutContent`, `BlogPostPage.ImageBlocksFollowDraws`, `BlogPostPage.LinksConserved`, `BlogPostPage.ImagesUsedInOrder`, `BlogPostPage.ParagraphsInOrder` and `BlogPostPage.NoContentImagesAllLeftover`, and matched by `BlogPostPage.RenderContent` |
| BlogPostPage.RenderWithoutContent | src/pages/BlogPostPage.tsx:58 | with no post or an empty body there is no content and no leftover link |
| BlogPostPage.LinksConserved | src/pages/BlogPostPage.tsx:85-115 | the blocks' links followed by the leftovers are exactly the post's links, for every outcome of the draws |
| BlogPostPage.LayoutConservesLinks | src/pages/BlogPostPage.tsx:85-115 | the blocks' links followed by the links after the cursor are the whole link list |
| BlogPostPage.ImageBlocksFollowDraws | src/pages/BlogPostPage.tsx:57-117 | the page has one image block per successful draw after a paragraph, until the content images run out: as many blocks as the smaller of the successful draws and the content images |
| BlogPostPage.ImagesUsedInOrder | src/pages/BlogPostPage.tsx:61-111 | the blocks show a prefix of `images[1..]`, with no more blocks than paragraphs or content images |
| BlogPostPage.ChunkAt | src/pages/BlogPostPage.tsx:69-70 | group `k` is the sentences from `4k` to `4k+3` (clipped at the end) |
| BlogPostPage.ParagraphsResplit | src/pages/BlogPostPage.tsx:60-71 | re-splitting each paragraph gives back its group of sentences |
| BlogPostPage.ParagraphsInOrder | src/pages/BlogPostPage.tsx:60-77 | the rendered paragraphs are ceil(n/4) in number, and each re-splits into its group of four (or, last, fewer) sentences, in order |
| BlogPostPage.NoContentImagesAllLeftover | src/pages/BlogPostPage.tsx:61-115 | with at most one image, no block appears and every link is a leftover |
| BlogPostPage.ParagraphExists | src/pages/BlogPostPage.tsx:69 | the loop runs for paragraph `k` exactly when sentence `4k` exists |
| BlogPostPage.ParagraphAt | src/pages/BlogPostPage.tsx:69-71 | paragraph `k` is the text of `sentences.slice(4k, 4k + 4)` |
| BlogPostPage.LayoutStep | src/pages/BlogPostPage.tsx:69-113 | placing one more paragraph extends the layout by one iteration |
| BlogPostPage.TakeLinks | src/pages/BlogPostPage.tsx:83-88 | the inner loop takes exactly the block's run of next links and advances the cursor past them |
| BlogPostPage.EmitParagraph | src/pages/BlogPostPage.tsx:71-112 | one pass of the loop body pushes the paragraph, then an image block when the draw succeeds and an image remains |
| BlogPostPage.RenderContent | src/pages/BlogPostPage.tsx:57-117 | the loop's output and leftovers are exactly the specification's, for every post and every outcome of the draws |
| LinkCard.ProductCache.constructor | src/components/LinkCard.tsx:17-18 | the cache starts empty |
| LinkCard.IsShortAmazonLink | src/components/LinkCard.tsx:26 | no contract; the fetch gate `url.includes('amzn')`, characterised by `JsText.IncludesIff` and `LinkCard.NonAmazonUntouched` |
| LinkCard.Fetch | src/components/LinkCard.tsx:24-47 | a request happens exactly for an `amzn` link not in the cache; the cache only gains the entry for `url` and never changes or loses others; after the call a cached `amzn` link shows its cached product; the product info changes only in that case |
| LinkCard.NonAmazonUntouched | src/components/LinkCard.tsx:26-29 | a link without `amzn` causes no lookup and no request, and changes neither the product info nor the cache |
| LinkCard.CacheHit | src/components/LinkCard.tsx:32-36 | a cached link shows the cached product, without a request and without touching the cache |
| LinkCard.CacheWrittenOnSuccess | src/components/LinkCard.tsx:38-44 | the cache changes exactly when a request was made and succeeded, and then only by storing the response under `url` |
| LinkCard.FailureIsRetried | src/components/LinkCard.tsx:38-44 | after a failed request, the next card for the same link requests again |
| LinkCard.SuccessIsRemembered | src/components/LinkCard.tsx:32-41 | after a successful request, a later card for the same link gets the same product from the cache, without a request |
| LinkCard.Card.constructor | src/components/LinkCard.tsx:21-22 | a new card has no product info and is loading |
| LinkCard.Card.FetchProductInfo | src/components/LinkCard.tsx:25-47 | loading ends on every path; the request made, the product info and the cache afterwards are those `LinkCard.Fetch` describes |
| LinkCard.Domain | src/components/LinkCard.tsx:52-58 | the domain is the raw link when parsing fails, the host when it has no `www.`, and otherwise the host four characters shorter |
| LinkCard.DomainDropsLeadingWww | src/components/LinkCard.tsx:55 | a host starting with `www.` is shown without it |
| LinkCard.DomainOnlyFirstWww | src/components/LinkCard.tsx:55 | only the first `www.` is removed: putting it back where it was gives the host again |
| LinkCard.Initial | src/components/LinkCard.tsx:123 | the badge is empty for an empty domain and otherwise the domain's first character upper-cased |
| LinkCard.IsAmazon | src/components/LinkCard.tsx:60 | no contract; `isAmazon`, the rich-card gate, used by `LinkCard.ViewChoice` |
| LinkCard.View | src/components/LinkCard.tsx:62-132 | no contract; the card rendered, characterised by `LinkCard.ViewChoice` |
| LinkCard.ViewChoice | src/components/LinkCard.tsx:60-132 | the skeleton shows exactly while loading; the rich card exactly when not loading, the domain contains `amazon` or `amzn`, and product info is present; otherwise the plain card with the domain and its initial |
| LinkCard.NonShortLinkRendersPlain | src/components/LinkCard.tsx:26-111 | a freshly mounted card for a link without `amzn` ends up plain, even for an Amazon domain |
| PostsRoute.CaptureAtCorrect | server/routes/posts.js:57 | the position-wise capture agrees with the pattern: it is a match, and any match at that position is it |
| PostsRoute.FindAsin | server/routes/posts.js:57 | `match` finds the leftmost position where `/dp/` or `/gp/product/` is followed by ten of [A-Z0-9], or reports that there is none |
| PostsRoute.Asin | server/routes/posts.js:57-61 | an extracted ASIN is ten characters from [A-Z0-9] matched in the final URL; none is extracted only when nothing matches |
| PostsRoute.AsinAfterDp | server/routes/posts.js:57-61 | after `/dp/` exactly ten characters are captured, whatever follows |
| PostsRoute.AsinIsLeftmost | server/routes/posts.js:57-61 | any match means an ASIN is found, and the earliest match is the one captured |
| PostsRoute.Given | server/routes/posts.js:44-46 | no contract; `!url` is false, that is, the query parameter is present and non-empty; used by `PostsRoute.AmazonProduct` |
| PostsRoute.CaptureAt | server/routes/posts.js:57 | no contract; the ASIN the pattern captures at one position, characterised by `PostsRoute.CaptureAtCorrect` |
| PostsRoute.AmazonProduct | server/routes/posts.js:42-77 | a missing or empty url gives 400 `URL is required` with no outside call; a failed redirect gives 500; no ASIN gives 400 `ASIN not found in URL` and no scraper call; otherwise the scraper is called once with the ASIN and `IN`; the answer is 200 with the first result's title, main image and current price exactly when that result and its price exist, else 500 `Failed to fetch product information` |
| PostsRoute.IsImageType | server/routes/posts.js:17-18 | no contract; the MIME filter, characterised by `PostsRoute.ImageTypeIff` |
| PostsRoute.ImageTypeIff | server/routes/posts.js:17-18 | the MIME filter accepts exactly the types that contain one of `jpeg`, `jpg`, `png`, `gif`, `webp` |
| PostsRoute.FileError | server/routes/posts.js:13-26 | a file passes exactly when it is under `images`, among the first ten, an image type, and at most 5·1024·1024 bytes; a file under another field or past the tenth is an unexpected file of its field, a non-image is rejected with `Error: Images Only!`, and an image over the limit is too large |
| PostsRoute.UploadCheck | server/routes/posts.js:13-26 | the request is rejected at the first failing file, with that file's error, and every earlier file passed |
| PostsRoute.UploadAccepted | server/routes/posts.js:13-26 | the uploads pass exactly when there are at most ten, all under `images`, all images, none over 5 MiB |
| PostsRoute.NormalizedLinks | server/routes/posts.js:128-140 | a list is kept; a string parsing to a JSON array gives that array; any other non-empty string gives `[string]`; an absent, empty or other value gives `[]` |
| PostsRoute.CreatedAt | server/routes/posts.js:125 | the client's `currentTime` is used when present and non-empty, otherwise the current time |
| PostsRoute.UploadAll | server/routes/posts.js:143-145 | the uploads fail exactly when some file's upload fails; otherwise `urls[i]` is the upload URL of file `i`, for every `i` |
| PostsRoute.PostContent | server/routes/posts.js:122-161 | a request that is not multipart has no `req.files`, so `req.files.map` throws and the answer is 400 with the `TypeError`'s message, nothing saved; a rejected upload stops the request before the handler; a failed image upload gives 400 `Failed to upload image to ImgBB` and nothing is saved; otherwise the saved document has the images in file order, the normalised links and the `createdAt` fallback, and the answer is 201 with the saved post or 400 with the save error's message |

## Left out

- `Math.random() < 0.4` (src/pages/BlogPostPage.tsx:79) is the oracle `draws`. The properties hold for every outcome of the draws; the probability itself is not modelled.
- PostsRoute.AmazonProduct and PostsRoute.PostContent: the redirect follower, the scraper and the image host are functions that always answer. The code sets no timeout, so a call that never settles would leave the request hanging. That case is not modelled.
- PostsRoute.PostContent: the 400 message for a request that is not multipart is Node.js's `TypeError` text for reading `map` of `undefined`. Other engines word it differently.
- The network and other outside code are parameters: the client's request to the local API, the redirect follower, the scraper, the image host and `JSON.parse`. So are the WHATWG URL parser (`Some(hostname)` or `None` when it throws), the clock and the database save (which also covers mongoose validation, `trim` on fields and the `Date` cast of `createdAt`).
- Concurrency is modelled sequentially: `Promise.all` over the uploads, and several cards sharing the product cache. Every upload is sent, and any failure gives the same message whichever one fails first.
- JavaScript strings are UTF-16; the model uses sequences of Unicode scalar values. `charAt(0)` on a character outside the Basic Multilingual Plane is not modelled.
- JsText.UpperChar: only ASCII letters are upper-cased. `toUpperCase` also maps other scripts and can lengthen a string (`ß` becomes `SS`).
- ReadingTime.CeilDiv: the ceiling is exact integer arithmetic. JavaScript divides in floating point first; the two agree for word counts below 2^53.
- Absent post fields: a missing and an empty body are both the empty string. `post.links || []` is covered because a missing list is the empty sequence. A missing `images` array (which would throw) is not modelled.
- PostsRoute.UploadCheck: multer's own error objects for an unexpected or eleventh file and for an oversized file are named by kind only. Their messages, and the status Express's default error handler sends for them, are not modelled. Only the image filter's `Error: Images Only!` message comes from this code.
- PostsRoute.AmazonProduct: a repeated `url` query parameter (which Express turns into an array) is not modelled. Neither is a scraper result whose `title`, `main_image` or `current_price` is missing but does not throw: the field just disappears from the JSON.
- PostsRoute.NormalizedLinks: elements of a parsed JSON array are taken to be strings. Other JSON values are cast by the database layer, which is not modelled.
- LinkCard.Fetch: a response body that is falsy would fail the cache's truthiness test. It is not modelled, because the API answers 200 only with an object.
- LinkCard: the `index` prop and the animation delay are left out. So are the image `onError` fallback to a placeholder (a browser event) and state updates after the card has unmounted.
- UI and browser code: JSX markup, framer-motion, the footer scroll handler, `formatDate`/`toLocaleDateString`, the star background, search bar, home page, grid and routing. The "Product Links" heading inside a block (shown when the block has links) and the rendering of leftover links as cards are also markup only.
- The other routes (`/posts`, `/posts/:id`, `/posts/search`), their Mongo queries and their registration order; server start-up and the client's API wrappers.
