/**
 * The post page's body composer (`renderContent`) and its reading-time
 * estimate. The body is cut into sentences on '.', the sentences are grouped
 * four to a paragraph, and after each paragraph a random draw may insert an
 * image block that takes the next unused content image and up to five of
 * the next links. Links no block took are rendered after the body.
 *
 * `Math.random() < 0.4` is modelled by the oracle `draws`: `draws(k)` is the
 * outcome of the draw made after the k-th paragraph (counting from 0).
 */
module BlogPostPage {
  import opened Common
  import opened JsText
  import opened Posts
  import ReadingTime

  const ParagraphSize: nat := 4
  const LinksPerImage: nat := 5
  const WordsPerMinute: nat := 225

  // -----------------------------------------------------------------------
  // Reading time

  /** `estimateReadingTime(text)` with its default of 225 words per minute:
      the least whole number of minutes covering the words of the text. */
  function EstimateReadingTime(text: string): (m: nat)
    ensures m >= 1
    ensures ReadingTime.IsCeilQuotient(m, ReadingTime.WordCount(text), WordsPerMinute)
  {
    ReadingTime.Minutes(text, WordsPerMinute)
  }

  // -----------------------------------------------------------------------
  // Sentences and paragraphs

  /** What survives of a piece of the body: trimmed, non-empty, no '.'. */
  predicate IsSentence(s: string)
  {
    s != "" && IsTrimmed(s) && '.' !in s
  }

  /** `.map(s => s.trim()).filter(Boolean)`. */
  function KeepSentences(pieces: seq<string>): (r: seq<string>)
    ensures |r| <= |pieces|
  {
    if pieces == [] then []
    else
      var t := Trim(pieces[0]);
      if t == "" then KeepSentences(pieces[1..]) else [t] + KeepSentences(pieces[1..])
  }

  lemma {:induction false} KeptAreSentences(pieces: seq<string>)
    requires forall j :: 0 <= j < |pieces| ==> '.' !in pieces[j]
    ensures forall k :: 0 <= k < |KeepSentences(pieces)| ==> IsSentence(KeepSentences(pieces)[k])
    decreases |pieces|
  {
    if pieces != [] {
      assert forall j :: 0 <= j < |pieces[1..]| ==> '.' !in pieces[1..][j];
      KeptAreSentences(pieces[1..]);
      var t := Trim(pieces[0]);
      assert '.' !in t;
    }
  }

  lemma {:induction false} KeepSentencesAppend(a: seq<string>, b: seq<string>)
    ensures KeepSentences(a + b) == KeepSentences(a) + KeepSentences(b)
    decreases |a|
  {
    if a == [] {
      assert a + b == b;
    } else {
      assert (a + b)[0] == a[0];
      assert (a + b)[1..] == a[1..] + b;
      KeepSentencesAppend(a[1..], b);
    }
  }

  /** `post.content.split('.').map(s => s.trim()).filter(Boolean)`: every
      sentence is trimmed, non-empty and free of '.'. */
  function Sentences(content: string): (r: seq<string>)
    ensures forall k :: 0 <= k < |r| ==> IsSentence(r[k])
  {
    KeptAreSentences(SplitOn(content, '.'));
    KeepSentences(SplitOn(content, '.'))
  }

  /** One piece survives as its trimmed text, unless that is empty. */
  lemma KeepSentencesSingle(piece: string)
    ensures KeepSentences([piece]) == if Trim(piece) == "" then [] else [Trim(piece)]
  {
    assert [piece][1..] == [];
  }

  /** A body without '.' is one piece: its trimmed text, unless blank. */
  lemma SentencesOfPiece(a: string)
    requires '.' !in a
    ensures Sentences(a) == if Trim(a) == "" then [] else [Trim(a)]
  {
    SplitOnPlain(a, '.');
    KeepSentencesSingle(a);
  }

  /** The first '.' ends the first piece: the sentences of `a + "." + b`
      are those of `a` followed by those of `b`. With `SentencesOfPiece`
      this fixes `Sentences` on every body, by the number of '.' in it. */
  lemma SentencesCut(a: string, b: string)
    requires '.' !in a
    ensures Sentences(a + "." + b) == Sentences(a) + Sentences(b)
  {
    SplitOnFirst(a, '.', b);
    SplitOnPlain(a, '.');
    KeepSentencesAppend([a], SplitOn(b, '.'));
  }

  /** The body of one paragraph: `chunk.join('. ') + '.'`. */
  function ParagraphText(chunk: seq<string>): (p: string)
    ensures p != "" && p[|p| - 1] == '.'
  {
    JoinWith(chunk, ". ") + "."
  }

  /** The sentences in consecutive groups of four. */
  function Chunks(s: seq<string>): seq<seq<string>>
    decreases |s|
  {
    if s == [] then []
    else
      var n := Min(ParagraphSize, |s|);
      [s[..n]] + Chunks(s[n..])
  }

  /** Only the last group may be shorter than four, there are
      ceil(|s| / 4) groups, and no sentence is lost, duplicated or
      reordered. */
  lemma {:induction false} ChunksShape(s: seq<string>)
    ensures var r := Chunks(s);
            && Flatten(r) == s
            && |r| == (|s| + ParagraphSize - 1) / ParagraphSize
            && (forall k :: 0 <= k < |r| ==> 1 <= |r[k]| <= ParagraphSize)
            && (forall k :: 0 <= k < |r| - 1 ==> |r[k]| == ParagraphSize)
    decreases |s|
  {
    if s != [] {
      var n := Min(ParagraphSize, |s|);
      ChunksShape(s[n..]);
      var r := Chunks(s);
      assert r[1..] == Chunks(s[n..]);
      assert s[..n] + s[n..] == s;
    }
  }

  /** The paragraph texts, one per group of four sentences, in order. */
  function Paragraphs(s: seq<string>): seq<string>
    decreases |s|
  {
    if s == [] then []
    else
      var n := Min(ParagraphSize, |s|);
      [ParagraphText(s[..n])] + Paragraphs(s[n..])
  }

  /** The k-th paragraph is the text of the k-th chunk. */
  lemma {:induction false} ParagraphsAreChunks(s: seq<string>)
    ensures |Paragraphs(s)| == |Chunks(s)|
    ensures forall k :: 0 <= k < |Paragraphs(s)| ==> Paragraphs(s)[k] == ParagraphText(Chunks(s)[k])
    decreases |s|
  {
    if s != [] {
      ParagraphsAreChunks(s[Min(ParagraphSize, |s|)..]);
    }
  }

  /** The text that follows the first sentence of a paragraph:
      " s1." + " s2." + ... */
  function TailText(c: seq<string>): string
  {
    if c == [] then "" else " " + c[0] + "." + TailText(c[1..])
  }

  lemma {:induction false} ParagraphTextShape(c: seq<string>)
    requires c != []
    ensures ParagraphText(c) == c[0] + "." + TailText(c[1..])
    decreases |c|
  {
    if |c| == 1 {
      assert c[1..] == [];
      assert c[0] + "." + "" == c[0] + ".";
    } else {
      var rest := JoinWith(c[1..], ". ");
      var tail := TailText(c[2..]);
      assert ParagraphText(c) == c[0] + ". " + rest + ".";
      ParagraphTextShape(c[1..]);
      assert c[1..][1..] == c[2..];
      assert rest + "." == c[1] + "." + tail;
      assert TailText(c[1..]) == " " + c[1] + "." + tail;
      Regroup(c[0], rest, c[1], tail);
    }
  }

  /** Moving the blank of a ". " separator into the text after it. */
  lemma Regroup(first: string, rest: string, second: string, tail: string)
    requires rest + "." == second + "." + tail
    ensures first + ". " + rest + "." == first + "." + (" " + second + "." + tail)
  {
    calc {
      first + ". " + rest + ".";
      first + "." + " " + (rest + ".");
      first + "." + " " + (second + "." + tail);
      first + "." + (" " + second + "." + tail);
    }
  }

  lemma {:induction false} TailTextSentences(c: seq<string>)
    requires forall k :: 0 <= k < |c| ==> IsSentence(c[k])
    ensures KeepSentences(SplitOn(TailText(c), '.')) == c
    decreases |c|
  {
    if c == [] {
      assert SplitOn("", '.') == [""];
    } else {
      var piece := " " + c[0];
      assert '.' !in piece;
      assert TailText(c) == piece + ['.'] + TailText(c[1..]);
      SplitOnFirst(piece, '.', TailText(c[1..]));
      TailTextSentences(c[1..]);
      TrimAfterBlank(c[0]);
      KeepSentencesAppend([piece], SplitOn(TailText(c[1..]), '.'));
      HeadTail(c);
    }
  }

  /** Re-splitting a rendered paragraph gives back exactly its sentences. */
  lemma ParagraphSentences(c: seq<string>)
    requires c != []
    requires forall k :: 0 <= k < |c| ==> IsSentence(c[k])
    ensures Sentences(ParagraphText(c)) == c
  {
    ParagraphTextShape(c);
    assert ParagraphText(c) == c[0] + ['.'] + TailText(c[1..]);
    SplitOnFirst(c[0], '.', TailText(c[1..]));
    TailTextSentences(c[1..]);
    TrimOfTrimmed(c[0]);
    KeepSentencesAppend([c[0]], SplitOn(TailText(c[1..]), '.'));
    HeadTail(c);
  }

  // -----------------------------------------------------------------------
  // The render plan

  datatype Segment = Paragraph(text: string) | ImageBlock(image: string, links: seq<string>)

  /** The segments emitted so far and the two cursors of the loop. */
  datatype Layout = Layout(segments: seq<Segment>, imageIndex: nat, linkIndex: nat)

  /** `{ content, leftoverLinks }`; `content` is `None` for `null`. */
  datatype Rendered = Rendered(content: Option<seq<Segment>>, leftoverLinks: seq<string>)

  /** The links one image block takes from `from` on: a contiguous run of at
      most five, shorter only when the links run out. */
  function NextLinks(links: seq<string>, from: nat): (r: seq<string>)
    requires from <= |links|
    ensures |r| <= LinksPerImage && from + |r| <= |links|
    ensures r == links[from..from + |r|]
    ensures |r| < LinksPerImage ==> from + |r| == |links|
  {
    links[from..Min(from + LinksPerImage, |links|)]
  }

  /** One iteration of the loop: the paragraph, then an image block when the
      draw succeeds and an unused image remains. */
  function Place(st: Layout, paragraph: string, images: seq<string>, links: seq<string>, draw: bool): Layout
    requires st.linkIndex <= |links|
  {
    var segs := st.segments + [Paragraph(paragraph)];
    if draw && st.imageIndex < |images| then
      var block := NextLinks(links, st.linkIndex);
      Layout(segs + [ImageBlock(images[st.imageIndex], block)], st.imageIndex + 1, st.linkIndex + |block|)
    else
      Layout(segs, st.imageIndex, st.linkIndex)
  }

  /** The state after the loop has placed the paragraphs `paras`. */
  function LayoutOf(paras: seq<string>, images: seq<string>, links: seq<string>, draws: nat -> bool): (l: Layout)
    ensures l.linkIndex <= |links| && l.imageIndex <= |images|
    decreases |paras|
  {
    if paras == [] then Layout([], 0, 0)
    else
      var k := |paras| - 1;
      Place(LayoutOf(paras[..k], images, links, draws), paras[k], images, links, draws(k))
  }

  /** The links of the image blocks, concatenated in order. */
  function BlockLinks(segs: seq<Segment>): seq<string>
  {
    if segs == [] then []
    else
      var last := segs[|segs| - 1];
      BlockLinks(segs[..|segs| - 1]) + (if last.ImageBlock? then last.links else [])
  }

  /** The images of the image blocks, in order. */
  function BlockImages(segs: seq<Segment>): seq<string>
  {
    if segs == [] then []
    else
      var last := segs[|segs| - 1];
      BlockImages(segs[..|segs| - 1]) + (if last.ImageBlock? then [last.image] else [])
  }

  /** The texts of the paragraph segments, in order. */
  function ParagraphTexts(segs: seq<Segment>): seq<string>
  {
    if segs == [] then []
    else
      var last := segs[|segs| - 1];
      ParagraphTexts(segs[..|segs| - 1]) + (if last.Paragraph? then [last.text] else [])
  }

  lemma SegmentsAppend(segs: seq<Segment>, s: Segment)
    ensures BlockLinks(segs + [s]) == BlockLinks(segs) + (if s.ImageBlock? then s.links else [])
    ensures BlockImages(segs + [s]) == BlockImages(segs) + (if s.ImageBlock? then [s.image] else [])
    ensures ParagraphTexts(segs + [s]) == ParagraphTexts(segs) + (if s.Paragraph? then [s.text] else [])
  {
    assert (segs + [s])[..|segs|] == segs;
  }

  /** One placement keeps the blocks' links equal to the links before the
      link cursor. */
  lemma PlaceLinks(st: Layout, p: string, images: seq<string>, links: seq<string>, draw: bool)
    requires st.linkIndex <= |links| && BlockLinks(st.segments) == links[..st.linkIndex]
    ensures var n := Place(st, p, images, links, draw);
            BlockLinks(n.segments) == links[..n.linkIndex]
  {
    var segs := st.segments + [Paragraph(p)];
    SegmentsAppend(st.segments, Paragraph(p));
    if draw && st.imageIndex < |images| {
      var block := NextLinks(links, st.linkIndex);
      SegmentsAppend(segs, ImageBlock(images[st.imageIndex], block));
      assert links[..st.linkIndex] + block == links[..st.linkIndex + |block|];
    }
  }

  /** One placement keeps the blocks' images equal to the images before the
      image cursor, which moves by at most one. */
  lemma PlaceImages(st: Layout, p: string, images: seq<string>, links: seq<string>, draw: bool)
    requires st.linkIndex <= |links| && st.imageIndex <= |images|
    requires BlockImages(st.segments) == images[..st.imageIndex]
    ensures var n := Place(st, p, images, links, draw);
            BlockImages(n.segments) == images[..n.imageIndex] && n.imageIndex <= st.imageIndex + 1
  {
    var segs := st.segments + [Paragraph(p)];
    SegmentsAppend(st.segments, Paragraph(p));
    if draw && st.imageIndex < |images| {
      SegmentsAppend(segs, ImageBlock(images[st.imageIndex], NextLinks(links, st.linkIndex)));
      assert images[..st.imageIndex] + [images[st.imageIndex]] == images[..st.imageIndex + 1];
    }
  }

  /** One placement appends exactly its paragraph to the paragraph texts. */
  lemma PlaceTexts(st: Layout, p: string, images: seq<string>, links: seq<string>, draw: bool)
    requires st.linkIndex <= |links|
    ensures ParagraphTexts(Place(st, p, images, links, draw).segments) == ParagraphTexts(st.segments) + [p]
  {
    var segs := st.segments + [Paragraph(p)];
    SegmentsAppend(st.segments, Paragraph(p));
    if draw && st.imageIndex < |images| {
      SegmentsAppend(segs, ImageBlock(images[st.imageIndex], NextLinks(links, st.linkIndex)));
    }
  }

  /** The blocks take the links in order, without gaps: together they are
      exactly the links before the link cursor. */
  lemma {:induction false} LayoutLinks(paras: seq<string>, images: seq<string>, links: seq<string>, draws: nat -> bool)
    ensures var l := LayoutOf(paras, images, links, draws);
            BlockLinks(l.segments) == links[..l.linkIndex]
    decreases |paras|
  {
    if paras != [] {
      var k := |paras| - 1;
      LayoutLinks(paras[..k], images, links, draws);
      PlaceLinks(LayoutOf(paras[..k], images, links, draws), paras[k], images, links, draws(k));
    }
  }

  /** The blocks use the content images in their original order, each once,
      and there is at most one block per paragraph. */
  lemma {:induction false} LayoutImages(paras: seq<string>, images: seq<string>, links: seq<string>, draws: nat -> bool)
    ensures var l := LayoutOf(paras, images, links, draws);
            BlockImages(l.segments) == images[..l.imageIndex] && l.imageIndex <= |paras|
    decreases |paras|
  {
    if paras != [] {
      var k := |paras| - 1;
      LayoutImages(paras[..k], images, links, draws);
      PlaceImages(LayoutOf(paras[..k], images, links, draws), paras[k], images, links, draws(k));
    }
  }

  /** Every paragraph is emitted, in order, whatever the draws. */
  lemma {:induction false} LayoutParagraphs(paras: seq<string>, images: seq<string>, links: seq<string>, draws: nat -> bool)
    ensures ParagraphTexts(LayoutOf(paras, images, links, draws).segments) == paras
    decreases |paras|
  {
    if paras != [] {
      var k := |paras| - 1;
      LayoutParagraphs(paras[..k], images, links, draws);
      PlaceTexts(LayoutOf(paras[..k], images, links, draws), paras[k], images, links, draws(k));
      assert paras[..k] + [paras[k]] == paras;
    }
  }

  /** Each block holds at most five links, and fewer only when it takes the
      last of the links (so no block after it has any); an image block
      always follows a paragraph. */
  predicate BlocksWellFormed(segs: seq<Segment>, linkCount: nat)
  {
    forall j :: 0 <= j < |segs| && segs[j].ImageBlock? ==>
      && |segs[j].links| <= LinksPerImage
      && (|segs[j].links| < LinksPerImage ==> |BlockLinks(segs[..j + 1])| == linkCount)
      && 0 < j && segs[j - 1].Paragraph?
  }

  /** The placement keeps every block well formed, whatever the draws. */
  lemma {:induction false} LayoutBlocks(paras: seq<string>, images: seq<string>, links: seq<string>, draws: nat -> bool)
    ensures var l := LayoutOf(paras, images, links, draws);
            BlocksWellFormed(l.segments, |links|)
    decreases |paras|
  {
    if paras != [] {
      var k := |paras| - 1;
      var st := LayoutOf(paras[..k], images, links, draws);
      LayoutBlocks(paras[..k], images, links, draws);
      var l := LayoutOf(paras, images, links, draws);
      var n := |st.segments|;
      var inserted := draws(k) && st.imageIndex < |images|;
      assert l.segments[..n] == st.segments;
      assert l.segments[n] == Paragraph(paras[k]);
      assert |l.segments| == if inserted then n + 2 else n + 1;
      forall j | 0 <= j < |l.segments| && l.segments[j].ImageBlock?
        ensures |l.segments[j].links| <= LinksPerImage
        ensures |l.segments[j].links| < LinksPerImage ==> |BlockLinks(l.segments[..j + 1])| == |links|
        ensures 0 < j && l.segments[j - 1].Paragraph?
      {
        if j < n {
          assert st.segments[j] == l.segments[j];
          assert st.segments[j - 1] == l.segments[j - 1];
          assert st.segments[..j + 1] == l.segments[..j + 1];
        } else {
          assert j == n + 1 && inserted;
          var block := NextLinks(links, st.linkIndex);
          assert l.segments[j] == ImageBlock(images[st.imageIndex], block);
          assert l.segments[..j + 1] == l.segments;
          assert l.linkIndex == st.linkIndex + |block|;
          LayoutLinks(paras, images, links, draws);
        }
      }
    }
  }

  /** With no content image no block is ever produced and the link cursor
      never moves. */
  lemma {:induction false} LayoutWithoutImages(paras: seq<string>, links: seq<string>, draws: nat -> bool)
    ensures var l := LayoutOf(paras, [], links, draws);
            l.linkIndex == 0 && forall j :: 0 <= j < |l.segments| ==> l.segments[j].Paragraph?
    decreases |paras|
  {
    if paras != [] {
      LayoutWithoutImages(paras[..|paras| - 1], links, draws);
    }
  }

  /** One step appends its paragraph, then an image block exactly when its
      draw succeeds and an unused image remains; only then does the image
      cursor move, by one. */
  lemma PlaceInserts(st: Layout, p: string, images: seq<string>, links: seq<string>, draw: bool)
    requires st.linkIndex <= |links|
    ensures var n := Place(st, p, images, links, draw);
            var inserted := draw && st.imageIndex < |images|;
            && |n.segments| == |st.segments| + (if inserted then 2 else 1)
            && n.segments[..|st.segments| + 1] == st.segments + [Paragraph(p)]
            && (inserted ==> n.segments[|st.segments| + 1].ImageBlock?)
            && n.imageIndex == st.imageIndex + (if inserted then 1 else 0)
  {
    var segs := st.segments + [Paragraph(p)];
    if draw && st.imageIndex < |images| {
      var block := ImageBlock(images[st.imageIndex], NextLinks(links, st.linkIndex));
      assert (segs + [block])[..|segs|] == segs;
    }
  }

  /** How many of the first `n` draws succeed. */
  function CountDraws(draws: nat -> bool, n: nat): nat
  {
    if n == 0 then 0 else CountDraws(draws, n - 1) + (if draws(n - 1) then 1 else 0)
  }

  /** Every successful draw places the next image until the images run
      out, and no other paragraph does: the number of images used is the
      number of successful draws, capped by the number of images. */
  lemma {:induction false} BlocksAreSuccessfulDraws(paras: seq<string>, images: seq<string>, links: seq<string>, draws: nat -> bool)
    ensures LayoutOf(paras, images, links, draws).imageIndex == Min(|images|, CountDraws(draws, |paras|))
    decreases |paras|
  {
    if paras != [] {
      BlocksAreSuccessfulDraws(paras[..|paras| - 1], images, links, draws);
    }
  }

  /** The first slice of `images` is the thumbnail: `post.images.slice(1)`. */
  function ContentImages(post: Post): (r: seq<string>)
    ensures |post.images| > 0 ==> r == post.images[1..]
    ensures |post.images| == 0 ==> r == []
  {
    if |post.images| == 0 then [] else post.images[1..]
  }

  /** What `renderContent` returns, given the draws. */
  function RenderSpec(post: Option<Post>, draws: nat -> bool): Rendered
  {
    if post.None? || post.value.content == "" then Rendered(None, [])
    else
      var p := post.value;
      var l := LayoutOf(Paragraphs(Sentences(p.content)), ContentImages(p), p.links, draws);
      Rendered(Some(l.segments), p.links[l.linkIndex..])
  }

  /** No post or an empty body: no content and no leftover link. */
  lemma RenderWithoutContent(post: Option<Post>, draws: nat -> bool)
    requires post.None? || post.value.content == ""
    ensures RenderSpec(post, draws) == Rendered(None, [])
  {
  }

  /** Every link is placed exactly once: the blocks' links followed by the
      leftovers are the post's links, in order, for every outcome of the draws. */
  lemma LinksConserved(post: Post, draws: nat -> bool)
    requires post.content != ""
    ensures var r := RenderSpec(Some(post), draws);
            r.content.Some? && BlockLinks(r.content.value) + r.leftoverLinks == post.links
  {
    LayoutConservesLinks(Paragraphs(Sentences(post.content)), ContentImages(post), post.links, draws);
  }

  lemma LayoutConservesLinks(paras: seq<string>, images: seq<string>, links: seq<string>, draws: nat -> bool)
    ensures var l := LayoutOf(paras, images, links, draws);
            BlockLinks(l.segments) + links[l.linkIndex..] == links
  {
    var l := LayoutOf(paras, images, links, draws);
    LayoutLinks(paras, images, links, draws);
    PrefixSuffix(links, l.linkIndex);
  }

  /** The page shows one image block per successful draw after a
      paragraph, until the content images run out. */
  lemma ImageBlocksFollowDraws(post: Post, draws: nat -> bool)
    requires post.content != ""
    ensures var r := RenderSpec(Some(post), draws);
            |BlockImages(r.content.value)|
              == Min(|ContentImages(post)|, CountDraws(draws, |Chunks(Sentences(post.content))|))
  {
    var paras := Paragraphs(Sentences(post.content));
    LayoutImages(paras, ContentImages(post), post.links, draws);
    BlocksAreSuccessfulDraws(paras, ContentImages(post), post.links, draws);
    ParagraphsAreChunks(Sentences(post.content));
  }

  /** The blocks show a prefix of `images[1..]`, in order and without repeats,
      never more than there are paragraphs. */
  lemma ImagesUsedInOrder(post: Post, draws: nat -> bool)
    requires post.content != ""
    ensures var r := RenderSpec(Some(post), draws);
            var used := BlockImages(r.content.value);
            && |used| <= |Chunks(Sentences(post.content))|
            && |used| <= |ContentImages(post)|
            && used == ContentImages(post)[..|used|]
  {
    LayoutImages(Paragraphs(Sentences(post.content)), ContentImages(post), post.links, draws);
    ParagraphsAreChunks(Sentences(post.content));
  }

  /** The k-th chunk is the k-th run of four sentences. */
  lemma {:induction false} ChunkAt(s: seq<string>, k: nat)
    requires k < |Chunks(s)|
    ensures ParagraphSize * k < |s|
    ensures Chunks(s)[k] == s[ParagraphSize * k..Min(ParagraphSize * k + ParagraphSize, |s|)]
    decreases k
  {
    var n := Min(ParagraphSize, |s|);
    if k > 0 {
      assert Chunks(s)[k] == Chunks(s[n..])[k - 1];
      ChunkAt(s[n..], k - 1);
      assert n == ParagraphSize;
    }
  }

  /** Re-splitting each paragraph of the plan gives back its four (or, last,
      fewer) sentences. */
  lemma ParagraphsResplit(s: seq<string>)
    requires forall i :: 0 <= i < |s| ==> IsSentence(s[i])
    ensures |Paragraphs(s)| == |Chunks(s)|
    ensures forall k :: 0 <= k < |Chunks(s)| ==> Sentences(Paragraphs(s)[k]) == Chunks(s)[k]
  {
    ParagraphsAreChunks(s);
    forall k | 0 <= k < |Chunks(s)|
      ensures Sentences(Paragraphs(s)[k]) == Chunks(s)[k]
    {
      ChunkAt(s, k);
      ParagraphSentences(Chunks(s)[k]);
    }
  }

  /** The paragraphs of the plan are the sentences in groups of four, in
      order, and there are ceil(#sentences / 4) of them. */
  lemma ParagraphsInOrder(post: Post, draws: nat -> bool)
    requires post.content != ""
    ensures var r := RenderSpec(Some(post), draws);
            var texts := ParagraphTexts(r.content.value);
            && |texts| == |Chunks(Sentences(post.content))|
            && |texts| == (|Sentences(post.content)| + ParagraphSize - 1) / ParagraphSize
            && forall k :: 0 <= k < |texts| ==> Sentences(texts[k]) == Chunks(Sentences(post.content))[k]
  {
    var s := Sentences(post.content);
    LayoutParagraphs(Paragraphs(s), ContentImages(post), post.links, draws);
    ParagraphsAreChunks(s);
    ChunksShape(s);
    ParagraphsResplit(s);
  }

  /** A post with at most one image (the thumbnail) gets no image block, and
      all its links are leftovers. */
  lemma NoContentImagesAllLeftover(post: Post, draws: nat -> bool)
    requires post.content != "" && |post.images| <= 1
    ensures var r := RenderSpec(Some(post), draws);
            && r.leftoverLinks == post.links
            && forall j :: 0 <= j < |r.content.value| ==> r.content.value[j].Paragraph?
  {
    var paras := Paragraphs(Sentences(post.content));
    assert ContentImages(post) == [];
    LayoutWithoutImages(paras, post.links, draws);
    assert post.links[0..] == post.links;
  }

  // -----------------------------------------------------------------------
  // renderContent

  /** The loop's bound: paragraph k exists exactly when sentence 4k does. */
  lemma ParagraphExists(s: seq<string>, k: nat)
    ensures k < |Paragraphs(s)| <==> ParagraphSize * k < |s|
  {
    ParagraphsAreChunks(s);
    ChunksShape(s);
  }

  /** The k-th paragraph is the text of sentences 4k .. 4k+3. */
  lemma ParagraphAt(s: seq<string>, k: nat, i: nat)
    requires i == ParagraphSize * k < |s|
    ensures k < |Paragraphs(s)|
    ensures Paragraphs(s)[k] == ParagraphText(s[i..Min(i + ParagraphSize, |s|)])
  {
    ParagraphsAreChunks(s);
    ChunksShape(s);
    ChunkAt(s, k);
  }

  /** Placing one more paragraph extends the layout by one step. */
  lemma LayoutStep(paras: seq<string>, k: nat, images: seq<string>, links: seq<string>, draws: nat -> bool)
    requires k < |paras|
    ensures LayoutOf(paras[..k + 1], images, links, draws)
            == Place(LayoutOf(paras[..k], images, links, draws), paras[k], images, links, draws(k))
  {
    assert paras[..k + 1][..k] == paras[..k];
  }

  /** The inner loop of `renderContent`: the links for one image block, taken
      from `from` on while links remain and fewer than five are taken. */
  method TakeLinks(productLinks: seq<string>, from: nat) returns (imageLinks: seq<string>, linkIndex: nat)
    requires from <= |productLinks|
    ensures imageLinks == NextLinks(productLinks, from)
    ensures linkIndex == from + |imageLinks|
  {
    imageLinks := [];
    linkIndex := from;
    while linkIndex < |productLinks| && |imageLinks| < LinksPerImage
      invariant from <= linkIndex <= |productLinks|
      invariant imageLinks == productLinks[from..linkIndex]
      invariant |imageLinks| <= LinksPerImage
    {
      assert productLinks[from..linkIndex + 1] == productLinks[from..linkIndex] + [productLinks[linkIndex]];
      imageLinks := imageLinks + [productLinks[linkIndex]];
      linkIndex := linkIndex + 1;
    }
  }

  /** One pass of the loop body: push the paragraph, then, when the draw
      succeeds and an unused image remains, an image block with the next
      image and its links. */
  method EmitParagraph(result: seq<Segment>, imageIndex: nat, linkIndex: nat, paragraph: string,
                       contentImages: seq<string>, productLinks: seq<string>, draw: bool)
    returns (result': seq<Segment>, imageIndex': nat, linkIndex': nat)
    requires linkIndex <= |productLinks|
    ensures Layout(result', imageIndex', linkIndex')
            == Place(Layout(result, imageIndex, linkIndex), paragraph, contentImages, productLinks, draw)
  {
    result' := result + [Paragraph(paragraph)];
    imageIndex' := imageIndex;
    linkIndex' := linkIndex;
    var shouldInsertImage := draw && imageIndex' < |contentImages|;
    if shouldInsertImage {
      var currentImageIndex := imageIndex';
      var imageLinks;
      imageLinks, linkIndex' := TakeLinks(productLinks, linkIndex');
      result' := result' + [ImageBlock(contentImages[currentImageIndex], imageLinks)];
      imageIndex' := imageIndex' + 1;
    }
  }

  /** `renderContent`, step by step as the page runs it. */
  method RenderContent(post: Option<Post>, draws: nat -> bool) returns (r: Rendered)
    ensures r == RenderSpec(post, draws)
  {
    if post.None? || post.value.content == "" {
      return Rendered(None, []);
    }
    var sentences := Sentences(post.value.content);
    var contentImages := ContentImages(post.value);
    var productLinks := post.value.links;

    var result: seq<Segment> := [];
    var imageIndex: nat := 0;
    var linkIndex: nat := 0;
    ghost var paras := Paragraphs(sentences);
    var i: nat := 0;
    var k: nat := 0;  // the number of draws made so far
    ParagraphExists(sentences, 0);
    while i < |sentences|
      invariant i == ParagraphSize * k
      invariant k <= |paras|
      invariant k < |paras| <==> i < |sentences|
      invariant Layout(result, imageIndex, linkIndex) == LayoutOf(paras[..k], contentImages, productLinks, draws)
    {
      var chunk := sentences[i..Min(i + ParagraphSize, |sentences|)];
      var paragraph := ParagraphText(chunk);  // chunk.join(". ") + "."
      ParagraphAt(sentences, k, i);
      LayoutStep(paras, k, contentImages, productLinks, draws);
      result, imageIndex, linkIndex :=
        EmitParagraph(result, imageIndex, linkIndex, paragraph, contentImages, productLinks, draws(k));
      i := i + ParagraphSize;
      k := k + 1;
      ParagraphExists(sentences, k);
    }
    assert paras == paras[..k];
    r := Rendered(Some(result), productLinks[linkIndex..]);
  }
}
