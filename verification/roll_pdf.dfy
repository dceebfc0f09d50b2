/**
 * The hand-written PDF of a roll of location labels: an object table, pages of
 * a fixed number of columns, and a cross-reference table of byte offsets
 * (section 7.5.4 of ISO 32000-1).  A file is a string of bytes, one character
 * for each.
 */
module RollPdf {
  import opened Wrappers
  import opened Arithmetic
  import opened Decimal
  import opened Order
  import opened Words

  datatype RollLabel = RollLabel(qrCode: string, shortNum: Option<string>, code: string)

  datatype Picture = Picture(width: nat, height: nat, data: string)

  /** One label as it is drawn: its cell, its text, and the image object that it shows. */
  datatype Draw = Draw(slot: nat, text: string, image: Option<nat>)

  datatype Object =
    | Font
    | Placeholder
    | Pages(kids: seq<nat>)
    | Image(picture: Picture)
    | Content(draws: seq<Draw>)
    | Page(parent: nat, content: nat, images: seq<nat>)
    | Catalog(pages: nat)

  /** What other libraries do: image decoding, compression of a page's operators, trimming, and number formatting. */
  datatype Library = Library(decode: string -> Option<Picture>, compress: seq<Draw> -> string,
                             trim: string -> string, mediaBox: string)

  datatype PdfError = NoPage

  // ---------- geometry ----------

  function StickerWidth(widthMm: real): nat { Max(18, Round(widthMm)) }

  function MediaWidth(widthMm: real, mediaWidthMm: Option<real>): nat {
    var sticker := StickerWidth(widthMm);
    Max(sticker, Round(if mediaWidthMm.Some? && mediaWidthMm.value != 0.0 && mediaWidthMm.value >= sticker as real
                       then mediaWidthMm.value else 104.0))
  }

  /** As many whole stickers as fit on the roll, and at least one. */
  function Columns(widthMm: real, mediaWidthMm: Option<real>): (cols: nat)
    ensures cols >= 1
    ensures var sticker, media := StickerWidth(widthMm), MediaWidth(widthMm, mediaWidthMm);
      cols * sticker <= media < cols * sticker + sticker
  {
    Max(1, MediaWidth(widthMm, mediaWidthMm) / StickerWidth(widthMm))
  }

  /**
   * A sticker is its width to the nearest millimetre but at least 18, the roll
   * the given width if it can hold a sticker and else 104, and as many whole
   * stickers as fit stand side by side.
   */
  lemma {:induction false} ColumnsAre(widthMm: real, mediaWidthMm: Option<real>) returns (sticker: nat, media: nat)
    ensures sticker >= 18 && widthMm < sticker as real + 0.5 && (sticker == 18 || sticker as real - 0.5 <= widthMm)
    ensures var roll := if mediaWidthMm.Some? && mediaWidthMm.value != 0.0 && mediaWidthMm.value >= sticker as real
                        then mediaWidthMm.value else 104.0;
      media >= sticker && roll < media as real + 0.5 && (media == sticker || media as real - 0.5 <= roll)
    ensures var cols := Columns(widthMm, mediaWidthMm); cols * sticker <= media < (cols + 1) * sticker
  {
    sticker, media := StickerWidth(widthMm), MediaWidth(widthMm, mediaWidthMm);
    TimesNext(Columns(widthMm, mediaWidthMm), sticker);
  }

  function TextOf(l: RollLabel, lib: Library): string {
    var text := lib.trim(if Given(l.shortNum) then l.shortNum.value else l.code);
    if text == "" then "?" else text
  }

  // ---------- the object table ----------

  predicate IsObject(objs: seq<Object>, id: nat) { 1 <= id <= |objs| }

  /** The cached object of a code is its picture. */
  predicate Embedded(objs: seq<Object>, id: nat, picture: Option<Picture>) {
    IsObject(objs, id) && picture.Some? && objs[id - 1] == Image(picture.value)
  }

  ghost predicate OneCodeEach(cache: map<string, nat>) {
    forall q, r | q in cache && r in cache && cache[q] == cache[r] :: q == r
  }

  /** Every embedded picture is in the cache under its code, each code under its own object. */
  ghost predicate CacheOk(objs: seq<Object>, cache: map<string, nat>, lib: Library) {
    && (forall q | q in cache :: Embedded(objs, cache[q], lib.decode(q)))
    && OneCodeEach(cache)
    && (forall k | 0 <= k < |objs| && objs[k].Image? :: k + 1 in cache.Values)
  }

  ghost predicate DrawOk(d: Draw, l: RollLabel, slot: nat, images: seq<nat>, cache: map<string, nat>, lib: Library) {
    && d.slot == slot
    && (var text := lib.trim(if l.shortNum == None || l.shortNum == Some("") then l.code else l.shortNum.value);
        d.text == if text == "" then "?" else text)
    && (if lib.decode(l.qrCode).None? then d.image == None
        else l.qrCode in cache && d.image == Some(cache[l.qrCode]) && cache[l.qrCode] in images)
  }

  ghost predicate DrawsOk(draws: seq<Draw>, labels: seq<RollLabel>, images: seq<nat>, cache: map<string, nat>,
                          lib: Library) {
    && |draws| == |labels|
    && forall i | 0 <= i < |draws| :: DrawOk(draws[i], labels[i], i, images, cache, lib)
  }

  /** The labels of page p. */
  function Slice(labels: seq<RollLabel>, cols: nat, p: nat): seq<RollLabel> {
    var a := if p * cols < |labels| then p * cols else |labels|;
    var b := if p * cols + cols < |labels| then p * cols + cols else |labels|;
    labels[a..b]
  }

  function PagesNeeded(n: nat, cols: nat): nat
    requires cols >= 1
  {
    (n + cols - 1) / cols
  }

  ghost predicate PageOk(objs: seq<Object>, id: nat, labels: seq<RollLabel>, cache: map<string, nat>, lib: Library) {
    && IsPage(objs, id) && objs[id - 1].parent == 2
    && ImagesOk(objs, objs[id - 1].images)
    && DrawsOk(DrawsOf(objs, id), labels, objs[id - 1].images, cache, lib)
    && objs[id - 1].images == ImagesOf(DrawsOf(objs, id))
  }

  /** A page object with its content. */
  predicate IsPage(objs: seq<Object>, id: nat) {
    && IsObject(objs, id) && objs[id - 1].Page?
    && IsObject(objs, objs[id - 1].content) && objs[objs[id - 1].content - 1].Content?
  }

  function DrawsOf(objs: seq<Object>, id: nat): seq<Draw>
    requires IsPage(objs, id)
  {
    objs[objs[id - 1].content - 1].draws
  }

  function ImagesOf(draws: seq<Draw>): seq<nat> {
    if draws == [] then []
    else ImagesOf(draws[..|draws| - 1])
         + (if draws[|draws| - 1].image.Some? then [draws[|draws| - 1].image.value] else [])
  }

  predicate CacheGrows(a: map<string, nat>, b: map<string, nat>) { forall q | q in a :: q in b && b[q] == a[q] }

  lemma {:induction false} PageStays(objs: seq<Object>, more: seq<Object>, id: nat, labels: seq<RollLabel>,
                  cache: map<string, nat>, cache': map<string, nat>, lib: Library)
    requires PageOk(objs, id, labels, cache, lib) && objs <= more && CacheGrows(cache, cache')
    ensures PageOk(more, id, labels, cache', lib)
  {
    var draws := DrawsOf(objs, id);
    forall i | 0 <= i < |draws| ensures DrawOk(draws[i], labels[i], i, objs[id - 1].images, cache', lib) {
      assert DrawOk(draws[i], labels[i], i, objs[id - 1].images, cache, lib);
    }
  }

  ghost predicate ImagesOk(objs: seq<Object>, images: seq<nat>) {
    forall i | 0 <= i < |images| :: IsObject(objs, images[i]) && objs[images[i] - 1].Image?
  }

  /** Draws one label, embedding its picture if it is new. */
  method DrawLabel(l: RollLabel, slot: nat, objs0: seq<Object>, cache0: map<string, nat>, lib: Library)
    returns (d: Draw, objs: seq<Object>, cache: map<string, nat>)
    requires CacheOk(objs0, cache0, lib)
    ensures CacheOk(objs, cache, lib) && CacheGrows(cache0, cache) && objs0 <= objs
    ensures forall k | |objs0| <= k < |objs| :: objs[k].Image?
    ensures DrawOk(d, l, slot, if d.image.Some? then [d.image.value] else [], cache, lib)
    ensures d.image.Some? ==> ImagesOk(objs, [d.image.value])
  {
    objs, cache := objs0, cache0;
    var image: Option<nat> := None;
    if lib.decode(l.qrCode).Some? {
      if l.qrCode !in cache {
        objs, cache := AddPicture(objs, cache, l.qrCode, lib);
      }
      assert Embedded(objs, cache[l.qrCode], lib.decode(l.qrCode));
      image := Some(cache[l.qrCode]);
    }
    d := Draw(slot, TextOf(l, lib), image);
  }

  /** Draws the labels of one page. */
  method DrawPage(labels: seq<RollLabel>, objs0: seq<Object>, cache0: map<string, nat>, lib: Library)
    returns (draws: seq<Draw>, images: seq<nat>, objs: seq<Object>, cache: map<string, nat>)
    requires CacheOk(objs0, cache0, lib)
    ensures CacheOk(objs, cache, lib) && CacheGrows(cache0, cache) && objs0 <= objs
    ensures forall k | |objs0| <= k < |objs| :: objs[k].Image?
    ensures images == ImagesOf(draws) && ImagesOk(objs, images)
    ensures DrawsOk(draws, labels, images, cache, lib)
  {
    draws, images, objs, cache := [], [], objs0, cache0;
    for i := 0 to |labels|
      invariant CacheOk(objs, cache, lib) && CacheGrows(cache0, cache) && objs0 <= objs
      invariant forall k | |objs0| <= k < |objs| :: objs[k].Image?
      invariant images == ImagesOf(draws) && ImagesOk(objs, images)
      invariant DrawsOk(draws, labels[..i], images, cache, lib)
    {
      var d, objs', cache' := DrawLabel(labels[i], i, objs, cache, lib);
      DrawsNext(draws, labels[..i], d, labels[i], cache, cache', lib);
      assert labels[..i + 1] == labels[..i] + [labels[i]];
      objs, cache := objs', cache';
      draws := draws + [d];
      if d.image.Some? { images := images + [d.image.value]; }
    }
    assert labels[..|labels|] == labels;
  }

  lemma {:induction false} DrawsNext(draws: seq<Draw>, labels: seq<RollLabel>, d: Draw, l: RollLabel,
                  before: map<string, nat>, cache: map<string, nat>, lib: Library)
    requires DrawsOk(draws, labels, ImagesOf(draws), before, lib) && CacheGrows(before, cache)
    requires DrawOk(d, l, |draws|, if d.image.Some? then [d.image.value] else [], cache, lib)
    ensures DrawsOk(draws + [d], labels + [l], ImagesOf(draws + [d]), cache, lib)
    ensures ImagesOf(draws + [d]) == ImagesOf(draws) + (if d.image.Some? then [d.image.value] else [])
  {
    assert (draws + [d])[..|draws|] == draws;
    forall i | 0 <= i < |draws| ensures DrawOk(draws[i], labels[i], i, ImagesOf(draws + [d]), cache, lib) {
      assert DrawOk(draws[i], labels[i], i, ImagesOf(draws), before, lib);
    }
  }

  lemma {:induction false} NewIdIsOneCode(objs: seq<Object>, cache: map<string, nat>, code: string, lib: Library)
    requires CacheOk(objs, cache, lib) && code !in cache
    ensures OneCodeEach(cache[code := |objs| + 1])
  {
    forall q | q in cache ensures cache[q] != |objs| + 1 { assert Embedded(objs, cache[q], lib.decode(q)); }
  }

  lemma {:induction false} AddedValues(cache: map<string, nat>, code: string, id: nat)
    requires code !in cache
    ensures id in cache[code := id].Values && forall v | v in cache.Values :: v in cache[code := id].Values
  {
    var more := cache[code := id];
    assert more[code] == id;
    forall v | v in cache.Values ensures v in more.Values {
      var q :| q in cache && cache[q] == v;
      assert more[q] == v;
    }
  }

  /** Other objects at the end leave the cache as it is. */
  lemma {:induction false} CacheStays(objs: seq<Object>, more: seq<Object>, cache: map<string, nat>, lib: Library)
    requires CacheOk(objs, cache, lib) && objs <= more
    requires forall k | |objs| <= k < |more| :: !more[k].Image?
    ensures CacheOk(more, cache, lib)
  {
    forall q | q in cache ensures Embedded(more, cache[q], lib.decode(q)) {
      assert Embedded(objs, cache[q], lib.decode(q));
    }
  }

  method AddPicture(objs0: seq<Object>, cache0: map<string, nat>, code: string, lib: Library)
    returns (objs: seq<Object>, cache: map<string, nat>)
    requires CacheOk(objs0, cache0, lib) && code !in cache0 && lib.decode(code).Some?
    ensures CacheOk(objs, cache, lib)
    ensures objs == objs0 + [Image(lib.decode(code).value)] && cache == cache0[code := |objs|]
  {
    objs := objs0 + [Image(lib.decode(code).value)];
    cache := cache0[code := |objs|];
    NewIdIsOneCode(objs0, cache0, code, lib);
    AddedValues(cache0, code, |objs|);
    forall q | q in cache ensures Embedded(objs, cache[q], lib.decode(q)) {
      if q != code { assert Embedded(objs0, cache0[q], lib.decode(q)); }
    }
  }

  predicate IsPart(o: Object) { o.Image? || o.Content? || o.Page? }

  /** The pages drawn so far, in the order of the labels; there are no other page objects. */
  ghost predicate PagesOk(objs: seq<Object>, pageIds: seq<nat>, labels: seq<RollLabel>, cols: nat,
                          cache: map<string, nat>, lib: Library) {
    && (forall k | 0 <= k < |pageIds| :: PageOk(objs, pageIds[k], Slice(labels, cols, k), cache, lib))
    && (forall j, k | 0 <= j < k < |pageIds| :: pageIds[j] < pageIds[k])
    && (forall k | 0 <= k < |objs| && objs[k].Page? :: k + 1 in pageIds)
  }

  /** A page added at the end continues the list. */
  lemma {:induction false} PagesNext(objs: seq<Object>, more: seq<Object>, pageIds: seq<nat>, labels: seq<RollLabel>,
                                     cols: nat, cache: map<string, nat>, cache': map<string, nat>, lib: Library)
    requires PagesOk(objs, pageIds, labels, cols, cache, lib) && objs <= more && CacheGrows(cache, cache')
    requires |more| > |objs| && forall k | |objs| <= k < |more| - 1 :: !more[k].Page?
    requires PageOk(more, |more|, Slice(labels, cols, |pageIds|), cache', lib)
    ensures PagesOk(more, pageIds + [|more|], labels, cols, cache', lib)
  {
    AllPagesOk(objs, more, pageIds, labels, cols, cache, cache', lib);
    PageObjectsListed(objs, more, pageIds);
    NewIdIsLast(objs, pageIds, |more|);
  }

  lemma {:induction false} AllPagesOk(objs: seq<Object>, more: seq<Object>, pageIds: seq<nat>, labels: seq<RollLabel>,
                                      cols: nat, cache: map<string, nat>, cache': map<string, nat>, lib: Library)
    requires PagesOk(objs, pageIds, labels, cols, cache, lib) && objs <= more && CacheGrows(cache, cache')
    requires PageOk(more, |more|, Slice(labels, cols, |pageIds|), cache', lib)
    ensures var ids := pageIds + [|more|];
      && (forall k | 0 <= k < |pageIds| :: pageIds[k] <= |objs|)
      && forall k | 0 <= k < |ids| :: PageOk(more, ids[k], Slice(labels, cols, k), cache', lib)
  {
    var ids := pageIds + [|more|];
    OldPagesStay(objs, more, pageIds, labels, cols, cache, cache', lib);
    forall k | 0 <= k < |ids| ensures PageOk(more, ids[k], Slice(labels, cols, k), cache', lib) {
      assert k < |pageIds| ==> ids[k] == pageIds[k];
    }
  }

  lemma {:induction false} NewIdIsLast(objs: seq<Object>, pageIds: seq<nat>, id: nat)
    requires forall j, k | 0 <= j < k < |pageIds| :: pageIds[j] < pageIds[k]
    requires id > |objs| && forall k | 0 <= k < |pageIds| :: pageIds[k] <= |objs|
    ensures var ids := pageIds + [id]; forall j, k | 0 <= j < k < |ids| :: ids[j] < ids[k]
  {
  }

  lemma {:induction false} PageObjectsListed(objs: seq<Object>, more: seq<Object>, pageIds: seq<nat>)
    requires objs <= more && |more| > |objs| && forall k | |objs| <= k < |more| - 1 :: !more[k].Page?
    requires forall k | 0 <= k < |objs| && objs[k].Page? :: k + 1 in pageIds
    ensures forall k | 0 <= k < |more| && more[k].Page? :: k + 1 in pageIds + [|more|]
  {
    forall k | 0 <= k < |more| && more[k].Page? ensures k + 1 in pageIds + [|more|] {
      if k < |objs| { assert objs[k].Page?; }
      else { assert (pageIds + [|more|])[|pageIds|] == k + 1; }
    }
  }

  lemma {:induction false} OldPagesStay(objs: seq<Object>, more: seq<Object>, pageIds: seq<nat>, labels: seq<RollLabel>,
                                        cols: nat, cache: map<string, nat>, cache': map<string, nat>, lib: Library)
    requires PagesOk(objs, pageIds, labels, cols, cache, lib) && objs <= more && CacheGrows(cache, cache')
    ensures forall k | 0 <= k < |pageIds| ::
      pageIds[k] <= |objs| && PageOk(more, pageIds[k], Slice(labels, cols, k), cache', lib)
  {
    forall k | 0 <= k < |pageIds|
      ensures pageIds[k] <= |objs| && PageOk(more, pageIds[k], Slice(labels, cols, k), cache', lib) {
      assert PageOk(objs, pageIds[k], Slice(labels, cols, k), cache, lib);
      PageStays(objs, more, pageIds[k], Slice(labels, cols, k), cache, cache', lib);
    }
  }

  /** One page: its new pictures, its content, and the page itself as the last object. */
  method AddPage(slice: seq<RollLabel>, objs0: seq<Object>, cache0: map<string, nat>, lib: Library)
    returns (objs: seq<Object>, cache: map<string, nat>)
    requires CacheOk(objs0, cache0, lib)
    ensures CacheOk(objs, cache, lib) && CacheGrows(cache0, cache) && objs0 <= objs && |objs| > |objs0|
    ensures PageOk(objs, |objs|, slice, cache, lib)
    ensures forall k | |objs0| <= k < |objs| :: IsPart(objs[k]) && (k < |objs| - 1 ==> !objs[k].Page?)
  {
    var draws, used, grown, known := DrawPage(slice, objs0, cache0, lib);
    objs := grown + [Content(draws)] + [Page(2, |grown| + 1, used)];
    cache := known;
    CacheStays(grown, objs, cache, lib);
  }

  method BuildPages(labels: seq<RollLabel>, cols: nat, lib: Library)
    returns (objs: seq<Object>, pageIds: seq<nat>, ghost cache: map<string, nat>)
    requires cols >= 1
    ensures |objs| >= 2 && objs[0] == Font && objs[1] == Placeholder
    ensures |pageIds| == PagesNeeded(|labels|, cols)
    ensures PagesOk(objs, pageIds, labels, cols, cache, lib) && CacheOk(objs, cache, lib)
    ensures forall k | 2 <= k < |objs| :: IsPart(objs[k])
  {
    objs := [Font, Placeholder];
    pageIds := [];
    var images: map<string, nat> := map[];
    var pageCount := Max(1, PagesNeeded(|labels|, cols));
    var p := 0;
    while p < pageCount
      invariant 0 <= p <= PagesNeeded(|labels|, cols) && |pageIds| == p
      invariant |objs| >= 2 && objs[0] == Font && objs[1] == Placeholder
      invariant PagesOk(objs, pageIds, labels, cols, images, lib) && CacheOk(objs, images, lib)
      invariant forall k | 2 <= k < |objs| :: IsPart(objs[k])
    {
      var slice := Slice(labels, cols, p);
      SliceNeeded(labels, cols, p);
      if |slice| == 0 { break; }
      var more, known := AddPage(slice, objs, images, lib);
      PagesNext(objs, more, pageIds, labels, cols, images, known, lib);
      objs, images := more, known;
      pageIds := pageIds + [|objs|];
      p := p + 1;
    }
    cache := images;
  }

  lemma {:induction false} PageStart(n: nat, cols: nat, p: nat)
    requires cols >= 1
    ensures p < PagesNeeded(n, cols) <==> p * cols < n
  {
    var pages := PagesNeeded(n, cols);
    assert pages * cols <= n + cols - 1 < pages * cols + cols;
    if p < pages {
      TimesMonotone(p + 1, pages, cols);
      TimesNext(p, cols);
    } else {
      TimesMonotone(pages, p, cols);
    }
  }

  /** A page has labels exactly if it is among the pages needed. */
  lemma {:induction false} SliceNeeded(labels: seq<RollLabel>, cols: nat, p: nat)
    requires cols >= 1
    ensures p < PagesNeeded(|labels|, cols) <==> Slice(labels, cols, p) != []
  {
    PageStart(|labels|, cols, p);
  }

  // ---------- the whole table ----------

  /** Every reference of an object names an object of the right kind. */
  predicate RefsOk(objs: seq<Object>, o: Object) {
    match o
    case Pages(kids) => forall id | id in kids :: IsObject(objs, id) && objs[id - 1].Page?
    case Page(parent, content, images) =>
      && IsObject(objs, parent) && objs[parent - 1].Pages?
      && IsObject(objs, content) && objs[content - 1].Content?
      && forall id | id in images :: IsObject(objs, id) && objs[id - 1].Image?
    case Catalog(pages) => IsObject(objs, pages) && objs[pages - 1].Pages?
    case _ => true
  }

  ghost predicate DocumentOk(objs: seq<Object>, pageIds: seq<nat>, labels: seq<RollLabel>, cols: nat,
                             cache: map<string, nat>, lib: Library)
    requires cols >= 1
  {
    && |objs| >= 3 && objs[0] == Font && objs[1] == Pages(pageIds) && objs[|objs| - 1] == Catalog(2)
    && |pageIds| == PagesNeeded(|labels|, cols)
    && PagesOk(objs, pageIds, labels, cols, cache, lib)
    && CacheOk(objs, cache, lib)
    && (forall k | 0 <= k < |objs| :: RefsOk(objs, objs[k]))
  }

  lemma {:induction false} FinishKeepsPage(objs: seq<Object>, done: seq<Object>, id: nat, slice: seq<RollLabel>,
                                           cache: map<string, nat>, lib: Library)
    requires |objs| >= 2 && objs[1] == Placeholder && |done| > |objs|
    requires forall k | 0 <= k < |objs| && k != 1 :: done[k] == objs[k]
    requires PageOk(objs, id, slice, cache, lib)
    ensures PageOk(done, id, slice, cache, lib)
  {
    assert IsPage(done, id) && DrawsOf(done, id) == DrawsOf(objs, id);
  }

  /** Only the placeholder is replaced, and only a catalog is added. */
  lemma {:induction false} FinishKeepsPages(objs: seq<Object>, done: seq<Object>, pageIds: seq<nat>,
                                            labels: seq<RollLabel>, cols: nat, cache: map<string, nat>, lib: Library)
    requires |objs| >= 2 && objs[1] == Placeholder && done == objs[1 := Pages(pageIds)] + [Catalog(2)]
    requires PagesOk(objs, pageIds, labels, cols, cache, lib) && CacheOk(objs, cache, lib)
    ensures PagesOk(done, pageIds, labels, cols, cache, lib) && CacheOk(done, cache, lib)
  {
    forall k | 0 <= k < |pageIds| ensures PageOk(done, pageIds[k], Slice(labels, cols, k), cache, lib) {
      assert PageOk(objs, pageIds[k], Slice(labels, cols, k), cache, lib);
      FinishKeepsPage(objs, done, pageIds[k], Slice(labels, cols, k), cache, lib);
    }
    forall q | q in cache ensures Embedded(done, cache[q], lib.decode(q)) {
      assert Embedded(objs, cache[q], lib.decode(q));
    }
  }

  lemma {:induction false} ReferencesResolve(objs: seq<Object>, pageIds: seq<nat>, labels: seq<RollLabel>, cols: nat,
                                             cache: map<string, nat>, lib: Library, k: nat)
    requires k < |objs| && |objs| >= 2 && objs[1] == Pages(pageIds)
    requires forall i | 0 <= i < |objs| && i != 1 :: !objs[i].Pages?
    requires forall i | 0 <= i < |objs| && objs[i].Catalog? :: objs[i].pages == 2
    requires PagesOk(objs, pageIds, labels, cols, cache, lib)
    ensures RefsOk(objs, objs[k])
  {
    if objs[k].Pages? {
      forall id | id in pageIds ensures IsPage(objs, id) { ListedPageOk(objs, pageIds, labels, cols, cache, lib, id); }
    } else if objs[k].Page? {
      ListedPageOk(objs, pageIds, labels, cols, cache, lib, k + 1);
      ListedImagesOk(objs, objs[k].images);
    }
  }

  lemma {:induction false} ListedPageOk(objs: seq<Object>, pageIds: seq<nat>, labels: seq<RollLabel>, cols: nat,
                                        cache: map<string, nat>, lib: Library, id: nat)
    requires PagesOk(objs, pageIds, labels, cols, cache, lib) && id in pageIds
    ensures IsPage(objs, id) && objs[id - 1].parent == 2 && ImagesOk(objs, objs[id - 1].images)
  {
    var i :| 0 <= i < |pageIds| && pageIds[i] == id;
    assert PageOk(objs, pageIds[i], Slice(labels, cols, i), cache, lib);
  }

  lemma {:induction false} ListedImagesOk(objs: seq<Object>, images: seq<nat>)
    requires ImagesOk(objs, images)
    ensures forall id | id in images :: IsObject(objs, id) && objs[id - 1].Image?
  {
  }

  lemma {:induction false} SliceAt(labels: seq<RollLabel>, cols: nat, p: nat, i: nat)
    requires i < cols && p * cols < |labels|
    ensures var slice := Slice(labels, cols, p);
      && |slice| <= cols
      && (i < |slice| <==> p * cols + i < |labels|)
      && (i < |slice| ==> slice[i] == labels[p * cols + i])
  {
  }

  /** Slot i of page p holds label p * cols + i, and is empty exactly if there is no such label. */
  ghost predicate SlotHolds(objs: seq<Object>, pageId: nat, labels: seq<RollLabel>, cols: nat, cache: map<string, nat>,
                            lib: Library, p: nat, i: nat)
    requires IsPage(objs, pageId)
  {
    var draws, k := DrawsOf(objs, pageId), p * cols + i;
    && |draws| <= cols
    && (i < |draws| <==> k < |labels|)
    && (i < |draws| && k < |labels| ==> DrawOk(draws[i], labels[k], i, objs[pageId - 1].images, cache, lib))
  }

  /** Main result on the layout: label k is drawn on page k div cols, in slot k mod cols, and nothing else is drawn. */
  lemma {:induction false} EachLabelDrawnOnce(objs: seq<Object>, pageIds: seq<nat>, labels: seq<RollLabel>, cols: nat,
                                              cache: map<string, nat>, lib: Library, p: nat, i: nat)
    requires cols >= 1 && |pageIds| == PagesNeeded(|labels|, cols)
    requires PagesOk(objs, pageIds, labels, cols, cache, lib)
    requires p < |pageIds| && i < cols
    ensures IsPage(objs, pageIds[p])
    ensures SlotHolds(objs, pageIds[p], labels, cols, cache, lib, p, i)
  {
    assert PageOk(objs, pageIds[p], Slice(labels, cols, p), cache, lib);
    PageStart(|labels|, cols, p);
    SliceAt(labels, cols, p, i);
    var draws := DrawsOf(objs, pageIds[p]);
    if i < |draws| { assert DrawOk(draws[i], Slice(labels, cols, p)[i], i, objs[pageIds[p] - 1].images, cache, lib); }
  }

  lemma {:induction false} EveryLabelHasPage(n: nat, cols: nat, k: nat)
    requires cols >= 1 && k < n
    ensures k / cols < PagesNeeded(n, cols) && k % cols < cols && k / cols * cols + k % cols == k
  {
    PageStart(n, cols, k / cols);
  }

  /** Two labels show the same picture object exactly when their codes are the same text. */
  lemma {:induction false} PicturesAreShared(objs: seq<Object>, cache: map<string, nat>, lib: Library,
                                             l: RollLabel, m: RollLabel, d: Draw, e: Draw,
                                             i: nat, j: nat, a: seq<nat>, b: seq<nat>)
    requires CacheOk(objs, cache, lib)
    requires DrawOk(d, l, i, a, cache, lib) && DrawOk(e, m, j, b, cache, lib)
    requires lib.decode(l.qrCode).Some? && lib.decode(m.qrCode).Some?
    ensures d.image == e.image <==> l.qrCode == m.qrCode
  {
  }

  lemma {:induction false} ImagesOfMembers(draws: seq<Draw>, id: nat)
    ensures id in ImagesOf(draws) <==> exists i :: 0 <= i < |draws| && draws[i].image == Some(id)
  {
    if draws != [] {
      var front, last := draws[..|draws| - 1], draws[|draws| - 1];
      ImagesOfMembers(front, id);
      assert id in ImagesOf(draws) <==> id in ImagesOf(front) || last.image == Some(id);
      if i :| 0 <= i < |front| && front[i].image == Some(id) { assert draws[i].image == Some(id); }
    }
  }

  ghost predicate SharedPicture(labels: seq<RollLabel>, lib: Library, i: nat, j: nat)
    requires i < |labels| && j < |labels|
  {
    labels[i].qrCode == labels[j].qrCode && lib.decode(labels[i].qrCode).Some?
  }

  /**
   * A page's resource dictionary lists each picture name once exactly when no
   * two of its labels share a decodable code; otherwise a name is repeated.
   */
  lemma {:induction false} PictureNamesDistinctIff(draws: seq<Draw>, labels: seq<RollLabel>, cache: map<string, nat>,
                                                   lib: Library)
    requires OneCodeEach(cache) && |draws| == |labels|
    requires forall i | 0 <= i < |draws| ::
      if lib.decode(labels[i].qrCode).None? then draws[i].image == None
      else labels[i].qrCode in cache && draws[i].image == Some(cache[labels[i].qrCode])
    ensures Distinct(ImagesOf(draws)) <==> forall i, j | 0 <= i < j < |labels| :: !SharedPicture(labels, lib, i, j)
  {
    if draws != [] {
      var n := |draws| - 1;
      PictureNamesDistinctIff(draws[..n], labels[..n], cache, lib);
      assert forall i, j | 0 <= i < j < n ::
          SharedPicture(labels[..n], lib, i, j) <==> SharedPicture(labels, lib, i, j);
      if draws[n].image.Some? {
        ImagesOfMembers(draws[..n], draws[n].image.value);
        forall i | 0 <= i < n ensures draws[..n][i].image == draws[n].image <==> SharedPicture(labels, lib, i, n) {}
      }
      DistinctSnoc(ImagesOf(draws[..n]), if draws[n].image.Some? then [draws[n].image.value] else []);
    }
  }

  lemma {:induction false} DistinctSnoc(a: seq<nat>, b: seq<nat>)
    requires |b| <= 1
    ensures Distinct(a + b) <==> Distinct(a) && (b != [] ==> b[0] !in a)
  {
    if Distinct(a + b) {
      forall i, j | 0 <= i < j < |a| ensures a[i] != a[j] { assert (a + b)[i] != (a + b)[j]; }
      if b != [] {
        forall i | 0 <= i < |a| ensures a[i] != b[0] { assert (a + b)[i] != (a + b)[|a|]; }
      }
    }
  }

  // ---------- the file ----------

  const HEADER := "%PDF-1.5\n%" + [0xE2 as char, 0xE3 as char, 0xCF as char, 0xD3 as char] + "\n"

  function Ref(id: nat): string { ToString(id) + " 0 R" }

  function Kids(ids: seq<nat>): string {
    if ids == [] then "" else if |ids| == 1 then Ref(ids[0]) else Ref(ids[0]) + " " + Kids(ids[1..])
  }

  function XObjects(ids: seq<nat>): string {
    if ids == [] then ""
    else "/Im" + ToString(ids[0]) + " " + Ref(ids[0]) + (if |ids| == 1 then "" else " " + XObjects(ids[1..]))
  }

  function Body(o: Object, lib: Library): string {
    match o
    case Font => "<< /Type /Font /Subtype /Type1 /BaseFont /Helvetica-Bold /Encoding /WinAnsiEncoding >>"
    case Placeholder => "PLACEHOLDER"
    case Pages(kids) =>
      Concat(["<< /Type /Pages ", "/Count " + ToString(|kids|) + " ", "/Kids [ " + Kids(kids) + " ]", " >>"])
    case Image(picture) =>
      Concat(["<< /Type /XObject /Subtype /Image ", "/Width " + ToString(picture.width) + " ",
              "/Height " + ToString(picture.height) + " ",
              "/ColorSpace /DeviceRGB /BitsPerComponent 8 /Filter /FlateDecode "])
      + Stream(picture.data)
    case Content(draws) => "<< /Filter /FlateDecode " + Stream(lib.compress(draws))
    case Page(parent, content, images) =>
      Concat(["<< /Type /Page ", "/Parent " + Ref(parent), " ", "/MediaBox " + lib.mediaBox + " ",
              "/Resources << /Font << ", "/F1 " + Ref(1), " >> ", Pictures(images), " >> ",
              "/Contents " + Ref(content), " >>"])
    case Catalog(pages) => Concat(["<< /Type /Catalog ", "/Pages " + Ref(pages), " >>"])
  }

  function Concat(parts: seq<string>): string { if parts == [] then "" else parts[0] + Concat(parts[1..]) }

  /** The end of a dictionary with the length of the data, and the data. */
  function Stream(data: string): string {
    "/Length " + ToString(|data|) + " >>" + "\nstream\n" + data + "\nendstream"
  }

  function Pictures(images: seq<nat>): string {
    if images == [] then "" else "/XObject << " + XObjects(images) + " >>"
  }

  /** Some text stands between two others. */
  lemma {:induction false} Within(before: string, entry: string, after: string, text: string)
    requires text == before + entry + after
    ensures Includes(text, entry)
  {
    IncludesIff(text, entry);
  }

  lemma {:induction false} Nested(a: string, b: string, piece: string, y: string, z: string)
    ensures a + (b + piece + y) + z == (a + b) + piece + (y + z)
  {
  }

  lemma {:induction false} IncludesTrans(text: string, part: string, piece: string)
    requires Includes(text, part) && Includes(part, piece)
    ensures Includes(text, piece)
  {
    IncludesIff(text, part);
    IncludesIff(part, piece);
    var a, z :| text == a + part + z;
    var b, y :| part == b + piece + y;
    Nested(a, b, piece, y, z);
    Within(a + b, piece, y + z, text);
  }

  lemma {:induction false} InConcat(parts: seq<string>, k: nat)
    requires k < |parts|
    ensures Includes(Concat(parts), parts[k])
  {
    var rest := Concat(parts[1..]);
    if k == 0 {
      Within("", parts[0], rest, Concat(parts));
    } else {
      InConcat(parts[1..], k - 1);
      Within(parts[0], rest, "", Concat(parts));
      IncludesTrans(Concat(parts), rest, parts[k]);
    }
  }

  /** A page names its parent, its content, the font, and each of its pictures under the picture's own number. */
  lemma {:induction false} PageSays(parent: nat, content: nat, images: seq<nat>, lib: Library)
    ensures var text := Body(Page(parent, content, images), lib);
      && Includes(text, "/Parent " + (ToString(parent) + " 0 R"))
      && Includes(text, "/MediaBox " + lib.mediaBox + " ")
      && Includes(text, "/F1 " + (ToString(1) + " 0 R"))
      && Includes(text, "/Contents " + (ToString(content) + " 0 R"))
      && forall k | 0 <= k < |images| ::
           Includes(text, "/Im" + ToString(images[k]) + " " + (ToString(images[k]) + " 0 R"))
  {
    var text := Body(Page(parent, content, images), lib);
    var parts := ["<< /Type /Page ", "/Parent " + Ref(parent), " ", "/MediaBox " + lib.mediaBox + " ",
                  "/Resources << /Font << ", "/F1 " + Ref(1), " >> ", Pictures(images), " >> ",
                  "/Contents " + Ref(content), " >>"];
    assert text == Concat(parts);
    InConcat(parts, 1);
    InConcat(parts, 3);
    InConcat(parts, 5);
    InConcat(parts, 7);
    InConcat(parts, 9);
    forall k | 0 <= k < |images|
      ensures Includes(text, "/Im" + ToString(images[k]) + " " + (ToString(images[k]) + " 0 R")) {
      PictureStands(images, k);
      Within("/XObject << ", XObjects(images), " >>", Pictures(images));
      IncludesTrans(Pictures(images), XObjects(images), "/Im" + ToString(images[k]) + " " + Ref(images[k]));
      IncludesTrans(text, Pictures(images), "/Im" + ToString(images[k]) + " " + Ref(images[k]));
    }
  }

  /** Each picture has its entry among the pictures. */
  lemma {:induction false} PictureStands(ids: seq<nat>, k: nat)
    requires k < |ids|
    ensures Includes(XObjects(ids), "/Im" + ToString(ids[k]) + " " + Ref(ids[k]))
  {
    var first := "/Im" + ToString(ids[0]) + " " + Ref(ids[0]);
    var rest := if |ids| == 1 then "" else " " + XObjects(ids[1..]);
    assert XObjects(ids) == first + rest;
    if k == 0 {
      Within("", first, rest, XObjects(ids));
    } else {
      PictureStands(ids[1..], k - 1);
      Within(first + " ", XObjects(ids[1..]), "", XObjects(ids));
      IncludesTrans(XObjects(ids), XObjects(ids[1..]), "/Im" + ToString(ids[k]) + " " + Ref(ids[k]));
    }
  }

  predicate IsBlank(c: char) { c == ' ' }

  /** The words of a list of references. */
  function RefWords(ids: seq<nat>): seq<string> {
    if ids == [] then [] else [ToString(ids[0]), "0", "R"] + RefWords(ids[1..])
  }

  lemma {:induction false} SplitNext(w: string, rest: string)
    requires IsWord(w, IsBlank)
    ensures Split(w + " " + rest, IsBlank, []) == [w] + Split(rest, IsBlank, [])
  {
    SplitWord(w, " " + rest, IsBlank, []);
    assert w + " " + rest == w + (" " + rest) && [] + w == w;
    assert (" " + rest)[1..] == rest;
  }

  lemma {:induction false} SplitLast(w: string)
    requires IsWord(w, IsBlank)
    ensures Split(w, IsBlank, []) == [w]
  {
    SplitWord(w, "", IsBlank, []);
    assert w + "" == w && [] + w == w;
  }

  lemma {:induction false} ThreeWords(a: string, b: string, c: string)
    requires IsWord(a, IsBlank) && IsWord(b, IsBlank) && IsWord(c, IsBlank)
    ensures Split(a + (" " + b + " " + c), IsBlank, []) == [a, b, c]
  {
    SplitNext(a, b + " " + c);
    SplitNext(b, c);
    SplitLast(c);
    assert a + (" " + b + " " + c) == a + " " + (b + " " + c);
  }

  lemma {:induction false} ThreeWordsThen(a: string, b: string, c: string, rest: string)
    requires IsWord(a, IsBlank) && IsWord(b, IsBlank) && IsWord(c, IsBlank)
    ensures Split(a + (" " + b + " " + c) + " " + rest, IsBlank, []) == [a, b, c] + Split(rest, IsBlank, [])
  {
    SplitNext(a, b + " " + (c + " " + rest));
    SplitNext(b, c + " " + rest);
    SplitNext(c, rest);
    assert a + (" " + b + " " + c) + " " + rest == a + " " + (b + " " + (c + " " + rest));
  }

  lemma {:induction false} RefReadsBack(id: nat, rest: string)
    ensures Split(Ref(id), IsBlank, []) == [ToString(id), "0", "R"]
    ensures Split(Ref(id) + " " + rest, IsBlank, []) == [ToString(id), "0", "R"] + Split(rest, IsBlank, [])
  {
    ValueOfToString(id);
    ThreeWords(ToString(id), "0", "R");
    ThreeWordsThen(ToString(id), "0", "R", rest);
    assert " " + "0" + " " + "R" == " 0 R";
  }

  /** Read word by word, the list of pages is the pages' numbers as references, in their order. */
  lemma {:induction false} KidsReadBack(ids: seq<nat>)
    ensures Split(Kids(ids), IsBlank, []) == RefWords(ids)
  {
    if ids != [] {
      RefReadsBack(ids[0], Kids(ids[1..]));
      if |ids| > 1 { KidsReadBack(ids[1..]); }
    }
  }

  /** The page tree counts and lists its pages, and the catalog names the page tree. */
  lemma {:induction false} TreeSays(kids: seq<nat>, pages: nat, lib: Library)
    ensures Includes(Body(Pages(kids), lib), "/Count " + ToString(|kids|) + " ")
    ensures Includes(Body(Pages(kids), lib), "/Kids [ " + Kids(kids) + " ]")
    ensures Includes(Body(Catalog(pages), lib), "/Pages " + (ToString(pages) + " 0 R"))
  {
    var tree := ["<< /Type /Pages ", "/Count " + ToString(|kids|) + " ", "/Kids [ " + Kids(kids) + " ]", " >>"];
    InConcat(tree, 1);
    InConcat(tree, 2);
    InConcat(["<< /Type /Catalog ", "/Pages " + Ref(pages), " >>"], 1);
  }

  /** A text that ends with a stream of the given data, and says its length just before. */
  ghost predicate EndsWithStream(text: string, data: string) {
    exists before ::
      text == before + ("/Length " + ToString(|data|) + " >>" + "\nstream\n" + data + "\nendstream")
  }

  /** A picture says its size and carries its data, and a content carries what is drawn. */
  lemma {:induction false} StreamsSay(picture: Picture, draws: seq<Draw>, lib: Library)
    ensures EndsWithStream(Body(Image(picture), lib), picture.data)
    ensures Includes(Body(Image(picture), lib), "/Width " + ToString(picture.width) + " ")
    ensures Includes(Body(Image(picture), lib), "/Height " + ToString(picture.height) + " ")
    ensures EndsWithStream(Body(Content(draws), lib), lib.compress(draws))
  {
    var head := ["<< /Type /XObject /Subtype /Image ", "/Width " + ToString(picture.width) + " ",
                 "/Height " + ToString(picture.height) + " ",
                 "/ColorSpace /DeviceRGB /BitsPerComponent 8 /Filter /FlateDecode "];
    var text := Body(Image(picture), lib);
    assert text == Concat(head) + Stream(picture.data);
    Within("", Concat(head), Stream(picture.data), text);
    InConcat(head, 1);
    InConcat(head, 2);
    IncludesTrans(text, Concat(head), head[1]);
    IncludesTrans(text, Concat(head), head[2]);
  }

  function Bodies(objs: seq<Object>, lib: Library): seq<string> {
    seq(|objs|, i requires 0 <= i < |objs| => Body(objs[i], lib))
  }

  function ObjectText(number: nat, body: string): string { ToString(number) + " 0 obj\n" + body + "\nendobj\n" }

  const XREF_FREE := "0000000000 65535 f \n"

  function Entry(offset: nat): string { PadStart(ToString(offset), 10) + " 00000 n \n" }

  function Entries(offsets: seq<nat>): string {
    if offsets == [] then "" else Entries(offsets[..|offsets| - 1]) + Entry(offsets[|offsets| - 1])
  }

  function XrefHead(size: nat): string { "xref\n0 " + ToString(size) + "\n" }

  function XrefTable(offsets: seq<nat>): string {
    XrefHead(|offsets| + 1) + XREF_FREE + Entries(offsets)
  }

  function Trailer(size: nat, root: nat, xrefStart: nat): string {
    "trailer\n<< /Size " + ToString(size) + " /Root " + Ref(root) + " >>\n" + StartXref(xrefStart)
  }

  function StartXref(xrefStart: nat): string { "startxref\n" + ToString(xrefStart) + "\n%%EOF\n" }

  /** The text stands in the file at the position. */
  predicate At(file: string, position: nat, text: string) {
    position + |text| <= |file| && file[position..position + |text|] == text
  }

  lemma {:induction false} AtStays(file: string, more: string, position: nat, text: string)
    requires At(file, position, text)
    ensures At(file + more, position, text)
  {
  }

  /** The first objects stand at their offsets. */
  predicate ObjectsAt(pdf: string, bodies: seq<string>, offsets: seq<nat>) {
    && |offsets| <= |bodies|
    && forall i | 0 <= i < |offsets| ::
         offsets[i] < |pdf| && At(pdf, offsets[i], ToString(i + 1) + " 0 obj\n" + bodies[i] + "\nendobj\n")
  }

  /** The objects follow one another without gap, from the end of the header to the given position. */
  predicate Packed(bodies: seq<string>, offsets: seq<nat>, end: nat) {
    && |offsets| <= |bodies|
    && forall i | 0 <= i <= |offsets| ::
         (if i < |offsets| then offsets[i] else end)
         == if i == 0 then 15
            else offsets[i - 1] + |ToString(i) + " 0 obj\n" + bodies[i - 1] + "\nendobj\n"|
  }

  lemma {:induction false} PackedNext(bodies: seq<string>, offsets: seq<nat>, end: nat)
    requires Packed(bodies, offsets, end) && |offsets| < |bodies|
    ensures Packed(bodies, offsets + [end], end + |ObjectText(|offsets| + 1, bodies[|offsets|])|)
  {
  }

  lemma {:induction false} ObjectsStay(pdf: string, more: string, bodies: seq<string>, offsets: seq<nat>)
    requires ObjectsAt(pdf, bodies, offsets)
    ensures ObjectsAt(pdf + more, bodies, offsets)
  {
    forall i | 0 <= i < |offsets| ensures At(pdf + more, offsets[i], ObjectText(i + 1, bodies[i])) {
      AtStays(pdf, more, offsets[i], ObjectText(i + 1, bodies[i]));
    }
  }

  lemma {:induction false} NextObject(pdf: string, bodies: seq<string>, offsets: seq<nat>)
    requires ObjectsAt(pdf, bodies, offsets) && |offsets| < |bodies|
    ensures ObjectsAt(pdf + ObjectText(|offsets| + 1, bodies[|offsets|]), bodies, offsets + [|pdf|])
  {
    var text := ObjectText(|offsets| + 1, bodies[|offsets|]);
    ObjectsStay(pdf, text, bodies, offsets);
    AtEnd(pdf, text);
    assert |text| >= 1;
  }

  /**
   * The objects stand at their offsets, one after the other, between the header
   * and the cross-reference table with the trailer.
   */
  predicate FileOk(pdf: string, bodies: seq<string>, offsets: seq<nat>, xrefStart: nat, root: nat) {
    && |offsets| == |bodies| && ObjectsAt(pdf, bodies, offsets)
    && (forall i | 0 <= i < |offsets| :: offsets[i] < xrefStart)
    && xrefStart <= |pdf| && At(pdf, 0, "%PDF-1.5\n") && Packed(bodies, offsets, xrefStart)
    && pdf[xrefStart..]
       == "xref\n0 " + ToString(|bodies| + 1) + "\n" + "0000000000 65535 f \n" + Entries(offsets)
          + ("trailer\n<< /Size " + ToString(|bodies| + 1) + " /Root " + (ToString(root) + " 0 R") + " >>\n"
             + ("startxref\n" + ToString(xrefStart) + "\n%%EOF\n"))
  }

  lemma {:induction false} HeaderIs()
    ensures |HEADER| == 15 && At(HEADER, 0, "%PDF-1.5\n")
  {
  }

  /** Writes header, objects, cross-reference table and trailer, recording the byte offset of each object. */
  method Assemble(bodies: seq<string>, root: nat) returns (pdf: string, offsets: seq<nat>, xrefStart: nat)
    ensures FileOk(pdf, bodies, offsets, xrefStart, root)
  {
    pdf, offsets := HEADER, [];
    HeaderIs();
    for i := 0 to |bodies|
      invariant |offsets| == i && ObjectsAt(pdf, bodies, offsets)
      invariant At(pdf, 0, "%PDF-1.5\n") && Packed(bodies, offsets, |pdf|)
    {
      NextObject(pdf, bodies, offsets);
      PackedNext(bodies, offsets, |pdf|);
      AtStays(pdf, ObjectText(i + 1, bodies[i]), 0, "%PDF-1.5\n");
      offsets := offsets + [|pdf|];
      pdf := pdf + ObjectText(i + 1, bodies[i]);
    }
    xrefStart := |pdf|;
    var entries := WriteEntries(offsets);
    var tail := XrefHead(|offsets| + 1) + XREF_FREE + entries + Trailer(|bodies| + 1, root, xrefStart);
    ObjectsStay(pdf, tail, bodies, offsets);
    AtStays(pdf, tail, 0, "%PDF-1.5\n");
    assert (pdf + tail)[xrefStart..] == tail;
    pdf := pdf + tail;
  }

  method WriteEntries(offsets: seq<nat>) returns (text: string)
    ensures text == Entries(offsets)
  {
    text := "";
    assert offsets[..0] == [];
    for i := 0 to |offsets|
      invariant text == Entries(offsets[..i])
    {
      EntriesNext(offsets, i);
      text := text + Entry(offsets[i]);
    }
    assert offsets[..|offsets|] == offsets;
  }

  lemma {:induction false} EntriesNext(offsets: seq<nat>, i: nat)
    requires i < |offsets|
    ensures Entries(offsets[..i + 1]) == Entries(offsets[..i]) + Entry(offsets[i])
  {
    assert offsets[..i + 1][..i] == offsets[..i];
  }

  const OFFSET_LIMIT: nat := 10_000_000_000

  lemma {:induction false} LimitIsTenDigits()
    ensures Pow10(10) == OFFSET_LIMIT
  {
    assert Pow10(5) == 100_000;
    assert Pow10(10) == 100_000 * Pow10(5);
  }

  /** An entry has the 20 bytes that the format asks for exactly when its offset is below 10^10. */
  lemma {:induction false} EntryIsTwentyBytes(offset: nat)
    ensures |Entry(offset)| == 20 <==> offset < OFFSET_LIMIT
    ensures |Entry(offset)| >= 20
  {
    ValueOfToString(offset);
    ValueOfPadded(ToString(offset), 10);
    LengthBound(offset, 10);
    LimitIsTenDigits();
  }

  lemma {:induction false} EntriesLength(offsets: seq<nat>)
    requires forall i | 0 <= i < |offsets| :: offsets[i] < OFFSET_LIMIT
    ensures |Entries(offsets)| == 20 * |offsets|
  {
    if offsets != [] {
      EntriesLength(offsets[..|offsets| - 1]);
      EntryIsTwentyBytes(offsets[|offsets| - 1]);
    }
  }

  lemma {:induction false} EntryAt(offsets: seq<nat>, i: nat)
    requires i < |offsets| && forall k | 0 <= k < |offsets| :: offsets[k] < OFFSET_LIMIT
    ensures At(Entries(offsets), 20 * i, Entry(offsets[i]))
  {
    var front, last := offsets[..|offsets| - 1], Entry(offsets[|offsets| - 1]);
    assert Entries(offsets) == Entries(front) + last;
    if i < |front| {
      assert front[i] == offsets[i];
      EntryAt(front, i);
      AtStays(Entries(front), last, 20 * i, Entry(front[i]));
    } else {
      EntriesLength(front);
      AtEnd(Entries(front), last);
    }
  }

  lemma {:induction false} AtEnd(file: string, text: string)
    ensures At(file + text, |file|, text)
  {
  }

  lemma {:induction false} AtShift(before: string, file: string, position: nat, text: string)
    requires At(file, position, text)
    ensures At(before + file, |before| + position, text)
  {
  }

  /** What stands in the tail of a file stands in the file. */
  lemma {:induction false} AtInTail(pdf: string, start: nat, table: string, rest: string, position: nat, text: string)
    requires start <= |pdf| && pdf[start..] == table + rest && At(table, position, text)
    ensures At(pdf, start + position, text)
  {
    AtStays(table, rest, position, text);
    AtShift(pdf[..start], pdf[start..], position, text);
    assert pdf == pdf[..start] + pdf[start..];
  }

  lemma {:induction false} TableEntryAt(offsets: seq<nat>, i: nat)
    requires i < |offsets| && forall k | 0 <= k < |offsets| :: offsets[k] < OFFSET_LIMIT
    ensures At(XrefTable(offsets), |XrefHead(|offsets| + 1)| + 20 * (i + 1), Entry(offsets[i]))
  {
    EntryAt(offsets, i);
    AtShift(XrefHead(|offsets| + 1) + XREF_FREE, Entries(offsets), 20 * i, Entry(offsets[i]));
    assert |XREF_FREE| == 20;
  }

  lemma {:induction false} EntryReadsBack(pdf: string, position: nat, offset: nat)
    requires At(pdf, position, Entry(offset)) && offset < OFFSET_LIMIT
    ensures position + 20 <= |pdf| && pdf[position + 10..position + 20] == " 00000 n \n"
    ensures var digits := pdf[position..position + 10]; AllDigits(digits) && Value(digits) == offset
  {
    EntryIsTwentyBytes(offset);
    ValueOfToString(offset);
    ValueOfPadded(ToString(offset), 10);
    LengthBound(offset, 10);
    LimitIsTenDigits();
    assert pdf[position..position + 10] == pdf[position..position + |Entry(offset)|][..10] == Entry(offset)[..10]
           == PadStart(ToString(offset), 10);
    assert pdf[position + 10..position + 20] == pdf[position..position + |Entry(offset)|][10..] == Entry(offset)[10..];
  }

  /** Twenty bytes: the number of the position where object k begins, and that it is in use. */
  predicate EntryFor(pdf: string, position: nat, k: nat) {
    && position + 20 <= |pdf| && pdf[position + 10..position + 20] == " 00000 n \n"
    && var digits := pdf[position..position + 10];
       AllDigits(digits) && At(pdf, Value(digits), ToString(k) + " 0 obj\n")
  }

  /** Entries stand 20 bytes apart after the table's head, the free entry 0 being the first. */
  function EntryPosition(xrefStart: nat, size: nat, k: nat): nat {
    xrefStart + |"xref\n0 " + ToString(size) + "\n"| + 20 * k
  }

  lemma {:induction false} EntryNamesObject(pdf: string, position: nat, offset: nat, k: nat, body: string)
    requires At(pdf, position, Entry(offset)) && offset < OFFSET_LIMIT
    requires At(pdf, offset, ObjectText(k, body))
    ensures EntryFor(pdf, position, k)
  {
    EntryReadsBack(pdf, position, offset);
    HeadAt(pdf, offset, k, body);
  }

  /**
   * Main result on the cross-reference table: read back from the file, the
   * entry of object k is 20 bytes long and its number is the position where
   * the text of object k begins.
   */
  lemma {:induction false} XrefReadsBack(pdf: string, bodies: seq<string>, offsets: seq<nat>, xrefStart: nat,
                                         root: nat, k: nat)
    requires FileOk(pdf, bodies, offsets, xrefStart, root) && xrefStart <= OFFSET_LIMIT
    requires 1 <= k <= |bodies|
    ensures EntryFor(pdf, EntryPosition(xrefStart, |bodies| + 1, k), k)
  {
    EntryStands(pdf, offsets, xrefStart, Trailer(|bodies| + 1, root, xrefStart), k);
    EntryNamesObject(pdf, EntryPosition(xrefStart, |bodies| + 1, k), offsets[k - 1], k, bodies[k - 1]);
  }

  lemma {:induction false} EntryStands(pdf: string, offsets: seq<nat>, xrefStart: nat, rest: string, k: nat)
    requires xrefStart <= |pdf| && pdf[xrefStart..] == XrefTable(offsets) + rest
    requires 1 <= k <= |offsets| && forall i | 0 <= i < |offsets| :: offsets[i] < OFFSET_LIMIT
    ensures At(pdf, EntryPosition(xrefStart, |offsets| + 1, k), Entry(offsets[k - 1]))
  {
    var entry, table := Entry(offsets[k - 1]), XrefTable(offsets);
    var position := |XrefHead(|offsets| + 1)| + 20 * k;
    TableEntryAt(offsets, k - 1);
    AtInTail(pdf, xrefStart, table, rest, position, entry);
  }

  /** The file ends with a pointer to the place where the cross-reference table stands. */
  lemma {:induction false} StartXrefPointsAtTable(pdf: string, bodies: seq<string>, offsets: seq<nat>, xrefStart: nat,
                                                   root: nat)
    requires FileOk(pdf, bodies, offsets, xrefStart, root)
    ensures At(pdf, xrefStart, "xref\n")
    ensures At(pdf, |pdf| - |StartXref(xrefStart)|, StartXref(xrefStart))
  {
    var last := StartXref(xrefStart);
    var trailer := Trailer(|bodies| + 1, root, xrefStart);
    assert XrefHead(|offsets| + 1)[..5] == "xref\n";
    assert XrefTable(offsets)[..5] == XrefHead(|offsets| + 1)[..5];
    AtInTail(pdf, xrefStart, XrefTable(offsets), trailer, 0, "xref\n");
    assert trailer[|trailer| - |last|..] == last;
    assert pdf[|pdf| - |last|..] == pdf[xrefStart..][|pdf| - xrefStart - |last|..] == trailer[|trailer| - |last|..];
  }

  lemma {:induction false} HeadAt(pdf: string, offset: nat, k: nat, body: string)
    requires At(pdf, offset, ObjectText(k, body))
    ensures At(pdf, offset, ToString(k) + " 0 obj\n")
  {
    var head := ToString(k) + " 0 obj\n";
    var text := ObjectText(k, body);
    assert text == head + (body + "\nendobj\n");
    assert pdf[offset..offset + |head|] == pdf[offset..offset + |text|][..|head|] == text[..|head|] == head;
  }

  lemma {:induction false} Finished(table: seq<Object>, done: seq<Object>, ids: seq<nat>, labels: seq<RollLabel>,
                                    cols: nat, cache: map<string, nat>, lib: Library)
    requires cols >= 1 && |ids| == PagesNeeded(|labels|, cols)
    requires |table| >= 2 && table[0] == Font && table[1] == Placeholder
    requires forall k | 2 <= k < |table| :: IsPart(table[k])
    requires PagesOk(table, ids, labels, cols, cache, lib) && CacheOk(table, cache, lib)
    requires done == table[1 := Pages(ids)] + [Catalog(2)]
    ensures DocumentOk(done, ids, labels, cols, cache, lib)
  {
    FinishKeepsPages(table, done, ids, labels, cols, cache, lib);
    forall k | 0 <= k < |done| ensures RefsOk(done, done[k]) {
      ReferencesResolve(done, ids, labels, cols, cache, lib, k);
    }
  }

  method BuildRollLocationPdf(labels: seq<RollLabel>, widthMm: real, mediaWidthMm: Option<real>, lib: Library)
    returns (result: Result<string, PdfError>, ghost objs: seq<Object>, ghost pageIds: seq<nat>,
             ghost cache: map<string, nat>, ghost offsets: seq<nat>, ghost xrefStart: nat)
    ensures result.Failure? <==> labels == []
    ensures result.Success? ==>
      && DocumentOk(objs, pageIds, labels, Columns(widthMm, mediaWidthMm), cache, lib)
      && FileOk(result.value, Bodies(objs, lib), offsets, xrefStart, |objs|)
  {
    var cols := Columns(widthMm, mediaWidthMm);
    var table, ids, known := BuildPages(labels, cols, lib);
    objs, pageIds, cache, offsets, xrefStart := table, ids, known, [], 0;
    PageStart(|labels|, cols, 0);
    if |ids| == 0 { return Failure(NoPage), objs, pageIds, cache, offsets, xrefStart; }
    var done := table[1 := Pages(ids)] + [Catalog(2)];
    Finished(table, done, ids, labels, cols, known, lib);
    var pdf, offs, start := Assemble(Bodies(done, lib), |done|);
    objs, offsets, xrefStart := done, offs, start;
    return Success(pdf), objs, pageIds, cache, offsets, xrefStart;
  }
}
