/** The markup step of pixx (src/pixx.ts:62-114, 143-179): once the store is
    built and every image encoded, the closure returned by `pixx` writes the
    `<picture>` (or, for resolution switching, the bare `<img>`) from the
    store, and works out the Content-Security-Policy for the inline styles. */
module Pixx {
  import opened Text
  import opened Schema
  import opened Conditions
  import opened Plan

  // ---------------------------------------------------------------------
  // The store (src/schema.ts:139-159, 173-192), as far as the markup reads it

  /** One `<source>` to be: its image type and its srcset text. */
  datatype Source = Source(typeName: string, srcset: string)

  /** TNewImageMeta: a written image, its size and its public path. */
  datatype NewImage = NewImage(width: nat, height: nat, htmlPath: string)

  /** TImageMeta: what was planned and made for one source image. */
  datatype ImageMeta = ImageMeta(
    mediaCondition: string,
    fallbackImage: NewImage,
    classStr: string,
    sources: seq<Source>,
    styles: string)

  /** TStore. `styleSrc` holds the hashes of the inline styles. */
  datatype Store = Store(
    isArtDirection: bool,
    isResolutionSwitching: bool,
    styleSrc: seq<string>,
    imagesMeta: seq<ImageMeta>,
    options: Options,
    css: Dialect)

  // ---------------------------------------------------------------------
  // Attribute names in the store's dialect

  /** How the store's dialect spells a key: class, srcset and fetchpriority
      come from the dialect table, every other name is fixed. */
  function DialectName(k: Key, css: Dialect): string
  {
    match k
    case Class => css.className
    case SrcSet => css.srcSet
    case FetchPriority => css.fetchPriority
    case _ => KeyName(k, false)
  }

  /** `name=value ` for each attribute, in order. */
  function Rendered(attrs: seq<Attr>, css: Dialect): string
  {
    if |attrs| == 0 then "" else DialectName(attrs[0].key, css) + "=" + attrs[0].value + " " + Rendered(attrs[1..], css)
  }

  /** With the HTML or JSX table, the store's spelling is the one the tag
      builders of src/utils.ts use for the same `jsx` flag. */
  lemma NamesAgree(k: Key, jsx: bool)
    ensures DialectName(k, DialectFor(jsx)) == KeyName(k, jsx)
  {
  }

  lemma {:induction false} RenderedAgree(attrs: seq<Attr>, jsx: bool)
    ensures Rendered(attrs, DialectFor(jsx)) == RenderAttrs(attrs, jsx)
  {
    if |attrs| > 0 {
      NamesAgree(attrs[0].key, jsx);
      RenderedAgree(attrs[1..], jsx);
    }
  }

  // ---------------------------------------------------------------------
  // The media attribute (src/pixx.ts:69-72, 80)

  /** The media part of an entry's condition: only in art direction, only
      for a non-empty condition, and only when splitCondition finds one. */
  function MediaFor(store: Store, meta: ImageMeta): (r: Option<string>)
  {
    if store.isArtDirection && meta.mediaCondition != "" then SplitCondition(meta.mediaCondition).media else None
  }

  /** The media text a `<source>` writes; empty means no media attribute. */
  function MediaText(store: Store, meta: ImageMeta): (m: string)
  {
    match MediaFor(store, meta)
    case Some(c) => c
    case None => ""
  }

  /** A source gets a media attribute exactly when the store is in art
      direction and the entry's condition holds a ") "; its value is the
      trimmed text up to the last ") ", which ends with ')'. */
  lemma MediaPresence(store: Store, meta: ImageMeta)
    ensures var m := MediaText(store, meta);
      && (m != "" <==> store.isArtDirection && Contains(meta.mediaCondition, ") "))
      && (m != "" ==>
            var i := LastIndexOf(meta.mediaCondition, ") ");
            m == Trim(meta.mediaCondition[..i + 1]) && m[|m| - 1] == ')')
  {
    if store.isArtDirection && meta.mediaCondition == "" {
      assert !Contains(meta.mediaCondition, ") ");
    }
  }

  // ---------------------------------------------------------------------
  // `<source>` lines (src/pixx.ts:75-86)

  /** One `<source>` line: type, media when there is one, the sizes joined
      by ", " and the srcset under the dialect's name. */
  function SourceLine(css: Dialect, sizes: seq<string>, media: string, src: Source): string
  {
    "\t<source " + Rendered(SourceAttrs(src.typeName, media, sizes, src.srcset), css) + "/>\n"
  }

  /** The lines of one entry's sources, in order. */
  function SourceLines(css: Dialect, sizes: seq<string>, media: string, srcs: seq<Source>): (r: seq<string>)
    ensures |r| == |srcs|
  {
    if |srcs| == 0 then []
    else SourceLines(css, sizes, media, srcs[..|srcs| - 1]) + [SourceLine(css, sizes, media, srcs[|srcs| - 1])]
  }

  /** The j-th line is the j-th source's, and the lines of a prefix are a prefix. */
  lemma {:induction false} SourceLinesAt(css: Dialect, sizes: seq<string>, media: string, srcs: seq<Source>, j: nat)
    requires j < |srcs|
    ensures SourceLines(css, sizes, media, srcs)[j] == SourceLine(css, sizes, media, srcs[j])
    decreases |srcs|
  {
    if j < |srcs| - 1 {
      var init := srcs[..|srcs| - 1];
      SourceLinesAt(css, sizes, media, init, j);
    }
  }

  /** Every source line of all entries: entry by entry, each in its sources' order. */
  function AllSourceLines(store: Store, metas: seq<ImageMeta>): (r: seq<string>)
    ensures |r| == SourceCount(metas)
  {
    if |metas| == 0 then []
    else
      var last := metas[|metas| - 1];
      AllSourceLines(store, metas[..|metas| - 1])
      + SourceLines(store.css, store.options.sizes, MediaText(store, last), last.sources)
  }

  /** How many sources the entries hold together. */
  function SourceCount(metas: seq<ImageMeta>): nat
  {
    if |metas| == 0 then 0 else SourceCount(metas[..|metas| - 1]) + |metas[|metas| - 1].sources|
  }

  /** The entries before `n` hold SourceCount(metas[..n]) sources. */
  lemma {:induction false} SourceCountPrefix(metas: seq<ImageMeta>, n: nat)
    requires n <= |metas|
    ensures SourceCount(metas[..n]) <= SourceCount(metas)
    ensures n < |metas| ==> SourceCount(metas[..n]) + |metas[n].sources| <= SourceCount(metas)
    decreases |metas|
  {
    if n < |metas| {
      var init := metas[..|metas| - 1];
      if n < |metas| - 1 {
        SourceCountPrefix(init, n);
        assert init[..n] == metas[..n];
        assert init[n] == metas[n];
      } else {
        assert metas[..n] == init;
      }
    } else {
      assert metas[..n] == metas;
    }
  }

  /** Sources are emitted entry by entry and, within an entry, in its
      sources' order: the j-th source of entry i is line
      SourceCount(metas[..i]) + j, written with that entry's media. */
  lemma {:induction false} SourceOrder(store: Store, metas: seq<ImageMeta>, i: nat, j: nat)
    requires i < |metas| && j < |metas[i].sources|
    ensures SourceCount(metas[..i]) + j < SourceCount(metas)
    ensures AllSourceLines(store, metas)[SourceCount(metas[..i]) + j]
         == SourceLine(store.css, store.options.sizes, MediaText(store, metas[i]), metas[i].sources[j])
    decreases |metas|
  {
    SourceCountPrefix(metas, i);
    var init := metas[..|metas| - 1];
    var last := metas[|metas| - 1];
    var lines := SourceLines(store.css, store.options.sizes, MediaText(store, last), last.sources);
    assert AllSourceLines(store, metas) == AllSourceLines(store, init) + lines;
    if i < |metas| - 1 {
      assert init[..i] == metas[..i] && init[i] == metas[i];
      SourceOrder(store, init, i, j);
    } else {
      assert metas[..i] == init;
      SourceLinesAt(store.css, store.options.sizes, MediaText(store, last), last.sources, j);
    }
  }

  /** Each `<source>` carries its type first and the sizes and srcset last,
      and a media attribute exactly when its entry has a media part. */
  lemma SourceLineAttrs(store: Store, meta: ImageMeta, src: Source)
    ensures var a := SourceAttrs(src.typeName, MediaText(store, meta), store.options.sizes, src.srcset);
      && SourceLine(store.css, store.options.sizes, MediaText(store, meta), src)
         == "\t<source " + Rendered(a, store.css) + "/>\n"
      && a[0] == Attr(Type, "\"image/" + src.typeName + "\"")
      && a[|a| - 2] == Attr(Sizes, Quote(Join(store.options.sizes, ", ")))
      && a[|a| - 1] == Attr(SrcSet, Quote(src.srcset))
      && (Has(a, Media) <==> store.isArtDirection && Contains(meta.mediaCondition, ") "))
  {
    SourceAttrShape(src.typeName, MediaText(store, meta), store.options.sizes, src.srcset);
    MediaPresence(store, meta);
  }

  // ---------------------------------------------------------------------
  // The fallback `<img>` (src/pixx.ts:89-105)

  function SrcAttr(meta: ImageMeta): (r: seq<Attr>)
    ensures forall k :: Has(r, k) <==> k == Src
  {
    var r := [Attr(Src, Quote(meta.fallbackImage.htmlPath))];
    assert forall k :: !Has(r[1..], k);
    r
  }

  /** The srcset of the first source; a template literal writes an absent
      one as "undefined". */
  function FirstSrcset(srcs: seq<Source>): string
  {
    if |srcs| > 0 then srcs[0].srcset else "undefined"
  }

  /** Only resolution switching puts a srcset on the `<img>`. */
  function ImgSrcSetAttr(store: Store, meta: ImageMeta): (r: seq<Attr>)
    ensures forall k :: Has(r, k) <==> k == SrcSet && store.isResolutionSwitching
  {
    if store.isResolutionSwitching then
      var r := [Attr(SrcSet, Quote(FirstSrcset(meta.sources)))];
      assert forall k :: !Has(r[1..], k);
      r
    else []
  }

  /** The style inside the dialect's brackets and the class string as
      classBuilder wrote it, each only when non-empty. */
  function LookAttrs(css: Dialect, styles: string, classStr: string): (r: seq<Attr>)
    ensures forall k :: Has(r, k) <==> (k == Style && styles != "") || (k == Class && classStr != "")
  {
    var st := if styles != "" then [Attr(Style, Bracketed(css, styles))] else [];
    var cl := if classStr != "" then [Attr(Class, classStr)] else [];
    assert forall k :: Has(st, k) <==> k == Style && styles != "" by {
      if styles != "" { assert forall k :: !Has(st[1..], k); }
    }
    assert forall k :: Has(cl, k) <==> k == Class && classStr != "" by {
      if classStr != "" { assert forall k :: !Has(cl[1..], k); }
    }
    forall k ensures Has(st + cl, k) <==> Has(st, k) || Has(cl, k) {
      HasAppend(st, cl, k);
    }
    st + cl
  }

  /** Sizes, alt and the fallback image's width and height: always written.
      `options.sizes` is an array, which a JavaScript test never finds
      false, so the sizes attribute is there even for an empty list. */
  function FixedAttrs(o: Options, img: NewImage): (r: seq<Attr>)
    ensures forall k :: Has(r, k) <==> k == Sizes || k == Alt || k == WidthKey || k == HeightKey
  {
    var r := [Attr(Sizes, Quote(Join(o.sizes, ", "))),
              Attr(Alt, Quote(o.alt)),
              Attr(WidthKey, Quote(NatToString(img.width))),
              Attr(HeightKey, Quote(NatToString(img.height)))];
    assert forall k :: !Has(r[4..], k);
    assert forall k :: Has(r[3..], k) <==> k == HeightKey;
    assert forall k :: Has(r[2..], k) <==> k == WidthKey || k == HeightKey;
    assert forall k :: Has(r[1..], k) <==> k == Alt || k == WidthKey || k == HeightKey;
    r
  }

  /** The attributes of the `<img>`, in the order src/pixx.ts:90-103 writes them. */
  function ImgAttrs(store: Store, meta: ImageMeta): seq<Attr>
  {
    SrcAttr(meta) + ImgSrcSetAttr(store, meta) + LookAttrs(store.css, meta.styles, meta.classStr)
    + FixedAttrs(store.options, meta.fallbackImage) + TitleAttr(store.options.title)
    + HintAttrs(store.options.loading, store.options.decoding, store.options.fetchPriority)
  }

  /** The `<img>` made from one entry: `/>` closes it only in JSX. */
  function ImgText(store: Store, meta: ImageMeta): string
  {
    "\t<img " + Rendered(ImgAttrs(store, meta), store.css) + " " + (if store.options.jsx then "/" else "") + ">"
  }

  /** Which attributes the `<img>` carries. */
  predicate ImgCarries(store: Store, meta: ImageMeta, k: Key)
  {
    match k
    case SrcSet => store.isResolutionSwitching
    case Style => meta.styles != ""
    case Class => meta.classStr != ""
    case Title => store.options.title != ""
    case Type | Media => false
    case _ => true
  }

  /** The `<img>` has a srcset only in resolution switching, a style and a
      class only when the entry has them, a title only when one is set, and
      src, sizes, alt, width, height, loading, decoding and fetch priority
      always. */
  lemma ImgKeys(store: Store, meta: ImageMeta, k: Key)
    ensures Has(ImgAttrs(store, meta), k) <==> ImgCarries(store, meta, k)
  {
    var a, b, c := SrcAttr(meta), ImgSrcSetAttr(store, meta), LookAttrs(store.css, meta.styles, meta.classStr);
    var d, e := FixedAttrs(store.options, meta.fallbackImage), TitleAttr(store.options.title);
    var f := HintAttrs(store.options.loading, store.options.decoding, store.options.fetchPriority);
    HasSix(a, b, c, d, e, f, k);
    CarriedByParts(store, meta, k, Has(a + b + c + d + e + f, k),
                   Has(a, k), Has(b, k), Has(c, k), Has(d, k), Has(e, k), Has(f, k));
  }

  lemma CarriedByParts(store: Store, meta: ImageMeta, k: Key, all: bool,
                       a: bool, b: bool, c: bool, d: bool, e: bool, f: bool)
    requires all <==> a || b || c || d || e || f
    requires a <==> k == Src
    requires b <==> k == SrcSet && store.isResolutionSwitching
    requires c <==> (k == Style && meta.styles != "") || (k == Class && meta.classStr != "")
    requires d <==> k == Sizes || k == Alt || k == WidthKey || k == HeightKey
    requires e <==> k == Title && store.options.title != ""
    requires f <==> k == Loading || k == Decoding || k == FetchPriority
    ensures all <==> ImgCarries(store, meta, k)
  {
  }

  /** In resolution switching the `<img>`'s srcset, its second attribute,
      is the first source's ("undefined" when there is none). */
  lemma ImgSrcSetFromFirst(store: Store, meta: ImageMeta)
    requires store.isResolutionSwitching
    ensures |ImgAttrs(store, meta)| > 1
    ensures ImgAttrs(store, meta)[1] == Attr(SrcSet, Quote(if |meta.sources| > 0 then meta.sources[0].srcset else "undefined"))
  {
    var head := SrcAttr(meta) + ImgSrcSetAttr(store, meta);
    var c, d := LookAttrs(store.css, meta.styles, meta.classStr), FixedAttrs(store.options, meta.fallbackImage);
    var e := TitleAttr(store.options.title);
    var f := HintAttrs(store.options.loading, store.options.decoding, store.options.fetchPriority);
    assert |head| == 2;
    assert ImgAttrs(store, meta) == head + c + d + e + f;
  }

  /** The `<img>` ends in " />" in JSX and in " >" in HTML. */
  lemma ImgClosing(store: Store, meta: ImageMeta)
    ensures var t := ImgText(store, meta);
      && |t| >= 3
      && (store.options.jsx ==> t[|t| - 3..] == " />")
      && (!store.options.jsx ==> t[|t| - 2..] == " >")
  {
    var body := "\t<img " + Rendered(ImgAttrs(store, meta), store.css);
    var close := " " + (if store.options.jsx then "/" else "") + ">";
    assert ImgText(store, meta) == body + close;
  }

  // ---------------------------------------------------------------------
  // The whole markup (src/pixx.ts:64-108)

  /** The `<img>` text after the loop: made from the last entry only; with
      no entries it stays the bare opening. */
  function FinalImg(store: Store): string
  {
    var metas := store.imagesMeta;
    if |metas| == 0 then "\t<img " else ImgText(store, metas[|metas| - 1])
  }

  /** What the closure returns: the `<img>` alone in resolution switching,
      otherwise the `<picture>` with every source line, the `<img>` and the
      closing tag. */
  function Markup(store: Store): string
  {
    if store.isResolutionSwitching then FinalImg(store)
    else "<picture>\n" + Concat(AllSourceLines(store, store.imagesMeta)) + FinalImg(store) + "\n</picture>"
  }

  /** Only the last entry shapes the `<img>`: entries before it add sources
      and nothing else. In resolution switching they change nothing at all. */
  lemma ImgFromLast(store: Store, earlier: seq<ImageMeta>, last: ImageMeta)
    ensures FinalImg(store.(imagesMeta := earlier + [last])) == ImgText(store, last)
    ensures store.isResolutionSwitching ==>
      Markup(store.(imagesMeta := earlier + [last])) == Markup(store.(imagesMeta := [last]))
  {
    var s1, s2 := store.(imagesMeta := earlier + [last]), store.(imagesMeta := [last]);
    assert ImgAttrs(s1, last) == ImgAttrs(store, last) == ImgAttrs(s2, last);
  }

  /** In picture mode the markup opens with "<picture>\n", closes with
      "\n</picture>", and holds the concatenated source lines right after
      the opening. */
  lemma PictureFrame(store: Store)
    requires !store.isResolutionSwitching
    ensures var m := Markup(store);
      var src := Concat(AllSourceLines(store, store.imagesMeta));
      && |m| == 10 + |src| + |FinalImg(store)| + 11
      && m[..10] == "<picture>\n"
      && m[10..10 + |src|] == src
      && m[|m| - 11..] == "\n</picture>"
  {
    Framed(Concat(AllSourceLines(store, store.imagesMeta)), FinalImg(store));
  }

  lemma Framed(src: string, img: string)
    ensures var m := "<picture>\n" + src + img + "\n</picture>";
      && |m| == 10 + |src| + |img| + 11
      && m[..10] == "<picture>\n"
      && m[10..10 + |src|] == src
      && m[|m| - 11..] == "\n</picture>"
  {
    var m := "<picture>\n" + src + img + "\n</picture>";
    assert m == "<picture>\n" + (src + (img + "\n</picture>"));
  }

  /** The `reduce` over one entry's sources (src/pixx.ts:76-85). */
  method SourceBlock(css: Dialect, sizes: seq<string>, media: string, srcs: seq<Source>) returns (acc: string)
    ensures acc == Concat(SourceLines(css, sizes, media, srcs))
  {
    acc := "";
    var j := 0;
    while j < |srcs|
      invariant 0 <= j <= |srcs|
      invariant acc == Concat(SourceLines(css, sizes, media, srcs[..j]))
    {
      var line := SourceLine(css, sizes, media, srcs[j]);
      assert srcs[..j + 1][..j] == srcs[..j];
      ConcatSnoc(SourceLines(css, sizes, media, srcs[..j]), line);
      acc := acc + line;
      j := j + 1;
    }
    assert srcs[..j] == srcs;
  }

  /** The markup loop (src/pixx.ts:64-108): sources accumulate in `picture`
      entry by entry, and the `<img>` is finished at the last entry. */
  method BuildMarkup(store: Store) returns (pic: string)
    ensures pic == Markup(store)
  {
    var metas := store.imagesMeta;
    var picture := "<picture>\n";
    var img := "\t<img ";
    var i := 0;
    while i < |metas|
      invariant 0 <= i <= |metas|
      invariant picture == "<picture>\n" + (if store.isResolutionSwitching then "" else Concat(AllSourceLines(store, metas[..i])))
      invariant img == if i == |metas| then FinalImg(store) else "\t<img "
    {
      var meta := metas[i];
      var media := MediaText(store, meta);
      if !store.isResolutionSwitching {
        var block := SourceBlock(store.css, store.options.sizes, media, meta.sources);
        SourcesStep(store, metas, i);
        AppendAssoc("<picture>\n", Concat(AllSourceLines(store, metas[..i])), block);
        picture := picture + block;
      }
      if i + 1 == |metas| {
        img := img + Rendered(ImgAttrs(store, meta), store.css) + " " + (if store.options.jsx then "/" else "") + ">";
      }
      i := i + 1;
    }
    assert metas[..i] == metas;
    if store.isResolutionSwitching {
      pic := img;
    } else {
      pic := picture + img + "\n</picture>";
    }
  }

  /** One more entry appends its source lines. */
  lemma SourcesStep(store: Store, metas: seq<ImageMeta>, i: nat)
    requires i < |metas|
    ensures Concat(AllSourceLines(store, metas[..i + 1]))
         == Concat(AllSourceLines(store, metas[..i]))
            + Concat(SourceLines(store.css, store.options.sizes, MediaText(store, metas[i]), metas[i].sources))
  {
    assert metas[..i + 1][..i] == metas[..i];
    ConcatAppend(AllSourceLines(store, metas[..i]),
                 SourceLines(store.css, store.options.sizes, MediaText(store, metas[i]), metas[i].sources));
  }

  // ---------------------------------------------------------------------
  // The style policy (src/pixx.ts:111-114)

  const PolicyHead: string := "default-src 'none'; img-src 'self' data:; base-uri 'self'; manifest-src 'self'; style-src 'self' "

  /** A hash in single quotes. */
  function SingleQuoted(h: string): string
  {
    "'" + h + "'"
  }

  function QuotedAll(hashes: seq<string>): (r: seq<string>)
    ensures |r| == |hashes|
    ensures forall i :: 0 <= i < |hashes| ==> r[i] == SingleQuoted(hashes[i])
  {
    if |hashes| == 0 then [] else [SingleQuoted(hashes[0])] + QuotedAll(hashes[1..])
  }

  /** The Content-Security-Policy the closure reports, only when some inline
      style was hashed. */
  function StylePolicy(hashes: seq<string>): (r: Option<string>)
    ensures r.Some? <==> |hashes| > 0
  {
    if |hashes| == 0 then None
    else Some(PolicyHead + Join(QuotedAll(hashes), " ") + ";")
  }

  /** The policy is the fixed head, the quoted hashes and a ';'; hashes
      without spaces (base64 has none) can be read back from it in order. */
  lemma StylePolicyHashes(hashes: seq<string>)
    requires |hashes| > 0
    requires forall i :: 0 <= i < |hashes| ==> ' ' !in hashes[i]
    ensures var p := StylePolicy(hashes).value;
      && |p| > |PolicyHead| && p[..|PolicyHead|] == PolicyHead && p[|p| - 1] == ';'
      && Split(p[|PolicyHead|..|p| - 1], ' ') == QuotedAll(hashes)
  {
    var q := QuotedAll(hashes);
    var mid := Join(q, " ");
    var p := StylePolicy(hashes).value;
    assert p == PolicyHead + mid + ";";
    assert p[|PolicyHead|..|p| - 1] == mid;
    forall i | 0 <= i < |q| ensures ' ' !in q[i] {
      assert q[i] == "'" + hashes[i] + "'";
    }
    SplitJoin(q, ' ');
  }

  // ---------------------------------------------------------------------
  // The closure (src/pixx.ts:28-33, 57-60, 142-179)

  /** How the steps before the markup ended: the store, or an error thrown
      while reading metadata or encoding (`built` is the store then), or an
      error thrown inside createStore itself (`built` is None: `store` is
      still the empty object it started as). */
  datatype Prepared = Ready(store: Store) | Thrown(built: Option<Store>)

  /** How the closure's promise settles: resolved with a text, or rejected. */
  datatype Outcome = Resolved(html: string) | Rejected

  /** The catch block as written (src/pixx.ts:143-179): every branch reads
      `store.options.log`; while `store` is still `{}` that read throws a
      TypeError out of the catch, so the promise rejects. With a store the
      block ends by returning "". */
  function CatchAsWritten(built: Option<Store>): (r: Outcome)
    ensures r == Rejected <==> built.None?
    ensures r.Resolved? ==> r.html == ""
  {
    if built.None? then Rejected else Resolved("")
  }

  /** Options that createStore rejects make the closure reject instead of
      resolving with "". */
  lemma StoreErrorRejects()
    ensures CatchAsWritten(None) != Resolved("")
  {
  }

  /** The closure as written: the markup once everything succeeded, "" for
      an error after the store exists, and a rejected promise for an error
      inside createStore. */
  method Render(prepared: Prepared) returns (result: Outcome)
    ensures prepared.Ready? ==> result == Resolved(Markup(prepared.store))
    ensures prepared.Thrown? ==> result == CatchAsWritten(prepared.built)
    ensures prepared.Thrown? && prepared.built.None? ==> result == Rejected
  {
    match prepared
    case Thrown(built) =>
      result := CatchAsWritten(built);
    case Ready(store) =>
      var html := BuildMarkup(store);
      result := Resolved(html);
  }

  /** The closure with the catch block reading the log flag only when there
      is a store (`store.options?.log`): every error resolves with "". */
  method RenderGuarded(prepared: Prepared) returns (html: string)
    ensures prepared.Thrown? ==> html == ""
    ensures prepared.Ready? ==> html == Markup(prepared.store)
  {
    match prepared
    case Thrown(_) =>
      html := "";
    case Ready(store) =>
      html := BuildMarkup(store);
  }
}
