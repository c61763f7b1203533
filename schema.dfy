/** The option schema and the shared records of pixx (src/schema.ts): the two
    markup dialects, the image types, the option object as the schema checks
    it, its defaults, and the shapes of the store the markup is built from. */
module Schema {
  import opened Text

  // ---------------------------------------------------------------------
  // Markup dialects (src/schema.ts:11-32, 162-172)

  /** How a markup dialect spells the attributes that differ between HTML and JSX. */
  datatype Dialect = Dialect(
    fetchPriority: string,
    backgroundImage: string,
    backgroundSize: string,
    separator: string,
    quote: string,
    className: string,
    srcSet: string,
    leftBracket: string,
    rightBracket: string)

  const Html: Dialect := Dialect("fetchpriority", "background-image", "background-size", ";", "'", "class", "srcset", "\"", "\"")
  const Jsx: Dialect := Dialect("fetchPriority", "backgroundImage", "backgroundSize", ",", "\"", "className", "srcSet", "{", "}")

  /** The dialect a `jsx` flag selects. */
  function DialectFor(jsx: bool): (d: Dialect)
    ensures d == (if jsx then Jsx else Html)
    ensures jsx <==> d.leftBracket == "{"
    ensures d.className == (if jsx then "className" else "class")
    ensures d.srcSet == (if jsx then "srcSet" else "srcset")
    ensures d.fetchPriority == (if jsx then "fetchPriority" else "fetchpriority")
  {
    if jsx then Jsx else Html
  }

  /** A dialect's brackets around a value: quotes in HTML, braces in JSX. */
  function Bracketed(d: Dialect, v: string): string
  {
    d.leftBracket + v + d.rightBracket
  }

  /** HTML wraps a value in one kind of quote on both sides, JSX in a pair of
      braces, and in both the value can be read back from between them. */
  lemma BracketedValue(jsx: bool, v: string)
    ensures var b := Bracketed(DialectFor(jsx), v);
      && |b| == |v| + 2
      && b[1..|b| - 1] == v
      && (if jsx then b[0] == '{' && b[|b| - 1] == '}' else b[0] == '"' && b[|b| - 1] == '"')
  {
    var b := Bracketed(DialectFor(jsx), v);
    assert b == DialectFor(jsx).leftBracket + v + DialectFor(jsx).rightBracket;
  }

  // ---------------------------------------------------------------------
  // Image types (src/schema.ts:70-80)

  /** The image types the image library reads; all but Svg it can also write. */
  datatype ImageFormat = Avif | Gif | Jpeg | Jpg | Png | Tiff | Webp | Svg

  function FormatName(f: ImageFormat): string
  {
    match f
    case Avif => "avif"
    case Gif => "gif"
    case Jpeg => "jpeg"
    case Jpg => "jpg"
    case Png => "png"
    case Tiff => "tiff"
    case Webp => "webp"
    case Svg => "svg"
  }

  /** The input-type enum: a name the schema accepts as an input type. */
  function ParseInputFormat(s: string): (r: Option<ImageFormat>)
    ensures r.Some? ==> FormatName(r.value) == s
    ensures r.Some? <==> s in {"avif", "gif", "jpeg", "jpg", "png", "tiff", "webp", "svg"}
  {
    if s == "avif" then Some(Avif)
    else if s == "gif" then Some(Gif)
    else if s == "jpeg" then Some(Jpeg)
    else if s == "jpg" then Some(Jpg)
    else if s == "png" then Some(Png)
    else if s == "tiff" then Some(Tiff)
    else if s == "webp" then Some(Webp)
    else if s == "svg" then Some(Svg)
    else None
  }

  /** The output-type enum: the same names without "svg". */
  function ParseOutputFormat(s: string): (r: Option<ImageFormat>)
    ensures r.Some? ==> FormatName(r.value) == s && r.value != Svg
    ensures r.Some? <==> s in {"avif", "gif", "jpeg", "jpg", "png", "tiff", "webp"}
  {
    var f := ParseInputFormat(s);
    if f == Some(Svg) then None else f
  }

  /** Every type's name reads back as that type; output types also as output. */
  lemma FormatRoundTrip(f: ImageFormat)
    ensures ParseInputFormat(FormatName(f)) == Some(f)
    ensures f != Svg <==> ParseOutputFormat(FormatName(f)) == Some(f)
  {
    match f
    case Avif =>
    case Gif =>
    case Jpeg =>
    case Jpg =>
    case Png =>
    case Tiff =>
    case Webp =>
    case Svg =>
  }

  // ---------------------------------------------------------------------
  // Enumerated options (src/schema.ts:97-109)

  datatype Decoding = AutoDecoding | Sync | Async
  datatype FetchPriority = AutoPriority | High | Low
  datatype Loading = Eager | Lazy

  function DecodingName(d: Decoding): string
  {
    match d
    case AutoDecoding => "auto"
    case Sync => "sync"
    case Async => "async"
  }

  function PriorityName(p: FetchPriority): string
  {
    match p
    case AutoPriority => "auto"
    case High => "high"
    case Low => "low"
  }

  function LoadingName(l: Loading): string
  {
    match l
    case Eager => "eager"
    case Lazy => "lazy"
  }

  function ParseDecoding(s: string): (r: Option<Decoding>)
    ensures r.Some? <==> s in {"auto", "sync", "async"}
    ensures r.Some? ==> DecodingName(r.value) == s
  {
    if s == "auto" then Some(AutoDecoding)
    else if s == "sync" then Some(Sync)
    else if s == "async" then Some(Async)
    else None
  }

  function ParsePriority(s: string): (r: Option<FetchPriority>)
    ensures r.Some? <==> s in {"auto", "high", "low"}
    ensures r.Some? ==> PriorityName(r.value) == s
  {
    if s == "auto" then Some(AutoPriority)
    else if s == "high" then Some(High)
    else if s == "low" then Some(Low)
    else None
  }

  function ParseLoading(s: string): (r: Option<Loading>)
    ensures r.Some? <==> s in {"eager", "lazy"}
    ensures r.Some? ==> LoadingName(r.value) == s
  {
    if s == "eager" then Some(Eager)
    else if s == "lazy" then Some(Lazy)
    else None
  }

  /** Each enumerated value's name reads back as that value. */
  lemma EnumRoundTrips(d: Decoding, p: FetchPriority, l: Loading)
    ensures ParseDecoding(DecodingName(d)) == Some(d)
    ensures ParsePriority(PriorityName(p)) == Some(p)
    ensures ParseLoading(LoadingName(l)) == Some(l)
  {
    match d
    case AutoDecoding =>
    case Sync => assert DecodingName(d) != "auto";
    case Async => assert DecodingName(d) != "auto" && DecodingName(d) != "sync";
  }

  // ---------------------------------------------------------------------
  // The option object (src/schema.ts:35-67, 83-131)

  /** A value in the option object passed to pixx. Numbers are whole here. */
  datatype Json =
    | JBool(b: bool)
    | JNum(n: int)
    | JStr(s: string)
    | JArr(items: seq<Json>)
    | JObj(fields: map<string, Json>)

  /** The value under one key of an object, None when the key is absent. */
  type Field = Option<Json>

  /** An option object, one field per key of the schema. Keys the schema does
      not know are dropped when the object is parsed, so they are not kept. */
  datatype OptionObject = OptionObject(
    aboveTheFold: Field,
    alt: Field,
    backgroundSize: Field,
    blurSize: Field,
    classes: Field,
    clean: Field,
    decoding: Field,
    fallbackWidth: Field,
    fetchPriority: Field,
    heights: Field,
    incrementSize: Field,
    jsx: Field,
    linuxPaths: Field,
    loading: Field,
    log: Field,
    media: Field,
    newImagesDirectory: Field,
    omit: Field,
    picTypes: Field,
    preloadWidth: Field,
    showProgressBar: Field,
    sizes: Field,
    styles: Field,
    title: Field,
    vite: Field,
    v: Field,
    widths: Field,
    withAnimation: Field,
    withBlur: Field,
    withMetadata: Field,
    withPreload: Field)

  predicate IsBool(f: Field) { f.Some? && f.value.JBool? }
  predicate IsNum(f: Field) { f.Some? && f.value.JNum? }
  predicate IsStr(f: Field) { f.Some? && f.value.JStr? }

  predicate IsStrArray(f: Field)
  {
    f.Some? && f.value.JArr? && forall i :: 0 <= i < |f.value.items| ==> f.value.items[i].JStr?
  }

  predicate IsNumArray(f: Field)
  {
    f.Some? && f.value.JArr? && forall i :: 0 <= i < |f.value.items| ==> f.value.items[i].JNum?
  }

  predicate IsDecoding(f: Field) { IsStr(f) && ParseDecoding(f.value.s).Some? }
  predicate IsPriority(f: Field) { IsStr(f) && ParsePriority(f.value.s).Some? }
  predicate IsLoading(f: Field) { IsStr(f) && ParseLoading(f.value.s).Some? }

  /** `omit`: an object with string `remove` and `add` (extra fields are dropped). */
  predicate IsOmit(f: Field)
  {
    f.Some? && f.value.JObj? && "remove" in f.value.fields && "add" in f.value.fields
    && f.value.fields["remove"].JStr? && f.value.fields["add"].JStr?
  }

  /** `picTypes`: a non-empty array of output-type names. */
  predicate IsPicTypes(f: Field)
  {
    f.Some? && f.value.JArr? && |f.value.items| >= 1
    && forall i :: 0 <= i < |f.value.items| ==>
         f.value.items[i].JStr? && ParseOutputFormat(f.value.items[i].s).Some?
  }

  /** OptionSchema (src/schema.ts:89-131) as a predicate: every key is present
      with a value of its kind, except `v`, which the schema does not check. */
  predicate ValidOptions(o: OptionObject)
  {
    && IsBool(o.aboveTheFold)
    && IsStr(o.alt)
    && IsStr(o.backgroundSize)
    && IsNum(o.blurSize)
    && IsStrArray(o.classes)
    && IsBool(o.clean)
    && IsDecoding(o.decoding)
    && IsNum(o.fallbackWidth)
    && IsPriority(o.fetchPriority)
    && IsNumArray(o.heights)
    && IsNum(o.incrementSize)
    && IsBool(o.jsx)
    && IsBool(o.linuxPaths)
    && IsLoading(o.loading)
    && IsBool(o.log)
    && IsStrArray(o.media)
    && IsStr(o.newImagesDirectory)
    && IsOmit(o.omit)
    && IsPicTypes(o.picTypes)
    && IsNum(o.preloadWidth)
    && IsBool(o.showProgressBar)
    && IsStrArray(o.sizes)
    && IsStrArray(o.styles)
    && IsStr(o.title)
    && IsBool(o.vite)
    && IsNumArray(o.widths)
    && IsBool(o.withAnimation)
    && IsBool(o.withBlur)
    && IsBool(o.withMetadata)
    && IsBool(o.withPreload)
  }

  const DefaultPicTypes: Json := JArr([JStr("avif"), JStr("webp"), JStr("jpg")])

  /** optionDefaults (src/schema.ts:35-67): every key with its default value. */
  const Defaults: OptionObject := OptionObject(
    aboveTheFold := Some(JBool(false)),
    alt := Some(JStr("pixx_image")),
    backgroundSize := Some(JStr("cover")),
    blurSize := Some(JNum(16)),
    classes := Some(JArr([])),
    clean := Some(JBool(false)),
    decoding := Some(JStr("auto")),
    fallbackWidth := Some(JNum(0)),
    fetchPriority := Some(JStr("auto")),
    heights := Some(JArr([])),
    incrementSize := Some(JNum(300)),
    jsx := Some(JBool(true)),
    linuxPaths := Some(JBool(true)),
    loading := Some(JStr("lazy")),
    log := Some(JBool(false)),
    media := Some(JArr([])),
    newImagesDirectory := Some(JStr("pixx_images")),
    omit := Some(JObj(map["remove" := JStr(""), "add" := JStr("")])),
    picTypes := Some(DefaultPicTypes),
    preloadWidth := Some(JNum(0)),
    showProgressBar := Some(JBool(true)),
    sizes := Some(JArr([JStr("auto")])),
    styles := Some(JArr([])),
    title := Some(JStr("")),
    vite := Some(JBool(false)),
    v := Some(JArr([])),
    widths := Some(JArr([])),
    withAnimation := Some(JBool(false)),
    withBlur := Some(JBool(false)),
    withMetadata := Some(JBool(false)),
    withPreload := Some(JBool(false)))

  /** The parsed `omit` option. */
  datatype OmitRule = OmitRule(remove: string, add: string)

  /** An option object after the schema has accepted it. */
  datatype Options = Options(
    aboveTheFold: bool,
    alt: string,
    backgroundSize: string,
    blurSize: int,
    classes: seq<string>,
    clean: bool,
    decoding: Decoding,
    fallbackWidth: int,
    fetchPriority: FetchPriority,
    heights: seq<int>,
    incrementSize: int,
    jsx: bool,
    linuxPaths: bool,
    loading: Loading,
    log: bool,
    media: seq<string>,
    newImagesDirectory: string,
    omit: OmitRule,
    picTypes: seq<ImageFormat>,
    preloadWidth: int,
    showProgressBar: bool,
    sizes: seq<string>,
    styles: seq<string>,
    title: string,
    vite: bool,
    widths: seq<int>,
    withAnimation: bool,
    withBlur: bool,
    withMetadata: bool,
    withPreload: bool)

  function Strings(f: Field): (r: seq<string>)
    requires IsStrArray(f)
    ensures |r| == |f.value.items| && forall i :: 0 <= i < |r| ==> JStr(r[i]) == f.value.items[i]
  {
    seq(|f.value.items|, i requires 0 <= i < |f.value.items| => f.value.items[i].s)
  }

  function Numbers(f: Field): (r: seq<int>)
    requires IsNumArray(f)
    ensures |r| == |f.value.items| && forall i :: 0 <= i < |r| ==> JNum(r[i]) == f.value.items[i]
  {
    seq(|f.value.items|, i requires 0 <= i < |f.value.items| => f.value.items[i].n)
  }

  function Formats(f: Field): (r: seq<ImageFormat>)
    requires IsPicTypes(f)
    ensures |r| == |f.value.items| >= 1
    ensures forall i :: 0 <= i < |r| ==> r[i] != Svg && JStr(FormatName(r[i])) == f.value.items[i]
  {
    seq(|f.value.items|, i requires 0 <= i < |f.value.items| => ParseOutputFormat(f.value.items[i].s).value)
  }

  /** `OptionSchema.parse` on an option object: the typed options when the
      object is valid, None (the thrown ZodError) when it is not. */
  function ParseOptions(o: OptionObject): (r: Option<Options>)
    ensures r.Some? <==> ValidOptions(o)
    ensures r.Some? ==> |r.value.picTypes| >= 1 && forall i :: 0 <= i < |r.value.picTypes| ==> r.value.picTypes[i] != Svg
  {
    if !ValidOptions(o) then None
    else
      Some(Options(
        aboveTheFold := o.aboveTheFold.value.b,
        alt := o.alt.value.s,
        backgroundSize := o.backgroundSize.value.s,
        blurSize := o.blurSize.value.n,
        classes := Strings(o.classes),
        clean := o.clean.value.b,
        decoding := ParseDecoding(o.decoding.value.s).value,
        fallbackWidth := o.fallbackWidth.value.n,
        fetchPriority := ParsePriority(o.fetchPriority.value.s).value,
        heights := Numbers(o.heights),
        incrementSize := o.incrementSize.value.n,
        jsx := o.jsx.value.b,
        linuxPaths := o.linuxPaths.value.b,
        loading := ParseLoading(o.loading.value.s).value,
        log := o.log.value.b,
        media := Strings(o.media),
        newImagesDirectory := o.newImagesDirectory.value.s,
        omit := OmitRule(o.omit.value.fields["remove"].s, o.omit.value.fields["add"].s),
        picTypes := Formats(o.picTypes),
        preloadWidth := o.preloadWidth.value.n,
        showProgressBar := o.showProgressBar.value.b,
        sizes := Strings(o.sizes),
        styles := Strings(o.styles),
        title := o.title.value.s,
        vite := o.vite.value.b,
        widths := Numbers(o.widths),
        withAnimation := o.withAnimation.value.b,
        withBlur := o.withBlur.value.b,
        withMetadata := o.withMetadata.value.b,
        withPreload := o.withPreload.value.b))
  }

  lemma FormatNameInjective(f: ImageFormat, g: ImageFormat)
    requires FormatName(f) == FormatName(g)
    ensures f == g
  {
    FormatRoundTrip(f);
    FormatRoundTrip(g);
  }

  /** What a valid option object guarantees about `picTypes`, `omit` and the
      three enumerations. */
  lemma ValidOptionsFacts(o: OptionObject)
    requires ValidOptions(o)
    ensures o.picTypes.Some? && o.picTypes.value.JArr? && |o.picTypes.value.items| >= 1
    ensures forall i :: 0 <= i < |o.picTypes.value.items| ==>
      o.picTypes.value.items[i].JStr? && o.picTypes.value.items[i].s in {"avif", "gif", "jpeg", "jpg", "png", "tiff", "webp"}
    ensures o.omit.Some? && o.omit.value.JObj? && "remove" in o.omit.value.fields && "add" in o.omit.value.fields
    ensures o.decoding.value.JStr? && o.decoding.value.s in {"auto", "sync", "async"}
    ensures o.fetchPriority.value.JStr? && o.fetchPriority.value.s in {"auto", "high", "low"}
    ensures o.loading.value.JStr? && o.loading.value.s in {"eager", "lazy"}
  {}

  /** A list of strings written as an array; Strings reads it back. */
  function StrItems(ss: seq<string>): (f: Field)
    ensures IsStrArray(f) && Strings(f) == ss
  {
    Some(JArr(seq(|ss|, i requires 0 <= i < |ss| => JStr(ss[i]))))
  }

  /** A list of numbers written as an array; Numbers reads it back. */
  function NumItems(ns: seq<int>): (f: Field)
    ensures IsNumArray(f) && Numbers(f) == ns
  {
    Some(JArr(seq(|ns|, i requires 0 <= i < |ns| => JNum(ns[i]))))
  }

  /** Output types written as their names; Formats reads them back. */
  function FormatItems(fs: seq<ImageFormat>): (f: Field)
    ensures f.Some? && f.value.JArr? && |f.value.items| == |fs|
    ensures |fs| >= 1 && (forall i :: 0 <= i < |fs| ==> fs[i] != Svg) ==> IsPicTypes(f) && Formats(f) == fs
  {
    var f := Some(JArr(seq(|fs|, i requires 0 <= i < |fs| => JStr(FormatName(fs[i])))));
    if |fs| >= 1 && (forall i :: 0 <= i < |fs| ==> fs[i] != Svg) then
      assert IsPicTypes(f) by {
        forall i | 0 <= i < |fs| ensures ParseOutputFormat(FormatName(fs[i])).Some? {
          FormatRoundTrip(fs[i]);
        }
      }
      assert Formats(f) == fs by {
        forall i | 0 <= i < |fs| ensures Formats(f)[i] == fs[i] {
          FormatNameInjective(Formats(f)[i], fs[i]);
        }
      }
      f
    else f
  }

  /** The `omit` rule written as an object. */
  function OmitObject(m: OmitRule): (f: Field)
    ensures IsOmit(f) && f.value.fields["remove"].s == m.remove && f.value.fields["add"].s == m.add
  {
    Some(JObj(map["remove" := JStr(m.remove), "add" := JStr(m.add)]))
  }

  /** The option object a set of typed options is written as. The schema does
      not look at `v`; it is written as the empty array it defaults to. */
  function EncodeOptions(x: Options): OptionObject
  {
    OptionObject(
      aboveTheFold := Some(JBool(x.aboveTheFold)),
      alt := Some(JStr(x.alt)),
      backgroundSize := Some(JStr(x.backgroundSize)),
      blurSize := Some(JNum(x.blurSize)),
      classes := StrItems(x.classes),
      clean := Some(JBool(x.clean)),
      decoding := Some(JStr(DecodingName(x.decoding))),
      fallbackWidth := Some(JNum(x.fallbackWidth)),
      fetchPriority := Some(JStr(PriorityName(x.fetchPriority))),
      heights := NumItems(x.heights),
      incrementSize := Some(JNum(x.incrementSize)),
      jsx := Some(JBool(x.jsx)),
      linuxPaths := Some(JBool(x.linuxPaths)),
      loading := Some(JStr(LoadingName(x.loading))),
      log := Some(JBool(x.log)),
      media := StrItems(x.media),
      newImagesDirectory := Some(JStr(x.newImagesDirectory)),
      omit := OmitObject(x.omit),
      picTypes := FormatItems(x.picTypes),
      preloadWidth := Some(JNum(x.preloadWidth)),
      showProgressBar := Some(JBool(x.showProgressBar)),
      sizes := StrItems(x.sizes),
      styles := StrItems(x.styles),
      title := Some(JStr(x.title)),
      vite := Some(JBool(x.vite)),
      v := Some(JArr([])),
      widths := NumItems(x.widths),
      withAnimation := Some(JBool(x.withAnimation)),
      withBlur := Some(JBool(x.withBlur)),
      withMetadata := Some(JBool(x.withMetadata)),
      withPreload := Some(JBool(x.withPreload)))
  }

  /** Typed options with at least one picture type, none of them svg, are
      written as an object the schema accepts, and it parses back to them. */
  lemma ParseEncode(x: Options)
    requires |x.picTypes| >= 1 && forall i :: 0 <= i < |x.picTypes| ==> x.picTypes[i] != Svg
    ensures ValidOptions(EncodeOptions(x))
    ensures ParseOptions(EncodeOptions(x)) == Some(x)
  {
    EnumRoundTrips(x.decoding, x.fetchPriority, x.loading);
    EncodedValid(x);
    var r := ParseOptions(EncodeOptions(x)).value;
    assert r.classes == x.classes && r.heights == x.heights && r.media == x.media;
    assert r.picTypes == x.picTypes && r.sizes == x.sizes && r.styles == x.styles && r.widths == x.widths;
  }

  /** Every field EncodeOptions writes has the type the schema wants. */
  lemma EncodedValid(x: Options)
    requires |x.picTypes| >= 1 && forall i :: 0 <= i < |x.picTypes| ==> x.picTypes[i] != Svg
    ensures ValidOptions(EncodeOptions(x))
  {
    EnumRoundTrips(x.decoding, x.fetchPriority, x.loading);
  }

  /** optionDefaults as typed options. */
  const DefaultOptions: Options := Options(
    aboveTheFold := false,
    alt := "pixx_image",
    backgroundSize := "cover",
    blurSize := 16,
    classes := [],
    clean := false,
    decoding := AutoDecoding,
    fallbackWidth := 0,
    fetchPriority := AutoPriority,
    heights := [],
    incrementSize := 300,
    jsx := true,
    linuxPaths := true,
    loading := Lazy,
    log := false,
    media := [],
    newImagesDirectory := "pixx_images",
    omit := OmitRule("", ""),
    picTypes := [Avif, Webp, Jpg],
    preloadWidth := 0,
    showProgressBar := true,
    sizes := ["auto"],
    styles := [],
    title := "",
    vite := false,
    widths := [],
    withAnimation := false,
    withBlur := false,
    withMetadata := false,
    withPreload := false)

  /** The default object is exactly how DefaultOptions is written. */
  lemma DefaultsEncoded()
    ensures Defaults == EncodeOptions(DefaultOptions)
  {
    var e := EncodeOptions(DefaultOptions);
    assert e.picTypes.value.items == DefaultPicTypes.items;
    assert e.sizes.value.items == [JStr("auto")];
  }

  /** The defaults satisfy the schema and read back as DefaultOptions: three
      picture types (avif, webp, jpg), a 300-pixel step, the one size "auto". */
  lemma DefaultsParsed()
    ensures ValidOptions(Defaults)
    ensures ParseOptions(Defaults) == Some(DefaultOptions)
    ensures ParseOptions(Defaults).value.picTypes == [Avif, Webp, Jpg]
    ensures ParseOptions(Defaults).value.incrementSize == 300
    ensures ParseOptions(Defaults).value.sizes == ["auto"]
  {
    DefaultsEncoded();
    ParseEncode(DefaultOptions);
  }
}
