/** The per-image plan of src/utils.ts: the state getState sets up for one
    source image, the images createImage and createSrcSet produce from it, and
    the `<img>`, `<source>` and `<picture>` markup built on top. The image
    library is replaced by a set of existing output files, into which encoding
    an image inserts its path. */
module Plan {
  import opened Text
  import opened Dimensions
  import opened Conditions
  import opened Schema

  // ---------------------------------------------------------------------
  // The inputs of a plan

  /** The options the planning code reads. */
  datatype Settings = Settings(
    widths: seq<nat>,
    heights: seq<nat>,
    fallbackWidth: nat,
    incrementSize: nat,
    clean: bool,
    withClassName: bool,
    styles: string,
    classes: seq<string>,
    sizes: seq<string>,
    alt: string,
    title: string,
    loading: Loading,
    decoding: Decoding,
    fetchPriority: FetchPriority,
    picTypes: seq<ImageFormat>)

  /** Where the images of one source image go: the directory written into
      the markup, the directory written on disk, and the platform's path
      separator. */
  datatype Paths = Paths(newImageDir: string, resolvedNewImageDir: string, sep: char)

  /** What createImage needs to know about the source image: its name and
      size, where its images go and how their public paths are rewritten. */
  datatype Target = Target(
    imgName: string,
    width: nat,
    height: nat,
    paths: Paths,
    linuxPaths: bool,
    omit: OmitRule)

  datatype Size = Size(width: nat, height: nat)

  /** The `size` argument of createImage: `[]`, or a side and its length. */
  datatype SizeRequest = Original | Along(side: Side, n: nat)

  // ---------------------------------------------------------------------
  // getState's filters (src/utils.ts:79-80)

  /** `xs.filter((x) => x <= bound)`. */
  function Fit(xs: seq<nat>, bound: nat): (r: seq<nat>)
    ensures |r| <= |xs|
    ensures forall x :: x in r <==> x in xs && x <= bound
  {
    if |xs| == 0 then [] else (if xs[0] <= bound then [xs[0]] else []) + Fit(xs[1..], bound)
  }

  /** Filtering distributes over concatenation: kept values keep their order. */
  lemma {:induction false} FitAppend(xs: seq<nat>, ys: seq<nat>, bound: nat)
    ensures Fit(xs + ys, bound) == Fit(xs, bound) + Fit(ys, bound)
  {
    if |xs| == 0 {
      assert xs + ys == ys;
    } else {
      assert (xs + ys)[0] == xs[0] && (xs + ys)[1..] == xs[1..] + ys;
      FitAppend(xs[1..], ys, bound);
      var head: seq<nat> := if xs[0] <= bound then [xs[0]] else [];
      AppendAssoc(head, Fit(xs[1..], bound), Fit(ys, bound));
    }
  }

  /** getState filters a size list only when it is non-empty; filtering
      the empty list would give the same. */
  method FitNonEmpty(xs: seq<nat>, bound: nat) returns (r: seq<nat>)
    ensures r == Fit(xs, bound)
  {
    r := xs;
    if |r| > 0 {
      r := Fit(r, bound);
    }
  }

  /** A list that already fits is left as it is. */
  lemma {:induction false} FitUnchanged(xs: seq<nat>, bound: nat)
    requires forall i :: 0 <= i < |xs| ==> xs[i] <= bound
    ensures Fit(xs, bound) == xs
  {
    if |xs| > 0 {
      FitUnchanged(xs[1..], bound);
    }
  }

  // ---------------------------------------------------------------------
  // The sizes createSrcSet uses (src/utils.ts:440-446)

  /** A size list and the side its sizes measure. */
  datatype SizeList = SizeList(side: Side, sizes: seq<nat>)

  /** `widths` if any, else `heights` if any, else the default sizes. */
  function Chosen(widths: seq<nat>, heights: seq<nat>, defaults: SizeList): SizeList
  {
    if |widths| > 0 then SizeList(Width, widths)
    else if |heights| > 0 then SizeList(Height, heights)
    else defaults
  }

  /** totalImages (src/utils.ts:104-111): one image per picture type and size,
      and the fallback. */
  function TotalImages(picTypes: seq<ImageFormat>, widths: seq<nat>, heights: seq<nat>, defaults: SizeList): (n: nat)
    ensures n >= 1 && (|picTypes| == 0 ==> n == 1)
  {
    |picTypes| * |Chosen(widths, heights, defaults).sizes| + 1
  }

  // ---------------------------------------------------------------------
  // One image (src/utils.ts:356-382, 409-411)

  /** The size of the image createImage makes: the original size for `[]`,
      otherwise the requested side and the other one inferred from the
      original aspect ratio. */
  function OutputSize(g: Target, req: SizeRequest): (s: Size)
    requires g.width > 0 && g.height > 0
  {
    match req
    case Original => Size(g.width, g.height)
    case Along(Width, n) => Size(n, InferDimension(g.width, g.height, n, true))
    case Along(Height, n) => Size(InferDimension(g.width, g.height, n, false), n)
  }

  /** Asking for the original width, or the original height, gives the
      original image back. */
  lemma OutputSizeOfOriginal(g: Target)
    requires g.width > 0 && g.height > 0
    ensures OutputSize(g, Along(Width, g.width)) == Size(g.width, g.height)
    ensures OutputSize(g, Along(Height, g.height)) == Size(g.width, g.height)
  {
    InferOriginal(g.width, g.height);
  }

  /** A request that does not exceed the original side never upscales. */
  lemma OutputSizeWithin(g: Target, side: Side, n: nat)
    requires g.width > 0 && g.height > 0
    requires n <= (if side == Width then g.width else g.height)
    ensures OutputSize(g, Along(side, n)).width <= g.width
    ensures OutputSize(g, Along(side, n)).height <= g.height
  {
    InferOriginal(g.width, g.height);
    if side == Width {
      InferMonotone(g.width, g.height, n, g.width, true);
    } else {
      InferMonotone(g.width, g.height, n, g.height, false);
    }
  }

  /** `<imgName>-[placeholder-]<w>w<h>h.<type>`. */
  function ImageName(imgName: string, isBlur: bool, w: nat, h: nat, t: ImageFormat): string
  {
    imgName + "-" + RoleTail(isBlur, w, h, t)
  }

  /** The name after `imgName-`: blur placeholders are marked as such. */
  function RoleTail(isBlur: bool, w: nat, h: nat, t: ImageFormat): string
  {
    if isBlur then "placeholder-" + NameTail(w, h, t) else NameTail(w, h, t)
  }

  function NameTail(w: nat, h: nat, t: ImageFormat): string
  {
    NatToString(w) + ['w'] + (NatToString(h) + ['h'] + ("." + FormatName(t)))
  }

  /** In `digits + [c] + rest`, the first `c` is the one after the digits,
      so such a string splits in only one way. */
  lemma DigitsThen(d1: string, r1: string, d2: string, r2: string, c: char)
    requires AllDigits(d1) && AllDigits(d2) && !IsDigit(c)
    requires d1 + [c] + r1 == d2 + [c] + r2
    ensures d1 == d2 && r1 == r2
  {
    var s := d1 + [c] + r1;
    assert s == d2 + [c] + r2;
    assert s[|d1|] == c && s[|d2|] == c;
    if |d1| != |d2| {
      assert false;
    }
    assert d1 == s[..|d1|] == d2;
    assert r1 == s[|d1| + 1..] == r2;
  }

  /** The part after the image name determines width, height and type. */
  lemma NameTailInjective(w1: nat, h1: nat, t1: ImageFormat, w2: nat, h2: nat, t2: ImageFormat)
    requires NameTail(w1, h1, t1) == NameTail(w2, h2, t2)
    ensures w1 == w2 && h1 == h2 && t1 == t2
  {
    var e1, e2 := "." + FormatName(t1), "." + FormatName(t2);
    var r1 := NatToString(h1) + ['h'] + e1;
    var r2 := NatToString(h2) + ['h'] + e2;
    DigitsThen(NatToString(w1), r1, NatToString(w2), r2, 'w');
    DigitsThen(NatToString(h1), e1, NatToString(h2), e2, 'h');
    NatToStringInjective(w1, w2);
    NatToStringInjective(h1, h2);
    assert FormatName(t1) == e1[1..] == e2[1..] == FormatName(t2);
    FormatNameInjective(t1, t2);
  }

  /** Two images of one source image get the same name only when they have
      the same role, width, height and type: output paths never collide. */
  lemma ImageNameInjective(imgName: string, b1: bool, w1: nat, h1: nat, t1: ImageFormat,
                           b2: bool, w2: nat, h2: nat, t2: ImageFormat)
    requires ImageName(imgName, b1, w1, h1, t1) == ImageName(imgName, b2, w2, h2, t2)
    ensures b1 == b2 && w1 == w2 && h1 == h2 && t1 == t2
  {
    var p := imgName + "-";
    var n1 := ImageName(imgName, b1, w1, h1, t1);
    assert RoleTail(b1, w1, h1, t1) == n1[|p|..] == RoleTail(b2, w2, h2, t2);
    RoleTailInjective(b1, w1, h1, t1, b2, w2, h2, t2);
  }

  /** A placeholder name starts with a letter, any other with a digit. */
  lemma RoleTailHead(b: bool, w: nat, h: nat, t: ImageFormat)
    ensures |RoleTail(b, w, h, t)| > 0
    ensures IsDigit(RoleTail(b, w, h, t)[0]) <==> !b
  {
    var d := NatToString(w);
    assert d[0] in d;
    assert IsDigit(d[0]);
  }

  lemma RoleTailInjective(b1: bool, w1: nat, h1: nat, t1: ImageFormat,
                          b2: bool, w2: nat, h2: nat, t2: ImageFormat)
    requires RoleTail(b1, w1, h1, t1) == RoleTail(b2, w2, h2, t2)
    ensures b1 == b2 && w1 == w2 && h1 == h2 && t1 == t2
  {
    if b1 != b2 {
      RoleTailHead(b1, w1, h1, t1);
      RoleTailHead(b2, w2, h2, t2);
      assert false;
    }
    if b1 {
      assert NameTail(w1, h1, t1) == RoleTail(b1, w1, h1, t1)[12..] == NameTail(w2, h2, t2);
    }
    NameTailInjective(w1, h1, t1, w2, h2, t2);
  }

  /** `path.join(dir, name)` for a plain directory and file name. */
  function JoinPath(dir: string, name: string, sep: char): string
  {
    if dir == "" then name else dir + [sep] + name
  }

  lemma JoinPathInjective(dir: string, a: string, b: string, sep: char)
    requires JoinPath(dir, a, sep) == JoinPath(dir, b, sep)
    ensures a == b
  {
    if dir != "" {
      var k := |dir| + 1;
      assert a == JoinPath(dir, a, sep)[k..];
      assert b == JoinPath(dir, b, sep)[k..];
    }
  }

  /** The path written into the markup (src/utils.ts:409-411): with
      `linuxPaths` every backslash becomes a slash, and then the first
      occurrence of `omit.remove` is replaced by `omit.add`. */
  function PublicPath(linuxPaths: bool, omit: OmitRule, p: string): string
  {
    Replace(if linuxPaths then ReplaceChar(p, '\\', '/') else p, omit.remove, omit.add)
  }

  /** With `linuxPaths` no backslash is left from the path itself. */
  lemma PublicPathSlashes(omit: OmitRule, p: string)
    requires !Contains(ReplaceChar(p, '\\', '/'), omit.remove)
    ensures PublicPath(true, omit, p) == ReplaceChar(p, '\\', '/')
    ensures '\\' !in PublicPath(true, omit, p)
  {
    var q := ReplaceChar(p, '\\', '/');
    assert forall k :: 0 <= k < |q| ==> q[k] != '\\';
  }

  /** A leading `omit.remove` is replaced by `omit.add` (a literal, without
      `$` patterns). */
  lemma PublicPathStrip(linuxPaths: bool, omit: OmitRule, p: string, rest: string)
    requires '$' !in omit.add
    requires (if linuxPaths then ReplaceChar(p, '\\', '/') else p) == omit.remove + rest
    ensures PublicPath(linuxPaths, omit, p) == omit.add + rest
  {
    ReplacePrefix(omit.remove, rest, omit.add);
  }

  /** In general the first `omit.remove` in the path, wherever it is, becomes
      `omit.add`, and the rest of the path, later occurrences included, stays. */
  lemma PublicPathFirst(linuxPaths: bool, omit: OmitRule, p: string, i: nat)
    requires '$' !in omit.add
    requires var q := if linuxPaths then ReplaceChar(p, '\\', '/') else p;
      && OccursAt(q, omit.remove, i)
      && forall j :: 0 <= j < i ==> !OccursAt(q, omit.remove, j)
    ensures var q := if linuxPaths then ReplaceChar(p, '\\', '/') else p;
      PublicPath(linuxPaths, omit, p) == q[..i] + omit.add + q[i + |omit.remove|..]
  {
    var q := if linuxPaths then ReplaceChar(p, '\\', '/') else p;
    ReplaceFirst(q, omit.remove, omit.add, i);
  }

  /** An empty `omit.remove` prepends `omit.add`. */
  lemma PublicPathPrepend(linuxPaths: bool, omit: OmitRule, p: string)
    requires '$' !in omit.add && omit.remove == ""
    ensures PublicPath(linuxPaths, omit, p) == omit.add + (if linuxPaths then ReplaceChar(p, '\\', '/') else p)
  {
    var q := if linuxPaths then ReplaceChar(p, '\\', '/') else p;
    assert q == omit.remove + q;
    PublicPathStrip(linuxPaths, omit, p, q);
  }

  /** The file name createImage gives an image. */
  function FileName(g: Target, req: SizeRequest, t: ImageFormat, isBlur: bool): string
    requires g.width > 0 && g.height > 0
  {
    var s := OutputSize(g, req);
    ImageName(g.imgName, isBlur, s.width, s.height, t)
  }

  /** Where the image is written on disk. */
  function ResolvedPath(g: Target, req: SizeRequest, t: ImageFormat, isBlur: bool): string
    requires g.width > 0 && g.height > 0
  {
    JoinPath(g.paths.resolvedNewImageDir, FileName(g, req, t, isBlur), g.paths.sep)
  }

  /** The path of the image as the markup refers to it. */
  function HtmlPath(g: Target, req: SizeRequest, t: ImageFormat, isBlur: bool): string
    requires g.width > 0 && g.height > 0
  {
    PublicPath(g.linuxPaths, g.omit, JoinPath(g.paths.newImageDir, FileName(g, req, t, isBlur), g.paths.sep))
  }

  /** Both paths of an image follow from its file name. */
  lemma PathsOfFile(g: Target, req: SizeRequest, t: ImageFormat, isBlur: bool, name: string)
    requires g.width > 0 && g.height > 0 && name == FileName(g, req, t, isBlur)
    ensures ResolvedPath(g, req, t, isBlur) == JoinPath(g.paths.resolvedNewImageDir, name, g.paths.sep)
    ensures HtmlPath(g, req, t, isBlur) == PublicPath(g.linuxPaths, g.omit, JoinPath(g.paths.newImageDir, name, g.paths.sep))
  {
  }

  // ---------------------------------------------------------------------
  // Skip-if-exists (src/utils.ts:387)

  function ToSet(ps: seq<string>): set<string>
  {
    set p | p in ps
  }

  /** The paths the encoder writes when asked for `ps` in order, starting
      with the files in `existing`: a path is written only if no file is
      there yet. */
  function Encoded(existing: set<string>, ps: seq<string>): seq<string>
    decreases |ps|
  {
    if |ps| == 0 then []
    else (if ps[0] in existing then [] else [ps[0]]) + Encoded(existing + {ps[0]}, ps[1..])
  }

  lemma AppendAssoc<T>(a: seq<T>, b: seq<T>, c: seq<T>)
    ensures a + b + c == a + (b + c)
  {
  }

  /** One more request: the file exists afterwards, and it is written
      exactly when it did not exist before. */
  lemma Request(start: set<string>, requested: seq<string>, p: string)
    ensures ToSet(requested + [p]) == ToSet(requested) + {p}
    ensures Encoded(start, requested + [p])
         == Encoded(start, requested) + (if p in start + ToSet(requested) then [] else [p])
  {
    EncodedAppend(start, requested, [p]);
    EncodedSingle(start + ToSet(requested), p);
  }

  /** A single path is written exactly when no file is there yet. */
  lemma EncodedSingle(existing: set<string>, p: string)
    ensures Encoded(existing, [p]) == if p in existing then [] else [p]
  {
    assert Encoded(existing + {p}, [p][1..]) == [];
  }

  /** Asking for `ps` and then `qs` writes what `ps` writes, then what `qs`
      writes on top of the files `ps` left. */
  lemma {:induction false} EncodedAppend(existing: set<string>, ps: seq<string>, qs: seq<string>)
    ensures Encoded(existing, ps + qs) == Encoded(existing, ps) + Encoded(existing + ToSet(ps), qs)
    decreases |ps|
  {
    if |ps| == 0 {
      assert ps + qs == qs;
      assert ToSet(ps) == {};
      assert existing + ToSet(ps) == existing;
    } else {
      assert (ps + qs)[0] == ps[0] && (ps + qs)[1..] == ps[1..] + qs;
      EncodedAppend(existing + {ps[0]}, ps[1..], qs);
      assert ToSet(ps) == {ps[0]} + ToSet(ps[1..]);
      assert existing + {ps[0]} + ToSet(ps[1..]) == existing + ToSet(ps);
      var head: seq<string> := if ps[0] in existing then [] else [ps[0]];
      AppendAssoc(head, Encoded(existing + {ps[0]}, ps[1..]), Encoded(existing + ToSet(ps), qs));
    }
  }

  predicate Distinct(ps: seq<string>)
  {
    forall i, j :: 0 <= i < j < |ps| ==> ps[i] != ps[j]
  }

  /** Every path is written at most once, only if it did not exist, and
      every requested path that did not exist is written. */
  lemma {:induction false} EncodedFresh(existing: set<string>, ps: seq<string>)
    ensures forall p :: p in Encoded(existing, ps) <==> p in ps && p !in existing
    ensures Distinct(Encoded(existing, ps))
    decreases |ps|
  {
    if |ps| > 0 {
      EncodedFresh(existing + {ps[0]}, ps[1..]);
      var rest := Encoded(existing + {ps[0]}, ps[1..]);
      var e := Encoded(existing, ps);
      assert e == (if ps[0] in existing then [] else [ps[0]]) + rest;
      forall p ensures p in e <==> p in ps && p !in existing {
        assert p in ps <==> p == ps[0] || p in ps[1..];
      }
      var off := if ps[0] in existing then 0 else 1;
      assert forall k :: off <= k < |e| ==> e[k] == rest[k - off];
      forall i, j | 0 <= i < j < |e| ensures e[i] != e[j] {
        if i < off {
          assert e[i] == ps[0] && e[j] == rest[j - 1];
          assert rest[j - 1] in rest;
          assert rest[j - 1] !in existing + {ps[0]};
        } else {
          assert e[i] == rest[i - off] && e[j] == rest[j - off];
          assert 0 <= i - off < j - off < |rest|;
        }
      }
    }
  }

  // ---------------------------------------------------------------------
  // srcset (src/utils.ts:437-450)

  /** `"<path> <width>w"`: the srcset entry of the image made along `side`
      with size `n`. */
  function Entry(g: Target, side: Side, n: nat, t: ImageFormat): string
    requires g.width > 0 && g.height > 0
  {
    HtmlPath(g, Along(side, n), t, false) + " " + NatToString(OutputSize(g, Along(side, n)).width) + "w"
  }

  /** The file the encoder is asked for by the same request. */
  function File(g: Target, side: Side, n: nat, t: ImageFormat): string
    requires g.width > 0 && g.height > 0
  {
    ResolvedPath(g, Along(side, n), t, false)
  }

  /** The entries of the sizes `ns`, in their order. */
  function Entries(g: Target, side: Side, ns: seq<nat>, t: ImageFormat): (r: seq<string>)
    requires g.width > 0 && g.height > 0
    ensures |r| == |ns|
  {
    if |ns| == 0 then [] else Entries(g, side, ns[..|ns| - 1], t) + [Entry(g, side, ns[|ns| - 1], t)]
  }

  /** The files of the sizes `ns`, in their order. */
  function Files(g: Target, side: Side, ns: seq<nat>, t: ImageFormat): (r: seq<string>)
    requires g.width > 0 && g.height > 0
    ensures |r| == |ns|
  {
    if |ns| == 0 then [] else Files(g, side, ns[..|ns| - 1], t) + [File(g, side, ns[|ns| - 1], t)]
  }

  /** One more size adds its entry and its file at the end. */
  lemma EntriesSnoc(g: Target, side: Side, ns: seq<nat>, t: ImageFormat, i: nat)
    requires g.width > 0 && g.height > 0 && i < |ns|
    ensures Entries(g, side, ns[..i + 1], t) == Entries(g, side, ns[..i], t) + [Entry(g, side, ns[i], t)]
    ensures Files(g, side, ns[..i + 1], t) == Files(g, side, ns[..i], t) + [File(g, side, ns[i], t)]
  {
    assert ns[..i + 1][..i] == ns[..i];
  }

  /** The i-th entry and file belong to the i-th size. */
  lemma {:induction false} EntriesIndex(g: Target, side: Side, ns: seq<nat>, t: ImageFormat, i: nat)
    requires g.width > 0 && g.height > 0 && i < |ns|
    ensures Entries(g, side, ns, t)[i] == Entry(g, side, ns[i], t)
    ensures Files(g, side, ns, t)[i] == File(g, side, ns[i], t)
    decreases |ns|
  {
    if i < |ns| - 1 {
      EntriesIndex(g, side, ns[..|ns| - 1], t, i);
    }
  }

  /** One entry per size of the chosen list, in the list's order. */
  function SrcSetEntries(g: Target, c: SizeList, t: ImageFormat): (r: seq<string>)
    requires g.width > 0 && g.height > 0
  {
    Entries(g, c.side, c.sizes, t)
  }

  function SrcSetText(g: Target, c: SizeList, t: ImageFormat): string
    requires g.width > 0 && g.height > 0
  {
    Join(SrcSetEntries(g, c, t), ", ")
  }

  /** The files createSrcSet asks the encoder for. */
  function SrcSetFiles(g: Target, c: SizeList, t: ImageFormat): (r: seq<string>)
    requires g.width > 0 && g.height > 0
    ensures |r| == |c.sizes|
  {
    Files(g, c.side, c.sizes, t)
  }

  /** `e` ends with the width descriptor " <w>w". */
  predicate EndsWithWidth(e: string, w: nat)
  {
    |e| > |NatToString(w)| + 1 && e[|e| - |NatToString(w)| - 2..] == " " + NatToString(w) + "w"
  }

  /** The width an entry of a size list describes: the size itself for a
      width list, the inferred width for a height list. */
  function DescribedWidth(g: Target, side: Side, n: nat): nat
    requires g.width > 0 && g.height > 0
  {
    if side == Width then n else InferDimension(g.width, g.height, n, false)
  }

  /** Each srcset entry names the width it was made with: the size itself
      when the list measures widths. */
  lemma SrcSetDescribesWidths(g: Target, c: SizeList, t: ImageFormat, i: nat)
    requires g.width > 0 && g.height > 0 && i < |c.sizes|
    ensures EndsWithWidth(SrcSetEntries(g, c, t)[i], DescribedWidth(g, c.side, c.sizes[i]))
    ensures c.side == Width ==> DescribedWidth(g, c.side, c.sizes[i]) == c.sizes[i]
  {
    EntriesIndex(g, c.side, c.sizes, t, i);
    EntryEnds(g, c.side, c.sizes[i], t);
  }

  lemma EntryEnds(g: Target, side: Side, n: nat, t: ImageFormat)
    requires g.width > 0 && g.height > 0
    ensures EndsWithWidth(Entry(g, side, n, t), DescribedWidth(g, side, n))
  {
    assert OutputSize(g, Along(side, n)).width == DescribedWidth(g, side, n);
    WidthSuffix(HtmlPath(g, Along(side, n), t, false), DescribedWidth(g, side, n));
  }

  lemma WidthSuffix(p: string, w: nat)
    ensures EndsWithWidth(p + " " + NatToString(w) + "w", w)
  {
    var d := NatToString(w);
    var e := p + " " + d + "w";
    assert e == p + (" " + d + "w");
  }

  /** Distinct sizes give distinct files. */
  lemma SrcSetFilesDistinct(g: Target, c: SizeList, t: ImageFormat)
    requires g.width > 0 && g.height > 0
    requires forall i, j :: 0 <= i < j < |c.sizes| ==> c.sizes[i] != c.sizes[j]
    ensures Distinct(SrcSetFiles(g, c, t))
  {
    var f := SrcSetFiles(g, c, t);
    forall i, j | 0 <= i < j < |f| ensures f[i] != f[j] {
      if f[i] == f[j] {
        EntriesIndex(g, c.side, c.sizes, t, i);
        EntriesIndex(g, c.side, c.sizes, t, j);
        var si := OutputSize(g, Along(c.side, c.sizes[i]));
        var sj := OutputSize(g, Along(c.side, c.sizes[j]));
        JoinPathInjective(g.paths.resolvedNewImageDir, FileName(g, Along(c.side, c.sizes[i]), t, false),
          FileName(g, Along(c.side, c.sizes[j]), t, false), g.paths.sep);
        ImageNameInjective(g.imgName, false, si.width, si.height, t, false, sj.width, sj.height, t);
        assert false;
      }
    }
  }

  /** No size of a valid plan leads to an image larger than the original. */
  lemma SrcSetWithinOriginal(g: Target, c: SizeList)
    requires g.width > 0 && g.height > 0
    requires forall i :: 0 <= i < |c.sizes| ==> c.sizes[i] <= (if c.side == Width then g.width else g.height)
    ensures forall i :: 0 <= i < |c.sizes| ==>
      OutputSize(g, Along(c.side, c.sizes[i])).width <= g.width
      && OutputSize(g, Along(c.side, c.sizes[i])).height <= g.height
  {
    forall i | 0 <= i < |c.sizes|
      ensures OutputSize(g, Along(c.side, c.sizes[i])).width <= g.width
      ensures OutputSize(g, Along(c.side, c.sizes[i])).height <= g.height
    {
      OutputSizeWithin(g, c.side, c.sizes[i]);
    }
  }

  /** The files of one srcset per picture type, in `picTypes` order. */
  function PictureFiles(g: Target, c: SizeList, types: seq<ImageFormat>): (r: seq<string>)
    requires g.width > 0 && g.height > 0
    ensures |r| == |types| * |c.sizes|
  {
    if |types| == 0 then []
    else
      var k := |types| - 1;
      MulStep(k, |c.sizes|);
      PictureFiles(g, c, types[..k]) + SrcSetFiles(g, c, types[k])
  }

  lemma MulStep(k: nat, m: nat)
    ensures (k + 1) * m == k * m + m
  {
  }

  // ---------------------------------------------------------------------
  // Attributes and tags (src/utils.ts:459-526)

  /** The attribute names createImgTag and createSourceTag write. */
  datatype Key = Class | Style | SrcSet | Sizes | Src | Alt | WidthKey | HeightKey
               | Title | Loading | Decoding | FetchPriority | Type | Media

  /** How a key is spelled: JSX output (`withClassName`) uses the camel-case
      React names for class, srcset and fetchpriority. */
  function KeyName(k: Key, withClassName: bool): string
  {
    match k
    case Class => if withClassName then "className" else "class"
    case Style => "style"
    case SrcSet => if withClassName then "srcSet" else "srcset"
    case Sizes => "sizes"
    case Src => "src"
    case Alt => "alt"
    case WidthKey => "width"
    case HeightKey => "height"
    case Title => "title"
    case Loading => "loading"
    case Decoding => "decoding"
    case FetchPriority => if withClassName then "fetchPriority" else "fetchpriority"
    case Type => "type"
    case Media => "media"
  }

  /** One attribute: its key and its value as written, quotes included. */
  datatype Attr = Attr(key: Key, value: string)

  function Quote(v: string): string
  {
    "\"" + v + "\""
  }

  /** `name=value ` */
  function AttrText(a: Attr, withClassName: bool): string
  {
    KeyName(a.key, withClassName) + "=" + a.value + " "
  }

  function RenderAttrs(attrs: seq<Attr>, withClassName: bool): string
  {
    if |attrs| == 0 then "" else AttrText(attrs[0], withClassName) + RenderAttrs(attrs[1..], withClassName)
  }

  /** Whether a list of attributes carries the key `k`. */
  predicate Has(attrs: seq<Attr>, k: Key)
  {
    |attrs| > 0 && (attrs[0].key == k || Has(attrs[1..], k))
  }

  lemma {:induction false} HasAppend(a: seq<Attr>, b: seq<Attr>, k: Key)
    ensures Has(a + b, k) <==> Has(a, k) || Has(b, k)
    decreases |a|
  {
    if |a| > 0 {
      assert (a + b)[1..] == a[1..] + b;
      HasAppend(a[1..], b, k);
    } else {
      assert a + b == b;
    }
  }

  /** `<tag ` followed by the attributes and `/>`. */
  function Tag(tag: string, attrs: seq<Attr>, withClassName: bool): string
  {
    "<" + tag + " " + RenderAttrs(attrs, withClassName) + "/>"
  }

  /** Every attribute of the list appears, written out, in the rendered text. */
  lemma {:induction false} RenderedAttr(attrs: seq<Attr>, i: nat, withClassName: bool)
    requires i < |attrs|
    ensures Contains(RenderAttrs(attrs, withClassName), AttrText(attrs[i], withClassName))
  {
    var r := RenderAttrs(attrs, withClassName);
    var a := AttrText(attrs[0], withClassName);
    assert r == a + RenderAttrs(attrs[1..], withClassName);
    if i == 0 {
      assert r[..|a|] == a;
      assert OccursAt(r, a, 0);
    } else {
      RenderedAttr(attrs[1..], i - 1, withClassName);
      var rest := RenderAttrs(attrs[1..], withClassName);
      assert OccursAt(r, rest, |a|) by {
        assert r[|a|..|a| + |rest|] == rest;
      }
      ContainsWithin(r, rest, |a|, AttrText(attrs[i], withClassName));
    }
  }

  /** The attributes createImgTag writes, in its order. */
  function ImgAttrs(s: Settings, classStr: string, fallbackPath: string, fallbackSize: Size,
                    isPicture: bool, srcset: string): seq<Attr>
  {
    ClassAttr(s, classStr) + StyleAttr(s.styles) + SrcSetAttrs(s, isPicture, srcset)
    + FallbackAttrs(s, fallbackPath, fallbackSize) + TitleAttr(s.title)
    + HintAttrs(s.loading, s.decoding, s.fetchPriority)
  }

  function ClassAttr(s: Settings, classStr: string): (r: seq<Attr>)
    ensures forall k :: Has(r, k) <==> k == Class && |s.classes| > 0
  {
    if |s.classes| > 0 then [Attr(Class, classStr)] else []
  }

  /** A style in braces is a JSX object and is wrapped once more in braces;
      any other style is quoted. */
  function StyleAttr(styles: string): (r: seq<Attr>)
    ensures forall k :: Has(r, k) <==> k == Style && styles != ""
  {
    if styles == "" then []
    else if styles[0] == '{' then [Attr(Style, "{" + styles + "}")]
    else [Attr(Style, Quote(styles))]
  }

  function SrcSetAttrs(s: Settings, isPicture: bool, srcset: string): (r: seq<Attr>)
    ensures forall k :: Has(r, k) <==> (k == SrcSet || k == Sizes) && !isPicture
  {
    if isPicture then []
    else
      var r := [Attr(SrcSet, Quote(srcset)), Attr(Sizes, Quote(Join(s.sizes, ", ")))];
      assert forall k :: Has(r[1..], k) <==> k == Sizes;
      r
  }

  function FallbackAttrs(s: Settings, fallbackPath: string, fallbackSize: Size): (r: seq<Attr>)
    ensures forall k :: Has(r, k) <==> k == Src || k == Alt || k == WidthKey || k == HeightKey
  {
    var r := [Attr(Src, Quote(fallbackPath)),
              Attr(Alt, Quote(s.alt)),
              Attr(WidthKey, Quote(NatToString(fallbackSize.width))),
              Attr(HeightKey, Quote(NatToString(fallbackSize.height)))];
    assert forall k :: Has(r[3..], k) <==> k == HeightKey;
    assert forall k :: Has(r[2..], k) <==> k == WidthKey || k == HeightKey;
    assert forall k :: Has(r[1..], k) <==> k == Alt || k == WidthKey || k == HeightKey;
    r
  }

  function TitleAttr(title: string): (r: seq<Attr>)
    ensures forall k :: Has(r, k) <==> k == Title && title != ""
  {
    if title == "" then [] else [Attr(Title, Quote(title))]
  }

  /** The loading hints every `<img>` carries. */
  function HintAttrs(loading: Loading, decoding: Decoding, priority: FetchPriority): (r: seq<Attr>)
    ensures forall k :: Has(r, k) <==> k == Loading || k == Decoding || k == FetchPriority
  {
    var r := [Attr(Loading, Quote(LoadingName(loading))),
              Attr(Decoding, Quote(DecodingName(decoding))),
              Attr(FetchPriority, Quote(PriorityName(priority)))];
    assert forall k :: Has(r[2..], k) <==> k == FetchPriority;
    assert forall k :: Has(r[1..], k) <==> k == Decoding || k == FetchPriority;
    r
  }

  /** Which attributes createImgTag writes: a class only with classes, a
      style only with styles, srcset and sizes only outside a picture, a
      title only when there is one, never a type or media, and src, alt,
      width, height, loading, decoding and fetch priority always. */
  predicate ImgCarries(s: Settings, isPicture: bool, k: Key)
  {
    match k
    case Class => |s.classes| > 0
    case Style => s.styles != ""
    case SrcSet | Sizes => !isPicture
    case Title => s.title != ""
    case Type | Media => false
    case _ => true
  }

  lemma ImgAttrKeys(s: Settings, classStr: string, fallbackPath: string, fallbackSize: Size,
                    isPicture: bool, srcset: string, k: Key)
    ensures Has(ImgAttrs(s, classStr, fallbackPath, fallbackSize, isPicture, srcset), k)
        <==> ImgCarries(s, isPicture, k)
  {
    var a, b, c := ClassAttr(s, classStr), StyleAttr(s.styles), SrcSetAttrs(s, isPicture, srcset);
    var d, e := FallbackAttrs(s, fallbackPath, fallbackSize), TitleAttr(s.title);
    var f := HintAttrs(s.loading, s.decoding, s.fetchPriority);
    HasSix(a, b, c, d, e, f, k);
    CarriedByGroups(s, isPicture, k, Has(a + b + c + d + e + f, k),
                    Has(a, k), Has(b, k), Has(c, k), Has(d, k), Has(e, k), Has(f, k));
  }

  /** Combines what each group of createImgTag's attributes carries. */
  lemma CarriedByGroups(s: Settings, isPicture: bool, k: Key, all: bool,
                        a: bool, b: bool, c: bool, d: bool, e: bool, f: bool)
    requires all <==> a || b || c || d || e || f
    requires a <==> k == Class && |s.classes| > 0
    requires b <==> k == Style && s.styles != ""
    requires c <==> (k == SrcSet || k == Sizes) && !isPicture
    requires d <==> k == Src || k == Alt || k == WidthKey || k == HeightKey
    requires e <==> k == Title && s.title != ""
    requires f <==> k == Loading || k == Decoding || k == FetchPriority
    ensures all <==> ImgCarries(s, isPicture, k)
  {
  }

  lemma HasSix(a: seq<Attr>, b: seq<Attr>, c: seq<Attr>, d: seq<Attr>, e: seq<Attr>, f: seq<Attr>, k: Key)
    ensures Has(a + b + c + d + e + f, k)
        <==> Has(a, k) || Has(b, k) || Has(c, k) || Has(d, k) || Has(e, k) || Has(f, k)
  {
    HasAppend(a, b, k);
    HasAppend(a + b, c, k);
    HasAppend(a + b + c, d, k);
    HasAppend(a + b + c + d, e, k);
    HasAppend(a + b + c + d + e, f, k);
  }

  /** The attributes createSourceTag writes, in its order. */
  function SourceAttrs(typeName: string, media: string, sizes: seq<string>, srcset: string): seq<Attr>
  {
    [Attr(Type, Quote("image/" + typeName))]
    + (if media == "" then [] else [Attr(Media, Quote(media))])
    + [Attr(Sizes, Quote(Join(sizes, ", "))), Attr(SrcSet, Quote(srcset))]
  }

  /** A `<source>` always starts with its type and ends with sizes and
      srcset, and has a media attribute exactly when a media condition is
      given. */
  lemma SourceAttrShape(typeName: string, media: string, sizes: seq<string>, srcset: string)
    ensures var a := SourceAttrs(typeName, media, sizes, srcset);
      && |a| == (if media == "" then 3 else 4)
      && a[0] == Attr(Type, "\"image/" + typeName + "\"")
      && a[|a| - 2] == Attr(Sizes, Quote(Join(sizes, ", ")))
      && a[|a| - 1] == Attr(SrcSet, Quote(srcset))
      && (Has(a, Media) <==> media != "")
  {
    var a := SourceAttrs(typeName, media, sizes, srcset);
    assert Quote("image/" + typeName) == "\"image/" + typeName + "\"";
    if media != "" {
      assert !Has(a[3..], Media);
      assert !Has(a[2..], Media);
    } else {
      assert !Has(a[2..], Media);
      assert !Has(a[1..], Media);
    }
  }

  /** The `<picture>` createPictureTag writes around its sources and image. */
  function PictureText(sources: seq<string>, img: string): string
  {
    "<picture >\n" + Concat(Tabbed(sources)) + "\t" + img + "\n" + "</picture>"
  }

  /** Each source on a line of its own: a tab, the source, a newline. */
  function Tabbed(sources: seq<string>): (r: seq<string>)
    ensures |r| == |sources|
  {
    seq(|sources|, i requires 0 <= i < |sources| => "\t" + sources[i] + "\n")
  }

  function Indented(lines: seq<string>): (r: seq<string>)
    ensures |r| == |lines| && forall i :: 0 <= i < |r| ==> r[i] == "\t" + lines[i]
  {
    seq(|lines|, i requires 0 <= i < |lines| => "\t" + lines[i])
  }

  /** Lines ended with newlines, followed by more text, are the lines joined. */
  lemma {:induction false} ConcatLines(lines: seq<string>, rest: seq<string>)
    requires |rest| >= 1
    ensures Concat(seq(|lines|, i requires 0 <= i < |lines| => lines[i] + "\n")) + Join(rest, "\n")
         == Join(lines + rest, "\n")
    decreases |lines|
  {
    var ended := seq(|lines|, i requires 0 <= i < |lines| => lines[i] + "\n");
    if |lines| == 0 {
      assert lines + rest == rest;
    } else {
      var tail := lines[1..];
      ConcatLines(tail, rest);
      var endedTail := seq(|tail|, i requires 0 <= i < |tail| => tail[i] + "\n");
      assert ended[1..] == endedTail;
      assert (lines + rest)[1..] == tail + rest;
      assert Concat(ended) == lines[0] + "\n" + Concat(endedTail);
    }
  }

  /** Read line by line, a picture is its opening tag, one line per source in
      the given order, the image and the closing tag. */
  lemma PictureLines(sources: seq<string>, img: string)
    requires forall i :: 0 <= i < |sources| ==> '\n' !in sources[i]
    requires '\n' !in img
    ensures Split(PictureText(sources, img), '\n')
         == ["<picture >"] + Indented(sources) + ["\t" + img, "</picture>"]
  {
    var lines := Indented(sources);
    var rest := ["\t" + img, "</picture>"];
    assert Tabbed(sources) == seq(|lines|, i requires 0 <= i < |lines| => lines[i] + "\n");
    ConcatLines(lines, rest);
    assert Join(rest, "\n") == "\t" + img + "\n" + "</picture>";
    var all := ["<picture >"] + lines + rest;
    assert all[1..] == lines + rest;
    assert Join(all, "\n") == "<picture >" + "\n" + Join(lines + rest, "\n");
    assert PictureText(sources, img) == Join(all, "\n");
    forall k | 0 <= k < |all| ensures '\n' !in all[k] {
      if 1 <= k <= |lines| {
        assert all[k] == "\t" + sources[k - 1];
      }
    }
    SplitJoin(all, '\n');
  }

  // ---------------------------------------------------------------------
  // The state of one image

  class ImageState {
    const settings: Settings
    const target: Target
    /** `widths` and `heights` after getState filtered them. */
    const widths: seq<nat>
    const heights: seq<nat>
    /** `fallbackWidth` after getState clamped it. */
    const fallbackWidth: nat
    const aspectRatio: string
    ghost const ratio: Fraction
    const defaults: SizeList
    const classStr: string
    const totalImages: nat
    var fallbackPath: string
    var fallbackSize: Size
    var imgCount: nat
    /** The files in the output directory of this image. */
    var existing: set<string>
    /** Every path the encoder has written, in order. */
    var encoded: seq<string>
    /** The files in the output directory when the state was made. */
    ghost const start: set<string>
    /** Every path createImage was asked for, in order. */
    ghost var requested: seq<string>

    /** What getState establishes about the plan. */
    predicate Planned()
    {
      && target.width > 0 && target.height > 0 && settings.incrementSize > 0
      && widths == Fit(settings.widths, target.width)
      && heights == Fit(settings.heights, target.height)
      && fallbackWidth <= target.width
      && defaults.side == (if target.width <= target.height then Width else Height)
      && defaults.sizes == StepSizes(if target.width <= target.height then target.width else target.height, settings.incrementSize)
    }

    /** The output directory and the write log follow from the requests:
        every requested file exists, and a file was encoded exactly when it
        was requested and did not exist yet. */
    ghost predicate Logged()
      reads this`existing, this`encoded, this`requested
    {
      existing == start + ToSet(requested) && encoded == Encoded(start, requested)
    }

    /** The sizes every srcset of this image uses. */
    function Sizes(): SizeList
    {
      Chosen(widths, heights, defaults)
    }

    /** getState (src/utils.ts:48-116) after the options have been parsed
        and the metadata read: filters the size lists, clamps the fallback
        width, makes the fallback jpg, builds the class string and resets
        the image count. With `clean` the output directory starts empty. */
    constructor GetState(settings: Settings, target: Target, onDisk: set<string>)
      requires target.width > 0 && target.height > 0 && settings.incrementSize > 0
      ensures Planned() && Logged()
      ensures this.settings == settings && this.target == target
      ensures fallbackWidth == (if settings.fallbackWidth > target.width then target.width else settings.fallbackWidth)
      ensures aspectRatio == FormatRatio(ratio) && 1 <= ratio.den <= AspectLimit
      ensures classStr == ClassBuilder(settings.classes)
      ensures fallbackSize == OutputSize(target, FallbackRequest(fallbackWidth))
      ensures fallbackPath == HtmlPath(target, FallbackRequest(fallbackWidth), Jpg, false)
      ensures start == if settings.clean then {} else onDisk
      ensures requested == [ResolvedPath(target, FallbackRequest(fallbackWidth), Jpg, false)]
      ensures imgCount == 0
      ensures totalImages == TotalImages(settings.picTypes, widths, heights, defaults)
    {
      this.settings := settings;
      this.target := target;
      var w, h := target.width, target.height;
      var ratioText, r := GetAspectRatio(w, h);
      aspectRatio := ratioText;
      ratio := r;
      var key, steps := DefaultSize(w, h, settings.incrementSize);
      defaults := SizeList(key, steps);
      var ws := FitNonEmpty(settings.widths, w);
      var hs := FitNonEmpty(settings.heights, h);
      widths := ws;
      heights := hs;
      fallbackWidth := if settings.fallbackWidth > w then w else settings.fallbackWidth;
      classStr := ClassBuilder(settings.classes);
      totalImages := TotalImages(settings.picTypes, ws, hs, SizeList(key, steps));
      var found := if settings.clean then {} else onDisk;
      start := found;
      existing := found;
      encoded := [];
      requested := [];
      new;
      assert ToSet([]) == {};
      CreateFallback();
      imgCount := 0;
    }

    /** The fallback jpg (src/utils.ts:94-99): the original size, or
        `fallbackWidth` wide when that is set. */
    method CreateFallback()
      requires target.width > 0 && target.height > 0 && Logged()
      modifies this`fallbackPath, this`fallbackSize, this`imgCount, this`existing, this`encoded, this`requested
      ensures fallbackSize == OutputSize(target, FallbackRequest(fallbackWidth))
      ensures fallbackPath == HtmlPath(target, FallbackRequest(fallbackWidth), Jpg, false)
      ensures requested == old(requested) + [ResolvedPath(target, FallbackRequest(fallbackWidth), Jpg, false)]
      ensures Logged()
    {
      var sizeArr := FallbackRequest(fallbackWidth);
      var path, size := CreateImage(sizeArr, Jpg, false);
      fallbackPath := path;
      fallbackSize := size;
    }

    /** createImage (src/utils.ts:347-429): the size and public path of the
        image; its file is encoded only if it does not exist yet, and the
        count of images rises by one either way. */
    method CreateImage(req: SizeRequest, t: ImageFormat, isBlur: bool) returns (path: string, size: Size)
      requires target.width > 0 && target.height > 0 && Logged()
      modifies this`imgCount, this`existing, this`encoded, this`requested
      ensures size == OutputSize(target, req)
      ensures path == HtmlPath(target, req, t, isBlur)
      ensures var f := ResolvedPath(target, req, t, isBlur);
        && existing == old(existing) + {f}
        && encoded == old(encoded) + (if f in old(existing) then [] else [f])
        && requested == old(requested) + [f]
      ensures imgCount == old(imgCount) + 1
      ensures Logged()
    {
      size := Measure(req);
      var imageName := ImageName(target.imgName, isBlur, size.width, size.height, t);
      assert imageName == FileName(target, req, t, isBlur);
      var newImagePath := JoinPath(target.paths.newImageDir, imageName, target.paths.sep);
      PathsOfFile(target, req, t, isBlur, imageName);
      var resolvedNewImagePath := JoinPath(target.paths.resolvedNewImageDir, imageName, target.paths.sep);
      Request(start, requested, resolvedNewImagePath);
      if resolvedNewImagePath !in existing {
        encoded := encoded + [resolvedNewImagePath];
        existing := existing + {resolvedNewImagePath};
      } else {
        assert encoded == encoded + [];
      }
      requested := requested + [resolvedNewImagePath];
      path := PublicPath(target.linuxPaths, target.omit, newImagePath);
      imgCount := imgCount + 1;
    }

    /** The size createImage asks sharp for (src/utils.ts:353-375): the
        original for no request, otherwise the requested side with the
        other one from getDimension. */
    method Measure(req: SizeRequest) returns (size: Size)
      requires target.width > 0 && target.height > 0
      ensures size == OutputSize(target, req)
    {
      match req {
        case Original =>
          size := Size(target.width, target.height);
        case Along(side, n) =>
          var missing := InferDimension(target.width, target.height, n, side == Width);
          if side == Width {
            size := Size(n, missing);
          } else {
            size := Size(missing, n);
          }
      }
    }

    /** createSrcSet (src/utils.ts:437-451): one image per size of the
        chosen list, and their entries joined by ", ". */
    method CreateSrcSet(t: ImageFormat) returns (srcset: string)
      requires target.width > 0 && target.height > 0 && Logged()
      modifies this`imgCount, this`existing, this`encoded, this`requested
      ensures srcset == SrcSetText(target, Sizes(), t)
      ensures imgCount == old(imgCount) + |Sizes().sizes|
      ensures requested == old(requested) + SrcSetFiles(target, Sizes(), t)
      ensures Logged()
    {
      var side, sizes := Sizes().side, Sizes().sizes;
      var parts: seq<string> := [];
      var i := 0;
      while i < |sizes|
        invariant 0 <= i <= |sizes|
        invariant parts == Entries(target, side, sizes[..i], t)
        invariant requested == old(requested) + Files(target, side, sizes[..i], t)
        invariant imgCount == old(imgCount) + i
        invariant Logged()
      {
        var entry := CreateEntry(side, sizes[i], t);
        parts := parts + [entry];
        EntriesSnoc(target, side, sizes, t, i);
        AppendAssoc(old(requested), Files(target, side, sizes[..i], t), [File(target, side, sizes[i], t)]);
        i := i + 1;
      }
      assert sizes[..i] == sizes;
      srcset := Join(parts, ", ");
    }

    /** One pass of createSrcSet's loop (src/utils.ts:445-448): make the
        image and describe it as `"<path> <width>w"`. */
    method CreateEntry(side: Side, n: nat, t: ImageFormat) returns (entry: string)
      requires target.width > 0 && target.height > 0 && Logged()
      modifies this`imgCount, this`existing, this`encoded, this`requested
      ensures entry == Entry(target, side, n, t)
      ensures requested == old(requested) + [File(target, side, n, t)]
      ensures imgCount == old(imgCount) + 1
      ensures Logged()
    {
      var path, size := CreateImage(Along(side, n), t, false);
      entry := path + " " + NatToString(size.width) + "w";
    }

    /** createImgTag (src/utils.ts:459-494). Outside a picture the image
        carries the srcset of the first picture type, which makes its
        images. */
    method CreateImgTag(isPicture: bool) returns (tag: string)
      requires target.width > 0 && target.height > 0 && Logged()
      requires isPicture || |settings.picTypes| >= 1
      modifies this`imgCount, this`existing, this`encoded, this`requested
      ensures tag == Tag("img", ImgAttrs(settings, classStr, fallbackPath, fallbackSize, isPicture,
        if isPicture then "" else SrcSetText(target, Sizes(), settings.picTypes[0])), settings.withClassName)
      ensures isPicture ==> imgCount == old(imgCount) && requested == old(requested)
      ensures !isPicture ==>
        && imgCount == old(imgCount) + |Sizes().sizes|
        && requested == old(requested) + SrcSetFiles(target, Sizes(), settings.picTypes[0])
      ensures Logged()
    {
      var srcset := "";
      if !isPicture {
        srcset := CreateSrcSet(settings.picTypes[0]);
      }
      tag := Tag("img", ImgAttrs(settings, classStr, fallbackPath, fallbackSize, isPicture, srcset), settings.withClassName);
    }

    /** createSourceTag (src/utils.ts:503-511). */
    method CreateSourceTag(t: ImageFormat, media: string) returns (tag: string)
      requires target.width > 0 && target.height > 0 && Logged()
      modifies this`imgCount, this`existing, this`encoded, this`requested
      ensures tag == SourceTag(t, media)
      ensures imgCount == old(imgCount) + |Sizes().sizes|
      ensures requested == old(requested) + SrcSetFiles(target, Sizes(), t)
      ensures Logged()
    {
      var srcset := CreateSrcSet(t);
      tag := Tag("source", SourceAttrs(FormatName(t), media, settings.sizes, srcset), settings.withClassName);
    }

    function SourceTag(t: ImageFormat, media: string): string
      requires target.width > 0 && target.height > 0
    {
      Tag("source", SourceAttrs(FormatName(t), media, settings.sizes, SrcSetText(target, Sizes(), t)),
        settings.withClassName)
    }

    /** createPictureTag (src/utils.ts:518-526): a source per picture type,
        in the given order, then the image without srcset or sizes. */
    method CreatePictureTag() returns (picture: string)
      requires target.width > 0 && target.height > 0 && Logged()
      modifies this`imgCount, this`existing, this`encoded, this`requested
      ensures picture == PictureText(SourceTags(settings.picTypes),
        Tag("img", ImgAttrs(settings, classStr, fallbackPath, fallbackSize, true, ""), settings.withClassName))
      ensures imgCount == old(imgCount) + |settings.picTypes| * |Sizes().sizes|
      ensures requested == old(requested) + PictureFiles(target, Sizes(), settings.picTypes)
      ensures Logged()
    {
      var types := settings.picTypes;
      ghost var n := |Sizes().sizes|;
      picture := "<picture >\n";
      var i := 0;
      while i < |types|
        invariant 0 <= i <= |types|
        invariant picture == "<picture >\n" + Concat(Tabbed(SourceTags(types[..i])))
        invariant imgCount == old(imgCount) + i * n
        invariant requested == old(requested) + PictureFiles(target, Sizes(), types[..i])
        invariant Logged()
      {
        var source := CreateSourceTag(types[i], "");
        AppendAssoc("<picture >\n", Concat(Tabbed(SourceTags(types[..i]))), "\t" + source + "\n");
        picture := picture + ("\t" + source + "\n");
        SourcesStep(types, i);
        PictureFilesStep(types, i);
        AppendAssoc(old(requested), PictureFiles(target, Sizes(), types[..i]), SrcSetFiles(target, Sizes(), types[i]));
        i := i + 1;
      }
      assert types[..i] == types;
      var img := CreateImgTag(true);
      AppendAssoc(picture, "\t", img);
      AppendAssoc(picture, "\t" + img, "\n");
      picture := picture + ("\t" + img + "\n");
      picture := picture + "</picture>";
    }

    /** The sources of the given picture types, in their order. */
    function SourceTags(types: seq<ImageFormat>): (r: seq<string>)
      requires target.width > 0 && target.height > 0
      ensures |r| == |types|
    {
      if |types| == 0 then [] else SourceTags(types[..|types| - 1]) + [SourceTag(types[|types| - 1], "")]
    }

    /** One more picture type adds its source line. */
    lemma SourcesStep(types: seq<ImageFormat>, i: nat)
      requires target.width > 0 && target.height > 0 && i < |types|
      ensures Concat(Tabbed(SourceTags(types[..i + 1])))
           == Concat(Tabbed(SourceTags(types[..i]))) + ("\t" + SourceTag(types[i], "") + "\n")
    {
      var before := SourceTags(types[..i]);
      var line := "\t" + SourceTag(types[i], "") + "\n";
      assert types[..i + 1][..i] == types[..i];
      assert Tabbed(before + [SourceTag(types[i], "")]) == Tabbed(before) + [line];
      ConcatSnoc(Tabbed(before), line);
    }

    /** One more picture type adds the files of its srcset. */
    lemma PictureFilesStep(types: seq<ImageFormat>, i: nat)
      requires target.width > 0 && target.height > 0 && i < |types|
      ensures PictureFiles(target, Sizes(), types[..i + 1])
           == PictureFiles(target, Sizes(), types[..i]) + SrcSetFiles(target, Sizes(), types[i])
    {
      assert types[..i + 1][..i] == types[..i];
    }

    /** totalImages is the fallback plus one image per file a picture of
        this plan asks for. */
    lemma TotalCounted()
      requires target.width > 0 && target.height > 0
      ensures TotalImages(settings.picTypes, widths, heights, defaults)
           == |PictureFiles(target, Sizes(), settings.picTypes)| + 1
    {
    }
  }

  /** The fallback's size argument (src/utils.ts:95): `['width',
      fallbackWidth]` when it is set, `[]` when it is 0. */
  function FallbackRequest(fallbackWidth: nat): SizeRequest
  {
    if fallbackWidth != 0 then Along(Width, fallbackWidth) else Original
  }
}
