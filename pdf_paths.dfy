/**
 * The path conventions of the PDF preprocessor.  A PDF lives at
 * `base/C/documents/.../N.pdf` under the shared directory `base` and the
 * collection `C`; the images of its pages go to
 * `base/C/synthetic/images/documents/.../N/N_k.png` and the markdown made
 * from each image to the same place under `markdowns` with `.md`.  Also the
 * extraction of the markdown fenced in a model's answer.
 *
 * Every helper returns a `Result` whose error is the kind of exception the
 * Python code raises.  The shared directory is a parameter, and so is
 * whether the PDF file exists.
 */
module PdfPaths {
  import opened Maybe
  import opened Strings

  /** The exception a helper raises. */
  datatype Failure = ValueError | IndexError | AssertionError | FileNotFound

  datatype Result<T> = Ok(value: T) | Err(error: Failure)

  // ---------------------------------------------------------------------
  // posixpath.join

  /** `os.path.join(a, b)`: an absolute `b` replaces `a`; otherwise one separator goes between them. */
  function JoinTwo(a: string, b: string): string {
    if StartsWith(b, "/") then b
    else if a == "" || EndsWith(a, "/") then a + b
    else a + "/" + b
  }

  /** `os.path.join(a, *ps)`. */
  function PathJoin(a: string, ps: seq<string>): string
    decreases |ps|
  {
    if ps == [] then a else PathJoin(JoinTwo(a, ps[0]), ps[1..])
  }

  /** A path component: non-empty and without a separator. */
  predicate Plain(s: string) {
    s != [] && '/' !in s
  }

  predicate AllPlain(ts: seq<string>) {
    forall k :: 0 <= k < |ts| ==> Plain(ts[k])
  }

  /** A base directory written without a trailing separator. */
  predicate BaseDir(base: string) {
    base != [] && base[|base| - 1] != '/'
  }

  /** The path of the components `ts` under `base`. */
  function Under(base: string, ts: seq<string>): string {
    base + "/" + JoinWith("/", ts)
  }

  /** The components `ts` with `ext` appended to the last one. */
  function WithExt(ts: seq<string>, ext: string): (r: seq<string>)
    requires ts != []
    ensures |r| == |ts| && r[..|ts| - 1] == ts[..|ts| - 1] && r[|ts| - 1] == ts[|ts| - 1] + ext
  {
    ts[..|ts| - 1] + [ts[|ts| - 1] + ext]
  }

  // ---------------------------------------------------------------------
  // The synthetic directories

  /** `_SyntheticDir`: which of the two holding directories. */
  datatype Holding = Images | Markdowns

  function HoldingName(h: Holding): string {
    match h
    case Images => "images"
    case Markdowns => "markdowns"
  }

  /**
   * `_get_synthetic_dir`: the file must exist (checked first), end in
   * `.pdf` and lie under `base`.  The collection is the first component
   * after `base`; the rest, without `.pdf`, is kept below
   * `synthetic/images` or `synthetic/markdowns` of the collection.
   */
  function SyntheticDir(base: string, pdf: string, isFile: bool, h: Holding): (r: Result<string>)
    ensures !isFile ==> r == Err(FileNotFound)
    ensures isFile ==> (r.Err? <==> !EndsWith(pdf, ".pdf") || !StartsWith(pdf, base))
    ensures isFile && r.Err? ==> r.error == ValueError
  {
    if !isFile then Err(FileNotFound)
    else if !EndsWith(pdf, ".pdf") then Err(ValueError)
    else if !StartsWith(pdf, base) then Err(ValueError)
    else
      var naked := SliceFrom(pdf[..|pdf| - 4], |base|);
      var rel := if StartsWith(naked, "/") then naked[1..] else naked;
      var tokens := Split(rel, '/');
      Ok(PathJoin(base, [tokens[0], "synthetic", HoldingName(h), JoinWith("/", tokens[1..])]))
  }

  /** `_get_images_dir`. */
  function ImagesDir(base: string, pdf: string, isFile: bool): Result<string> {
    SyntheticDir(base, pdf, isFile, Images)
  }

  /** `_get_markdowns_dir`. */
  function MarkdownsDir(base: string, pdf: string, isFile: bool): Result<string> {
    SyntheticDir(base, pdf, isFile, Markdowns)
  }

  /** The image of page `k` of the PDF whose file stem is `name`, in its images directory. */
  function PageImage(imagesDir: string, name: string, k: nat): string {
    PathJoin(imagesDir, [name + "_" + NatToString(k) + ".png"])
  }

  // ---------------------------------------------------------------------
  // From an image to its markdown

  /**
   * `_make_markdown_path`: the image must end in `.png`; with `.md` in its
   * place the path must lie under `base`, and its third component after
   * `base` must be `images`, which becomes `markdowns`.  A path with fewer
   * than three components after `base` fails on the index.
   */
  function MarkdownPath(base: string, image: string): (r: Result<string>)
    ensures !EndsWith(image, ".png") ==> r == Err(ValueError)
    ensures EndsWith(image, ".png") && |base| + 4 <= |image| && !StartsWith(image, base) ==> r == Err(ValueError)
    ensures r.Ok? ==> StartsWith(image, base)
    ensures r.Err? ==> r.error == ValueError || r.error == IndexError
  {
    if !EndsWith(image, ".png") then Err(ValueError)
    else
      var md := image[..|image| - 4] + ".md";
      if !StartsWith(md, base) then Err(ValueError)
      else
        var tokens := Split(SliceFrom(md, |base| + 1), '/');
        if |tokens| < 3 then Err(IndexError)
        else if tokens[2] != "images" then Err(ValueError)
        else Ok(PathJoin(base, tokens[2 := "markdowns"]))
  }

  /** `_make_markdown_path`, overwriting the third component of its token list in place. */
  method MakeMarkdownPath(base: string, image: string) returns (r: Result<string>)
    ensures r == MarkdownPath(base, image)
  {
    if !EndsWith(image, ".png") {
      return Err(ValueError);
    }
    var md := image[..|image| - 4];
    md := md + ".md";
    if !StartsWith(md, base) {
      return Err(ValueError);
    }
    var tokens := Split(SliceFrom(md, 1 + |base|), '/');
    if |tokens| < 3 {
      return Err(IndexError);
    }
    if tokens[2] != "images" {
      return Err(ValueError);
    }
    tokens := tokens[2 := "markdowns"];
    r := Ok(PathJoin(base, tokens));
  }

  // ---------------------------------------------------------------------
  // From a markdown back to its PDF

  /** `int(md_file.split("_")[-1])`: the page number after the stem's last underscore. */
  function PageOf(stem: string): Option<int> {
    var pieces := Split(stem, '_');
    ParseInt(pieces[|pieces| - 1])
  }

  /** `md_file.split("_")[0]`: the stem up to its first underscore. */
  function FirstPiece(stem: string): string {
    Split(stem, '_')[0]
  }

  /** The stem up to its last underscore, which is the name of the PDF the page belongs to. */
  function BeforeLastUnderscore(stem: string): string {
    var pieces := Split(stem, '_');
    JoinWith("_", pieces[..|pieces| - 1])
  }

  /** The components of `md` after `base`: `md[len(base):]`, one leading separator dropped, split at separators. */
  function MarkdownTokens(base: string, md: string): (r: seq<string>)
    requires StartsWith(md, base)
    ensures r != []
  {
    var d0 := md[|base|..];
    var d := if StartsWith(d0, "/") then d0[1..] else d0;
    Split(d, '/')
  }

  /**
   * `get_pdf_from_markdown`, with the name check selected by `fixed`: as
   * written (`false`) the parent directory must equal the stem up to its
   * first underscore, corrected (`true`) up to its last one.
   */
  function PdfOfMarkdownBy(base: string, md: string, fixed: bool): (r: Result<(string, int)>)
    ensures !EndsWith(md, ".md") || !StartsWith(md, base) ==> r == Err(ValueError)
  {
    if !EndsWith(md, ".md") then Err(ValueError)
    else if !StartsWith(md, base) then Err(ValueError)
    else PdfOfTokens(base, MarkdownTokens(base, md), fixed)
  }

  /**
   * The checks on the file name (the last token) and its parent directory,
   * then the checks on the directories above it.
   */
  function PdfOfTokens(base: string, tokens: seq<string>, fixed: bool): Result<(string, int)>
    requires tokens != []
  {
    var file := tokens[|tokens| - 1];
    if !EndsWith(file, ".md") then Err(AssertionError)
    else PdfOfStem(base, tokens[..|tokens| - 1], file[..|file| - 3], fixed)
  }

  /** The checks on the file stem (the file name without `.md`) and the directories `dirs` above it. */
  function PdfOfStem(base: string, dirs: seq<string>, stem: string, fixed: bool): Result<(string, int)> {
    if '_' !in stem then Err(AssertionError)
    else
      match PageOf(stem)
      case None => Err(ValueError)
      case Some(page) =>
        if dirs == [] then Err(IndexError)
        else if dirs[|dirs| - 1] != (if fixed then BeforeLastUnderscore(stem) else FirstPiece(stem)) then Err(ValueError)
        else PdfOfDirs(base, dirs, page)
  }

  /**
   * The directories of a markdown after its collection must start with
   * `synthetic`, `markdowns` and `documents`, and something must follow;
   * the PDF is then `documents` and the rest under the collection, the last
   * component taking `.pdf`.
   */
  function PdfOfDirs(base: string, dirs: seq<string>, page: int): Result<(string, int)>
    requires dirs != []
  {
    var rest := dirs[1..];
    if |rest| < 1 || rest[0] != "synthetic" then Err(ValueError)
    else if |rest| < 2 || rest[1] != "markdowns" then Err(ValueError)
    else if |rest| < 3 || rest[2] != "documents" then Err(ValueError)
    else if |rest| == 3 then Err(AssertionError)
    else Ok((PathJoin(base, [dirs[0], "documents"] + WithExt(rest[3..], ".pdf")), page))
  }

  /** `get_pdf_from_markdown` as written. */
  function PdfOfMarkdown(base: string, md: string): Result<(string, int)> {
    PdfOfMarkdownBy(base, md, false)
  }

  /**
   * `get_pdf_from_markdown`: check the extension and the base, strip the
   * base, split at separators and hand the tokens to the popping steps.
   */
  method GetPdfFromMarkdown(base: string, md: string) returns (r: Result<(string, int)>)
    ensures r == PdfOfMarkdown(base, md)
  {
    if !EndsWith(md, ".md") {
      return Err(ValueError);
    }
    if !StartsWith(md, base) {
      return Err(ValueError);
    }
    var d := md[|base|..];
    if StartsWith(d, "/") {
      d := d[1..];
    }
    var tokens := Split(d, '/');
    assert tokens == MarkdownTokens(base, md);
    r := PopFile(base, tokens);
  }

  /**
   * The middle of `get_pdf_from_markdown`: pop the file name, check its
   * extension, its page number and that the parent directory is named
   * after it, then pop the directories.
   */
  method PopFile(base: string, tokens: seq<string>) returns (r: Result<(string, int)>)
    requires tokens != []
    ensures r == PdfOfTokens(base, tokens, false)
  {
    var dirs := tokens;
    var file := dirs[|dirs| - 1];
    dirs := dirs[..|dirs| - 1];
    if !EndsWith(file, ".md") {
      return Err(AssertionError);
    }
    file := file[..|file| - 3];
    assert PdfOfTokens(base, tokens, false) == PdfOfStem(base, dirs, file, false);
    if '_' !in file {
      return Err(AssertionError);
    }
    var page := PageOf(file);
    if page.None? {
      return Err(ValueError);
    }
    if dirs == [] {
      return Err(IndexError);
    }
    if dirs[|dirs| - 1] != FirstPiece(file) {
      return Err(ValueError);
    }
    assert PdfOfStem(base, dirs, file, false) == PdfOfDirs(base, dirs, page.value);
    r := PopDirs(base, dirs, page.value);
  }

  /**
   * The second half of `get_pdf_from_markdown`: pop the collection,
   * `synthetic`, `markdowns` and `documents` from the front of the
   * directories and rejoin what is left, the last component taking `.pdf`.
   */
  method PopDirs(base: string, dirs: seq<string>, page: int) returns (r: Result<(string, int)>)
    requires dirs != []
    ensures r == PdfOfDirs(base, dirs, page)
  {
    var tokens := dirs;
    var subpath := [tokens[0]];
    tokens := tokens[1..];
    if tokens == [] {
      return Err(ValueError);
    }
    var t := tokens[0];
    tokens := tokens[1..];
    if t != "synthetic" {
      return Err(ValueError);
    }
    if tokens == [] {
      return Err(ValueError);
    }
    t := tokens[0];
    tokens := tokens[1..];
    if t != "markdowns" {
      return Err(ValueError);
    }
    if tokens == [] || tokens[0] != "documents" {
      return Err(ValueError);
    }
    subpath := subpath + [tokens[0]];
    tokens := tokens[1..];
    if tokens == [] {
      return Err(AssertionError);
    }
    assert subpath == [dirs[0], "documents"] && tokens == dirs[4..];
    ghost var named := WithExt(tokens, ".pdf");
    tokens := tokens[|tokens| - 1 := tokens[|tokens| - 1] + ".pdf"];
    assert tokens == named;
    subpath := subpath + tokens;
    r := Ok((PathJoin(base, subpath), page));
  }

  // ---------------------------------------------------------------------
  // The markdown fenced in a model's answer

  /**
   * `_extract_markdown`: the text between the first `` ```markdown `` and the
   * next ```` ``` ```` after it, stripped; the whole text when there is no
   * such pair.
   */
  function ExtractMarkdown(txt: string): string {
    match Find(txt, "```markdown", 0)
    case None => txt
    case Some(i) =>
      match Find(txt, "```", i + 11)
      case None => txt
      case Some(j) => Strip(txt[i + 11..j])
  }

  // ---------------------------------------------------------------------
  // Lemmas: joining and splitting paths

  /** A component that neither starts nor ends with a separator. */
  predicate Relative(s: string) {
    s != [] && s[0] != '/' && s[|s| - 1] != '/'
  }

  /** `os.path.join` of relative components puts exactly one separator before each. */
  lemma {:induction false} PathJoinRelative(a: string, ps: seq<string>)
    requires BaseDir(a) && ps != []
    requires forall k :: 0 <= k < |ps| ==> Relative(ps[k])
    ensures PathJoin(a, ps) == a + "/" + JoinWith("/", ps)
    decreases |ps|
  {
    var p := ps[0];
    assert !StartsWith(p, "/") by { assert p[0] != '/'; }
    assert !EndsWith(a, "/") by { assert a[|a| - 1] != '/'; }
    var a' := JoinTwo(a, p);
    assert a' == a + "/" + p;
    if |ps| > 1 {
      assert a'[|a'| - 1] == p[|p| - 1];
      PathJoinRelative(a', ps[1..]);
      assert a' + "/" + JoinWith("/", ps[1..]) == a + "/" + (p + "/" + JoinWith("/", ps[1..]));
    }
  }

  /** Components without separators join into a relative path. */
  lemma JoinPlainRelative(ts: seq<string>)
    requires ts != [] && AllPlain(ts)
    ensures Relative(JoinWith("/", ts))
  {
    var j := JoinWith("/", ts);
    var f, l := ts[0], ts[|ts| - 1];
    JoinWithStartsWith("/", ts);
    JoinWithEndsWith("/", ts);
    assert j[0] == j[..|f|][0] == f[0];
    assert j[|j| - 1] == j[|j| - |l|..][|l| - 1] == l[|l| - 1];
  }

  /** A path under `base` made of plain components is `os.path.join` of them. */
  lemma PathJoinPlain(base: string, ts: seq<string>)
    requires BaseDir(base) && ts != [] && AllPlain(ts)
    ensures PathJoin(base, ts) == Under(base, ts)
  {
    PathJoinRelative(base, ts);
  }

  /** The components of a path under `base` split back out of it. */
  lemma UnderSplit(base: string, ts: seq<string>)
    requires BaseDir(base) && ts != [] && AllPlain(ts)
    ensures StartsWith(Under(base, ts), base)
    ensures Under(base, ts)[|base|..] == "/" + JoinWith("/", ts)
    ensures Split(JoinWith("/", ts), '/') == ts
  {
    var u := Under(base, ts);
    assert u == base + ("/" + JoinWith("/", ts));
    assert u[..|base|] == base;
    assert u[|base|..] == "/" + JoinWith("/", ts);
    assert forall k :: 0 <= k < |ts| ==> '/' !in ts[k] by {
      forall k | 0 <= k < |ts| ensures '/' !in ts[k] { assert Plain(ts[k]); }
    }
    SplitJoinWith(ts, '/');
  }

  /** Adding an extension to the last component adds it to the whole path. */
  lemma UnderExt(base: string, ts: seq<string>, ext: string)
    requires ts != []
    ensures Under(base, WithExt(ts, ext)) == Under(base, ts) + ext
  {
    JoinWithExtendLast("/", ts, ext);
  }

  /** A path under `base` made of plain components can itself serve as a base. */
  lemma UnderBaseDir(base: string, ts: seq<string>)
    requires BaseDir(base) && ts != [] && AllPlain(ts)
    ensures BaseDir(Under(base, ts))
  {
    JoinPlainRelative(ts);
    var j := JoinWith("/", ts);
    assert Under(base, ts)[|Under(base, ts)| - 1] == j[|j| - 1];
  }

  /** One more component at the end of a path under `base`. */
  lemma UnderSnoc(base: string, ts: seq<string>, x: string)
    requires ts != []
    ensures Under(base, ts) + "/" + x == Under(base, ts + [x])
  {
    JoinWithSnoc("/", ts, x);
  }

  // ---------------------------------------------------------------------
  // Lemmas: the synthetic directories and the markdown of an image

  /**
   * `base/c/rest.pdf` has its synthetic directory at
   * `base/c/synthetic/images/rest` (or `.../markdowns/rest`): the
   * collection stays first, and the rest of the path loses `.pdf`.
   */
  lemma SyntheticDirUnder(base: string, c: string, rest: seq<string>, h: Holding)
    requires BaseDir(base) && Plain(c) && rest != [] && AllPlain(rest)
    ensures SyntheticDir(base, Under(base, [c] + WithExt(rest, ".pdf")), true, h)
         == Ok(Under(base, [c, "synthetic", HoldingName(h)] + rest))
  {
    var ts := [c] + rest;
    assert AllPlain(ts) by {
      forall k | 0 <= k < |ts| ensures Plain(ts[k]) { if k > 0 { assert ts[k] == rest[k - 1]; } }
    }
    assert [c] + WithExt(rest, ".pdf") == WithExt(ts, ".pdf");
    UnderExt(base, ts, ".pdf");
    PdfTokens(base, ts);
    assert ts[0] == c && ts[1..] == rest;
    HoldingJoin(base, c, HoldingName(h), rest);
  }

  /** The PDF `base/ts.pdf` passes the checks, and the components after `base` are `ts`. */
  lemma PdfTokens(base: string, ts: seq<string>)
    requires BaseDir(base) && ts != [] && AllPlain(ts)
    ensures var pdf := Under(base, ts) + ".pdf";
      && EndsWith(pdf, ".pdf") && StartsWith(pdf, base)
      && var naked := SliceFrom(pdf[..|pdf| - 4], |base|);
      StartsWith(naked, "/") && Split(naked[1..], '/') == ts
  {
    var p := Under(base, ts);
    var pdf := p + ".pdf";
    UnderSplit(base, ts);
    assert StartsWith(pdf, base) by { assert pdf[..|base|] == p[..|base|]; }
    assert pdf[..|pdf| - 4] == p;
    var naked := SliceFrom(p, |base|);
    assert naked == "/" + JoinWith("/", ts);
    assert naked[1..] == JoinWith("/", ts);
  }

  /** `os.path.join(base, c, "synthetic", h, "/".join(rest))` is the path of those components under `base`. */
  lemma HoldingJoin(base: string, c: string, h: string, rest: seq<string>)
    requires BaseDir(base) && Plain(c) && Plain(h) && rest != [] && AllPlain(rest)
    ensures PathJoin(base, [c, "synthetic", h, JoinWith("/", rest)]) == Under(base, [c, "synthetic", h] + rest)
  {
    JoinPlainRelative(rest);
    var head := [c, "synthetic", h];
    var parts := head + [JoinWith("/", rest)];
    assert parts == [c, "synthetic", h, JoinWith("/", rest)];
    PathJoinRelative(base, parts);
    JoinWithSnoc("/", head, JoinWith("/", rest));
    JoinWithConcat("/", head, rest);
  }

  /**
   * The markdown of `base/dirs/stem.png`: with at least three directories
   * and `images` the third, it is `base/dirs/stem.md` with `images`
   * replaced by `markdowns`; any other third component is refused with
   * ValueError, and fewer than two directories leave no third component.
   */
  lemma MarkdownPathUnder(base: string, dirs: seq<string>, stem: string)
    requires BaseDir(base) && AllPlain(dirs) && '/' !in stem
    ensures var r := MarkdownPath(base, Under(base, dirs + [stem + ".png"]));
      && (|dirs| < 2 ==> r == Err(IndexError))
      && (|dirs| >= 2 && (|dirs| == 2 || dirs[2] != "images") ==> r == Err(ValueError))
      && (|dirs| >= 3 && dirs[2] == "images" ==> r == Ok(Under(base, dirs[2 := "markdowns"] + [stem + ".md"])))
  {
    var ts := dirs + [stem + ".md"];
    MarkdownPathTokens(base, dirs, stem);
    if |dirs| == 2 {
      var f := stem + ".md";
      assert f[|f| - 1] == 'd';
      assert ts[2] == f != "images";
    }
    if |dirs| >= 3 && dirs[2] == "images" {
      MarkdownsJoin(base, dirs, stem);
    }
  }

  /** Joining the components with `markdowns` in third place gives the path of those components. */
  lemma MarkdownsJoin(base: string, dirs: seq<string>, stem: string)
    requires BaseDir(base) && AllPlain(dirs) && '/' !in stem && |dirs| >= 3
    ensures PathJoin(base, (dirs + [stem + ".md"])[2 := "markdowns"]) == Under(base, dirs[2 := "markdowns"] + [stem + ".md"])
  {
    var out := dirs[2 := "markdowns"] + [stem + ".md"];
    assert (dirs + [stem + ".md"])[2 := "markdowns"] == out;
    assert AllPlain(out) by {
      forall k | 0 <= k < |out| ensures Plain(out[k]) {
        if k < |dirs| && k != 2 { assert out[k] == dirs[k]; }
      }
    }
    PathJoinPlain(base, out);
  }

  /** `_make_markdown_path` on `base/dirs/stem.png` judges the components `dirs` and `stem.md`. */
  lemma MarkdownPathTokens(base: string, dirs: seq<string>, stem: string)
    requires BaseDir(base) && AllPlain(dirs) && '/' !in stem
    ensures var ts := dirs + [stem + ".md"];
      MarkdownPath(base, Under(base, dirs + [stem + ".png"])) ==
        if |ts| < 3 then Err(IndexError)
        else if ts[2] != "images" then Err(ValueError)
        else Ok(PathJoin(base, ts[2 := "markdowns"]))
  {
    var ts := dirs + [stem + ".md"];
    var image := Under(base, dirs + [stem + ".png"]);
    ImageTokens(base, dirs, stem);
    var md := image[..|image| - 4] + ".md";
    assert md == Under(base, ts);
    assert Split(SliceFrom(md, |base| + 1), '/') == ts;
  }

  /**
   * The image `base/dirs/stem.png` ends in `.png`; with `.md` in its place
   * it is `base/dirs/stem.md`, which lies under `base` and whose components
   * after `base` are `dirs` and `stem.md`.
   */
  lemma ImageTokens(base: string, dirs: seq<string>, stem: string)
    requires BaseDir(base) && AllPlain(dirs) && '/' !in stem
    ensures var image := Under(base, dirs + [stem + ".png"]); var ts := dirs + [stem + ".md"];
      && EndsWith(image, ".png")
      && image[..|image| - 4] + ".md" == Under(base, ts)
      && StartsWith(Under(base, ts), base)
      && Split(SliceFrom(Under(base, ts), |base| + 1), '/') == ts
  {
    var bare := dirs + [stem];
    var ts := dirs + [stem + ".md"];
    assert dirs + [stem + ".png"] == WithExt(bare, ".png");
    assert ts == WithExt(bare, ".md");
    UnderExt(base, bare, ".png");
    UnderExt(base, bare, ".md");
    var image := Under(base, bare) + ".png";
    assert image[..|image| - 4] == Under(base, bare);
    assert AllPlain(ts) by {
      forall k | 0 <= k < |ts| ensures Plain(ts[k]) {
        if k < |dirs| { assert ts[k] == dirs[k]; } else { assert ts[k] == stem + ".md"; }
      }
    }
    UnderSplit(base, ts);
    assert SliceFrom(Under(base, ts), |base| + 1) == JoinWith("/", ts);
  }

  // ---------------------------------------------------------------------
  // Lemmas: from a markdown back to its PDF

  /** A markdown path under `base` is judged on its components after `base`. */
  lemma PdfOfMarkdownUnder(base: string, ts: seq<string>, fixed: bool)
    requires BaseDir(base) && ts != [] && AllPlain(ts) && EndsWith(ts[|ts| - 1], ".md")
    ensures PdfOfMarkdownBy(base, Under(base, ts), fixed) == PdfOfTokens(base, ts, fixed)
  {
    var md := Under(base, ts);
    var j := JoinWith("/", ts);
    UnderSplit(base, ts);
    JoinWithEndsWith("/", ts);
    EndsWithTrans(j, ts[|ts| - 1], ".md");
    assert md == (base + "/") + j;
    EndsWithAppend(base + "/", j, ".md");
    var d0 := md[|base|..];
    assert StartsWith(d0, "/") && d0[1..] == j;
    assert MarkdownTokens(base, md) == ts;
  }

  /** The components of `base/dirs/stem.md`, all plain. */
  lemma MarkdownComponents(dirs: seq<string>, stem: string)
    requires AllPlain(dirs) && '/' !in stem
    ensures var ts := dirs + [stem + ".md"];
      AllPlain(ts) && EndsWith(ts[|ts| - 1], ".md") && ts[|ts| - 1][..|stem|] == stem
  {
    var ts := dirs + [stem + ".md"];
    forall k | 0 <= k < |ts| ensures Plain(ts[k]) {
      if k < |dirs| { assert ts[k] == dirs[k]; }
    }
  }

  /**
   * Why `get_pdf_from_markdown` refuses `base/dirs/stem.md`: a stem
   * without `_` fails an assertion; a page suffix that is not a number, a
   * parent directory not named after the stem, or directories other than
   * `synthetic/markdowns/documents` right below the collection raise
   * ValueError; a file directly under `base` has no parent directory to
   * compare and raises IndexError; and with nothing between `documents`
   * and the file the final assertion fails.
   */
  lemma PdfOfMarkdownRefused(base: string, dirs: seq<string>, stem: string)
    requires BaseDir(base) && AllPlain(dirs) && '/' !in stem
    ensures var r := PdfOfMarkdown(base, Under(base, dirs + [stem + ".md"]));
      && ('_' !in stem ==> r == Err(AssertionError))
      && ('_' in stem && PageOf(stem).None? ==> r == Err(ValueError))
      && ('_' in stem && PageOf(stem).Some? && dirs == [] ==> r == Err(IndexError))
      && ('_' in stem && dirs != [] && dirs[|dirs| - 1] != FirstPiece(stem) ==> r == Err(ValueError))
      && ('_' in stem && dirs != [] && !Synthetic(dirs) ==> r == Err(ValueError))
      && ('_' in stem && PageOf(stem).Some? && |dirs| == 4 && Synthetic(dirs) && dirs[3] == FirstPiece(stem) ==> r == Err(AssertionError))
  {
    PdfOfMarkdownStem(base, dirs, stem, false);
    StemRefused(base, dirs, stem);
  }

  /** The directories after the collection begin with `synthetic`, `markdowns` and `documents`. */
  predicate Synthetic(dirs: seq<string>) {
    |dirs| >= 4 && dirs[1] == "synthetic" && dirs[2] == "markdowns" && dirs[3] == "documents"
  }

  lemma StemRefused(base: string, dirs: seq<string>, stem: string)
    ensures var r := PdfOfStem(base, dirs, stem, false);
      && ('_' !in stem ==> r == Err(AssertionError))
      && ('_' in stem && PageOf(stem).None? ==> r == Err(ValueError))
      && ('_' in stem && PageOf(stem).Some? && dirs == [] ==> r == Err(IndexError))
      && ('_' in stem && dirs != [] && dirs[|dirs| - 1] != FirstPiece(stem) ==> r == Err(ValueError))
      && ('_' in stem && dirs != [] && !Synthetic(dirs) ==> r == Err(ValueError))
      && ('_' in stem && PageOf(stem).Some? && |dirs| == 4 && Synthetic(dirs) && dirs[3] == FirstPiece(stem) ==> r == Err(AssertionError))
  {
  }

  /** `base/dirs/stem.md` is judged on `dirs` and `stem`. */
  lemma PdfOfMarkdownStem(base: string, dirs: seq<string>, stem: string, fixed: bool)
    requires BaseDir(base) && AllPlain(dirs) && '/' !in stem
    ensures PdfOfMarkdownBy(base, Under(base, dirs + [stem + ".md"]), fixed) == PdfOfStem(base, dirs, stem, fixed)
  {
    var ts := dirs + [stem + ".md"];
    MarkdownComponents(dirs, stem);
    PdfOfMarkdownUnder(base, ts, fixed);
    var file := ts[|ts| - 1];
    assert file[..|file| - 3] == stem;
    assert ts[..|ts| - 1] == dirs;
  }

  /** The components `documents/mid/n` of a PDF below its collection, without the extension. */
  function DocRest(mid: seq<string>, n: string): seq<string> {
    ["documents"] + mid + [n]
  }

  /** The PDF `base/c/documents/mid/n.pdf`. */
  function PdfUnder(base: string, c: string, mid: seq<string>, n: string): string {
    Under(base, [c] + WithExt(DocRest(mid, n), ".pdf"))
  }

  /** The markdown of its page `k`: `base/c/synthetic/markdowns/documents/mid/n/n_k.md`. */
  function PageMarkdown(base: string, c: string, mid: seq<string>, n: string, k: nat): string {
    Under(base, PageDirsOf(c, "markdowns", mid, n) + [n + "_" + NatToString(k) + ".md"])
  }

  /** The name of page `k` of the PDF `n`, split at underscores: the pieces of `n`, then the page number. */
  lemma PageStemPieces(n: string, k: nat)
    ensures Split(n + "_" + NatToString(k), '_') == Split(n, '_') + [NatToString(k)]
    ensures '/' !in NatToString(k) && '_' !in NatToString(k)
  {
    var digits := NatToString(k);
    assert '_' !in digits && '/' !in digits by {
      forall i | 0 <= i < |digits| ensures digits[i] != '_' && digits[i] != '/' { assert IsDigit(digits[i]); }
    }
    assert n + "_" + digits == n + ['_'] + digits;
    SplitConcat(n, '_', digits);
    SplitNoSep(digits, '_');
  }

  /**
   * The stem `n_k` of page `k`: it holds an underscore, its page number is
   * `k`, and the name the check compares with the parent directory is `n`
   * (as written only when `n` has no underscore).
   */
  lemma PageStem(n: string, k: nat)
    ensures var stem := n + "_" + NatToString(k);
      && '_' in stem && PageOf(stem) == Some(k as int)
      && BeforeLastUnderscore(stem) == n
      && ('_' !in n ==> FirstPiece(stem) == n)
  {
    var stem := n + "_" + NatToString(k);
    PageStemPieces(n, k);
    assert stem[|n|] == '_';
    var pieces := Split(stem, '_');
    assert pieces[|pieces| - 1] == NatToString(k);
    ParseIntNatToString(k);
    assert pieces[..|pieces| - 1] == Split(n, '_');
    if '_' !in n {
      SplitNoSep(n, '_');
    }
  }

  /** The directories of the markdowns of `base/c/documents/mid/n.pdf` lead back to it. */
  lemma PageDirs(base: string, c: string, mid: seq<string>, n: string, k: nat)
    requires BaseDir(base) && Plain(c) && AllPlain(mid) && Plain(n)
    ensures var dirs := PageDirsOf(c, "markdowns", mid, n);
      && AllPlain(dirs)
      && PdfOfDirs(base, dirs, k) == Ok((PdfUnder(base, c, mid, n), k))
  {
    var dirs := PageDirsOf(c, "markdowns", mid, n);
    var out := [c] + WithExt(DocRest(mid, n), ".pdf");
    PageDirsFacts(c, "markdowns", mid, n);
    var rest := dirs[1..];
    assert rest[0] == "synthetic" && rest[1] == "markdowns" && rest[2] == "documents" && |rest| > 3;
    assert rest[3..] == mid + [n] by { assert rest[3..] == dirs[4..]; }
    PdfParts(c, mid, n);
    assert PathJoin(base, out) == Under(base, out) by { PathJoinPlain(base, out); }
  }

  /** The components of `c/documents/mid/n.pdf`, as `get_pdf_from_markdown` reassembles them. */
  lemma PdfParts(c: string, mid: seq<string>, n: string)
    requires Plain(c) && AllPlain(mid) && Plain(n)
    ensures var out := [c] + WithExt(DocRest(mid, n), ".pdf");
      && [c, "documents"] + WithExt(mid + [n], ".pdf") == out
      && out != [] && AllPlain(out)
  {
    var out := [c] + WithExt(DocRest(mid, n), ".pdf");
    assert WithExt(mid + [n], ".pdf") == mid + [n + ".pdf"];
    assert WithExt(DocRest(mid, n), ".pdf") == ["documents"] + mid + [n + ".pdf"];
    assert out == [c, "documents"] + mid + [n + ".pdf"];
    forall i | 0 <= i < |out| ensures Plain(out[i]) {
      if 2 <= i < |out| - 1 { assert out[i] == mid[i - 2]; }
    }
  }

  /**
   * The markdown of page `k` of a PDF maps back to that PDF and page when
   * the PDF's name has no underscore; with the corrected name check
   * (`fixed`) it does for every name.
   */
  lemma PdfOfPageMarkdown(base: string, c: string, mid: seq<string>, n: string, k: nat, fixed: bool)
    requires BaseDir(base) && Plain(c) && AllPlain(mid) && Plain(n)
    requires fixed || '_' !in n
    ensures PdfOfMarkdownBy(base, PageMarkdown(base, c, mid, n, k), fixed) == Ok((PdfUnder(base, c, mid, n), k))
  {
    var stem := n + "_" + NatToString(k);
    var dirs := PageDirsOf(c, "markdowns", mid, n);
    PageStemPieces(n, k);
    PageDirs(base, c, mid, n, k);
    PdfOfMarkdownStem(base, dirs, stem, fixed);
    PageStem(n, k);
  }

  /**
   * As written, the markdown of any page of a PDF whose name holds an
   * underscore is refused: the stem up to its first underscore is not the
   * name of the directory the page lives in.
   */
  lemma PdfOfPageMarkdownUnderscore(base: string, c: string, mid: seq<string>, n: string, k: nat)
    requires BaseDir(base) && Plain(c) && AllPlain(mid) && Plain(n) && '_' in n
    ensures PdfOfMarkdown(base, PageMarkdown(base, c, mid, n, k)) == Err(ValueError)
  {
    var stem := n + "_" + NatToString(k);
    var dirs := PageDirsOf(c, "markdowns", mid, n);
    PageStemPieces(n, k);
    PageDirsFacts(c, "markdowns", mid, n);
    assert '_' in stem by { assert stem[|n|] == '_'; }
    var first := Split(n, '_')[0];
    assert FirstPiece(stem) == first;
    assert '_' !in first;
    assert dirs[|dirs| - 1] == n != first;
    PdfOfMarkdownRefused(base, dirs, stem);
  }
  /** The directories `c/synthetic/h/documents/mid/n` where the pages of `base/c/documents/mid/n.pdf` go. */
  function PageDirsOf(c: string, h: string, mid: seq<string>, n: string): seq<string> {
    [c, "synthetic", h] + DocRest(mid, n)
  }

  lemma DocRestPlain(mid: seq<string>, n: string)
    requires AllPlain(mid) && Plain(n)
    ensures DocRest(mid, n) != [] && AllPlain(DocRest(mid, n))
  {
    var rest := DocRest(mid, n);
    forall i | 0 <= i < |rest| ensures Plain(rest[i]) {
      if 1 <= i < |rest| - 1 { assert rest[i] == mid[i - 1]; }
    }
  }

  lemma PageDirsFacts(c: string, h: string, mid: seq<string>, n: string)
    requires Plain(c) && Plain(h) && AllPlain(mid) && Plain(n)
    ensures var dirs := PageDirsOf(c, h, mid, n);
      && AllPlain(dirs) && |dirs| >= 5
      && dirs[0] == c && dirs[1] == "synthetic" && dirs[2] == h && dirs[3] == "documents"
      && dirs[4..] == mid + [n] && dirs[|dirs| - 1] == n
  {
    var dirs := PageDirsOf(c, h, mid, n);
    DocRestPlain(mid, n);
    forall i | 0 <= i < |dirs| ensures Plain(dirs[i]) {
      if 3 <= i { assert dirs[i] == DocRest(mid, n)[i - 3]; }
    }
    assert dirs[4..] == DocRest(mid, n)[1..];
  }

  /** Changing the holding directory of the page directories. */
  lemma PageDirsSwap(c: string, h: string, h': string, mid: seq<string>, n: string)
    ensures PageDirsOf(c, h, mid, n)[2 := h'] == PageDirsOf(c, h', mid, n)
  {
    assert [c, "synthetic", h][2 := h'] == [c, "synthetic", h'];
  }

  /** The images and markdowns directories of `base/c/documents/mid/n.pdf`. */
  lemma PdfSyntheticDir(base: string, c: string, mid: seq<string>, n: string, h: Holding)
    requires BaseDir(base) && Plain(c) && AllPlain(mid) && Plain(n)
    ensures SyntheticDir(base, PdfUnder(base, c, mid, n), true, h) == Ok(Under(base, PageDirsOf(c, HoldingName(h), mid, n)))
  {
    DocRestPlain(mid, n);
    SyntheticDirUnder(base, c, DocRest(mid, n), h);
  }

  /** The image of page `k` is the file `n_k.png` in the images directory. */
  lemma PageImagePath(base: string, c: string, mid: seq<string>, n: string, k: nat)
    requires BaseDir(base) && Plain(c) && AllPlain(mid) && Plain(n)
    ensures var dirs := PageDirsOf(c, "images", mid, n);
      PageImage(Under(base, dirs), n, k) == Under(base, dirs + [n + "_" + NatToString(k) + ".png"])
  {
    var dirs := PageDirsOf(c, "images", mid, n);
    var file := n + "_" + NatToString(k) + ".png";
    PageDirsFacts(c, "images", mid, n);
    UnderBaseDir(base, dirs);
    assert Relative(file) by { assert file[0] == n[0]; }
    PathJoinRelative(Under(base, dirs), [file]);
    UnderSnoc(base, dirs, file);
  }

  /** The image of page `k` and the markdown made from it. */
  lemma PageImageUnder(base: string, c: string, mid: seq<string>, n: string, k: nat)
    requires BaseDir(base) && Plain(c) && AllPlain(mid) && Plain(n)
    ensures var pdf := PdfUnder(base, c, mid, n);
      && ImagesDir(base, pdf, true).Ok?
      && MarkdownPath(base, PageImage(ImagesDir(base, pdf, true).value, n, k))
           == Ok(PageMarkdown(base, c, mid, n, k))
  {
    PdfSyntheticDir(base, c, mid, n, Images);
    PageImagePath(base, c, mid, n, k);
    PageImageMarkdown(base, c, mid, n, k);
  }

  /** The markdown of the image `n_k.png` in the images directory is `n_k.md` in the markdowns directory. */
  lemma PageImageMarkdown(base: string, c: string, mid: seq<string>, n: string, k: nat)
    requires BaseDir(base) && Plain(c) && AllPlain(mid) && Plain(n)
    ensures MarkdownPath(base, Under(base, PageDirsOf(c, "images", mid, n) + [n + "_" + NatToString(k) + ".png"]))
         == Ok(PageMarkdown(base, c, mid, n, k))
  {
    var stem := n + "_" + NatToString(k);
    var dirs := PageDirsOf(c, "images", mid, n);
    assert '/' !in stem by { PageStemPieces(n, k); }
    PageDirsFacts(c, "images", mid, n);
    MarkdownPathUnder(base, dirs, stem);
    PageDirsSwap(c, "images", "markdowns", mid, n);
  }

  /** The markdown of page `k` is the file `n_k.md` in the markdowns directory. */
  lemma MarkdownsDirPage(base: string, c: string, mid: seq<string>, n: string, k: nat)
    requires BaseDir(base) && Plain(c) && AllPlain(mid) && Plain(n)
    ensures var pdf := PdfUnder(base, c, mid, n);
      && MarkdownsDir(base, pdf, true).Ok?
      && MarkdownsDir(base, pdf, true).value + "/" + n + "_" + NatToString(k) + ".md" == PageMarkdown(base, c, mid, n, k)
  {
    var stem := n + "_" + NatToString(k);
    var dirs := PageDirsOf(c, "markdowns", mid, n);
    PdfSyntheticDir(base, c, mid, n, Markdowns);
    UnderSnoc(base, dirs, stem + ".md");
    assert Under(base, dirs) + "/" + n + "_" + NatToString(k) + ".md" == Under(base, dirs) + "/" + (stem + ".md");
  }

  /**
   * The whole round trip of a page: `base/c/documents/mid/n.pdf` has its
   * page images in its images directory, the markdown made from the image
   * of page `k` lands in its markdowns directory as `n_k.md`, and that
   * markdown maps back to the PDF and page `k` (as written, only when `n`
   * has no underscore).
   */
  lemma PageRoundTrip(base: string, c: string, mid: seq<string>, n: string, k: nat, fixed: bool)
    requires BaseDir(base) && Plain(c) && AllPlain(mid) && Plain(n)
    requires fixed || '_' !in n
    ensures var pdf := PdfUnder(base, c, mid, n); var md := PageMarkdown(base, c, mid, n, k);
      && ImagesDir(base, pdf, true).Ok? && MarkdownsDir(base, pdf, true).Ok?
      && md == MarkdownsDir(base, pdf, true).value + "/" + n + "_" + NatToString(k) + ".md"
      && MarkdownPath(base, PageImage(ImagesDir(base, pdf, true).value, n, k)) == Ok(md)
      && PdfOfMarkdownBy(base, md, fixed) == Ok((pdf, k))
  {
    PageImageUnder(base, c, mid, n, k);
    MarkdownsDirPage(base, c, mid, n, k);
    PdfOfPageMarkdown(base, c, mid, n, k, fixed);
  }

  /**
   * As written, the round trip fails for a PDF whose name holds an
   * underscore: the markdown of each of its pages is refused with
   * ValueError.
   */
  lemma PageRoundTripUnderscore(base: string, c: string, mid: seq<string>, n: string, k: nat)
    requires BaseDir(base) && Plain(c) && AllPlain(mid) && Plain(n) && '_' in n
    ensures var pdf := PdfUnder(base, c, mid, n);
      && ImagesDir(base, pdf, true).Ok?
      && MarkdownPath(base, PageImage(ImagesDir(base, pdf, true).value, n, k)) == Ok(PageMarkdown(base, c, mid, n, k))
      && PdfOfMarkdown(base, PageMarkdown(base, c, mid, n, k)) == Err(ValueError)
  {
    PageImageUnder(base, c, mid, n, k);
    PdfOfPageMarkdownUnderscore(base, c, mid, n, k);
  }

  /**
   * The lemmas above take a base written without a trailing separator.
   * Given one, `_make_markdown_path` still skips a character after the
   * base, so the markdown of an image lands under the collection with its
   * first letter cut off; `_get_synthetic_dir` and `get_pdf_from_markdown`
   * drop the separator only when it is there.
   */
  lemma MarkdownPathSlashedBase(b: string, dirs: seq<string>, stem: string)
    requires BaseDir(b) && AllPlain(dirs) && '/' !in stem && |dirs| >= 3 && dirs[2] == "images" && |dirs[0]| >= 2
    ensures MarkdownPath(b + "/", Under(b, dirs + [stem + ".png"]))
      == Ok(Under(b, dirs[0 := dirs[0][1..]][2 := "markdowns"] + [stem + ".md"]))
  {
    var cut := dirs[0 := dirs[0][1..]] + [stem + ".md"];
    var out := dirs[0 := dirs[0][1..]][2 := "markdowns"] + [stem + ".md"];
    assert Split(SliceFrom(Under(b, dirs + [stem + ".md"]), |b + "/"| + 1), '/') == cut
      by { SlashedImageTokens(b, dirs, stem); }
    assert cut[2 := "markdowns"] == out;
    assert AllPlain(out) by {
      SlashedImageTokens(b, dirs, stem);
      forall k | 0 <= k < |out| ensures Plain(out[k]) {
        if k != 2 { assert out[k] == cut[k]; }
      }
    }
    PathJoinSlashed(b, out);
    ImageTokens(b, dirs, stem);
  }

  /**
   * Under the base `b/`, the markdown of `b/dirs/stem.png` is split into
   * `dirs` and `stem.md` with the first letter of the first component gone.
   */
  lemma SlashedImageTokens(b: string, dirs: seq<string>, stem: string)
    requires BaseDir(b) && AllPlain(dirs) && '/' !in stem && |dirs| >= 3 && |dirs[0]| >= 2
    ensures var md := Under(b, dirs + [stem + ".md"]); var cut := dirs[0 := dirs[0][1..]] + [stem + ".md"];
      && StartsWith(md, b + "/")
      && AllPlain(cut)
      && Split(SliceFrom(md, |b + "/"| + 1), '/') == cut
  {
    var ts := dirs + [stem + ".md"];
    var cut := dirs[0 := dirs[0][1..]] + [stem + ".md"];
    assert AllPlain(cut) by {
      forall k | 0 <= k < |cut| ensures Plain(cut[k]) {
        if 0 < k < |dirs| { assert cut[k] == dirs[k]; }
      }
    }
    var md := Under(b, ts);
    assert md == b + "/" + (ts[0] + "/" + JoinWith("/", ts[1..]));
    assert cut[1..] == ts[1..];
    assert JoinWith("/", cut) == ts[0][1..] + "/" + JoinWith("/", ts[1..]);
    assert StartsWith(md, b + "/") && SliceFrom(md, |b + "/"| + 1) == JoinWith("/", cut);
    UnderSplit(b, cut);
  }

  /** `os.path.join` onto a base written with a trailing separator. */
  lemma PathJoinSlashed(b: string, ts: seq<string>)
    requires BaseDir(b) && ts != [] && AllPlain(ts)
    ensures PathJoin(b + "/", ts) == Under(b, ts)
  {
    var t := ts[0];
    assert Plain(t);
    JoinOntoSlashed(b, t, ts[1..]);
    assert [t] + ts[1..] == ts;
    if |ts| > 1 {
      var b' := b + "/" + t;
      assert BaseDir(b') by { assert b'[|b'| - 1] == t[|t| - 1]; }
      assert AllPlain(ts[1..]) by {
        forall k | 0 <= k < |ts| - 1 ensures Plain(ts[1..][k]) { assert ts[1..][k] == ts[k + 1]; }
      }
      PathJoinPlain(b', ts[1..]);
      UnderCons(b, t, ts[1..]);
    }
  }

  /** The first step of `os.path.join` onto `b/`. */
  lemma JoinOntoSlashed(b: string, t: string, rest: seq<string>)
    requires Plain(t)
    ensures PathJoin(b + "/", [t] + rest) == PathJoin(b + "/" + t, rest)
  {
    assert t[0] in t && t[..1] == [t[0]];
    assert (b + "/")[|b|..] == "/";
    assert JoinTwo(b + "/", t) == b + "/" + t;
    assert ([t] + rest)[1..] == rest;
  }

  /** A path under `b/t` is a path under `b` with `t` in front. */
  lemma UnderCons(b: string, t: string, rest: seq<string>)
    requires rest != []
    ensures Under(b + "/" + t, rest) == Under(b, [t] + rest)
  {
    assert ([t] + rest)[1..] == rest;
  }



  // ---------------------------------------------------------------------
  // Lemmas: the fenced markdown

  /** A `` ```markdown `` at `i` and a later ```` ``` ```` at `j`, not overlapping it. */
  predicate Fence(txt: string, i: nat, j: nat) {
    i + 11 <= j && OccursAt(txt, "```markdown", i) && OccursAt(txt, "```", j)
  }

  ghost predicate HasFence(txt: string) {
    exists i: nat, j: nat :: Fence(txt, i, j)
  }

  /** Without an opening fence closed later, the answer is returned whole. */
  lemma ExtractMarkdownNoFence(txt: string)
    requires !HasFence(txt)
    ensures ExtractMarkdown(txt) == txt
  {
    match Find(txt, "```markdown", 0)
    case None =>
    case Some(i) =>
      match Find(txt, "```", i + 11)
      case None =>
      case Some(j) =>
        assert Fence(txt, i, j);
  }

  /**
   * With a fence, the answer is the text between the first opening and the
   * first closing after it, stripped; the markers are gone, so it is
   * shorter than the answer by at least their fourteen characters.
   */
  lemma ExtractMarkdownFenced(txt: string, i: nat, j: nat)
    requires Fence(txt, i, j)
    requires forall k :: 0 <= k < i ==> !OccursAt(txt, "```markdown", k)
    requires forall k :: i + 11 <= k < j ==> !OccursAt(txt, "```", k)
    ensures ExtractMarkdown(txt) == Strip(txt[i + 11..j])
    ensures |ExtractMarkdown(txt)| + 14 <= |txt|
  {
    assert Find(txt, "```markdown", 0) == Some(i);
    assert Find(txt, "```", i + 11) == Some(j);
  }

  /** A fence written with quotes (`'''markdown`) or no fence at all: without a backtick the answer is left whole. */
  lemma ExtractMarkdownNoBacktick(txt: string)
    requires '`' !in txt
    ensures ExtractMarkdown(txt) == txt
  {
    forall i: nat, j: nat ensures !Fence(txt, i, j) {
      if i + 11 <= |txt| {
        assert txt[i] !in "`";
      }
    }
    ExtractMarkdownNoFence(txt);
  }
}
