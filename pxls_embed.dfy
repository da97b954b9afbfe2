/** Embeds for pxls.space template links: titles made safe for file names, the
    "remove style" downsampler that turns a styled template image back into one pixel
    per canvas cell, the arithmetic that sizes it, and the controller that keeps one
    embed (and possibly one processed file) per link, listed in link order. */
module PxlsEmbed {
  import opened Common
  import Helper

  // ---------------------------------------------------------------------------
  // Titles
  // ---------------------------------------------------------------------------

  const LegalCharacters: string := "abcdefghijklmnopqrstuvwxyzABCDEFGHIJKLMNOPQRSTUVWXYZ0123456789_"

  predicate Legal(c: char)
  {
    c in LegalCharacters
  }

  /** `remove_illegal_characters`: every character outside the legal set becomes '_'. */
  function RemoveIllegalCharacters(text: string): (r: string)
    ensures |r| == |text|
    ensures forall i :: 0 <= i < |text| ==> r[i] == (if Legal(text[i]) then text[i] else '_')
  {
    if text == [] then []
    else [if Legal(text[0]) then text[0] else '_'] + RemoveIllegalCharacters(text[1..])
  }

  /** The result consists of legal characters only, and cleaning it again changes nothing. */
  lemma RemoveIllegalCharactersIdempotent(text: string)
    ensures forall i :: 0 <= i < |RemoveIllegalCharacters(text)| ==> Legal(RemoveIllegalCharacters(text)[i])
    ensures RemoveIllegalCharacters(RemoveIllegalCharacters(text)) == RemoveIllegalCharacters(text)
  {
    var r := RemoveIllegalCharacters(text);
    assert Legal('_');
    assert forall i :: 0 <= i < |r| ==> Legal(r[i]);
    assert RemoveIllegalCharacters(r) == r;
  }

  // ---------------------------------------------------------------------------
  // Style removal
  // ---------------------------------------------------------------------------

  /** The first column `px` in `x0 + i .. x0 + tile` of row `py` whose alpha exceeds 128. */
  ghost function FirstInRow(a: array3<int>, py: nat, x0: nat, tile: nat, i: nat): Option<nat>
    reads a
    requires py < a.Length0 && x0 + tile <= a.Length1 && a.Length2 == 4
    decreases tile - i
  {
    if i >= tile then None
    else if a[py, x0 + i, 3] > 128 then Some(x0 + i)
    else FirstInRow(a, py, x0, tile, i + 1)
  }

  /** The first pixel of the `tile` x `tile` block at (`y0`, `x0`), scanning rows from
      `y0 + j` down and each row left to right, whose alpha exceeds 128. */
  ghost function FirstInBlock(a: array3<int>, y0: nat, x0: nat, tile: nat, j: nat): Option<(nat, nat)>
    reads a
    requires y0 + tile <= a.Length0 && x0 + tile <= a.Length1 && a.Length2 == 4
    decreases tile - j
  {
    if j >= tile then None
    else match FirstInRow(a, y0 + j, x0, tile, 0)
      case Some(px) => Some((y0 + j, px))
      case None => FirstInBlock(a, y0, x0, tile, j + 1)
  }

  lemma {:induction false} FirstInRowSpec(a: array3<int>, py: nat, x0: nat, tile: nat, i: nat)
    requires py < a.Length0 && x0 + tile <= a.Length1 && a.Length2 == 4
    ensures match FirstInRow(a, py, x0, tile, i)
      case Some(px) =>
        && x0 + i <= px < x0 + tile && a[py, px, 3] > 128
        && forall q :: x0 + i <= q < px ==> a[py, q, 3] <= 128
      case None => forall q :: x0 + i <= q < x0 + tile ==> a[py, q, 3] <= 128
    decreases tile - i
  {
    if i < tile && a[py, x0 + i, 3] <= 128 {
      FirstInRowSpec(a, py, x0, tile, i + 1);
    }
  }

  /** The pixel found is the first opaque one in row-then-column order; when there is
      none, no pixel of the block has alpha above 128. */
  lemma {:induction false} FirstInBlockSpec(a: array3<int>, y0: nat, x0: nat, tile: nat, j: nat)
    requires y0 + tile <= a.Length0 && x0 + tile <= a.Length1 && a.Length2 == 4
    ensures match FirstInBlock(a, y0, x0, tile, j)
      case Some(p) =>
        && y0 + j <= p.0 < y0 + tile && x0 <= p.1 < x0 + tile && a[p.0, p.1, 3] > 128
        && (forall qy, qx :: y0 + j <= qy < p.0 && x0 <= qx < x0 + tile ==> a[qy, qx, 3] <= 128)
        && (forall qx :: x0 <= qx < p.1 ==> a[p.0, qx, 3] <= 128)
      case None => forall qy, qx :: y0 + j <= qy < y0 + tile && x0 <= qx < x0 + tile ==> a[qy, qx, 3] <= 128
    decreases tile - j
  {
    if j < tile {
      FirstInRowSpec(a, y0 + j, x0, tile, 0);
      if FirstInRow(a, y0 + j, x0, tile, 0).None? {
        FirstInBlockSpec(a, y0, x0, tile, j + 1);
      }
    }
  }

  /** The output pixel for cell (`y`, `x`): the first opaque pixel of its block with alpha
      forced to 255, or transparent black when the block has none. */
  ghost function CellPixel(a: array3<int>, tile: nat, y: nat, x: nat, c: nat): int
    reads a
    requires (y + 1) * tile <= a.Length0 && (x + 1) * tile <= a.Length1 && a.Length2 == 4 && c < 4
  {
    FirstInBlockSpec(a, y * tile, x * tile, tile, 0);
    match FirstInBlock(a, y * tile, x * tile, tile, 0)
      case None => 0
      case Some(p) => if c == 3 then 255 else a[p.0, p.1, c]
  }

  /** The row-and-column scan of one block, with the `break` on the first opaque pixel. */
  method ScanBlock(a: array3<int>, y0: nat, x0: nat, tile: nat) returns (found: Option<(nat, nat)>)
    requires y0 + tile <= a.Length0 && x0 + tile <= a.Length1 && a.Length2 == 4
    ensures found == FirstInBlock(a, y0, x0, tile, 0)
  {
    var j := 0;
    while j < tile
      invariant 0 <= j <= tile
      invariant FirstInBlock(a, y0, x0, tile, 0) == FirstInBlock(a, y0, x0, tile, j)
    {
      var i := 0;
      while i < tile
        invariant 0 <= i <= tile
        invariant FirstInRow(a, y0 + j, x0, tile, 0) == FirstInRow(a, y0 + j, x0, tile, i)
      {
        if a[y0 + j, x0 + i, 3] > 128 {
          return Some((y0 + j, x0 + i));
        }
        i := i + 1;
      }
      j := j + 1;
    }
    return None;
  }

  lemma MulMono(a: nat, b: nat, c: nat)
    requires a <= b
    ensures a * c <= b * c
  {
  }

  /** One output cell: the block is scanned and the pixel found copied with alpha 255;
      nothing else in `r` changes. */
  method WriteCell(a: array3<int>, r: array3<int>, y: nat, x: nat, tile: nat)
    requires r != a && a.Length2 == 4 && r.Length2 == 4 && y < r.Length0 && x < r.Length1
    requires (y + 1) * tile <= a.Length0 && (x + 1) * tile <= a.Length1
    requires forall c :: 0 <= c < 4 ==> r[y, x, c] == 0
    modifies r
    ensures forall c :: 0 <= c < 4 ==> r[y, x, c] == CellPixel(a, tile, y, x, c)
    ensures forall y', x', c :: 0 <= y' < r.Length0 && 0 <= x' < r.Length1 && 0 <= c < 4 && (y' != y || x' != x) ==>
      r[y', x', c] == old(r[y', x', c])
  {
    var found := ScanBlock(a, y * tile, x * tile, tile);
    FirstInBlockSpec(a, y * tile, x * tile, tile, 0);
    if found.Some? {
      var py, px := found.value.0, found.value.1;
      r[y, x, 0] := a[py, px, 0];
      r[y, x, 1] := a[py, px, 1];
      r[y, x, 2] := a[py, px, 2];
      r[y, x, 3] := 255;
    }
  }

  /** One output row: every cell of row `y` is written; the other rows do not change. */
  method WriteRow(a: array3<int>, r: array3<int>, y: nat, tile: nat)
    requires r != a && a.Length2 == 4 && r.Length2 == 4 && y < r.Length0
    requires (y + 1) * tile <= a.Length0 && r.Length1 * tile <= a.Length1
    requires forall x, c :: 0 <= x < r.Length1 && 0 <= c < 4 ==> r[y, x, c] == 0
    modifies r
    ensures forall x, c :: 0 <= x < r.Length1 && 0 <= c < 4 ==> r[y, x, c] == CellPixel(a, tile, y, x, c)
    ensures forall y', x, c :: 0 <= y' < r.Length0 && 0 <= x < r.Length1 && 0 <= c < 4 && y' != y ==>
      r[y', x, c] == old(r[y', x, c])
  {
    var x := 0;
    while x < r.Length1
      invariant 0 <= x <= r.Length1
      invariant forall x', c :: 0 <= x' < x && 0 <= c < 4 ==> r[y, x', c] == CellPixel(a, tile, y, x', c)
      invariant forall x', c :: x <= x' < r.Length1 && 0 <= c < 4 ==> r[y, x', c] == 0
      invariant forall y', x', c :: 0 <= y' < r.Length0 && 0 <= x' < r.Length1 && 0 <= c < 4 && y' != y ==>
        r[y', x', c] == old(r[y', x', c])
    {
      MulMono(x + 1, r.Length1, tile);
      WriteCell(a, r, y, x, tile);
      x := x + 1;
    }
  }

  /** `fast_remove_style`: a fresh `target_height` x `target_width` x 4 array, zero where a
      block has no opaque pixel. The caller's sizes keep every block inside the image. */
  method FastRemoveStyle(a: array3<int>, targetHeight: nat, targetWidth: nat, tile: nat) returns (r: array3<int>)
    requires a.Length2 == 4
    requires targetHeight * tile <= a.Length0 && targetWidth * tile <= a.Length1
    ensures fresh(r)
    ensures r.Length0 == targetHeight && r.Length1 == targetWidth && r.Length2 == 4
    ensures forall y, x, c :: 0 <= y < targetHeight && 0 <= x < targetWidth && 0 <= c < 4 ==>
      r[y, x, c] == CellPixel(a, tile, y, x, c)
  {
    r := new int[targetHeight, targetWidth, 4]((_, _, _) => 0);
    var y := 0;
    while y < targetHeight
      invariant 0 <= y <= targetHeight
      invariant forall y', x', c :: 0 <= y' < y && 0 <= x' < targetWidth && 0 <= c < 4 ==>
        r[y', x', c] == CellPixel(a, tile, y', x', c)
      invariant forall y', x', c :: y <= y' < targetHeight && 0 <= x' < targetWidth && 0 <= c < 4 ==> r[y', x', c] == 0
    {
      MulMono(y + 1, targetHeight, tile);
      WriteRow(a, r, y, tile);
      y := y + 1;
    }
  }

  // ---------------------------------------------------------------------------
  // Sizing
  // ---------------------------------------------------------------------------

  /** Python's `int(a / b)`: true division, truncated toward zero. */
  function TruncDiv(a: int, b: int): int
    requires b != 0
  {
    var mag := (if a < 0 then -a else a) / (if b < 0 then -b else b);
    if (a < 0) == (b < 0) then mag else -mag
  }

  lemma TruncDivPositive(a: nat, b: int)
    requires b > 0
    ensures TruncDiv(a, b) == a / b
    ensures 0 <= TruncDiv(a, b) && TruncDiv(a, b) * b <= a
  {
    Helper.DivFacts(a, b);
  }

  /** The least integer `scale` >= 1 with `target_width * scale >= 400`. */
  function LeastScale(targetWidth: int): (scale: int)
    requires targetWidth > 0
    ensures scale >= 1
    ensures targetWidth >= 400 ==> scale == 1
  {
    (targetWidth + 399) / targetWidth
  }

  lemma {:induction false} LeastScaleIsLeast(targetWidth: int)
    requires targetWidth > 0
    ensures LeastScale(targetWidth) >= 1
    ensures targetWidth * LeastScale(targetWidth) >= 400
    ensures LeastScale(targetWidth) == 1 || targetWidth * (LeastScale(targetWidth) - 1) < 400
  {
    var s := LeastScale(targetWidth);
    var rem := targetWidth + 399 - s * targetWidth;
    assert 0 <= rem < targetWidth;
    assert s * targetWidth == targetWidth + 399 - rem;
    assert (s - 1) * targetWidth == 399 - rem;
  }

  /** The upscale loop: `scale` starts at 1 and grows while the image is under 400 px wide. */
  method UpscaleFactor(targetWidth: int) returns (scale: int)
    requires targetWidth > 0
    ensures scale >= 1 && targetWidth * scale >= 400
    ensures scale == 1 || targetWidth * (scale - 1) < 400
    ensures scale == LeastScale(targetWidth)
  {
    scale := 1;
    while targetWidth * scale < 400
      invariant scale >= 1
      invariant scale == 1 || targetWidth * (scale - 1) < 400
      decreases 400 - targetWidth * scale
    {
      scale := scale + 1;
    }
    LeastScaleIsLeast(targetWidth);
    LeastScaleUnique(targetWidth, scale);
  }

  lemma LeastScaleUnique(targetWidth: int, scale: int)
    requires targetWidth > 0 && scale >= 1 && targetWidth * scale >= 400
    requires scale == 1 || targetWidth * (scale - 1) < 400
    ensures scale == LeastScale(targetWidth)
  {
    LeastScaleIsLeast(targetWidth);
  }

  /** The `tw` fragment parameter: absent, or a string that `int()` may fail to parse. */
  datatype TwParam = TwAbsent | TwText(parsed: Option<int>)

  /** How one image is downsampled and upscaled. */
  datatype Plan = Plan(targetWidth: int, targetHeight: int, tileWidth: int, scale: int)

  /** The sizing `remove_style_all` does for one downloaded image of the given size:
      `Ok(None)` when it is skipped, otherwise the plan or the exception raised. A negative
      target width gets past the divisions and is rejected by `np.zeros`. */
  function StylePlan(tw: TwParam, width: nat, height: nat): (r: Result<Option<Plan>>)
    ensures r.Err? ==> r.error == ValueError || r.error == ZeroDivisionError
    ensures r.Ok? && r.value.Some? ==> r.value.value.targetWidth > 0 && r.value.value.targetHeight >= 0
  {
    match tw
    case TwAbsent => Ok(None)
    case TwText(None) => Err(ValueError)
    case TwText(Some(t)) =>
      if t == width then Ok(None)
      else if t == 0 then Err(ZeroDivisionError)
      else
        var tile := TruncDiv(width, t);
        if tile == 0 then Err(ZeroDivisionError)
        else
          var th := TruncDiv(height, tile);
          if th < 0 || t < 0 then Err(ValueError)
          else Ok(Some(Plan(t, th, tile, LeastScale(t))))
  }

  lemma TruncDivZero(a: nat, b: int)
    requires b != 0
    ensures TruncDiv(a, b) == 0 <==> a < (if b < 0 then -b else b)
  {
    var d := if b < 0 then -b else b;
    Helper.DivFacts(a, d);
  }

  /** Style removal is skipped exactly when `tw` is absent or equals the image width. */
  lemma StylePlanSkips(tw: TwParam, width: nat, height: nat)
    ensures StylePlan(tw, width, height) == Ok(None) <==> tw.TwAbsent? || tw == TwText(Some(width))
  {
  }

  /** A plan keeps every block `fast_remove_style` reads inside the image, and upscales
      by the least factor that reaches 400 px. */
  lemma StylePlanInBounds(tw: TwParam, width: nat, height: nat)
    requires StylePlan(tw, width, height).Ok? && StylePlan(tw, width, height).value.Some?
    ensures var p := StylePlan(tw, width, height).value.value;
      && p.targetWidth > 0 && p.tileWidth >= 1 && p.targetHeight >= 0
      && p.targetWidth * p.tileWidth <= width && p.targetHeight * p.tileWidth <= height
      && p.targetWidth * p.scale >= 400 && (p.scale == 1 || p.targetWidth * (p.scale - 1) < 400)
  {
    var t := tw.parsed.value;
    assert t > 0;
    TruncDivPositive(width, t);
    var tile := TruncDiv(width, t);
    TruncDivPositive(height, tile);
    LeastScaleIsLeast(t);
  }

  /** A target width of zero, or one larger in magnitude than the image, divides by zero. */
  lemma StylePlanZeroDivision(t: int, width: nat, height: nat)
    requires t != width
    ensures StylePlan(TwText(Some(t)), width, height) == Err(ZeroDivisionError) <==> t == 0 || t > width || t + width < 0
  {
    if t != 0 {
      TruncDivZero(width, t);
    }
  }

  // ---------------------------------------------------------------------------
  // Embed controller
  // ---------------------------------------------------------------------------

  /** The query parameters of a link's fragment, as parsed: the title if given, the raw
      `template` value ("" when absent), that value unquoted, and `tw`. */
  datatype Fragment = Fragment(title: Option<string>, template: string, templateUrl: string, tw: TwParam)

  /** Where an embed's image comes from: the template's own address, or an attached file. */
  datatype ImageRef = Remote(address: string) | Attachment(address: string)

  datatype Embed = Embed(title: string, url: string, image: ImageRef)

  datatype ImageSize = ImageSize(width: nat, height: nat)

  /** What a download gets back: a status with the decoded image, or no response. */
  datatype Response = Answered(status: int, image: ImageSize) | NoAnswer

  /** A processed image: its file name and how it was sized. */
  datatype StyleFile = StyleFile(filename: string, plan: Plan)

  /** The title used for the link at position `n`: the fragment's, else `Template{n}`. */
  function TitleAt(f: Fragment, n: nat): string
  {
    if f.title.Some? then f.title.value else "Template" + Helper.NatDecimal(n)
  }

  function FileName(f: Fragment, n: nat): string
  {
    RemoveIllegalCharacters(TitleAt(f, n)) + ".png"
  }

  /** One turn of `embed_all`'s loop, for the link at position `n`. */
  function EmbedAllStep(embeds: map<string, Embed>, url: string, n: nat, f: Fragment, files: map<string, StyleFile>): map<string, Embed>
  {
    if f.template == "" then embeds
    else
      var image := if url in files then Attachment("attachment://" + FileName(f, n)) else Remote(f.templateUrl);
      embeds[url := Embed(TitleAt(f, n), url, image)]
  }

  /** The embeds after the first `k` turns of `embed_all`. */
  function EmbedAllUpTo(urls: seq<string>, parse: string -> Fragment, files: map<string, StyleFile>, embeds: map<string, Embed>, k: nat): map<string, Embed>
    requires k <= |urls|
  {
    if k == 0 then embeds
    else EmbedAllStep(EmbedAllUpTo(urls, parse, files, embeds, k - 1), urls[k - 1], k - 1, parse(urls[k - 1]), files)
  }

  /** After `embed_all`, every link with a non-empty template has an embed, whose image is
      an attachment exactly when that link has a processed file; links without a template
      keep whatever embed they had. */
  lemma {:induction false} EmbedAllImageRule(urls: seq<string>, parse: string -> Fragment, files: map<string, StyleFile>, embeds: map<string, Embed>, k: nat, u: string)
    requires k <= |urls|
    ensures parse(u).template != "" && u in urls[..k] ==>
      u in EmbedAllUpTo(urls, parse, files, embeds, k)
      && EmbedAllUpTo(urls, parse, files, embeds, k)[u].url == u
      && (EmbedAllUpTo(urls, parse, files, embeds, k)[u].image.Attachment? <==> u in files)
    ensures parse(u).template == "" ==>
      (u in EmbedAllUpTo(urls, parse, files, embeds, k) <==> u in embeds)
      && (u in embeds ==> EmbedAllUpTo(urls, parse, files, embeds, k)[u] == embeds[u])
  {
    if k > 0 {
      EmbedAllImageRule(urls, parse, files, embeds, k - 1, u);
      assert urls[..k] == urls[..k - 1] + [urls[k - 1]];
    }
  }

  /** The outcome of `remove_style_all` so far: the files, and the exception that stopped it. */
  datatype StyleProgress = StyleProgress(files: map<string, StyleFile>, error: Option<PyError>)

  /** One turn of `remove_style_all`'s loop, for the link at position `n`. */
  function StyleStep(files: map<string, StyleFile>, url: string, n: nat, f: Fragment, images: map<string, ImageSize>): StyleProgress
  {
    if url !in images then StyleProgress(files, None)
    else match StylePlan(f.tw, images[url].width, images[url].height)
      case Err(e) => StyleProgress(files, Some(e))
      case Ok(None) => StyleProgress(files, None)
      case Ok(Some(p)) => StyleProgress(files[url := StyleFile(FileName(f, n), p)], None)
  }

  /** `remove_style_all` over the first `k` links; the first exception ends the loop. */
  function StyleUpTo(urls: seq<string>, parse: string -> Fragment, images: map<string, ImageSize>, files: map<string, StyleFile>, k: nat): StyleProgress
    requires k <= |urls|
  {
    if k == 0 then StyleProgress(files, None)
    else
      var before := StyleUpTo(urls, parse, images, files, k - 1);
      if before.error.Some? then before
      else StyleStep(before.files, urls[k - 1], k - 1, parse(urls[k - 1]), images)
  }

  /** One turn adds or replaces at most the file of its own link, sized by its plan. */
  lemma StyleStepFile(files: map<string, StyleFile>, url: string, n: nat, f: Fragment, images: map<string, ImageSize>, u: string)
    ensures var out := StyleStep(files, url, n, f, images).files;
      u in out && (u !in files || out[u] != files[u]) ==>
        && u == url && u in images
        && StylePlan(f.tw, images[u].width, images[u].height) == Ok(Some(out[u].plan))
        && out[u].filename == FileName(f, n)
  {
  }

  /** Every file `remove_style_all` adds belongs to a downloaded link whose sizing produced
      a plan, and its name is made of legal characters followed by ".png". */
  lemma {:induction false} StyleFilesSound(urls: seq<string>, parse: string -> Fragment, images: map<string, ImageSize>, files: map<string, StyleFile>, k: nat, u: string)
    requires k <= |urls|
    ensures var out := StyleUpTo(urls, parse, images, files, k).files;
      u in out && (u !in files || out[u] != files[u]) ==>
        && u in urls[..k] && u in images
        && StylePlan(parse(u).tw, images[u].width, images[u].height) == Ok(Some(out[u].plan))
        && exists n :: 0 <= n < k && urls[n] == u && out[u].filename == FileName(parse(u), n)
  {
    if k > 0 {
      StyleFilesSound(urls, parse, images, files, k - 1, u);
      assert urls[..k] == urls[..k - 1] + [urls[k - 1]];
      var before := StyleUpTo(urls, parse, images, files, k - 1);
      var out := StyleUpTo(urls, parse, images, files, k).files;
      if before.error.None? {
        StyleStepFile(before.files, urls[k - 1], k - 1, parse(urls[k - 1]), images, u);
        if u in out && (u !in before.files || out[u] != before.files[u]) {
          assert urls[k - 1] == u && out[u].filename == FileName(parse(u), k - 1);
        }
      }
    }
  }

  /** Once an exception has stopped the loop, later links change nothing. */
  lemma {:induction false} StyleErrorSticks(urls: seq<string>, parse: string -> Fragment, images: map<string, ImageSize>, files: map<string, StyleFile>, i: nat, k: nat)
    requires i <= k <= |urls|
    requires StyleUpTo(urls, parse, images, files, i).error.Some?
    ensures StyleUpTo(urls, parse, images, files, k) == StyleUpTo(urls, parse, images, files, i)
    decreases k - i
  {
    if k > i {
      StyleErrorSticks(urls, parse, images, files, i, k - 1);
    }
  }

  /** The embeds of the links in `urls[k..]`, each link at its first position only. */
  function InUrlOrder(urls: seq<string>, embeds: map<string, Embed>, k: nat): (r: seq<Embed>)
    requires k <= |urls|
    ensures |r| <= |urls| - k
    ensures forall e :: e in r ==> e in embeds.Values
    decreases |urls| - k
  {
    if k == |urls| then []
    else (if urls[k] in embeds && urls[k] !in urls[..k] then [embeds[urls[k]]] else []) + InUrlOrder(urls, embeds, k + 1)
  }

  /** Python's `urls.index(u)`: the first position of `u`. */
  function IndexOf(urls: seq<string>, u: string): (n: nat)
    requires u in urls
    ensures n < |urls| && urls[n] == u && u !in urls[..n]
  {
    if urls[0] == u then 0
    else
      assert u in urls[1..];
      var n := IndexOf(urls[1..], u);
      assert urls[..n + 1] == [urls[0]] + urls[1..][..n];
      n + 1
  }

  /** Every embed listed from position `k` on belongs to a link first seen at or after `k`,
      and they come in increasing order of first position. */
  lemma {:induction false} InUrlOrderSorted(urls: seq<string>, embeds: map<string, Embed>, k: nat)
    requires k <= |urls|
    requires forall u :: u in embeds ==> embeds[u].url == u
    ensures forall e :: e in InUrlOrder(urls, embeds, k) ==> e.url in urls && IndexOf(urls, e.url) >= k && e.url in embeds && embeds[e.url] == e
    ensures forall i, j :: 0 <= i < j < |InUrlOrder(urls, embeds, k)| ==>
      IndexOf(urls, InUrlOrder(urls, embeds, k)[i].url) < IndexOf(urls, InUrlOrder(urls, embeds, k)[j].url)
    decreases |urls| - k
  {
    if k < |urls| {
      InUrlOrderSorted(urls, embeds, k + 1);
      var rest := InUrlOrder(urls, embeds, k + 1);
      if urls[k] in embeds && urls[k] !in urls[..k] {
        var e := embeds[urls[k]];
        assert IndexOf(urls, urls[k]) == k;
        assert InUrlOrder(urls, embeds, k) == [e] + rest;
      }
    }
  }

  /** Every embed of a link listed in `urls[k..]` (and not before) is listed, once. */
  lemma {:induction false} InUrlOrderComplete(urls: seq<string>, embeds: map<string, Embed>, k: nat, u: string)
    requires k <= |urls|
    requires u in embeds && u in urls[k..] && u !in urls[..k]
    ensures embeds[u] in InUrlOrder(urls, embeds, k)
    decreases |urls| - k
  {
    if urls[k] != u {
      assert u in urls[k + 1..];
      assert urls[..k + 1] == urls[..k] + [urls[k]];
      InUrlOrderComplete(urls, embeds, k + 1, u);
    }
  }

  /** The per-message state: the links in message order, the downloaded images, the
      processed files and the embeds, each keyed by link. */
  class EmbedController {
    const urls: seq<string>
    /** `parse_qs(urlparse(url).fragment)`, taken as given. */
    const parse: string -> Fragment
    var images: map<string, ImageSize>
    var files: map<string, StyleFile>
    var embeds: map<string, Embed>

    ghost predicate Valid()
      reads this
    {
      forall u :: u in embeds ==> u in urls && embeds[u].url == u
    }

    constructor (urls: seq<string>, parse: string -> Fragment)
      ensures Valid()
      ensures this.urls == urls && this.parse == parse
      ensures images == map[] && files == map[] && embeds == map[]
    {
      this.urls := urls;
      this.parse := parse;
      images, files, embeds := map[], map[], map[];
    }

    /** `get_embeds`: the embeds sorted by the position of their link in the message. */
    function GetEmbeds(): (r: seq<Embed>)
      reads this
      requires Valid()
      ensures forall e :: e in r <==> e in embeds.Values
      ensures forall e :: e in r ==> e.url in urls
      ensures forall i, j :: 0 <= i < j < |r| ==> IndexOf(urls, r[i].url) < IndexOf(urls, r[j].url)
    {
      var r := InUrlOrder(urls, embeds, 0);
      InUrlOrderSorted(urls, embeds, 0);
      assert forall u :: u in embeds ==> embeds[u] in r by {
        forall u | u in embeds
          ensures embeds[u] in r
        {
          assert urls[0..] == urls;
          InUrlOrderComplete(urls, embeds, 0, u);
        }
      }
      r
    }

    /** `embed_single`: an embed pointing at the template's own address, when it has one. */
    method EmbedSingle(url: string)
      requires Valid() && url in urls
      modifies this`embeds
      ensures Valid()
      ensures embeds == if parse(url).template == "" then old(embeds)
        else old(embeds)[url := Embed(if parse(url).title.Some? then parse(url).title.value else "Template", url, Remote(parse(url).templateUrl))]
    {
      var f := parse(url);
      var title := if f.title.Some? then f.title.value else "Template";
      if f.template != "" {
        embeds := embeds[url := Embed(title, url, Remote(f.templateUrl))];
      }
    }

    /** `download_single`: a template link is fetched. A 200 response stores the image;
        a status of 400 or more raises from `raise_for_status`; any other status stores
        nothing and raises nothing; no response at all raises a connection error. */
    method DownloadSingle(url: string, response: Response) returns (outcome: Outcome)
      modifies this`images
      ensures parse(url).template == "" ==> images == old(images) && outcome == Done
      ensures parse(url).template != "" && response.Answered? && response.status == 200 ==>
        images == old(images)[url := response.image] && outcome == Done
      ensures parse(url).template != "" && response.Answered? && response.status != 200 ==>
        images == old(images) && (outcome == Raised(ClientResponseError) <==> response.status >= 400)
        && (response.status < 400 ==> outcome == Done)
      ensures parse(url).template != "" && response.NoAnswer? ==>
        images == old(images) && outcome == Raised(ClientConnectionError)
      ensures (forall u :: u in old(images) ==> parse(u).template != "") ==>
        forall u :: u in images ==> parse(u).template != ""
    {
      outcome := Done;
      if parse(url).template != "" {
        match response
        case NoAnswer =>
          outcome := Raised(ClientConnectionError);
        case Answered(status, image) =>
          if status == 200 {
            images := images[url := image];
          } else if status >= 400 {
            outcome := Raised(ClientResponseError);
          }
      }
    }

    /** `remove_style_all`: size every downloaded image and record the processed file;
        the first exception ends the loop and propagates. */
    method RemoveStyleAll() returns (outcome: Outcome)
      modifies this`files
      ensures var p := StyleUpTo(urls, parse, images, old(files), |urls|);
        files == p.files && outcome == (if p.error.Some? then Raised(p.error.value) else Done)
    {
      var n := 0;
      while n < |urls|
        invariant 0 <= n <= |urls|
        invariant StyleUpTo(urls, parse, images, old(files), n) == StyleProgress(files, None)
      {
        var url := urls[n];
        if url in images {
          var f := parse(url);
          var plan := StylePlan(f.tw, images[url].width, images[url].height);
          if plan.Err? {
            StyleErrorSticks(urls, parse, images, old(files), n + 1, |urls|);
            return Raised(plan.error);
          }
          if plan.value.Some? {
            var p := plan.value.value;
            var scale := UpscaleFactor(p.targetWidth);
            files := files[url := StyleFile(FileName(f, n), Plan(p.targetWidth, p.targetHeight, p.tileWidth, scale))];
          }
        }
        n := n + 1;
      }
      return Done;
    }

    /** `embed_all`: like `embed_single` for every link, but pointing at the processed file
        when there is one. */
    method EmbedAll()
      requires Valid()
      modifies this`embeds
      ensures Valid()
      ensures embeds == EmbedAllUpTo(urls, parse, files, old(embeds), |urls|)
    {
      var n := 0;
      while n < |urls|
        invariant 0 <= n <= |urls|
        invariant Valid()
        invariant embeds == EmbedAllUpTo(urls, parse, files, old(embeds), n)
      {
        var url := urls[n];
        var f := parse(url);
        var title := TitleAt(f, n);
        var safeTitle := RemoveIllegalCharacters(title);
        assert "attachment://" + safeTitle + ".png" == "attachment://" + FileName(f, n);
        if f.template != "" {
          if url in files {
            embeds := embeds[url := Embed(title, url, Attachment("attachment://" + safeTitle + ".png"))];
          } else {
            embeds := embeds[url := Embed(title, url, Remote(f.templateUrl))];
          }
        }
        n := n + 1;
      }
    }
  }
}
