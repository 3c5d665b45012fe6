/** The page-building half of prezi-scrapper/prezi_scraper.py: the crop of
    each capture, and `create_overlay_pdf`, which draws the cropped capture
    as the page background and every recognised word over it in invisible
    ink at the same place. */
module Overlay {
  import opened PyText

  /** Rows removed from the top (header) and the bottom (footer). */
  const CROP_TOP: nat := 80
  const CROP_BOTTOM: nat := 80

  /** `(left, upper, right, lower)`, as Pillow's `crop` takes it. */
  datatype Box = Box(left: int, upper: int, right: int, lower: int)

  /** Where an image's pixels come from; the pixel values themselves (and
      OpenCV's thresholding) are not modelled. */
  datatype Pixels =
    | Screen(url: string, step: nat)
    | Cropped(source: Pixels, box: Box)
    | Binarized(source: Pixels)

  datatype Image = Image(width: nat, height: nat, pixels: Pixels)

  /** Line 117: the full width, without the header and footer rows. */
  function CropBox(width: nat, height: nat): Box {
    Box(0, CROP_TOP, width, height - CROP_BOTTOM)
  }

  /** `img.crop(crop_box)` with the scraper's box. The code does not check
      that anything is left, so the capture must be taller than the two
      margins. */
  function CropCapture(img: Image): (cropped: Image)
    requires img.height > CROP_TOP + CROP_BOTTOM
    ensures cropped.width == img.width
    ensures cropped.height == img.height - CROP_TOP - CROP_BOTTOM > 0
  {
    var box := CropBox(img.width, img.height);
    Image(box.right - box.left, box.lower - box.upper, Cropped(img.pixels, box))
  }

  /** `get_clean_image_for_ocr`: a binarised copy of the same size. */
  function CleanForOcr(img: Image): (clean: Image)
    ensures clean.width == img.width && clean.height == img.height
  {
    Image(img.width, img.height, Binarized(img.pixels))
  }

  /** An 800x600 capture with 80-row margins leaves 800x440. */
  lemma CropExample(p: Pixels)
    ensures var c := CropCapture(Image(800, 600, p)); c.width == 800 && c.height == 440
  {
  }

  /** One word as `pytesseract.image_to_data` reports it, in image pixels
      with the origin at the top left. */
  datatype OcrBox = OcrBox(text: string, left: int, top: int, width: int, height: int)

  /** reportlab `Color(r, g, b, alpha)`. */
  datatype Color = Color(red: real, green: real, blue: real, alpha: real)

  const Invisible: Color := Color(0.0, 0.0, 0.0, 0.0)

  /** One call on the canvas, recorded in the order it was made. */
  datatype DrawOp =
    | DrawImage(image: Pixels, x: int, y: int, width: int, height: int)
    | SetFillColor(color: Color)
    | SetFont(name: string, size: int)
    | DrawString(x: int, y: int, text: string)

  /** A saved single-page document: its size and what was drawn on it. */
  datatype Page = Page(width: int, height: int, ops: seq<DrawOp>)

  /** A reportlab canvas: a page size fixed at creation and the drawing
      calls made on it so far. */
  class Canvas {
    const pageWidth: int
    const pageHeight: int
    var ops: seq<DrawOp>

    constructor (width: int, height: int)
      ensures pageWidth == width && pageHeight == height && ops == []
    {
      pageWidth, pageHeight := width, height;
      ops := [];
    }

    method DrawImage(image: Pixels, x: int, y: int, width: int, height: int)
      modifies this
      ensures ops == old(ops) + [DrawOp.DrawImage(image, x, y, width, height)]
    {
      ops := ops + [DrawOp.DrawImage(image, x, y, width, height)];
    }

    method SetFillColor(color: Color)
      modifies this
      ensures ops == old(ops) + [DrawOp.SetFillColor(color)]
    {
      ops := ops + [DrawOp.SetFillColor(color)];
    }

    method SetFont(name: string, size: int)
      modifies this
      ensures ops == old(ops) + [DrawOp.SetFont(name, size)]
    {
      ops := ops + [DrawOp.SetFont(name, size)];
    }

    method DrawString(x: int, y: int, text: string)
      modifies this
      ensures ops == old(ops) + [DrawOp.DrawString(x, y, text)]
    {
      ops := ops + [DrawOp.DrawString(x, y, text)];
    }

    /** `c.save()`: the page as drawn so far. */
    function Save(): Page
      reads this
    {
      Page(pageWidth, pageHeight, ops)
    }
  }

  /** Line 76: from a top-left origin in the image to the bottom-left origin
      of the page; the box's bottom edge lands at `pdf_y`. */
  function PdfY(imgHeight: int, y: int, h: int): (pdfY: int)
    ensures pdfY + h == imgHeight - y
  {
    imgHeight - y - h
  }

  /** A box that lies inside the image lands inside the page. */
  lemma PdfYInPage(imgHeight: int, y: int, h: int)
    requires 0 <= y && 0 <= h && y + h <= imgHeight
    ensures 0 <= PdfY(imgHeight, y, h) <= imgHeight
    ensures PdfY(imgHeight, y, h) + h <= imgHeight
  {
  }

  /** The change of origin is a vertical reflection of the box: applied
      twice it gives back the image row, and a box higher up in the image
      (smaller `y`) lands higher up on the page (larger `pdf_y`). */
  lemma PdfYFlip(imgHeight: int, y: int, y2: int, h: int)
    ensures PdfY(imgHeight, PdfY(imgHeight, y, h), h) == y
    ensures y < y2 <==> PdfY(imgHeight, y, h) > PdfY(imgHeight, y2, h)
  {
  }

  /** A 30-pixel box 20 rows from the top of a 440-row page lands at 390. */
  lemma PdfYExample()
    ensures PdfY(440, 20, 30) == 390
  {
  }

  /** A word whose text strips to nothing is skipped. */
  predicate IsBlank(box: OcrBox) {
    Strip(box.text) == ""
  }

  /** The calls the loop makes for one box. */
  function BoxOps(box: OcrBox, imgHeight: int): seq<DrawOp> {
    if IsBlank(box) then []
    else [SetFont("Helvetica", box.height),
          DrawString(box.left, PdfY(imgHeight, box.top, box.height), Strip(box.text))]
  }

  /** The calls the loop over the boxes makes, in box order. */
  function TextOps(boxes: seq<OcrBox>, imgHeight: int): seq<DrawOp> {
    if boxes == [] then []
    else TextOps(boxes[..|boxes| - 1], imgHeight) + BoxOps(boxes[|boxes| - 1], imgHeight)
  }

  /** The loop over the first i + 1 boxes makes the calls for the first i,
      then those for box i. */
  lemma TextOpsStep(boxes: seq<OcrBox>, i: nat, imgHeight: int)
    requires i < |boxes|
    ensures TextOps(boxes[..i + 1], imgHeight) == TextOps(boxes[..i], imgHeight) + BoxOps(boxes[i], imgHeight)
  {
    assert boxes[..i + 1][..i] == boxes[..i] && boxes[..i + 1][i] == boxes[i];
  }

  /** The background: the whole image at the page origin. */
  function Background(img: Image): DrawOp {
    DrawImage(img.pixels, 0, 0, img.width, img.height)
  }

  /** The page `create_overlay_pdf` saves for an image and the recogniser's
      boxes. */
  function OverlayPage(img: Image, boxes: seq<OcrBox>): Page {
    Page(img.width, img.height, [Background(img), SetFillColor(Invisible)] + TextOps(boxes, img.height))
  }

  /** `create_overlay_pdf`, given the boxes the recogniser returned for the
      binarised image: a canvas the size of the image, the background, the
      invisible fill, then a font and a string per non-blank box. */
  method CreateOverlayPdf(original: Image, data: seq<OcrBox>) returns (page: Page)
    ensures page == OverlayPage(original, data)
  {
    var imgWidth, imgHeight := original.width, original.height;
    var c := new Canvas(imgWidth, imgHeight);
    c.DrawImage(original.pixels, 0, 0, imgWidth, imgHeight);
    c.SetFillColor(Invisible);
    var i := 0;
    while i < |data|
      invariant 0 <= i <= |data|
      invariant c.pageWidth == imgWidth && c.pageHeight == imgHeight
      invariant c.ops == [Background(original), SetFillColor(Invisible)] + TextOps(data[..i], imgHeight)
    {
      ghost var before := c.ops;
      TextOpsStep(data, i, imgHeight);
      var text := Strip(data[i].text);
      if text != "" {
        var x, y, w, h := data[i].left, data[i].top, data[i].width, data[i].height;
        var pdfY := imgHeight - y - h;
        c.SetFont("Helvetica", h);
        c.DrawString(x, pdfY, text);
        assert c.ops == before + BoxOps(data[i], imgHeight);
      } else {
        assert c.ops == before + BoxOps(data[i], imgHeight);
      }
      i := i + 1;
    }
    assert data[..i] == data;
    page := c.Save();
  }

  /** The boxes that survive the blank filter, in their original order. */
  function NonBlank(boxes: seq<OcrBox>): seq<OcrBox> {
    if boxes == [] then []
    else NonBlank(boxes[..|boxes| - 1]) + (if IsBlank(boxes[|boxes| - 1]) then [] else [boxes[|boxes| - 1]])
  }

  /** How many boxes are blank. */
  function CountBlank(boxes: seq<OcrBox>): nat {
    if boxes == [] then 0
    else CountBlank(boxes[..|boxes| - 1]) + (if IsBlank(boxes[|boxes| - 1]) then 1 else 0)
  }

  /** N boxes of which K are blank leave N - K. */
  lemma {:induction false} NonBlankCount(boxes: seq<OcrBox>)
    ensures |NonBlank(boxes)| == |boxes| - CountBlank(boxes)
  {
    if boxes != [] {
      NonBlankCount(boxes[..|boxes| - 1]);
    }
  }

  /** The text layer is a font and a string per non-blank box, in box
      order: the string is the stripped text at `(x, pdf_y)`, the font size
      is the box height. */
  lemma {:induction false} TextOpsPairs(boxes: seq<OcrBox>, imgHeight: int)
    ensures var kept := NonBlank(boxes); var ops := TextOps(boxes, imgHeight);
      |ops| == 2 * |kept| &&
      forall k :: 0 <= k < |kept| ==>
        ops[2 * k] == SetFont("Helvetica", kept[k].height) &&
        ops[2 * k + 1] == DrawString(kept[k].left, PdfY(imgHeight, kept[k].top, kept[k].height), Strip(kept[k].text))
  {
    if boxes != [] {
      TextOpsPairs(boxes[..|boxes| - 1], imgHeight);
    }
  }

  /** How many strings a list of calls draws. */
  function CountDrawStrings(ops: seq<DrawOp>): nat {
    if ops == [] then 0
    else CountDrawStrings(ops[..|ops| - 1]) + (if ops[|ops| - 1].DrawString? then 1 else 0)
  }

  lemma {:induction false} CountDrawStringsAppend(a: seq<DrawOp>, b: seq<DrawOp>)
    ensures CountDrawStrings(a + b) == CountDrawStrings(a) + CountDrawStrings(b)
    decreases |b|
  {
    if b == [] {
      assert a + b == a;
    } else {
      assert (a + b)[..|a + b| - 1] == a + b[..|b| - 1];
      CountDrawStringsAppend(a, b[..|b| - 1]);
    }
  }

  /** N boxes of which K are blank give exactly N - K `drawString` calls on
      the page. */
  lemma {:induction false} DrawStringCount(img: Image, boxes: seq<OcrBox>)
    ensures CountDrawStrings(OverlayPage(img, boxes).ops) == |boxes| - CountBlank(boxes)
  {
    TextOpsDrawStrings(boxes, img.height);
    NonBlankCount(boxes);
    CountDrawStringsAppend([Background(img), SetFillColor(Invisible)], TextOps(boxes, img.height));
    var head := [Background(img), SetFillColor(Invisible)];
    assert CountDrawStrings(head) == 0 by {
      assert head[..1] == [Background(img)];
      assert [Background(img)][..0] == [];
      assert CountDrawStrings([Background(img)]) == 0;
    }
  }

  lemma {:induction false} TextOpsDrawStrings(boxes: seq<OcrBox>, imgHeight: int)
    ensures CountDrawStrings(TextOps(boxes, imgHeight)) == |NonBlank(boxes)|
  {
    if boxes != [] {
      var last := boxes[|boxes| - 1];
      TextOpsDrawStrings(boxes[..|boxes| - 1], imgHeight);
      CountDrawStringsAppend(TextOps(boxes[..|boxes| - 1], imgHeight), BoxOps(last, imgHeight));
      if !IsBlank(last) {
        var font := SetFont("Helvetica", last.height);
        assert BoxOps(last, imgHeight)[..1] == [font];
        assert [font][..0] == [];
        assert CountDrawStrings([font]) == 0;
      }
    }
  }

  /** The page is exactly the size of the image; the image is drawn first,
      at the origin and at full size; the fill is made invisible before any
      text; and nothing else but fonts and strings follows. */
  lemma PageLayout(img: Image, boxes: seq<OcrBox>)
    ensures var page := OverlayPage(img, boxes);
      page.width == img.width && page.height == img.height &&
      |page.ops| >= 2 &&
      page.ops[0] == DrawImage(img.pixels, 0, 0, img.width, img.height) &&
      page.ops[1] == SetFillColor(Invisible) && page.ops[1].color.alpha == 0.0 &&
      forall k :: 2 <= k < |page.ops| ==> page.ops[k].SetFont? || page.ops[k].DrawString?
  {
    var page := OverlayPage(img, boxes);
    TextOpsPairs(boxes, img.height);
    var kept := NonBlank(boxes);
    forall k | 2 <= k < |page.ops| ensures page.ops[k].SetFont? || page.ops[k].DrawString? {
      var j := k - 2;
      assert page.ops[k] == TextOps(boxes, img.height)[j];
      var q := j / 2;
      assert 0 <= q < |kept|;
      var ops := TextOps(boxes, img.height);
      var box := kept[q];
      assert ops[2 * q] == SetFont("Helvetica", box.height);
      assert ops[2 * q + 1] == DrawString(box.left, PdfY(img.height, box.top, box.height), Strip(box.text));
      assert j == 2 * q || j == 2 * q + 1;
    }
  }

  /** A recogniser that found nothing gives a page with the background and
      no text. */
  lemma NoBoxesNoText(img: Image)
    ensures OverlayPage(img, []).ops == [Background(img), SetFillColor(Invisible)]
  {
  }
}
