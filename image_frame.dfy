/**
 * The state `ImageFrame` keeps between events and the handlers that
 * change it: the folder and its image list, the displayed bitmap, the
 * mouse selection, and the two text boxes (the OCR buffer and the
 * processed text). The text boxes are modelled by their contents.
 */
module Viewer {
  import opened Wrappers
  import opened Selection
  import opened DateFormat
  import opened ImageList

  /** The displayed `wx.Bitmap` (possibly scaled to fit): size and opaque pixels. */
  datatype Bitmap = Bitmap(width: nat, height: nat, pixels: seq<int>)

  /**
   * `pytesseract.image_to_string` applied to the bitmap cropped to a box.
   * The engine is outside the model, so it is a parameter.
   */
  type OcrEngine = (Bitmap, CropBox) -> string

  /** `not self.folder_path`: no folder, or an empty path. */
  predicate FolderUnset(folder: Option<string>) {
    folder.None? || folder.value == ""
  }

  /**
   * The OCR buffer after `performOCR`: when a bitmap and both selection
   * points are present, the text read from the selected crop box is
   * appended; otherwise the buffer stays as it was.
   */
  function AppendOcr(buffer: string, bitmap: Option<Bitmap>, start: Option<Point>,
                     end: Option<Point>, ocr: OcrEngine): (r: string)
    ensures buffer <= r
    ensures r != buffer ==> bitmap.Some? && start.Some? && end.Some?
    ensures bitmap.Some? && start.Some? && end.Some? ==>
      r[|buffer|..] == ocr(bitmap.value, SelectionCropBox(start.value, end.value))
  {
    if bitmap.Some? && start.Some? && end.Some? then
      buffer + ocr(bitmap.value, SelectionCropBox(start.value, end.value))
    else
      buffer
  }

  /** Successive extractions land in the buffer in the order they were made. */
  lemma AppendOcrInOrder(buffer: string, bitmap: Bitmap, s1: Point, e1: Point,
                         s2: Point, e2: Point, ocr: OcrEngine)
    ensures AppendOcr(AppendOcr(buffer, Some(bitmap), Some(s1), Some(e1), ocr),
                      Some(bitmap), Some(s2), Some(e2), ocr)
         == buffer + ocr(bitmap, SelectionCropBox(s1, e1)) + ocr(bitmap, SelectionCropBox(s2, e2))
  {
  }

  /**
   * The crop box is not clipped to the bitmap: a release to the right of
   * or below the bitmap gives a box that reaches past its edge.
   */
  lemma CropBoxMayExceedBitmap(bitmap: Bitmap, start: Point, end: Point)
    requires 0 <= start.x <= bitmap.width && 0 <= start.y <= bitmap.height
    ensures end.x > bitmap.width ==> SelectionCropBox(start, end).right > bitmap.width
    ensures end.y > bitmap.height ==> SelectionCropBox(start, end).lower > bitmap.height
  {
    CropBoxCorners(start, end);
  }

  class ImageFrame {
    var folderPath: Option<string>
    var imageList: seq<string>
    var imageBitmap: Option<Bitmap>
    var selectionStart: Option<Point>
    var selectionEnd: Option<Point>
    var isSelecting: bool
    var ocrText: string
    var processedText: string

    /** `__init__`: nothing chosen, nothing selected, empty text boxes. */
    constructor ()
      ensures folderPath == None && imageList == [] && imageBitmap == None
      ensures selectionStart == None && selectionEnd == None && !isSelecting
      ensures ocrText == "" && processedText == ""
    {
      folderPath := None;
      imageList := [];
      imageBitmap := None;
      selectionStart := None;
      selectionEnd := None;
      isSelecting := false;
      ocrText := "";
      processedText := "";
    }

    /**
     * `populateImageList`: with a folder set, the list is cleared and
     * refilled with the image entries of `listing` (the folder's
     * `os.listdir`), in listing order; without one nothing happens.
     */
    method PopulateImageList(listing: seq<string>)
      modifies this`imageList
      ensures FolderUnset(folderPath) ==> imageList == old(imageList)
      ensures !FolderUnset(folderPath) ==> imageList == ImageFiles(listing)
    {
      if FolderUnset(folderPath) {
        return;
      }
      imageList := [];
      var files := ImageFiles(listing);
      var i := 0;
      while i < |files|
        invariant 0 <= i <= |files|
        invariant imageList == files[..i]
      {
        imageList := imageList + [files[i]];
        i := i + 1;
      }
    }

    /** `onChooseFolder` once the dialog returned `path`. */
    method OnFolderChosen(path: string, listing: seq<string>)
      modifies this`folderPath, this`imageList
      ensures folderPath == Some(path)
      ensures path != "" ==> imageList == ImageFiles(listing)
      ensures path == "" ==> imageList == old(imageList)
    {
      folderPath := Some(path);
      PopulateImageList(listing);
    }

    /** The part of `displayImage` that keeps the shown bitmap for selection. */
    method ShowBitmap(bitmap: Bitmap)
      modifies this`imageBitmap
      ensures FolderUnset(folderPath) ==> imageBitmap == old(imageBitmap)
      ensures !FolderUnset(folderPath) ==> imageBitmap == Some(bitmap)
    {
      if FolderUnset(folderPath) {
        return;
      }
      imageBitmap := Some(bitmap);
    }

    /** `onMouseDown`: the press starts a selection at `pos`. */
    method OnMouseDown(pos: Point)
      modifies this`selectionStart, this`isSelecting
      ensures selectionStart == Some(pos) && isSelecting
    {
      selectionStart := Some(pos);
      isSelecting := true;
    }

    /** `onMouseDrag`: the end point follows the mouse only while selecting. */
    method OnMouseDrag(pos: Point)
      modifies this`selectionEnd
      ensures isSelecting ==> selectionEnd == Some(pos)
      ensures !isSelecting ==> selectionEnd == old(selectionEnd)
    {
      if isSelecting {
        selectionEnd := Some(pos);
      }
    }

    /**
     * `performOCR`: reads the text in the selected region of the
     * displayed bitmap and appends it to the OCR buffer.
     */
    method PerformOcr(ocr: OcrEngine)
      modifies this`ocrText
      ensures ocrText == AppendOcr(old(ocrText), imageBitmap, selectionStart, selectionEnd, ocr)
    {
      if imageBitmap.Some? && selectionStart.Some? && selectionEnd.Some? {
        var start, end := selectionStart.value, selectionEnd.value;
        var region := SelectionRect(start, end);
        var box := CropBoxOf(region);
        var text := ocr(imageBitmap.value, box);
        ocrText := ocrText + text;
      }
    }

    /**
     * `onMouseUp`: the release ends the selection at `pos` and runs OCR
     * unless the release is where the selection started, so a click
     * without movement leaves the buffer alone.
     */
    method OnMouseUp(pos: Point, ocr: OcrEngine)
      modifies this`isSelecting, this`selectionEnd, this`ocrText
      ensures !isSelecting && selectionEnd == Some(pos)
      ensures selectionStart != Some(pos) ==>
        ocrText == AppendOcr(old(ocrText), imageBitmap, selectionStart, Some(pos), ocr)
      ensures selectionStart == Some(pos) ==> ocrText == old(ocrText)
      ensures old(ocrText) <= ocrText
    {
      isSelecting := false;
      selectionEnd := Some(pos);
      if selectionStart != selectionEnd {
        PerformOcr(ocr);
      }
    }

    /** `onProcessText`: the processed box shows the normalised OCR buffer. */
    method OnProcessText()
      modifies this`processedText
      ensures processedText == ConvertDateFormat(ocrText)
    {
      processedText := ConvertDateFormat(ocrText);
    }

    /**
     * The OCR box is an editable multi-line text control: between events
     * the user may type into it or delete from it, so its contents become
     * any text at all. The buffer only grows under the mouse handlers
     * and `PerformOcr`; `OnClearText` empties it.
     */
    method EditOcrText(text: string)
      modifies this`ocrText
      ensures ocrText == text
    {
      ocrText := text;
    }

    /** `onClearText`: both text boxes are emptied. */
    method OnClearText()
      modifies this`ocrText, this`processedText
      ensures ocrText == "" && processedText == ""
    {
      ocrText := "";
      processedText := "";
    }
  }

  /**
   * A session: two drags read `AB` and then `CD`, with a plain click in
   * between; the buffer ends up holding `ABCD`.
   */
  method TwoSelectionsAppend(bitmap: Bitmap, ocr: OcrEngine) returns (text: string)
    requires ocr(bitmap, CropBox(10, 20, 30, 40)) == "AB"
    requires ocr(bitmap, CropBox(40, 60, 50, 70)) == "CD"
    ensures text == "ABCD"
  {
    var frame := new ImageFrame();
    frame.OnFolderChosen("photos", []);
    frame.ShowBitmap(bitmap);

    frame.OnMouseDown(Point(30, 40));
    frame.OnMouseDrag(Point(20, 30));
    assert SelectionCropBox(Point(30, 40), Point(10, 20)) == CropBox(10, 20, 30, 40);
    frame.OnMouseUp(Point(10, 20), ocr);
    assert frame.ocrText == "AB";

    frame.OnMouseDown(Point(5, 5));
    frame.OnMouseUp(Point(5, 5), ocr);

    frame.OnMouseDown(Point(50, 60));
    frame.OnMouseDrag(Point(40, 70));
    assert SelectionCropBox(Point(50, 60), Point(40, 70)) == CropBox(40, 60, 50, 70);
    frame.OnMouseUp(Point(40, 70), ocr);
    assert frame.ocrText == "AB" + "CD";
    text := frame.ocrText;
  }
}
