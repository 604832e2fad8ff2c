# wx_imgview core in Dafny

`wx_imgview` is a wxPython image viewer. The user picks a folder, and the viewer lists its image files. The user opens one image and drags a rectangle over it. The viewer reads the text inside that rectangle with Tesseract OCR and appends it to a text box. A "Process Text" button rewrites that text as a compact date (`26.10.24` becomes `20241026`).

This project models the three parts of `ImageFrame` that hold logic:

- **Date normaliser** (`date_format.dfy`, on top of `pystr.dfy`). `convert_date_format` strips the text and tries two fixed layouts in order. `dd.mm.yy` becomes `20yymmdd`. `dd-mm-yyyy hh:mm:ss` becomes `yyyymmdd-hhmmss`. Any other text comes back stripped. It is modelled as a pure function. The Python built-ins it uses are also pure functions: `strip`, `isdigit`, and `split` with its inverse `join`.
- **Selection and OCR buffer** (`selection.dfy`, `image_frame.dfy`). The mouse handlers and `performOCR` change fields of the frame. They are modelled as methods of the class `ImageFrame`. The selection points are `Option<Point>` fields, and the OCR text box is modelled by its contents. The OCR engine is a function parameter from a bitmap and a crop box to a string. The crop box is computed in the coordinates of the displayed bitmap, as the code does.
- **Image list** (`image_list.dfy`, `image_frame.dfy`). `populateImageList` clears the list box and appends the directory entries whose lower-cased name ends in `.png`, `.jpg`, `.jpeg`, `.bmp` or `.gif`. The append loop is a `while` loop in a method. The filtering comprehension is a function. The directory listing is an input sequence.

Points about the code that the model keeps:

- It crops the displayed, possibly scaled, bitmap at raw widget coordinates. There is no inverse scaling and no clipping to the image.
- It does not catch OCR errors.
- A selection survives loading a new image. `displayImage` (wx_imgview.py:249-279) never resets the selection points, and neither does `ShowBitmap`.
- A release away from the start point always reaches `performOCR`, even when the drag keeps x or y fixed. The crop box then has zero width or zero height (`CropBoxDegenerate`).
- Both text boxes are editable. The OCR buffer only grows under the mouse handlers and `performOCR`. `onClearText` empties it, and the user can rewrite it between events (`EditOcrText`).

## Model

| member | source | states |
|---|---|---|
| `PyStr.Strip` | wx_imgview.py:141 | `strip()` leaves no whitespace at either end and never lengthens the text |
| `PyStr.StripSurrounded` | wx_imgview.py:141 | `strip()` removes exactly the surrounding whitespace: whitespace + t + whitespace strips to t for every t without whitespace at its ends |
| `PyStr.StripIdempotent` | wx_imgview.py:141 | stripping twice gives the same text as stripping once |
| `PyStr.Split` | wx_imgview.py:146 | `split(".")` gives at least one piece; no piece holds the separator; joining the pieces with the separator gives back the input |
| `PyStr.SplitJoin` | wx_imgview.py:146 | `split` is the inverse of `join` for separator-free pieces |
| `DateFormat.ShortDateSplit` | wx_imgview.py:144-146 | on a `dd.mm.yy` text, `split(".")` gives exactly the slices [0,2), [3,5) and [6,8), so the three-way unpacking cannot fail |
| `DateFormat.RewriteShortDate` | wx_imgview.py:146-149 | the split-and-reorder rewrite of layout A equals `"20"` + the year, month and day slices |
| `DateFormat.ConvertDateFormat` | wx_imgview.py:140-176 | the result is never longer than the input |
| `DateFormat.ConvertShortDate` | wx_imgview.py:141-149 | a stripped text in layout A becomes `"20"` + year + month + day, taken as fixed slices |
| `DateFormat.ConvertLongDateTime` | wx_imgview.py:151-173 | a stripped text in layout B becomes year + month + day + `-` + hour + minute + second, 15 characters |
| `DateFormat.ConvertFallback` | wx_imgview.py:141-176 | a text matching neither layout comes back exactly as its `strip()` |
| `DateFormat.LayoutsDisjoint` | wx_imgview.py:144-162 | no text is in both layouts, so the order of the two checks does not matter |
| `DateFormat.ShortDateShape` | wx_imgview.py:149 | the layout A rewrite of any layout A text is eight digits |
| `DateFormat.ShortDateOutput` | wx_imgview.py:149 | the layout A output is eight digits |
| `DateFormat.LongDateTimeShape` | wx_imgview.py:173 | the layout B rewrite of any layout B text is eight digits, a dash and six digits |
| `DateFormat.LongDateTimeOutput` | wx_imgview.py:173 | the layout B output is 15 characters: eight digits, a dash, six digits |
| `DateFormat.ShortOutputInNoLayout` | wx_imgview.py:141-162 | a layout A output has no surrounding whitespace and matches neither layout, so it is not rewritten again |
| `DateFormat.LongOutputInNoLayout` | wx_imgview.py:141-162 | a layout B output has no surrounding whitespace and matches neither layout, so it is not rewritten again |
| `DateFormat.ConvertFixedPoint` | wx_imgview.py:140-176 | a stripped text in neither layout converts to itself |
| `DateFormat.ConvertIdempotent` | wx_imgview.py:140-176 | converting an already converted text changes nothing |
| `DateFormat.ShortDateFromParts` | wx_imgview.py:144 | two-digit day, month and year joined by dots always form layout A, with the fields at the fixed slices |
| `DateFormat.LongDateTimeFromParts` | wx_imgview.py:151-162 | the six digit fields joined by `-`, `-`, space, `:`, `:` always form layout B and never layout A |
| `DateFormat.ConvertShortDateParts` | wx_imgview.py:141-149 | a text that strips to day.month.year (two digits each) becomes `"20"` + year + month + day |
| `DateFormat.ConvertLongDateTimeParts` | wx_imgview.py:141-173 | a text that strips to dd-mm-yyyy hh:mm:ss becomes yyyymmdd-hhmmss |
| `DateFormat.ExampleShortDate` | wx_imgview.py:141-149 | every text that strips to `26.10.24` becomes `20241026` |
| `DateFormat.ExamplePaddedShortDate` | wx_imgview.py:141 | `"  26.10.24  "` strips to `26.10.24` |
| `DateFormat.ExamplePaddedConverts` | wx_imgview.py:141-149 | `"  26.10.24  "` becomes `20241026`: stripping comes before the layout test |
| `DateFormat.ExampleLongDateTime` | wx_imgview.py:151-173 | every text that strips to `26-10-2024 14:30:05` becomes `20241026-143005` |
| `DateFormat.ExampleNoCalendarCheck` | wx_imgview.py:144-149 | month 13 is accepted: a text that strips to `01.13.24` becomes `20241301` |
| `DateFormat.ExampleFallback` | wx_imgview.py:174-176 | `hello world` comes back unchanged |
| `Selection.SelectionRect` | wx_imgview.py:351-353 | the region has non-negative width and height, and its horizontal and vertical extents run between the two points' coordinates, whichever point is the start |
| `Selection.SelectionCropBox` | wx_imgview.py:357 | the crop box has left ≤ right and upper ≤ lower |
| `Selection.CropBoxCorners` | wx_imgview.py:351-357 | the crop box is (min x, min y, max x, max y) of the two points, with no scaling or clipping |
| `Selection.SelectionSymmetric` | wx_imgview.py:353 | swapping start and end gives the same region |
| `Selection.CropBoxContainsPoints` | wx_imgview.py:353-357 | both selection points lie inside the crop box |
| `Selection.CropBoxDegenerate` | wx_imgview.py:353-357 | the box has zero width exactly when the points share x, and zero height exactly when they share y |
| `PyStr.LowerChar` | wx_imgview.py:229 | `lower()` on one character leaves no capital, turns a capital into the small letter at the same alphabet position, and keeps every other character |
| `PyStr.Lower` | wx_imgview.py:229 | `lower()` keeps the length, leaves no capital letter, lower-cases each capital in place and keeps every other character |
| `ImageList.ImageFiles` | wx_imgview.py:228-229 | an entry is kept exactly when it is in the listing and its lower-cased name ends in a supported extension |
| `ImageList.ImageFilesAppend` | wx_imgview.py:229 | the filter keeps listing order: filtering a concatenation gives the concatenation of the filtered parts |
| `ImageList.ImageFilesCount` | wx_imgview.py:229 | each image entry is kept as many times as it occurs; other entries are dropped |
| `ImageList.ImageNameIgnoresCase` | wx_imgview.py:229 | a name and its lower-case form are classified alike |
| `ImageList.ExampleUpperCaseJpeg` | wx_imgview.py:228-229 | `IMG_01.JPEG` is listed |
| `ImageList.ExampleTextFile` | wx_imgview.py:228-229 | `notes.txt` is not listed |
| `Viewer.AppendOcr` | wx_imgview.py:350-365 | the old buffer is a prefix of the new one; the buffer grows only when a bitmap and both points are present, and then by the text read from the selection's crop box |
| `Viewer.AppendOcrInOrder` | wx_imgview.py:360-365 | two extractions append their texts in the order made, with no separator |
| `Viewer.CropBoxMayExceedBitmap` | wx_imgview.py:351-360 | the crop box is not clipped: a release right of or below the bitmap gives a box that reaches past its width or height |
| `Viewer.ImageFrame.constructor` | wx_imgview.py:27-35 | a new frame has no folder, no bitmap and no selection, and both text boxes are empty; the `loadConfig` call that follows at :37 is not part of the constructor here |
| `Viewer.ImageFrame.PopulateImageList` | wx_imgview.py:219-232 | with no folder (or an empty path) the list is unchanged; otherwise it holds exactly the image entries of the listing, in order, with nothing left from before |
| `Viewer.ImageFrame.OnFolderChosen` | wx_imgview.py:207-210 | the chosen folder is recorded and its image entries are listed |
| `Viewer.ImageFrame.ShowBitmap` | wx_imgview.py:251-263 | with a folder set, the shown bitmap becomes the one selections are read from; without one nothing changes |
| `Viewer.ImageFrame.OnMouseDown` | wx_imgview.py:313-316 | a press sets the start point and begins selecting |
| `Viewer.ImageFrame.OnMouseDrag` | wx_imgview.py:318-322 | a drag moves the end point while selecting and changes nothing otherwise |
| `Viewer.ImageFrame.PerformOcr` | wx_imgview.py:348-365 | the buffer becomes `AppendOcr` of the old buffer and the current bitmap and points |
| `Viewer.ImageFrame.OnMouseUp` | wx_imgview.py:324-333 | a release ends selecting and sets the end point; OCR runs exactly when the start differs from the release point; a click without movement leaves the buffer alone; the buffer only grows |
| `Viewer.ImageFrame.OnProcessText` | wx_imgview.py:178-182 | the processed box holds the normalised OCR buffer |
| `Viewer.ImageFrame.EditOcrText` | wx_imgview.py:90 | the OCR box is an editable text control, so between events its contents can become any text |
| `Viewer.ImageFrame.OnClearText` | wx_imgview.py:135-138 | both text boxes become empty |
| `Viewer.TwoSelectionsAppend` | wx_imgview.py:313-365 | a session of two drags that read `AB` and `CD`, with a plain click between them, leaves `ABCD` in the buffer |

## Left out

- Widget construction, layout, menus, the About box and painting the selection rectangle (wx_imgview.py:39-132, 184-201, 335-346): user interface only.
- `scaleImageToFit` (wx_imgview.py:281-305): floating-point ratio arithmetic whose result only feeds a library call. The model takes the displayed bitmap as given.
- `wxBitmapToPilImage` and the pixel semantics of cropping (wx_imgview.py:357, 367-371): foreign pixel-buffer conversion. Only the crop-box arithmetic is modelled. The crop box is not clipped to the bitmap, and what the image library does with a box outside it is not modelled.
- `pytesseract.image_to_string` (wx_imgview.py:360): the external OCR engine. It is the function-typed parameter `ocr` (type `OcrEngine`). The code does not catch its errors, so no error path is modelled.
- Loading and saving the configuration file (wx_imgview.py:37, 392-409). The constructor leaves out the `loadConfig` call, which can set the folder and fill the list. Also left out: the folder dialog, `os.listdir`, `os.rename` and `os.path.splitext` (wx_imgview.py:203-213, 229, 234-242, 373-390): file-system and dialog calls. The directory listing is an input sequence.
- Viewer.ImageFrame.PopulateImageList: does not model a failing `os.listdir`. In the code such a failure raises after the list box was already cleared.
- `onToggleScale` and the rest of `displayImage` (wx_imgview.py:244-279): image loading and widget replacement. Only the stored bitmap is modelled, in `ShowBitmap`.
- `onCopyProcessedText` (wx_imgview.py:307-311): a clipboard call through a module the program never imports.
- The `print` in `onProcessText` (wx_imgview.py:181): console output.
- Viewer.ImageFrame.PerformOcr: "present" means `Some` for the bitmap and both points. The code tests the truthiness of `wx.Bitmap` and `wx.Point` objects, and that behaviour belongs to the widget library. In wxPython `wx.Point(0, 0)` is false. So a selection that starts or ends at the widget's top-left corner gets no OCR in the program, while the model appends the text read from it.
- Viewer.ImageFrame.processedText: the processed box (wx_imgview.py:99) is editable too. User edits to it are not modelled, because only the clipboard copy, which is left out, reads it back.
- PyStr.IsDigit: restricted to ASCII `0`-`9`. Python's `isdigit()` also accepts other Unicode digits, such as superscripts and Arabic-Indic digits, and a date written with those is not recognised by the model.
- PyStr.LowerChar: lower-cases ASCII capitals only. `'É'` stays `'É'`, where Python gives `'é'`; the next line says why this does not change which names are listed.
- PyStr.Lower: lower-cases ASCII letters only. Python's `lower()` maps every Unicode letter. That wider mapping is believed not to change which names are listed. The only non-ASCII characters believed to lower-case to text holding an ASCII letter are U+0130 (to `i` plus a combining dot) and U+212A, the Kelvin sign (to `k`). Neither can complete one of the five extensions.
