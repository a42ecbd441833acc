# pyiof OCR core in Dafny

This project models the self-contained logic of pyiof, a Python layer over an
OCR engine, an image library and a face detector. It covers three pieces.

- **Threshold-sweep OCR** (`ocr.dfy`, module `Ocr`). `_calculate_ocr_accuracy`
  scores a transcription as the pair (number of lower-cased whitespace-separated
  tokens found in the dictionary, total length of those tokens). `extract_text`
  converts the image to grayscale once. It then binarizes, transcribes and scores
  at each threshold of `range(32, 256, 32)` in ascending order, and keeps a
  result only when its score is strictly greater (lexicographic pair order) than
  the one kept so far. Both are methods whose loops are proved against the
  specification functions `Score` and `Sweep`. Lemmas then prove what the sweep
  returns: the maximum, the first threshold reaching it, and the degenerate
  all-zero case.
- **Image processor** (`images.dfy`, module `Images`). Binarization is a pixel
  map: an intensity at or above the threshold becomes 255, any other becomes 0.
  It is proved pointwise, two-valued, monotone in the threshold and idempotent.
  It also skips the grayscale conversion for images already in mode "L".
  Each region `(x, y, w, h)` becomes the box `(x, y, x+w, y+h)`. Cropping a list
  of regions gives one image of size `(w, h)` per region, in order. Drawing
  outlines the regions on the image object itself (class `PilImage`) and returns
  that same object.
- **Dictionary manager** (`dictionary.dfy`, module `Dictionary`). A class with a
  cache that stays `None` until the first lookup. The first lookup reads the
  file and keeps `set(data.split("\n"))`. A failed read yields a
  `DictionaryManagerError` carrying the configured path and leaves the cache
  empty, so the next lookup reads the file again.
- `strings.dfy` (module `Strings`) defines the Python string operations these
  rely on: `str.split()`, `str.split(sep)` and `str.lower()`. For
  `str.split(sep)`, `JoinSplitOn` and `SplitOnJoin` prove the round trip with
  `sep.join` in both directions. For `str.split()`, `SplitOfBlank`,
  `SplitOfWord` and `SplitAtSpace` fix the tokens of every text (its maximal
  whitespace-free runs), and `SplitJoinSpaced` proves that words joined by
  single spaces split back into themselves. `str.lower()` has no inverse; its
  contract fixes every character, and `LowerIdempotent` proves that applying
  it twice changes nothing.

External collaborators are parameters of the operations that call them:

- the OCR engine (`pytesseract.image_to_string`): `ocr: Image -> string`;
- the library's grayscale conversion (`convert("L")`): `luma: Image -> seq<int>`;
- the crop pixel data: `cropPixels`;
- rectangle rasterisation (`ImageDraw.rectangle`, called with a red outline 2 pixels wide): `outline`;
- the file system: `fs: string -> ReadOutcome`;
- the package's resources directory: `resourcesDir`.

One detail of the sweep is easy to misread. When every threshold scores
(0, 0), the result does not carry 32, the first threshold tried. The
accumulator starts at `best_threshold = 64` with empty text, and no threshold
ever replaces it, so the result is `("", (0, 0), 64)` (`Ocr.Initial`,
`Ocr.SweepAllZero`, `Ocr.ExtractText`).

## Model

| member | source | states |
|---|---|---|
| `Ocr.CalculateOcrAccuracy` | pyiof/ocr/ocr_processor.py:48-72 | the loop's two counters end as the number of lower-cased tokens in the dictionary and the total length of those tokens (`Score`); empty text gives (0, 0) |
| `Ocr.ScoreBounds` | pyiof/ocr/ocr_processor.py:62-72 | the word count is at most the token count; it is at most the counted length, because tokens are non-empty; the counted length is at most the length of the lower-cased text, and so of the text itself under the ASCII lower-casing |
| `Ocr.ScoreOfBlank` | pyiof/ocr/ocr_processor.py:59-60 | an empty or all-whitespace transcription scores (0, 0) with any dictionary |
| `Ocr.ScoreWithoutDictionary` | pyiof/ocr/ocr_processor.py:67-70 | when the dictionary holds no word, every transcription scores (0, 0) |
| `Ocr.KnownAppend` | pyiof/ocr/ocr_processor.py:67-70 | looking at one more token adds it to the counted tokens exactly when the dictionary holds it |
| `Ocr.Better` | pyiof/ocr/ocr_processor.py:95 | the tuple `>`: a better accuracy differs and has at least as many dictionary words; more dictionary words is always better |
| `Ocr.BetterIsStrictOrder` | pyiof/ocr/ocr_processor.py:95 | the tuple `>` is a strict total order: never both ways, one way for any two different accuracies, transitive |
| `Ocr.Initial` | pyiof/ocr/ocr_processor.py:84-86 | the accumulator has empty text and accuracy (0, 0), which no accuracy is below; its threshold is 64, the second threshold tried, not the first |
| `Ocr.ThresholdsAre` | pyiof/ocr/ocr_processor.py:90 | `range(32, 256, 32)` is exactly 32, 64, 96, 128, 160, 192, 224: ascending, each once |
| `Ocr.ExtractText` | pyiof/ocr/ocr_processor.py:74-100 | the result is the strict-improvement sweep over `range(32, 256, 32)` in ascending order, starting from ("", (0, 0), 64); each threshold's text is the OCR of the one grayscale image binarized at that threshold |
| `Ocr.ThresholdSweepIsFirstMaximum` | pyiof/ocr/ocr_processor.py:84-100 | over the seven thresholds: none scores better than the result; a non-zero result's text is the transcription at its threshold, and every smaller threshold scored strictly lower; a zero result is ("", (0, 0), 64) |
| `Ocr.SweepIsFirstMaximum` | pyiof/ocr/ocr_processor.py:84-98 | for any threshold list and transcriptions: the kept score is the lexicographic maximum of (0, 0) and all scores; a non-zero one comes from the first threshold reaching it, with that threshold's text; a zero one is the initial accumulator |
| `Ocr.SweepAllZero` | pyiof/ocr/ocr_processor.py:84-86 | the result is ("", (0, 0), 64) exactly when every threshold scores (0, 0) |
| `Ocr.SweepStrictWinner` | pyiof/ocr/ocr_processor.py:95-98 | a threshold whose non-zero score beats every other threshold's is returned, with its text and score |
| `Ocr.SweepSameText` | pyiof/ocr/ocr_processor.py:95-98 | when all thresholds yield the same text with a non-zero score, the first threshold and that text are returned (ties keep the earlier result) |
| `Images.GetImageDimensions` | pyiof/img_processing/image_processor.py:96-106 | the dimensions are the image's (width, height), neither negative |
| `Images.GrayscaleImage` | pyiof/img_processing/image_processor.py:17-27 | the conversion yields a mode "L" image of the same dimensions; an image already in mode "L" is returned unchanged, any other gets the library's intensities |
| `Images.Threshold` | pyiof/img_processing/image_processor.py:41 | the pixel count is kept; every output pixel is 0 or 255; it is 255 exactly when the input pixel is at least the threshold |
| `Images.BinarizeImage` | pyiof/img_processing/image_processor.py:29-42 | the result is a mode "L" image of the input's dimensions whose pixels are all 0 or 255; for a grayscale input it has the same pixel count, with pixel i white exactly when input pixel i reaches the threshold; any other input is thresholded after conversion, pixel by pixel over the converted intensities |
| `Images.BinarizeMonotone` | pyiof/img_processing/image_processor.py:41 | raising the threshold never turns a black output pixel white |
| `Images.BinarizeIdempotent` | pyiof/img_processing/image_processor.py:40-41 | binarizing a binarized image again at any threshold from 1 to 255 returns it unchanged |
| `Images.BinarizeKeepsWellFormed` | pyiof/img_processing/image_processor.py:29-42 | a well-formed grayscale image, or a colour image whose conversion gives one intensity per pixel, binarizes to a well-formed 8-bit image |
| `Images.BinarizeSkipsConversionOfGray` | pyiof/img_processing/image_processor.py:40 | a mode "L" image is thresholded as it is: the grayscale converter does not affect the result |
| `Images.BoxOf` | pyiof/img_processing/image_processor.py:70-73 | the box of a region starts at (x, y) and spans exactly width by height |
| `Images.Crop` | pyiof/img_processing/image_processor.py:75 | a crop keeps the mode and has the box's width and height as its dimensions |
| `Images.GetImagesFromRegions` | pyiof/img_processing/image_processor.py:56-77 | one crop per region, in region order; crop i is the crop of region i's box, of size (width, height) |
| `Images.DrawRectanglesOnImage` | pyiof/img_processing/image_processor.py:79-94 | returns the object it was given; its picture becomes the old picture with the box of every region outlined, in region order |
| `Images.OutlinedAppend` | pyiof/img_processing/image_processor.py:91-93 | outlining regions in two calls leaves the same picture as outlining them all in one call |
| `Images.OutlinedKeepsShape` | pyiof/img_processing/image_processor.py:90-94 | if the drawing routine keeps an image's mode and size, drawing any regions keeps them |
| `Dictionary.DefaultDictionaryFile` | ocr/dictionary_manager.py:41-49 | the default path is `words_alpha.txt` inside the resources directory: one "/" is put between them unless the directory is empty or already ends in "/" |
| `Dictionary.DefaultInsideResources` | pyiof/utils/common_utils.py:33-34 | the resources directory is a join ending in `resources`, so the default path is that directory, "/", then `words_alpha.txt` |
| `Dictionary.JoinPath` | ocr/dictionary_manager.py:49 | the POSIX path join: an absolute name is returned as is; otherwise the name follows the directory, with one "/" between them exactly when the directory is non-empty and does not end in "/" |
| `Dictionary.ReadErrorMessage` | ocr/dictionary_manager.py:66-67 | the message is the fixed opening, the path, one space, then the failure's description |
| `Dictionary.ParseDictionary` | ocr/dictionary_manager.py:64 | a word is in the dictionary exactly when it is one of the newline-separated segments of the contents, verbatim |
| `Dictionary.DictionaryManager.constructor` | ocr/dictionary_manager.py:29-38 | a missing or empty path falls back to the default file; the cache starts empty and nothing has been read |
| `Dictionary.DictionaryManager.LoadDictionary` | ocr/dictionary_manager.py:51-67 | succeeds exactly when the file can be read, and then gives the set of its newline-separated segments; a failure carries the configured path and the message naming it |
| `Dictionary.DictionaryManager.IsWordInDictionary` | ocr/dictionary_manager.py:69-81 | with a filled cache, it answers from the cache and reads nothing. With an empty cache, it reads the file once. On success it caches the segments and answers membership among them. On failure it returns the error with the configured path and leaves the cache empty. The file is loaded successfully at most once |
| `Dictionary.ParseDictionaryOfLines` | ocr/dictionary_manager.py:64 | a file written as newline-joined lines yields exactly the set of those lines |
| `Dictionary.MissingFileIsReported` | tests/ocr/test_dictionary_manager.py:19-25 | a lookup through a manager whose file cannot be read fails with an error naming the configured path |
| `Dictionary.RetryAfterFailedLoad` | ocr/dictionary_manager.py:79-80 | after a failed load, the next lookup reads the file again and can succeed |
| `Dictionary.CacheOutlivesFileChange` | ocr/dictionary_manager.py:79-81 | once loaded, later lookups use the cached set even if the file has changed |
| `Strings.Lower` | pyiof/ocr/ocr_processor.py:64 | lower-casing keeps the length and the whitespace positions; each ASCII capital becomes its small letter, every other character is kept, and no ASCII capital is left |
| `Strings.LowerIdempotent` | pyiof/ocr/ocr_processor.py:64 | lower-casing an already lower-cased text changes nothing |
| `Strings.Split` | pyiof/ocr/ocr_processor.py:65 | every token is non-empty and free of whitespace |
| `Strings.SplitKeepsNonSpace` | pyiof/ocr/ocr_processor.py:65 | splitting drops exactly the whitespace: the tokens written together are the text's non-blank characters |
| `Strings.SplitLength` | pyiof/ocr/ocr_processor.py:65 | the tokens together are no longer than the text |
| `Strings.SplitOfBlank` | pyiof/ocr/ocr_processor.py:65 | a blank text has no tokens |
| `Strings.SplitOfWord` | pyiof/ocr/ocr_processor.py:65 | a non-empty whitespace-free text is its own single token |
| `Strings.SplitAtSpace` | pyiof/ocr/ocr_processor.py:65 | any one whitespace character separates: the tokens of `a + c + b` are those of `a` followed by those of `b`; with the two lemmas above this fixes the tokens of every text |
| `Strings.SplitJoinSpaced` | pyiof/ocr/ocr_processor.py:65 | splitting space-joined whitespace-free words gives back the same words |
| `Strings.SplitOn` | ocr/dictionary_manager.py:64 | there is at least one segment, and no segment contains the separator |
| `Strings.JoinSplitOn` | ocr/dictionary_manager.py:64 | joining the segments with the separator restores the text |
| `Strings.SplitOnJoin` | ocr/dictionary_manager.py:64 | splitting separator-free segments joined by the separator gives back the same segments |

## Left out

- The OCR engine, the library's colour-to-grayscale weighting, crop pixel data and rectangle rasterisation are foreign code. They are oracles, so no property of their output is assumed beyond what the image library guarantees for mode and size.
- The "not a string" branch of `_calculate_ocr_accuracy` (pyiof/ocr/ocr_processor.py:59): the typed model only passes strings.
- `Strings.Lower`: lower-cases ASCII letters only. Python's `str.lower()` also maps non-ASCII letters, sometimes to more than one character.
- `Ocr.ScoreBounds`: the bound `wordsLength <= |text|` relies on lower-casing keeping the length. In the source it holds only when no counted word comes from a character whose lower case is longer (such as "İ"), which is always so with an ASCII word list like `words_alpha.txt`. The bound by the lower-cased text's length holds in both.
- `Ocr.ExtractText` scores against the set of words the dictionary manager has loaded. A load failure raised from inside the sweep is modelled on `Dictionary.DictionaryManager.IsWordInDictionary` alone, not propagated through `extract_text`.
- Failures raised by the OCR engine or the image library inside the sweep are not modelled. The source does not catch them.
- `Images.Crop`: regions have non-negative width and height by type. The face detector reports such regions; the image library rejects a box whose right edge is left of its left edge.
- `Dictionary.JoinPath`: the POSIX form of the path join only. Locating the resources directory from the package's own file path is a parameter.
- Reading the file is one oracle call giving decoded text (universal newlines applied) or a failure reason. Opening, decoding and closing are not modelled separately.
- `convert_pil_image_to_np_array` (pyiof/img_processing/image_processor.py:44-54) only wraps a foreign array conversion.
- `Images.Image`: the datatype itself does not force pixel data to match the size or to lie in 0..255; `Images.WellFormed` states that, and `Images.BinarizeKeepsWellFormed` shows binarization keeps it. The conversion oracle `luma` is consulted only for images not in mode "L": converting an "L" image gives a copy of it, as the image library does.
- Face detection, cascade classifier loading, image file loading and saving, and the MD5 helper are foreign-library glue outside this core.
