/**
 * The OCR processor: scoring a transcription against a dictionary, and the
 * threshold sweep that keeps the best-scoring transcription.
 *
 * The OCR engine is the oracle `ocr` (image to text), the image library's
 * grayscale conversion the oracle `luma`, and the dictionary the set of words
 * the dictionary manager has loaded.
 */
module Ocr {
  import opened Strings
  import opened Images

  /** `(words_in_dict, words_length)`. */
  datatype Accuracy = Accuracy(wordsInDict: nat, wordsLength: nat)

  const NoAccuracy: Accuracy := Accuracy(0, 0)

  /**
   * Python's `>` on pairs: lexicographic, strict. More dictionary words always
   * wins; the counted length only breaks a tie.
   */
  predicate Better(a: Accuracy, b: Accuracy)
    ensures Better(a, b) ==> a != b && a.wordsInDict >= b.wordsInDict
    ensures a.wordsInDict > b.wordsInDict ==> Better(a, b)
  {
    a.wordsInDict > b.wordsInDict || (a.wordsInDict == b.wordsInDict && a.wordsLength > b.wordsLength)
  }

  /**
   * Better is a strict total order: never both ways, one way for any two
   * different accuracies, and transitive, so keeping the better of each pair
   * keeps the best of all.
   */
  lemma BetterIsStrictOrder(a: Accuracy, b: Accuracy, c: Accuracy)
    ensures !(Better(a, b) && Better(b, a))
    ensures a != b ==> Better(a, b) || Better(b, a)
    ensures Better(a, b) && Better(b, c) ==> Better(a, c)
  {
  }

  /** `OCRResult`: the chosen text, its accuracy and the threshold that produced it. */
  datatype OcrResult = OcrResult(text: string, accuracy: Accuracy, threshold: int)

  /** The tokens of `words` that the dictionary holds, in order. */
  function Known(words: seq<string>, dictionary: set<string>): seq<string> {
    if words == [] then []
    else (if words[0] in dictionary then [words[0]] else []) + Known(words[1..], dictionary)
  }

  /**
   * The accuracy of a transcription: how many of its lower-cased
   * whitespace-separated tokens are dictionary words, and their total length.
   */
  function Score(text: string, dictionary: set<string>): Accuracy {
    if text == [] then NoAccuracy
    else
      var known := Known(Split(Lower(text)), dictionary);
      Accuracy(|known|, |Concat(known)|)
  }

  lemma {:induction false} KnownAppend(words: seq<string>, word: string, dictionary: set<string>)
    ensures Known(words + [word], dictionary) == Known(words, dictionary) + (if word in dictionary then [word] else [])
  {
    var tail := if word in dictionary then [word] else [];
    if words == [] {
      assert words + [word] == [word];
      assert Known([word], dictionary) == tail + Known([], dictionary);
    } else {
      var head := if words[0] in dictionary then [words[0]] else [];
      var longer := words + [word];
      assert longer[0] == words[0];
      assert longer[1..] == words[1..] + [word];
      KnownAppend(words[1..], word, dictionary);
      assert Known(longer, dictionary) == head + (Known(words[1..], dictionary) + tail);
      assert Known(words, dictionary) == head + Known(words[1..], dictionary);
    }
  }

  lemma {:induction false} KnownBounds(words: seq<string>, dictionary: set<string>)
    requires forall i :: 0 <= i < |words| ==> IsWord(words[i])
    ensures |Known(words, dictionary)| <= |words|
    ensures |Known(words, dictionary)| <= |Concat(Known(words, dictionary))| <= |Concat(words)|
  {
    if words != [] {
      KnownBounds(words[1..], dictionary);
      var head := if words[0] in dictionary then [words[0]] else [];
      var rest := Known(words[1..], dictionary);
      ConcatAppend(head, rest);
      assert head == [] ==> head + rest == rest;
      assert head != [] ==> (head + rest)[1..] == rest;
    }
  }

  /**
   * The two components are bounded by the text: no more counted words than
   * tokens, each counted word at least one character long, and no more
   * characters counted than the lower-cased text holds. The bound by the
   * original text's length follows because `Lower` keeps the length.
   */
  lemma ScoreBounds(text: string, dictionary: set<string>)
    ensures Score(text, dictionary).wordsInDict <= |Split(Lower(text))|
    ensures Score(text, dictionary).wordsInDict <= Score(text, dictionary).wordsLength <= |Lower(text)|
    ensures Score(text, dictionary).wordsLength <= |text|
  {
    if text != [] {
      var words := Split(Lower(text));
      KnownBounds(words, dictionary);
      SplitLength(Lower(text));
    }
  }

  /** A blank transcription, the empty one included, scores (0, 0) whatever the dictionary. */
  lemma ScoreOfBlank(text: string, dictionary: set<string>)
    requires forall i :: 0 <= i < |text| ==> IsSpace(text[i])
    ensures Score(text, dictionary) == NoAccuracy
  {
    SplitOfBlank(Lower(text));
  }

  /** With an empty dictionary, every transcription scores (0, 0). */
  lemma {:induction false} ScoreWithoutDictionary(text: string)
    ensures Score(text, {}) == NoAccuracy
  {
    KnownNone(Split(Lower(text)));
  }

  lemma {:induction false} KnownNone(words: seq<string>)
    ensures Known(words, {}) == []
  {
    if words != [] {
      KnownNone(words[1..]);
    }
  }

  /** `_calculate_ocr_accuracy`: counts the dictionary words among the tokens, one token at a time. */
  method CalculateOcrAccuracy(text: string, dictionary: set<string>) returns (accuracy: Accuracy)
    ensures accuracy == Score(text, dictionary)
  {
    if text == [] {
      return NoAccuracy;
    }
    var wordsInDict: nat := 0;
    var wordsLength: nat := 0;
    var words := Split(Lower(text));
    for i := 0 to |words|
      invariant wordsInDict == |Known(words[..i], dictionary)|
      invariant wordsLength == |Concat(Known(words[..i], dictionary))|
    {
      var word := words[i];
      if word in dictionary {
        wordsInDict := wordsInDict + 1;
        wordsLength := wordsLength + |word|;
      }
      assert words[..i + 1] == words[..i] + [word];
      KnownAppend(words[..i], word, dictionary);
      ConcatAppend(Known(words[..i], dictionary), if word in dictionary then [word] else []);
    }
    assert words[..|words|] == words;
    accuracy := Accuracy(wordsInDict, wordsLength);
  }

  /** Python's `range(start, stop, step)` for a positive step. */
  function Range(start: int, stop: int, step: int): seq<int>
    requires step > 0
    decreases stop - start
  {
    if start >= stop then [] else [start] + Range(start + step, stop, step)
  }

  /** The binarization thresholds tried: `range(32, 256, 32)`. */
  function Thresholds(): seq<int> {
    Range(32, 256, 32)
  }

  /** The thresholds are 32, 64, ..., 224: seven of them, ascending, each once. */
  lemma ThresholdsAre()
    ensures Thresholds() == [32, 64, 96, 128, 160, 192, 224]
    ensures forall i :: 0 <= i < |Thresholds()| ==> Thresholds()[i] == 32 * (i + 1)
  {
  }

  /**
   * The accumulator before the sweep: empty text, (0, 0), threshold 64. No
   * accuracy is below it, and its threshold is the second one tried, not the
   * first.
   */
  function Initial(): (r: OcrResult)
    ensures r.text == [] && r.accuracy == NoAccuracy
    ensures forall a :: !Better(r.accuracy, a)
    ensures r.threshold == Thresholds()[1] && r.threshold != Thresholds()[0]
  {
    OcrResult("", NoAccuracy, 64)
  }

  /** The transcription obtained at each threshold from one grayscale image. */
  function Transcribe(gray: Image, luma: Image -> seq<int>, ocr: Image -> string): int -> string {
    threshold => ocr(BinarizeImage(gray, threshold, luma))
  }

  /**
   * The accumulator after trying the thresholds `ts` in order: a threshold
   * replaces the kept result only when its score is strictly better.
   */
  function Sweep(ts: seq<int>, textAt: int -> string, dictionary: set<string>): OcrResult
    decreases |ts|
  {
    if ts == [] then Initial()
    else
      var best := Sweep(ts[..|ts| - 1], textAt, dictionary);
      var t := ts[|ts| - 1];
      var accuracy := Score(textAt(t), dictionary);
      if Better(accuracy, best.accuracy) then OcrResult(textAt(t), accuracy, t) else best
  }

  /** `ts[i]` produced `r`, and every threshold before it scored strictly lower. */
  ghost predicate FirstAttains(ts: seq<int>, textAt: int -> string, dictionary: set<string>, r: OcrResult, i: int) {
    && 0 <= i < |ts|
    && r == OcrResult(textAt(ts[i]), Score(textAt(ts[i]), dictionary), ts[i])
    && forall j :: 0 <= j < i ==> Better(r.accuracy, Score(textAt(ts[j]), dictionary))
  }

  /**
   * The sweep returns the maximum: no threshold scores better than the
   * result; a non-zero result comes from the first threshold reaching that
   * score; a zero result is the untouched initial accumulator.
   */
  lemma {:induction false} SweepIsFirstMaximum(ts: seq<int>, textAt: int -> string, dictionary: set<string>)
    ensures forall i :: 0 <= i < |ts| ==> !Better(Score(textAt(ts[i]), dictionary), Sweep(ts, textAt, dictionary).accuracy)
    ensures Sweep(ts, textAt, dictionary).accuracy == NoAccuracy ==> Sweep(ts, textAt, dictionary) == Initial()
    ensures Sweep(ts, textAt, dictionary).accuracy != NoAccuracy ==>
      exists i :: FirstAttains(ts, textAt, dictionary, Sweep(ts, textAt, dictionary), i)
    decreases |ts|
  {
    if ts != [] {
      var ps, t := ts[..|ts| - 1], ts[|ts| - 1];
      SweepIsFirstMaximum(ps, textAt, dictionary);
      var best := Sweep(ps, textAt, dictionary);
      var r := Sweep(ts, textAt, dictionary);
      assert forall i :: 0 <= i < |ps| ==> ts[i] == ps[i];
      if Better(Score(textAt(t), dictionary), best.accuracy) {
        assert FirstAttains(ts, textAt, dictionary, r, |ts| - 1);
      } else if best.accuracy != NoAccuracy {
        var i :| FirstAttains(ps, textAt, dictionary, best, i);
        assert FirstAttains(ts, textAt, dictionary, r, i);
      }
    }
  }

  /**
   * The degenerate case: the result is the initial accumulator (empty text,
   * (0, 0), threshold 64) exactly when every threshold scores (0, 0).
   */
  lemma {:induction false} SweepAllZero(ts: seq<int>, textAt: int -> string, dictionary: set<string>)
    ensures (forall i :: 0 <= i < |ts| ==> Score(textAt(ts[i]), dictionary) == NoAccuracy)
        <==> Sweep(ts, textAt, dictionary) == Initial()
  {
    SweepIsFirstMaximum(ts, textAt, dictionary);
    var r := Sweep(ts, textAt, dictionary);
    if r.accuracy != NoAccuracy {
      var i :| FirstAttains(ts, textAt, dictionary, r, i);
    }
  }

  /** A threshold that scores strictly better than every other one is the one returned, with its text. */
  lemma {:induction false} SweepStrictWinner(ts: seq<int>, textAt: int -> string, dictionary: set<string>, k: int)
    requires 0 <= k < |ts|
    requires Better(Score(textAt(ts[k]), dictionary), NoAccuracy)
    requires forall j :: 0 <= j < |ts| && j != k ==> Better(Score(textAt(ts[k]), dictionary), Score(textAt(ts[j]), dictionary))
    ensures Sweep(ts, textAt, dictionary) == OcrResult(textAt(ts[k]), Score(textAt(ts[k]), dictionary), ts[k])
  {
    SweepIsFirstMaximum(ts, textAt, dictionary);
    var r := Sweep(ts, textAt, dictionary);
    var i :| FirstAttains(ts, textAt, dictionary, r, i);
    assert i == k;
  }

  /** When every threshold yields the same text with a non-zero score, the first threshold wins. */
  lemma {:induction false} SweepSameText(ts: seq<int>, textAt: int -> string, dictionary: set<string>, text: string)
    requires |ts| > 0
    requires forall i :: 0 <= i < |ts| ==> textAt(ts[i]) == text
    requires Score(text, dictionary) != NoAccuracy
    ensures Sweep(ts, textAt, dictionary) == OcrResult(text, Score(text, dictionary), ts[0])
  {
    SweepIsFirstMaximum(ts, textAt, dictionary);
    var r := Sweep(ts, textAt, dictionary);
    assert !Better(Score(textAt(ts[0]), dictionary), r.accuracy);
    var i :| FirstAttains(ts, textAt, dictionary, r, i);
    assert i == 0;
  }

  /**
   * What the sweep over `range(32, 256, 32)` returns: no threshold scores
   * better than the result; a non-zero result is the transcription at its
   * threshold, and every smaller threshold scored strictly lower; a zero
   * result is the initial accumulator, with threshold 64.
   */
  lemma {:induction false} ThresholdSweepIsFirstMaximum(textAt: int -> string, dictionary: set<string>)
    ensures var result := Sweep(Thresholds(), textAt, dictionary);
      forall t :: t in Thresholds() ==> !Better(Score(textAt(t), dictionary), result.accuracy)
    ensures var result := Sweep(Thresholds(), textAt, dictionary);
      result.accuracy != NoAccuracy ==>
        && result.threshold in Thresholds()
        && result.text == textAt(result.threshold)
        && result.accuracy == Score(result.text, dictionary)
        && forall t :: t in Thresholds() && t < result.threshold ==> Better(result.accuracy, Score(textAt(t), dictionary))
    ensures var result := Sweep(Thresholds(), textAt, dictionary);
      result.accuracy == NoAccuracy ==> result == OcrResult("", NoAccuracy, 64)
  {
    var thresholds := Thresholds();
    var result := Sweep(thresholds, textAt, dictionary);
    SweepIsFirstMaximum(thresholds, textAt, dictionary);
    ThresholdsAre();
    if result.accuracy != NoAccuracy {
      var k :| FirstAttains(thresholds, textAt, dictionary, result, k);
      forall t | t in thresholds && t < result.threshold
        ensures Better(result.accuracy, Score(textAt(t), dictionary))
      {
        var j :| 0 <= j < |thresholds| && thresholds[j] == t;
        assert j < k;
      }
    }
  }

  /**
   * `extract_text`: converts to grayscale once, then binarizes, transcribes
   * and scores at each threshold in ascending order, keeping a result only
   * when it scores strictly better than the one kept so far.
   */
  method ExtractText(image: Image, dictionary: set<string>, luma: Image -> seq<int>, ocr: Image -> string)
    returns (result: OcrResult)
    ensures result == Sweep(Thresholds(), Transcribe(GrayscaleImage(image, luma), luma, ocr), dictionary)
  {
    var bestAccuracy := NoAccuracy;
    var bestThreshold := 64;
    var text := "";

    var grayscaleImg := GrayscaleImage(image, luma);
    ghost var textAt := Transcribe(grayscaleImg, luma, ocr);

    var thresholds := Thresholds();
    for i := 0 to |thresholds|
      invariant OcrResult(text, bestAccuracy, bestThreshold) == Sweep(thresholds[..i], textAt, dictionary)
    {
      var threshold := thresholds[i];
      var binarizedImg := BinarizeImage(grayscaleImg, threshold, luma);
      var ocrText := ocr(binarizedImg);
      var ocrAccuracy := CalculateOcrAccuracy(ocrText, dictionary);

      if Better(ocrAccuracy, bestAccuracy) {
        bestAccuracy := ocrAccuracy;
        bestThreshold := threshold;
        text := ocrText;
      }
      assert thresholds[..i + 1][..i] == thresholds[..i];
    }
    assert thresholds[..|thresholds|] == thresholds;
    result := OcrResult(text, bestAccuracy, bestThreshold);
  }
}
