/** Title validation and the pre-flight length check (src/lib/task-helpers.ts). */
module TaskHelpers {
  import opened Types
  import opened Text

  /**
   * `isValidTitle`: only the trimmed length matters, and it must lie in
   * `[min, max]`. So a valid title is at least `min` long even untrimmed, and
   * a title of blanks only is never valid when at least one character is
   * required.
   */
  function IsValidTitle(value: string, min: int, max: int): (r: bool)
    ensures r ==> min <= |value| && min <= max
    ensures min > 0 && (forall k :: 0 <= k < |value| ==> IsWhitespace(value[k])) ==> !r
  {
    TrimAllBlank(value);
    var len := |Trim(value)|;
    len >= min && len <= max
  }

  /** Validating a trimmed title gives the same verdict as validating the raw one. */
  lemma IsValidTitleTrim(value: string, min: int, max: int)
    ensures IsValidTitle(Trim(value), min, max) == IsValidTitle(value, min, max)
  {
    TrimIdempotent(value);
  }

  /** A title with no surrounding whitespace is valid exactly when its own length is in range. */
  lemma IsValidTitleUntrimmed(value: string, min: int, max: int)
    requires value == [] || (!IsWhitespace(value[0]) && !IsWhitespace(value[|value| - 1]))
    ensures IsValidTitle(value, min, max) <==> min <= |value| <= max
  {
    assert TrimStart(value) == value;
    assert TrimEnd(value) == value;
  }

  /** JavaScript's `Math.max` on integers. */
  function Max(a: int, b: int): int {
    if a >= b then a else b
  }

  /**
   * `willExceedMax`: the length the input would have after replacing the
   * selection `[start, end)` by `insert` exceeds `max`. A missing start means
   * the end of the text, a missing end means the start (nothing replaced), and
   * a reversed selection replaces nothing.
   */
  function WillExceedMax(current: string, insert: string, selectionStart: Option<int>,
                         selectionEnd: Option<int>, max: int): (r: bool)
    ensures selectionEnd.None? ==> r == (|current| + |insert| > max)
    ensures selectionStart.Some? && selectionEnd.Some? && selectionEnd.value <= selectionStart.value
      ==> r == (|current| + |insert| > max)
    ensures selectionStart.Some? && selectionEnd.Some? && selectionEnd.value > selectionStart.value
      ==> r == (|current| - (selectionEnd.value - selectionStart.value) + |insert| > max)
    ensures selectionStart.None? && selectionEnd.Some? && selectionEnd.value <= |current|
      ==> r == (|current| + |insert| > max)
    ensures selectionStart.None? && selectionEnd.Some? && selectionEnd.value > |current|
      ==> r == (2 * |current| - selectionEnd.value + |insert| > max)
    ensures insert == [] && |current| <= max ==> !r
    ensures r ==> |current| + |insert| > max
  {
    var start := if selectionStart.Some? then selectionStart.value else |current|;
    var end := if selectionEnd.Some? then selectionEnd.value else start;
    var replacing := Max(0, end - start);
    var nextLength := |current| - replacing + |insert|;
    nextLength > max
  }

  /** The two worked cases: appending six characters to "hello" overflows 10, replacing three by one does not. */
  lemma WillExceedMaxExamples()
    ensures WillExceedMax("hello", "!!!!!!", None, None, 10)
    ensures !WillExceedMax("hello", "!", Some(1), Some(4), 10)
  {
  }
}
