/** The text drawn on each slide. */
module Labels {

  import opened Wrappers
  import opened Decimal

  const FallbackPrefix: string := "Image: "

  /** The label of slide `index`: nothing when `imageLabel` is off; otherwise
      the `label` prop (`labelProp`) when it is a non-empty string (JavaScript truthiness),
      and `Image: <index>` when it is empty. */
  function SlideLabel(imageLabel: bool, labelProp: string, index: nat): (r: Option<string>)
    ensures r.Some? <==> imageLabel
    ensures r.Some? && labelProp != "" ==> r.value == labelProp
    ensures r.Some? && labelProp == "" ==> r.value == FallbackPrefix + DecimalString(index)
  {
    if !imageLabel then None
    else if labelProp != "" then Some(labelProp)
    else Some(FallbackPrefix + DecimalString(index))
  }

  /** A fallback label names its slide: the text after `Image: ` is a numeral
      that reads back as the slide's index. */
  lemma FallbackLabelNamesSlide(index: nat)
    ensures var s := SlideLabel(true, "", index).value;
      |s| > |FallbackPrefix| && s[..|FallbackPrefix|] == FallbackPrefix &&
      AllDigits(s[|FallbackPrefix|..]) && ParseDecimal(s[|FallbackPrefix|..]) == index
  {
    var s := SlideLabel(true, "", index).value;
    assert s[|FallbackPrefix|..] == DecimalString(index);
    ParseDecimalString(index);
  }

  /** With the `label` prop (`labelProp`) empty, different slides get different labels;
      with it set, every slide gets the same one. */
  lemma LabelsDistinguishSlides(labelProp: string, i: nat, j: nat)
    ensures labelProp == "" ==> (SlideLabel(true, labelProp, i) == SlideLabel(true, labelProp, j) <==> i == j)
    ensures labelProp != "" ==> SlideLabel(true, labelProp, i) == SlideLabel(true, labelProp, j)
  {
    if labelProp == "" && SlideLabel(true, labelProp, i) == SlideLabel(true, labelProp, j) {
      var a, b := SlideLabel(true, labelProp, i).value, SlideLabel(true, labelProp, j).value;
      assert a[|FallbackPrefix|..] == DecimalString(i);
      assert b[|FallbackPrefix|..] == DecimalString(j);
      DecimalStringInjective(i, j);
    }
  }
}
