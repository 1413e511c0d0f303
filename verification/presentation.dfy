/** `JointPresentationStyle`: a bit set saying whether a joint is shown with
    a rotate handle, a translate handle, or neither, and its text form. */
module Presentation {

  type Style = bv32

  const None: Style := 0
  const Rotate: Style := 1 << 1
  const Translate: Style := 1 << 2

  /** The bits the text form can carry. */
  const Known: Style := Rotate | Translate

  /** NONE is the empty set; ROTATE and TRANSLATE are two distinct single bits. */
  lemma StyleBits()
    ensures None == 0
    ensures Rotate == 2 && Translate == 4
    ensures Rotate & Translate == 0 && Rotate != Translate
  {
  }

  /** `toString`: "r" when the rotate bit is set, then "t" when the translate
      bit is set. */
  function ToString(style: Style): (r: string)
    ensures |r| <= 2
    ensures 'r' in r <==> style & Rotate != 0
    ensures 't' in r <==> style & Translate != 0
    ensures forall i :: 0 <= i < |r| ==> r[i] == 'r' || r[i] == 't'
    ensures style & Known == 0 <==> r == ""
    ensures |r| == (if style & Rotate != 0 then 1 else 0) + (if style & Translate != 0 then 1 else 0)
    ensures style & Rotate != 0 ==> r[0] == 'r'
    ensures style & Translate != 0 ==> r[|r| - 1] == 't'
  {
    (if style & Rotate != 0 then "r" else "") + (if style & Translate != 0 then "t" else "")
  }

  /** `fromString`: a bit is set exactly when its letter occurs anywhere in
      the text; order, repeats and other characters do not matter. */
  function FromString(s: string): (r: Style)
    ensures r & Rotate != 0 <==> 'r' in s
    ensures r & Translate != 0 <==> 't' in s
    ensures r & !Known == 0
  {
    (if 'r' in s then Rotate else None) | (if 't' in s then Translate else None)
  }

  /** Decoding the text form gives back the style, less any unknown bits. */
  lemma FromStringOfToString(style: Style)
    ensures FromString(ToString(style)) == style & Known
  {
  }

  /** Two texts with the same letters present decode alike. */
  lemma FromStringOnlyPresence(a: string, b: string)
    requires ('r' in a <==> 'r' in b) && ('t' in a <==> 't' in b)
    ensures FromString(a) == FromString(b)
  {
  }

  /** Re-encoding a decoded text is canonical: a second round trip changes
      nothing, and "tr" becomes "rt". */
  lemma ToStringOfFromStringCanonical(s: string)
    ensures ToString(FromString(ToString(FromString(s)))) == ToString(FromString(s))
    ensures ToString(FromString("tr")) == "rt"
    ensures ToString(FromString("!t")) == "t"
  {
    FromStringOfToString(FromString(s));
    assert 'r' in "tr" && 't' in "tr";
    assert !('r' in "!t") && 't' in "!t";
  }
}
