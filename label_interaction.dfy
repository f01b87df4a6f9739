/**
 * `UILabelInteractionManager`: styles the listed "interactable" substrings
 * of a label's text and, on a tap, calls back with the first listed string
 * whose range holds the tapped character. The tap geometry (layout manager,
 * text container, touch point) is abstracted to the character index it
 * yields. Text is a sequence of characters; UTF-16 units and grapheme
 * clusters are not distinguished.
 */
module LabelInteraction {
  import opened Wrappers

  /** `NSNotFound` on a 64-bit platform (`NSIntegerMax`). */
  const NSNotFound: nat := 0x7FFF_FFFF_FFFF_FFFF

  datatype NSRange = NSRange(location: nat, length: nat)

  /** `NSLocationInRange(loc, range)`. */
  predicate NSLocationInRange(loc: nat, range: NSRange) {
    loc >= range.location && loc - range.location < range.length
  }

  /** Containment is `location <= loc < location + length`; an empty range holds nothing. */
  lemma NSLocationInRangeMeaning(loc: nat, range: NSRange)
    ensures NSLocationInRange(loc, range) <==> range.location <= loc < range.location + range.length
    ensures range.length == 0 ==> !NSLocationInRange(loc, range)
  {
  }

  predicate OccursAt(text: string, s: string, i: nat) {
    i + |s| <= |text| && text[i..i + |s|] == s
  }

  /** Whether `range(of:)` finds `s`: it never finds the empty string. */
  predicate Occurs(text: string, s: string) {
    s != [] && exists i :: 0 <= i <= |text| && OccursAt(text, s, i)
  }

  /** The first position at or after `from` where `s` occurs. */
  function FirstOccurrence(text: string, s: string, from: nat): (r: Option<nat>)
    requires from <= |text|
    ensures r.Some? ==> from <= r.value <= |text| && OccursAt(text, s, r.value)
    ensures r.Some? ==> forall j :: from <= j < r.value ==> !OccursAt(text, s, j)
    ensures r.None? ==> forall j :: from <= j <= |text| ==> !OccursAt(text, s, j)
    decreases |text| - from
  {
    if OccursAt(text, s, from) then Some(from)
    else if from == |text| then None
    else FirstOccurrence(text, s, from + 1)
  }

  /**
   * `(text as NSString).range(of: s)`: the first occurrence, or
   * `{NSNotFound, 0}` when `s` is empty or does not occur.
   */
  function RangeOf(text: string, s: string): (r: NSRange)
    ensures Occurs(text, s) ==>
              && r.length == |s|
              && OccursAt(text, s, r.location)
              && forall j :: 0 <= j < r.location ==> !OccursAt(text, s, j)
    ensures !Occurs(text, s) ==> r == NSRange(NSNotFound, 0)
  {
    if s == [] then NSRange(NSNotFound, 0)
    else match FirstOccurrence(text, s, 0)
      case Some(i) => NSRange(i, |s|)
      case None => NSRange(NSNotFound, 0)
  }

  /** Whether a tap on character `index` falls in the range of `s`. */
  predicate Hits(text: string, s: string, index: nat) {
    NSLocationInRange(index, RangeOf(text, s))
  }

  /**
   * A string is hit exactly when it occurs and the index lies in its first
   * occurrence; a string that does not occur (or is empty) is never hit.
   */
  lemma HitsMeaning(text: string, s: string, index: nat)
    ensures !Occurs(text, s) ==> !Hits(text, s, index)
    ensures Hits(text, s, index) <==>
              Occurs(text, s) && RangeOf(text, s).location <= index < RangeOf(text, s).location + |s|
    ensures Hits(text, s, index) ==> index < |text|
  {
  }

  /**
   * The search of `tapLabel`: `interactableStrings.first(where:)` with the
   * hit test as predicate. Gives the position of the string to call back with.
   */
  method FirstHit(text: string, strings: seq<string>, index: nat) returns (hit: Option<nat>)
    ensures hit.Some? ==> hit.value < |strings| && Hits(text, strings[hit.value], index)
    ensures hit.Some? ==> forall j :: 0 <= j < hit.value ==> !Hits(text, strings[j], index)
    ensures hit.None? ==> forall j :: 0 <= j < |strings| ==> !Hits(text, strings[j], index)
  {
    var i := 0;
    while i < |strings|
      invariant 0 <= i <= |strings|
      invariant forall j :: 0 <= j < i ==> !Hits(text, strings[j], index)
    {
      if Hits(text, strings[i], index) {
        return Some(i);
      }
      i := i + 1;
    }
    return None;
  }

  // ---------------------------------------------------------------------
  // Styling
  // ---------------------------------------------------------------------

  datatype FontChoice = NormalFont | InteractableFont
  datatype ColorChoice = NormalColor | InteractableColor

  /**
   * The attributes of one character of the attributed text. The paragraph
   * style (line spacing, alignment) is the same on every character and is
   * not represented.
   */
  datatype CharAttributes = CharAttributes(font: FontChoice, color: ColorChoice, underlined: bool)

  const Plain: CharAttributes := CharAttributes(NormalFont, NormalColor, false)

  function Highlight(underline: bool): CharAttributes {
    CharAttributes(InteractableFont, InteractableColor, underline)
  }

  /** `NSMutableAttributedString(string:attributes:)` with the normal font and colour. */
  function PlainText(text: string): (attrs: seq<CharAttributes>)
    ensures |attrs| == |text| && forall k :: 0 <= k < |attrs| ==> attrs[k] == Plain
  {
    seq(|text|, _ => Plain)
  }

  /**
   * The `addAttribute` calls for one range: interactable font and colour,
   * and the single underline when `underline` is set. `addAttribute` raises
   * a range exception (None here) when the range runs past the end.
   */
  function AddInteractable(attrs: seq<CharAttributes>, range: NSRange, underline: bool): Option<seq<CharAttributes>> {
    if range.location + range.length > |attrs| then None
    else Some(seq(|attrs|, k requires 0 <= k < |attrs| =>
      if NSLocationInRange(k, range)
      then CharAttributes(InteractableFont, InteractableColor, underline || attrs[k].underlined)
      else attrs[k]))
  }

  /** The attributed text after the first `n` listed strings were styled, as written. */
  function StylePrefix(text: string, strings: seq<string>, n: nat, underline: bool): Option<seq<CharAttributes>>
    requires n <= |strings|
  {
    if n == 0 then Some(PlainText(text))
    else match StylePrefix(text, strings, n - 1, underline)
      case None => None
      case Some(attrs) => AddInteractable(attrs, RangeOf(text, strings[n - 1]), underline)
  }

  /** Whether character `k` lies in the range of one of the first `n` listed strings. */
  predicate Covered(text: string, strings: seq<string>, n: nat, k: nat)
    requires n <= |strings|
  {
    exists j :: 0 <= j < n && NSLocationInRange(k, RangeOf(text, strings[j]))
  }

  /** Covering by the first `n` strings is covering by the first `n - 1` or by the `n`-th. */
  lemma CoveredStep(text: string, strings: seq<string>, n: nat, k: nat)
    requires 0 < n <= |strings|
    ensures Covered(text, strings, n, k)
            <==> Covered(text, strings, n - 1, k) || NSLocationInRange(k, RangeOf(text, strings[n - 1]))
  {
  }

  /**
   * What `refreshLabel` builds, as written: it raises as soon as a listed
   * string does not occur in the text; otherwise the first occurrence of
   * every listed string is highlighted and everything else is plain.
   */
  lemma {:induction false} StylePrefixMeaning(text: string, strings: seq<string>, n: nat, underline: bool)
    requires n <= |strings|
    requires |text| < NSNotFound
    ensures StylePrefix(text, strings, n, underline).Some? <==> forall j :: 0 <= j < n ==> Occurs(text, strings[j])
    ensures StylePrefix(text, strings, n, underline).Some? ==>
              var attrs := StylePrefix(text, strings, n, underline).value;
              && |attrs| == |text|
              && forall k :: 0 <= k < |text| ==>
                   attrs[k] == if Covered(text, strings, n, k) then Highlight(underline) else Plain
  {
    if n > 0 {
      StylePrefixMeaning(text, strings, n - 1, underline);
      var s := strings[n - 1];
      var range := RangeOf(text, s);
      if StylePrefix(text, strings, n - 1, underline).Some? {
        var before := StylePrefix(text, strings, n - 1, underline).value;
        if Occurs(text, s) {
          assert range.location + range.length <= |text|;
          var after := StylePrefix(text, strings, n, underline).value;
          forall k | 0 <= k < |text|
            ensures after[k] == if Covered(text, strings, n, k) then Highlight(underline) else Plain
          {
            CoveredStep(text, strings, n, k);
          }
        } else {
          assert range.location + range.length > |before|;
        }
      }
    }
  }

  /** The whole styling loop of `refreshLabel`, as written. */
  method StyleText(text: string, strings: seq<string>, underline: bool) returns (r: Option<seq<CharAttributes>>)
    ensures r == StylePrefix(text, strings, |strings|, underline)
  {
    var attrs := PlainText(text);
    for i := 0 to |strings|
      invariant StylePrefix(text, strings, i, underline) == Some(attrs)
    {
      var next := AddInteractable(attrs, RangeOf(text, strings[i]), underline);
      assert StylePrefix(text, strings, i + 1, underline) == next;
      if next.None? {
        // NSRangeException; it is never caught, so nothing else runs
        NoneSticks(text, strings, i + 1, |strings|, underline);
        return None;
      }
      attrs := next.value;
    }
    return Some(attrs);
  }

  lemma {:induction false} NoneSticks(text: string, strings: seq<string>, m: nat, n: nat, underline: bool)
    requires m <= n <= |strings|
    requires StylePrefix(text, strings, m, underline) == None
    ensures StylePrefix(text, strings, n, underline) == None
    decreases n - m
  {
    if m < n {
      NoneSticks(text, strings, m + 1, n, underline);
    }
  }

  /**
   * Styling that skips strings `range(of:)` did not find, instead of
   * handing their `{NSNotFound, 0}` range to `addAttribute`.
   */
  function StyleSkippingMissing(text: string, strings: seq<string>, n: nat, underline: bool): (attrs: seq<CharAttributes>)
    requires n <= |strings|
    ensures |attrs| == |text|
  {
    if n == 0 then PlainText(text)
    else
      var before := StyleSkippingMissing(text, strings, n - 1, underline);
      var range := RangeOf(text, strings[n - 1]);
      if range.location + range.length > |before| then before
      else AddInteractable(before, range, underline).value
  }

  /**
   * The corrected styling never fails, highlights exactly the first
   * occurrences of the listed strings that occur, and agrees with the code
   * as written whenever that does not raise.
   */
  lemma {:induction false} StyleSkippingMissingMeaning(text: string, strings: seq<string>, n: nat, underline: bool)
    requires n <= |strings|
    requires |text| < NSNotFound
    ensures forall k :: 0 <= k < |text| ==>
              StyleSkippingMissing(text, strings, n, underline)[k]
              == if Covered(text, strings, n, k) then Highlight(underline) else Plain
    ensures StylePrefix(text, strings, n, underline).Some? ==>
              StylePrefix(text, strings, n, underline).value == StyleSkippingMissing(text, strings, n, underline)
  {
    var after := StyleSkippingMissing(text, strings, n, underline);
    if n > 0 {
      StyleSkippingMissingMeaning(text, strings, n - 1, underline);
      var range := RangeOf(text, strings[n - 1]);
      assert range.location + range.length > |text| ==> range.length == 0;
      forall k | 0 <= k < |text|
        ensures after[k] == if Covered(text, strings, n, k) then Highlight(underline) else Plain
      {
        CoveredStep(text, strings, n, k);
      }
    }
    if StylePrefix(text, strings, n, underline).Some? {
      StylePrefixMeaning(text, strings, n, underline);
      var written := StylePrefix(text, strings, n, underline).value;
      assert |written| == |after|;
      assert forall k :: 0 <= k < |text| ==> written[k] == after[k];
    }
  }

  /** The input that shows `refreshLabel` raising: a listed string missing from the text. */
  lemma RefreshRaisesOnMissingString()
    ensures StylePrefix("Hello", ["World"], 1, false) == None
  {
    var text, s := "Hello", "World";
    assert text[0..|s|][0] != s[0];
    assert !Occurs(text, s) by {
      forall i | 0 <= i <= |text| ensures !OccursAt(text, s, i) {}
    }
  }

  // ---------------------------------------------------------------------
  // The label and the manager
  // ---------------------------------------------------------------------

  datatype LineBreakMode =
    | ByWordWrapping | ByCharWrapping | ByClipping
    | ByTruncatingHead | ByTruncatingTail | ByTruncatingMiddle

  /** The parts of a `UILabel` the manager reads and writes. */
  class Label {
    var lineBreakMode: LineBreakMode
    var text: Option<string>
    var attributedText: Option<seq<CharAttributes>>
    var isUserInteractionEnabled: bool

    constructor (lineBreakMode: LineBreakMode, text: Option<string>)
      ensures this.lineBreakMode == lineBreakMode && this.text == text
      ensures attributedText == None && !isUserInteractionEnabled
    {
      this.lineBreakMode := lineBreakMode;
      this.text := text;
      attributedText := None;
      isUserInteractionEnabled := false;
    }
  }

  class InteractionManager {
    const uiLabel: Label
    const text: string
    const interactableUnderline: bool
    const interactableStrings: seq<string>
    /** The strings `interactionCallback` was called with, in order. */
    var callbacks: seq<string>
    /** How many times `refreshLabel` ran. */
    ghost var refreshes: nat
    /** A refresh raised an uncaught exception: the process has ended and nothing more runs. */
    var terminated: bool

    /**
     * `init(withLabel:text:...)`: refreshes the label once and then enables
     * user interaction on it (unless the refresh raised, which ends the app).
     */
    constructor (uiLabel: Label, text: string, interactableUnderline: bool, interactableStrings: seq<string>)
      modifies uiLabel
      ensures this.uiLabel == uiLabel && this.text == text
      ensures this.interactableUnderline == interactableUnderline
      ensures this.interactableStrings == interactableStrings
      ensures callbacks == [] && refreshes == 1
      ensures uiLabel.lineBreakMode == ByWordWrapping
      ensures var styled := StylePrefix(text, interactableStrings, |interactableStrings|, interactableUnderline);
              && terminated == styled.None?
              && (styled.Some? ==>
                    uiLabel.attributedText == styled && uiLabel.text == Some(text) && uiLabel.isUserInteractionEnabled)
    {
      this.uiLabel := uiLabel;
      this.text := text;
      this.interactableUnderline := interactableUnderline;
      this.interactableStrings := interactableStrings;
      callbacks := [];
      refreshes := 0;
      terminated := false;
      new;
      RefreshLabel();
      if !terminated {
        uiLabel.isUserInteractionEnabled := true;
      }
    }

    /**
     * `refreshLabel()`: forces word wrapping, then sets the styled text, or
     * raises (and sets nothing more) when a listed string is not found; the
     * exception is never caught, so the process ends and `terminated` is set.
     * The result depends only on the manager's constants, so a second call
     * leaves the label as the first one did.
     */
    method RefreshLabel()
      requires !terminated
      modifies uiLabel, this`refreshes, this`terminated
      ensures refreshes == old(refreshes) + 1
      ensures uiLabel.lineBreakMode == ByWordWrapping
      ensures uiLabel.isUserInteractionEnabled == old(uiLabel.isUserInteractionEnabled)
      ensures var styled := StylePrefix(text, interactableStrings, |interactableStrings|, interactableUnderline);
              && terminated == styled.None?
              && (styled.Some? ==> uiLabel.attributedText == styled && uiLabel.text == Some(text))
              && (styled.None? ==> uiLabel.attributedText == old(uiLabel.attributedText) && uiLabel.text == old(uiLabel.text))
    {
      refreshes := refreshes + 1;
      if uiLabel.lineBreakMode != ByWordWrapping {
        uiLabel.lineBreakMode := ByWordWrapping;
      }
      var styled := StyleText(text, interactableStrings, interactableUnderline);
      if styled.None? {
        terminated := true;
        return;
      }
      uiLabel.attributedText := styled;
      uiLabel.text := Some(text);
    }

    /**
     * `tapLabel(gesture:)`, with the tapped character index given. At most
     * one callback, with the first listed string whose range holds the index;
     * none when the label has no text.
     */
    method TapLabel(index: nat)
      requires !terminated
      modifies this`callbacks
      ensures uiLabel.text.None? ==> callbacks == old(callbacks)
      ensures |callbacks| <= |old(callbacks)| + 1
      ensures uiLabel.text.Some? ==>
                var t := uiLabel.text.value;
                if exists j :: 0 <= j < |interactableStrings| && Hits(t, interactableStrings[j], index)
                then exists j ::
                       && 0 <= j < |interactableStrings|
                       && Hits(t, interactableStrings[j], index)
                       && (forall i :: 0 <= i < j ==> !Hits(t, interactableStrings[i], index))
                       && callbacks == old(callbacks) + [interactableStrings[j]]
                else callbacks == old(callbacks)
    {
      if uiLabel.text.Some? {
        var hit := FirstHit(uiLabel.text.value, interactableStrings, index);
        if hit.Some? {
          callbacks := callbacks + [interactableStrings[hit.value]];
        }
      }
    }
  }
}
