/** The two watermark switches of the certificate design form
    (components/certificate/CertificateDesignForm.tsx).  The record has one flag,
    `enableWatermark`, and one text; the line watermark is switched off by writing the marker
    `LINE_DISABLED` into the text, and the text watermark by emptying the rest of it. */
module CertificateDesign {
  import opened Js

  const Marker := "LINE_DISABLED"
  const DefaultText := "OFFICIAL DOCUMENT"

  /** The text carries the marker somewhere. */
  predicate LineDisabled(text: string)
  {
    Includes(text, Marker)
  }

  /** `checked` of the line switch; the preview's `showLineWatermark` is the same test. */
  predicate LineOn(enableWatermark: bool, text: string)
  {
    enableWatermark && !LineDisabled(text)
  }

  /** `/^\s*LINE_DISABLED\s*$/`: the marker with nothing but whitespace around it. */
  predicate MarkerOnly(text: string)
  {
    exists i :: 0 <= i && i + |Marker| <= |text| && OccursAt(text, Marker, i)
                && SpaceOutside(text, i, i + |Marker|)
  }

  /** `checked` of the text switch: some text, and not the marker alone. */
  predicate TextOn(text: string)
  {
    text != "" && !MarkerOnly(text)
  }

  /** The watermark words as the text box and the preview show them: the text without its
      first marker, trimmed. */
  function Visible(text: string): (r: string)
    ensures NoEdgeSpace(r)
    ensures !LineDisabled(text) ==> r == Trim(text)
  {
    Trim(ReplaceFirst(text, Marker, ""))
  }

  // ---------------------------------------------------------------------------
  // Facts about the marker.

  lemma MarkerShape()
    ensures |Marker| == 13 && NoEdgeSpace(Marker)
    ensures forall k :: 0 <= k < |Marker| ==> !IsSpace(Marker[k])
    ensures OccursAt(Marker, Marker, 0)
  {
  }

  /** The regular expression matches exactly the texts that trim to the marker. */
  lemma MarkerOnlyIsTrim(text: string)
    ensures MarkerOnly(text) <==> Trim(text) == Marker
  {
    MarkerShape();
    if MarkerOnly(text) {
      var i :| 0 <= i && i + |Marker| <= |text| && OccursAt(text, Marker, i)
               && SpaceOutside(text, i, i + |Marker|);
      TrimUnique(text, i, Marker);
    }
    if Trim(text) == Marker {
      var i := TrimSpaceOutside(text);
      assert OccursAt(text, Marker, i);
    }
  }

  /** Where a word without edge whitespace occurs, trimming cuts neither into it nor past it. */
  lemma TrimAround(s: string, p: string, j: int) returns (i: nat)
    requires p != [] && NoEdgeSpace(p) && OccursAt(s, p, j)
    ensures i + |Trim(s)| <= |s| && s[i..i + |Trim(s)|] == Trim(s)
    ensures i <= j && j + |p| <= i + |Trim(s)|
  {
    i := TrimSpaceOutside(s);
    assert s[j] == s[j..j + |p|][0] && s[j + |p| - 1] == s[j..j + |p|][|p| - 1];
  }

  /** Trimming keeps every occurrence of a word that has no whitespace at its ends. */
  lemma TrimKeepsOccurrence(s: string, p: string, j: int)
    requires p != [] && NoEdgeSpace(p) && OccursAt(s, p, j)
    ensures Includes(Trim(s), p)
  {
    var i := TrimAround(s, p, j);
    OccurrenceInInfix(s, Trim(s), i, p, j - i);
  }

  /** An occurrence in the trimmed text is an occurrence in the text. */
  lemma TrimKeepsAbsence(s: string, p: string)
    requires !Includes(s, p)
    ensures !Includes(Trim(s), p)
  {
    var t := Trim(s);
    var i := TrimSpaceOutside(s);
    if Includes(t, p) {
      var j :| OccursAt(t, p, j);
      OccurrenceInInfix(s, t, i, p, j);
    }
  }

  /** Removing the first marker of `a + " LINE_DISABLED"` when `a` has none leaves `a + " "`. */
  lemma StripAppendedMarker(a: string)
    requires !LineDisabled(a)
    ensures ReplaceFirst(a + " " + Marker, Marker, "") == a + " "
  {
    MarkerShape();
    var s := a + " " + Marker;
    var p := |a| + 1;
    assert s[p..p + |Marker|] == Marker;
    forall j | 0 <= j < p ensures !OccursAt(s, Marker, j) {
      if j + |Marker| <= |a| {
        OccurrenceInInfix(s, a, 0, Marker, j);
        assert !OccursAt(a, Marker, j);
      } else if j + |Marker| <= |s| {
        assert s[j..j + |Marker|] != Marker by {
          assert s[j..j + |Marker|][|a| - j] == ' ';
        }
      }
    }
    assert FirstOccurrence(s, Marker, p);
    assert s[..p] == a + " " && s[p + |Marker|..] == [];
  }

  /** The marker appended to a text survives trimming. */
  lemma AppendedMarkerDisables(a: string)
    ensures LineDisabled(Trim(a + " " + Marker))
  {
    MarkerShape();
    var s := a + " " + Marker;
    assert s[|a| + 1..|a| + 1 + |Marker|] == Marker;
    TrimKeepsOccurrence(s, Marker, |a| + 1);
  }

  /** A text that does not trim to the marker is not the marker alone. */
  lemma NotMarkerOnly(s: string)
    requires Trim(s) != Marker
    ensures !MarkerOnly(s)
  {
    MarkerOnlyIsTrim(s);
  }

  /** A word without edge whitespace, a blank and the marker: its own trim, longer than the
      marker. */
  lemma MarkedWordTrim(w: string)
    requires w != [] && NoEdgeSpace(w)
    ensures Trim(w + " " + Marker) == w + " " + Marker != Marker
  {
    var s := w + " " + Marker;
    assert s[|s| - 1] == 'D';
    TrimOfNoEdgeSpace(s);
  }

  /** The marker appended after a blank is an occurrence of it. */
  lemma AppendedMarkerAt(a: string)
    ensures OccursAt(a + " " + Marker, Marker, |a| + 1)
    ensures LineDisabled(a + " " + Marker)
  {
    var s := a + " " + Marker;
    assert s[|a| + 1..|a| + 1 + |Marker|] == Marker;
    assert OccursAt(s, Marker, |a| + 1);
  }

  /** `a + " " + Marker` read as `a` followed by the tail " LINE_DISABLED". */
  lemma MarkedTail(a: string)
    ensures a + " " + Marker == a + (" " + Marker)
    ensures (" " + Marker) != [] && !IsSpace((" " + Marker)[|Marker|])
  {
  }

  /** A word without edge whitespace, followed by a blank and the marker, is its own trim and
      is not the marker alone. */
  lemma MarkedWordIsText(w: string)
    requires w != [] && NoEdgeSpace(w)
    ensures TextOn(w + " " + Marker) && LineDisabled(w + " " + Marker)
  {
    MarkedWordTrim(w);
    NotMarkerOnly(w + " " + Marker);
    AppendedMarkerAt(w);
  }

  /** A word without edge whitespace and without the marker is its own trim and not the
      marker alone. */
  lemma PlainWordIsText(w: string)
    requires w != [] && NoEdgeSpace(w) && !LineDisabled(w)
    ensures TextOn(w)
  {
    MarkerShape();
    TrimOfNoEdgeSpace(w);
    MarkerOnlyIsTrim(w);
    assert OccursAt(Marker, Marker, 0);
  }

  lemma DefaultTextShape()
    ensures DefaultText != [] && NoEdgeSpace(DefaultText) && !LineDisabled(DefaultText)
  {
    MarkerShape();
    forall j ensures !OccursAt(DefaultText, Marker, j) {

    }
  }

  // ---------------------------------------------------------------------------
  // The switches and the text box.

  /** The line switch's `onCheckedChange`: on removes the first marker and trims, off appends
      " LINE_DISABLED" and trims. */
  function ToggleLine(text: string, checked: bool): (r: string)
    ensures !checked ==> LineDisabled(r) && !LineOn(true, r)
    ensures checked && !LineDisabled(text) ==> r == Trim(text)
  {
    if checked then Visible(text)
    else
      AppendedMarkerDisables(text);
      Trim(text + " " + Marker)
  }

  /** The marker appended to a marker-free text is the one the line switch removes. */
  lemma UnmarkAppended(a: string)
    ensures !LineDisabled(a) ==> LineDisabled(a + " " + Marker) && Visible(a + " " + Marker) == Trim(a)
  {
    if LineDisabled(a) {
      return;
    }
    MarkerShape();
    var s := a + " " + Marker;
    assert s[|a| + 1..|a| + 1 + |Marker|] == Marker;
    assert OccursAt(s, Marker, |a| + 1);
    StripAppendedMarker(a);
    TrimTrailingBlank(a);
  }

  /** Switching the line off a whitespace-only text leaves the marker alone. */
  lemma OffOfBlank(t: string)
    requires Trim(t) == []
    ensures Trim(t + " " + Marker) == Marker
  {
    MarkerShape();
    var i := TrimSpaceOutside(t);
    var s := t + " " + Marker;
    assert s[|t| + 1..|t| + 1 + |Marker|] == Marker;
    assert forall k :: 0 <= k < |t| ==> s[k] == t[k];
    TrimUnique(s, |t| + 1, Marker);
  }

  /** Switching the line off a text with words keeps the text from its first word on, then the
      marker. */
  lemma OffOfWords(t: string) returns (a: string)
    requires Trim(t) != [] && !LineDisabled(t)
    ensures Trim(t + " " + Marker) == a + " " + Marker
    ensures Trim(a) == Trim(t) && !LineDisabled(a)
  {
    MarkedTail(t);
    a := TrimBeforeTail(t, " " + Marker);
    MarkedTail(a);
    SuffixKeepsAbsence(t, a);
  }

  /** A suffix of a marker-free text is marker-free. */
  lemma SuffixKeepsAbsence(t: string, a: string)
    requires !LineDisabled(t) && |a| <= |t| && a == t[|t| - |a|..]
    ensures !LineDisabled(a)
  {
    if LineDisabled(a) {
      var j :| OccursAt(a, Marker, j);
      OccurrenceInInfix(t, a, |t| - |a|, Marker, j);
    }
  }

  /** The line switch turned on at the marker alone leaves nothing. */
  lemma VisibleOfMarker()
    ensures Visible(Marker) == ""
  {
    MarkerShape();
    assert FirstOccurrence(Marker, Marker, 0);
    assert ReplaceFirst(Marker, Marker, "") == "";
  }

  /** Switching the line off and on again gives back the trimmed text, when the text had no
      marker to begin with. */
  lemma LineOffOn(t: string)
    requires !LineDisabled(t)
    ensures ToggleLine(ToggleLine(t, false), true) == Trim(t)
  {
    var u := ToggleLine(t, false);
    assert u == Trim(t + " " + Marker);
    if Trim(t) == [] {
      OffOfBlank(t);
      VisibleOfMarker();
    } else {
      var a := OffOfWords(t);
      UnmarkAppended(a);
    }
  }

  /** Switching the line on removes one marker only: a text with a second marker after the
      first stays line-disabled. */
  lemma SecondMarkerStays(text: string, i: int, j: int)
    requires FirstOccurrence(text, Marker, i) && OccursAt(text, Marker, j) && i + |Marker| <= j
    ensures LineDisabled(ToggleLine(text, true))
  {
    MarkerShape();
    var s := ReplaceFirst(text, Marker, "");
    assert s == text[..i] + "" + text[i + |Marker|..];
    assert text[..i] + "" == text[..i];
    OccurrenceAfterCut(text, Marker, i, j);
    TrimKeepsOccurrence(s, Marker, j - |Marker|);
    assert ToggleLine(text, true) == Trim(s);
  }

  /** The text switch's `onCheckedChange`.  On: the visible words, or "OFFICIAL DOCUMENT" when
      there are none, with the marker put back when it was there.  Off: only the marker, when it
      was there. */
  function ToggleText(text: string, checked: bool): (r: string)
    ensures LineDisabled(r) <==> LineDisabled(text)
    ensures TextOn(r) <==> checked
    ensures checked && !LineDisabled(Visible(text)) ==> Visible(r) == OrElse(Visible(text), DefaultText)
  {
    var lineDisabled := LineDisabled(text);
    if checked then
      var words := OrElse(Visible(text), DefaultText);
      if lineDisabled then
        MarkedWords(text, words);
        words + " " + Marker
      else
        PlainWords(text, words);
        words
    else
      TextOff();
      if lineDisabled then Marker else ""
  }

  /** The words the text switch turns on with are never empty and have no edge whitespace;
      they carry no marker when the text carried none. */
  lemma TextWords(text: string, words: string)
    requires words == OrElse(Visible(text), DefaultText)
    ensures words != [] && NoEdgeSpace(words)
    ensures !LineDisabled(text) ==> !LineDisabled(words)
    ensures !LineDisabled(Visible(text)) ==> !LineDisabled(words)
  {
    DefaultTextShape();
    if !LineDisabled(text) {
      TrimKeepsAbsence(text, Marker);
    }
  }

  /** The text switch turned on over a marked text. */
  lemma MarkedWords(text: string, words: string)
    requires LineDisabled(text) && words == OrElse(Visible(text), DefaultText)
    ensures LineDisabled(words + " " + Marker) && TextOn(words + " " + Marker)
    ensures !LineDisabled(Visible(text)) ==> Visible(words + " " + Marker) == words
  {
    TextWords(text, words);
    TextOnMarked(words);
  }

  /** The text switch turned on over an unmarked text. */
  lemma PlainWords(text: string, words: string)
    requires !LineDisabled(text) && words == OrElse(Visible(text), DefaultText)
    ensures !LineDisabled(words) && TextOn(words) && Visible(words) == words
  {
    TextWords(text, words);
    TextOnPlain(words);
  }

  /** Switching the text on with the marker present: the words, a blank and the marker. */
  lemma TextOnMarked(words: string)
    requires words != [] && NoEdgeSpace(words)
    ensures LineDisabled(words + " " + Marker) && TextOn(words + " " + Marker)
    ensures !LineDisabled(words) ==> Visible(words + " " + Marker) == words
  {
    MarkedWordIsText(words);
    UnmarkAppended(words);
    TrimOfNoEdgeSpace(words);
  }

  /** Switching the text on without the marker: the words alone. */
  lemma TextOnPlain(words: string)
    requires words != [] && NoEdgeSpace(words) && !LineDisabled(words)
    ensures TextOn(words) && Visible(words) == words
  {
    PlainWordIsText(words);
    TrimOfNoEdgeSpace(words);
  }

  /** Switching the text off: the marker alone is marked and not text; "" is neither. */
  lemma TextOff()
    ensures LineDisabled(Marker) && !TextOn(Marker)
    ensures !LineDisabled("") && !TextOn("")
  {
    assert OccursAt(Marker, Marker, 0) && SpaceOutside(Marker, 0, |Marker|);
    assert MarkerOnly(Marker);
  }

  /** The text box's `onChange`: the typed words, with " LINE_DISABLED" appended when the
      marker was there. */
  function EditText(text: string, typed: string): (r: string)
    ensures !LineDisabled(typed) ==> (LineDisabled(r) <==> LineDisabled(text))
    ensures !LineDisabled(typed) ==> Visible(r) == Trim(typed)
  {
    if LineDisabled(text) then
      UnmarkAppended(typed);
      typed + " " + Marker
    else typed
  }

}
