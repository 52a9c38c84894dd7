/** The download handlers of the five documents, as the sequence of effects each has on the
    page. The capture (html2canvas) is an oracle that either yields a canvas or fails; scrolling,
    the render delay, the download link and alerts are events in the trace. The style fix the
    handlers inject is the element `export-fix-style` in the document head, and the trace keeps
    count of how many such elements are there. */
module Export {
  import opened Js
  import opened Forms
  import Utils
  import Certificate

  /** html2canvas's `backgroundColor`: `null` keeps the page transparent. */
  datatype Background = Transparent | Paper(color: Value)

  datatype Effect =
    | InjectStyle                               // appends an `export-fix-style` element
    | ScrollToTop                               // `window.scrollTo(0, 0)`
    | Wait(ms: nat)                             // the render delay
    | Capture(scale: int, background: Background)
    | Download(fileName: string)                // the clicked download link's file name
    | RemoveStyle                               // `getElementById("export-fix-style")?.remove()`
    | Alert(message: string)

  // ---------------------------------------------------------------------------
  // Quality tiers. The select offers these four values; each handler maps them, and any other
  // string, to a capture scale of its own.

  const Tiers := ["low", "medium", "high", "ultra"]

  /** The three pages' ladder: 6 for ultra, 4 for high, 3 for medium, 2 for anything else. */
  function PageScale(quality: string): (s: int)
    ensures quality !in Tiers ==> s == 2
    ensures 2 <= s <= 6
  {
    if quality == "ultra" then 6 else if quality == "high" then 4 else if quality == "medium" then 3 else 2
  }

  /** The ID card and certificate hooks' `switch`: like the pages on the four tiers, but an
      unknown tier falls to the default case, 4. */
  function HookScale(quality: string): (s: int)
    ensures quality !in Tiers ==> s == 4
    ensures 2 <= s <= 6
  {
    match quality
    case "low" => 2
    case "medium" => 3
    case "high" => 4
    case "ultra" => 6
    case _ => 4
  }

  /** The certificate and admission letter generators' ladder: 4, 3, 2 and 1 otherwise. */
  function LetterScale(quality: string): (s: int)
    ensures quality !in Tiers ==> s == 1
    ensures 1 <= s <= 4
  {
    if quality == "ultra" then 4 else if quality == "high" then 3 else if quality == "medium" then 2 else 1
  }

  /** On the offered tiers the hooks agree with the pages, the letter ladder numbers the tiers
      1 to 4, and all three grow from "low" to "ultra". */
  lemma ScalesOfTiers()
    ensures forall i :: 0 <= i < |Tiers| ==> HookScale(Tiers[i]) == PageScale(Tiers[i])
    ensures forall i :: 0 <= i < |Tiers| ==> LetterScale(Tiers[i]) == i + 1
    ensures forall i, j :: 0 <= i < j < |Tiers| ==> PageScale(Tiers[i]) < PageScale(Tiers[j])
  {
  }

  /** The letter ladder is one step below the pages' ladder: each tier gets the scale the page
      gives the tier below it, and "ultra" gets the page's "high". */
  lemma LetterIsPageOneDown()
    ensures forall i :: 1 <= i < |Tiers| ==> LetterScale(Tiers[i]) == PageScale(Tiers[i - 1])
  {
  }

  /** Outside the offered tiers the pages capture at their smallest scale, the hooks at the
      scale of "high" and the generators at their smallest. */
  lemma UnknownTier(quality: string)
    requires quality !in Tiers
    ensures PageScale(quality) == PageScale("low")
    ensures HookScale(quality) == HookScale("high")
    ensures LetterScale(quality) == LetterScale("low")
  {
  }

  // ---------------------------------------------------------------------------
  // Reading a trace.

  /** The head's count of fix elements after one effect: an injection adds one, a removal takes
      the first away if there is one and does nothing otherwise. */
  function StyleStep(n: nat, e: Effect): nat
  {
    match e
    case InjectStyle => n + 1
    case RemoveStyle => if n == 0 then 0 else n - 1
    case _ => n
  }

  /** The count of fix elements after a trace that starts with `n` of them. */
  function StylesAfter(n: nat, t: seq<Effect>): (m: nat)
    ensures m <= n + |t|
    decreases |t|
  {
    if t == [] then n else StylesAfter(StyleStep(n, t[0]), t[1..])
  }

  /** The file names downloaded, in order. */
  function Downloads(t: seq<Effect>): (names: seq<string>)
    ensures |names| <= |t|
  {
    if t == [] then []
    else (if t[0].Download? then [t[0].fileName] else []) + Downloads(t[1..])
  }

  /** The messages alerted, in order. */
  function Alerts(t: seq<Effect>): (messages: seq<string>)
    ensures |messages| <= |t|
  {
    if t == [] then []
    else (if t[0].Alert? then [t[0].message] else []) + Alerts(t[1..])
  }

  /** Some capture is attempted. */
  predicate Captures(t: seq<Effect>)
  {
    exists i :: 0 <= i < |t| && t[i].Capture?
  }

  /** Every capture and every download happens while a fix element is in the head, counted
      from a head without one. */
  predicate CapturedUnderStyle(t: seq<Effect>)
  {
    forall i :: 0 <= i < |t| && (t[i].Capture? || t[i].Download?) ==> StylesAfter(0, t[..i]) > 0
  }

  /** What one effect adds to each reading of a trace. */
  lemma Cons(e: Effect, t: seq<Effect>, n: nat)
    ensures Downloads([e] + t) == (if e.Download? then [e.fileName] else []) + Downloads(t)
    ensures Alerts([e] + t) == (if e.Alert? then [e.message] else []) + Alerts(t)
    ensures StylesAfter(n, [e] + t) == StylesAfter(StyleStep(n, e), t)
  {
    assert ([e] + t)[1..] == t;
  }

  lemma {:induction false} StylesAfterAppend(n: nat, a: seq<Effect>, b: seq<Effect>)
    ensures StylesAfter(n, a + b) == StylesAfter(StylesAfter(n, a), b)
    decreases |a|
  {
    if a != [] {
      assert a + b == [a[0]] + (a[1..] + b);
      assert a == [a[0]] + a[1..];
      Cons(a[0], a[1..] + b, n);
      Cons(a[0], a[1..], n);
      StylesAfterAppend(StyleStep(n, a[0]), a[1..], b);
    } else {
      assert a + b == b;
    }
  }

  /** The readings of a one- and a two-effect trace. */
  lemma One(a: Effect, n: nat)
    ensures Downloads([a]) == (if a.Download? then [a.fileName] else [])
    ensures Alerts([a]) == (if a.Alert? then [a.message] else [])
    ensures StylesAfter(n, [a]) == StyleStep(n, a)
  {
    Cons(a, [], n);
    assert [a] + [] == [a];
  }

  lemma Two(a: Effect, b: Effect, n: nat)
    ensures Downloads([a, b]) == Downloads([a]) + Downloads([b])
    ensures Alerts([a, b]) == Alerts([a]) + Alerts([b])
    ensures StylesAfter(n, [a, b]) == StyleStep(StyleStep(n, a), b)
  {
    One(a, n);
    One(b, StyleStep(n, a));
    Cons(a, [b], n);
    assert [a] + [b] == [a, b];
  }

  /** The opening of every styled export: inject the fix, scroll to the top, wait 300 ms,
      capture. */
  function Opening(scale: int, background: Background): seq<Effect>
  {
    [InjectStyle, ScrollToTop, Wait(300), Capture(scale, background)]
  }

  /** The opening downloads and alerts nothing, adds one fix element and captures. */
  lemma OpeningThen(scale: int, background: Background, rest: seq<Effect>, n: nat)
    ensures Captures(Opening(scale, background) + rest)
    ensures Downloads(Opening(scale, background) + rest) == Downloads(rest)
    ensures Alerts(Opening(scale, background) + rest) == Alerts(rest)
    ensures StylesAfter(n, Opening(scale, background) + rest) == StylesAfter(n + 1, rest)
  {
    var t3 := [Capture(scale, background)] + rest;
    var t2 := [Wait(300)] + t3;
    var t1 := [ScrollToTop] + t2;
    var t0 := [InjectStyle] + t1;
    Cons(Capture(scale, background), rest, n + 1);
    Cons(Wait(300), t3, n + 1);
    Cons(ScrollToTop, t2, n + 1);
    Cons(InjectStyle, t1, n);
    assert t0 == Opening(scale, background) + rest;
    assert t0[3].Capture?;
  }

  // ---------------------------------------------------------------------------
  // The three pages' try block, and the corrected one.

  /** `exportToImage(canvas, fileName, type)` names the file `${fileName}.${type}`. */
  function ImageFile(fileName: string): (r: string)
    ensures |r| == |fileName| + 4 && r[..|fileName|] == fileName && r[|fileName|..] == ".png"
  {
    fileName + ".png"
  }

  /** The pages' try block: inject the fix, scroll to the top, wait 300 ms, capture, export the
      image, remove the fix. A failed capture jumps to the catch, which alerts; there is no
      finally, so the removal is skipped. */
  function StyledExport(scale: int, background: Background, fileName: string, captured: bool,
                        failure: string): (t: seq<Effect>)
    ensures Captures(t)
    ensures Downloads(t) == (if captured then [ImageFile(fileName)] else [])
    ensures Alerts(t) == (if captured then [] else [failure])
  {
    var tail := if captured then [Download(ImageFile(fileName)), RemoveStyle] else [Alert(failure)];
    OpeningThen(scale, background, tail, 0);
    Two(Download(ImageFile(fileName)), RemoveStyle, 0);
    One(Alert(failure), 0);
    Opening(scale, background) + tail
  }

  /** The pages capture and download with the fix in place. */
  lemma StyledExportUnderStyle(scale: int, background: Background, fileName: string, captured: bool,
                               failure: string)
    ensures CapturedUnderStyle(StyledExport(scale, background, fileName, captured, failure))
  {
    var t := StyledExport(scale, background, fileName, captured, failure);
    var tail := if captured then [Download(ImageFile(fileName)), RemoveStyle] else [Alert(failure)];
    assert t == Opening(scale, background) + tail;
    OpeningPrefixes(scale, background, tail);
    forall i | 0 <= i < |t| && (t[i].Capture? || t[i].Download?) ensures StylesAfter(0, t[..i]) > 0 {
      assert 3 <= i < 5;
    }
  }

  /** Right before the capture, and right after it, the head holds the one fix element the
      opening injected. */
  lemma OpeningPrefixes(scale: int, background: Background, rest: seq<Effect>)
    ensures |Opening(scale, background) + rest| >= 4
    ensures StylesAfter(0, (Opening(scale, background) + rest)[..3]) == 1
    ensures StylesAfter(0, (Opening(scale, background) + rest)[..4]) == 1
  {
    var t := Opening(scale, background) + rest;
    assert t[..3] == [InjectStyle] + [ScrollToTop, Wait(300)];
    Cons(InjectStyle, [ScrollToTop, Wait(300)], 0);
    Two(ScrollToTop, Wait(300), 1);
    assert t[..4] == Opening(scale, background) + [];
    OpeningThen(scale, background, [], 0);
  }

  /** A successful export leaves the head as it found it; a failed one leaves one more fix
      element than it found. */
  lemma FailedExportLeaksStyle(n: nat, scale: int, background: Background, fileName: string, captured: bool,
                               failure: string)
    ensures StylesAfter(n, StyledExport(scale, background, fileName, captured, failure))
            == if captured then n else n + 1
  {
    var tail := if captured then [Download(ImageFile(fileName)), RemoveStyle] else [Alert(failure)];
    OpeningThen(scale, background, tail, n);
    Two(Download(ImageFile(fileName)), RemoveStyle, n + 1);
    One(Alert(failure), n + 1);
  }

  /** `k` copies of a trace, one after another. */
  function Repeat(t: seq<Effect>, k: nat): (r: seq<Effect>)
    ensures |r| == k * |t|
  {
    if k == 0 then [] else t + Repeat(t, k - 1)
  }

  /** `k` failed exports in a row leave `k` fix elements behind. */
  lemma {:induction false} FailuresAccumulate(n: nat, k: nat, scale: int, background: Background,
                                              fileName: string, failure: string)
    ensures StylesAfter(n, Repeat(StyledExport(scale, background, fileName, false, failure), k)) == n + k
    decreases k
  {
    if k > 0 {
      var t := StyledExport(scale, background, fileName, false, failure);
      StylesAfterAppend(n, t, Repeat(t, k - 1));
      FailedExportLeaksStyle(n, scale, background, fileName, false, failure);
      FailuresAccumulate(n + 1, k - 1, scale, background, fileName, failure);
    }
  }

  /** The try block with the removal in a finally clause: a failed capture alerts, then the fix
      is removed as well. */
  function StyledExportFinally(scale: int, background: Background, fileName: string, captured: bool,
                               failure: string): (t: seq<Effect>)
    ensures Captures(t)
    ensures Downloads(t) == (if captured then [ImageFile(fileName)] else [])
    ensures Alerts(t) == (if captured then [] else [failure])
  {
    var tail := if captured then [Download(ImageFile(fileName)), RemoveStyle] else [Alert(failure), RemoveStyle];
    OpeningThen(scale, background, tail, 0);
    Two(Download(ImageFile(fileName)), RemoveStyle, 0);
    Two(Alert(failure), RemoveStyle, 0);
    Opening(scale, background) + tail
  }

  /** With the finally clause every export, successful or not, leaves the head as it found it. */
  lemma FinallyRestoresStyles(n: nat, scale: int, background: Background, fileName: string, captured: bool,
                              failure: string)
    ensures StylesAfter(n, StyledExportFinally(scale, background, fileName, captured, failure)) == n
  {
    var tail := if captured then [Download(ImageFile(fileName)), RemoveStyle] else [Alert(failure), RemoveStyle];
    OpeningThen(scale, background, tail, n);
    Two(Download(ImageFile(fileName)), RemoveStyle, n + 1);
    Two(Alert(failure), RemoveStyle, n + 1);
  }

  /** So exports with the finally clause never accumulate fix elements. */
  lemma {:induction false} FinallyNeverAccumulates(n: nat, k: nat, scale: int, background: Background,
                                                   fileName: string, captured: bool, failure: string)
    ensures StylesAfter(n, Repeat(StyledExportFinally(scale, background, fileName, captured, failure), k)) == n
    decreases k
  {
    if k > 0 {
      var t := StyledExportFinally(scale, background, fileName, captured, failure);
      StylesAfterAppend(n, t, Repeat(t, k - 1));
      FinallyRestoresStyles(n, scale, background, fileName, captured, failure);
      FinallyNeverAccumulates(n, k - 1, scale, background, fileName, captured, failure);
    }
  }

  /** The correction changes nothing when the capture succeeds. */
  lemma FinallyAgreesOnSuccess(scale: int, background: Background, fileName: string, failure: string)
    ensures StyledExportFinally(scale, background, fileName, true, failure)
            == StyledExport(scale, background, fileName, true, failure)
  {
  }

  // ---------------------------------------------------------------------------
  // The pages (TranscriptGenerator, ScheduleGenerator, the ID card's page). `hasPreview` is
  // whether the preview ref is set; without it the handler returns at once.

  const TranscriptFailure := "导出图片失败，请稍后再试"
  const ScheduleFailure := "导出图片失败，请稍后再试。"
  const ScheduleIncomplete := "请完成所有必填字段。"
  const PageIncomplete := "请先完成必填信息。"

  /** `${name || "student"}<suffix>`. */
  function BaseName(name: Value, suffix: string): (r: string)
    ensures !Truthy(name) ==> r == "student" + suffix
    ensures name.Str? && name.s != "" ==> r == name.s + suffix
  {
    ValueOr(name, "student") + suffix
  }

  /** `if (Object.keys(errors).length > 0) { alert(message); return }` ahead of a run. */
  function Gated(errors: Errors, message: string, run: seq<Effect>): (t: seq<Effect>)
    ensures errors != map[] ==> t == [Alert(message)] && !Captures(t) && Downloads(t) == [] && Alerts(t) == [message]
    ensures errors != map[] ==> StylesAfter(0, t) == 0
    ensures errors == map[] ==> t == run
  {
    One(Alert(message), 0);
    assert !Captures([Alert(message)]);
    if errors != map[] then [Alert(message)] else run
  }

  /** TranscriptGenerator's `handleDownload`: no validation; every form with a preview is
      captured, and the image is named after the student. */
  function TranscriptDownload(hasPreview: bool, f: Fields, quality: string, captured: bool): (t: seq<Effect>)
    ensures !hasPreview ==> t == []
    ensures hasPreview ==> Captures(t) && CapturedUnderStyle(t)
    ensures Downloads(t) == if hasPreview && captured then [ImageFile(BaseName(Get(f, "studentName"), "_transcript"))]
                            else []
    ensures Alerts(t) == if hasPreview && !captured then [TranscriptFailure] else []
    ensures StylesAfter(0, t) == if hasPreview && !captured then 1 else 0
  {
    if !hasPreview then []
    else
      var name := BaseName(Get(f, "studentName"), "_transcript");
      StyledExportUnderStyle(PageScale(quality), Transparent, name, captured, TranscriptFailure);
      FailedExportLeaksStyle(0, PageScale(quality), Transparent, name, captured, TranscriptFailure);
      StyledExport(PageScale(quality), Transparent, name, captured, TranscriptFailure)
  }

  /** A page's handler with validation in front: with no preview nothing happens, with errors
      one alert and nothing else, otherwise the pages' try block. */
  function GatedPageExport(hasPreview: bool, errors: Errors, incomplete: string, fileName: string,
                           quality: string, captured: bool, failure: string): (t: seq<Effect>)
    ensures !hasPreview ==> t == []
    ensures hasPreview && errors != map[] ==> t == [Alert(incomplete)]
    ensures Captures(t) <==> hasPreview && errors == map[]
    ensures Downloads(t) == if hasPreview && errors == map[] && captured then [ImageFile(fileName)] else []
    ensures Alerts(t) == if !hasPreview then [] else if errors != map[] then [incomplete]
                         else if captured then [] else [failure]
    ensures StylesAfter(0, t) == if hasPreview && errors == map[] && !captured then 1 else 0
    ensures hasPreview && errors == map[] ==> CapturedUnderStyle(t)
  {
    if !hasPreview then []
    else
      StyledExportUnderStyle(PageScale(quality), Transparent, fileName, captured, failure);
      FailedExportLeaksStyle(0, PageScale(quality), Transparent, fileName, captured, failure);
      Gated(errors, incomplete, StyledExport(PageScale(quality), Transparent, fileName, captured, failure))
  }

  /** ScheduleGenerator's `handleDownload`: a non-empty error state alerts and stops before any
      change to the page. */
  function ScheduleDownload(hasPreview: bool, f: Fields, errors: Errors, quality: string, captured: bool)
    : (t: seq<Effect>)
    ensures !hasPreview ==> t == []
    ensures hasPreview && errors != map[] ==> t == [Alert(ScheduleIncomplete)]
    ensures Captures(t) <==> hasPreview && errors == map[]
    ensures Downloads(t) == if hasPreview && errors == map[] && captured
                            then [ImageFile(BaseName(Get(f, "fullName"), "_schedule"))] else []
    ensures Alerts(t) == if !hasPreview then [] else if errors != map[] then [ScheduleIncomplete]
                         else if captured then [] else [ScheduleFailure]
    ensures StylesAfter(0, t) == if hasPreview && errors == map[] && !captured then 1 else 0
    ensures hasPreview && errors == map[] ==> CapturedUnderStyle(t)
  {
    GatedPageExport(hasPreview, errors, ScheduleIncomplete, BaseName(Get(f, "fullName"), "_schedule"), quality,
                    captured, ScheduleFailure)
  }

  /** The ID card page's `handleDownload`: it validates the record itself, with
      `validateFormData`, and stops with an alert on any error. */
  function IdCardPageDownload(hasPreview: bool, f: Fields, parseDate: string -> Option<int>, quality: string,
                              captured: bool): (t: seq<Effect>)
    ensures !hasPreview ==> t == []
    ensures hasPreview && Utils.ValidateFormData(f, parseDate) != map[] ==> t == [Alert(PageIncomplete)]
    ensures Captures(t) <==> hasPreview && Utils.ValidateFormData(f, parseDate) == map[]
    ensures Downloads(t) == if hasPreview && Utils.ValidateFormData(f, parseDate) == map[] && captured
                            then [ImageFile(BaseName(Get(f, "fullName"), "_id_card"))] else []
    ensures Alerts(t) == if !hasPreview then [] else if Utils.ValidateFormData(f, parseDate) != map[] then [PageIncomplete]
                         else if captured then [] else [TranscriptFailure]
    ensures StylesAfter(0, t) == if hasPreview && Utils.ValidateFormData(f, parseDate) == map[] && !captured then 1 else 0
    ensures hasPreview && Utils.ValidateFormData(f, parseDate) == map[] ==> CapturedUnderStyle(t)
  {
    GatedPageExport(hasPreview, Utils.ValidateFormData(f, parseDate), PageIncomplete,
                    BaseName(Get(f, "fullName"), "_id_card"), quality, captured, TranscriptFailure)
  }

  /** A record that passes the ID card's validation has a truthy `fullName`, so the page names
      every card it downloads after the student, never "student_id_card.png". */
  lemma IdCardPageNamesTheStudent(hasPreview: bool, f: Fields, parseDate: string -> Option<int>, quality: string,
                                  captured: bool)
    ensures forall name :: name in Downloads(IdCardPageDownload(hasPreview, f, parseDate, quality, captured)) ==>
              Truthy(Get(f, "fullName")) && name == ImageFile(ValueToString(Get(f, "fullName")) + "_id_card")
  {
    var e := Utils.ValidateFormData(f, parseDate);
    if hasPreview && e == map[] && captured {
      assert "fullName" !in e;
      assert Utils.IdCardMessage("fullName") == Some("姓名不能为空");
      assert Truthy(Get(f, "fullName"));
    }
  }

  // ---------------------------------------------------------------------------
  // The hooks' `downloadCard` and `downloadCertificate`: no style fix, no delay; the link is
  // created by hand with its own file name.

  const HookFailure := "无法生成图片，请稍后再试"

  function HookExport(scale: int, background: Background, fileName: string, captured: bool): (t: seq<Effect>)
    ensures |t| == 2 && t[0] == Capture(scale, background) && StylesAfter(0, t) == 0
    ensures Downloads(t) == (if captured then [fileName] else [])
    ensures Alerts(t) == (if captured then [] else [HookFailure])
  {
    Two(Capture(scale, background), Download(fileName), 0);
    Two(Capture(scale, background), Alert(HookFailure), 0);
    One(Capture(scale, background), 0);
    One(Download(fileName), 0);
    One(Alert(HookFailure), 0);
    [Capture(scale, background)] + if captured then [Download(fileName)] else [Alert(HookFailure)]
  }

  /** `downloadCard(quality)`: `student-id-${studentId || "card"}.png`, transparent. */
  function IdCardHookDownload(hasElement: bool, f: Fields, quality: string, captured: bool): (t: seq<Effect>)
    ensures !hasElement ==> t == []
    ensures hasElement ==> |t| == 2 && t[0] == Capture(HookScale(quality), Transparent) && StylesAfter(0, t) == 0
    ensures Downloads(t) == if hasElement && captured
                            then ["student-id-" + ValueOr(Get(f, "studentId"), "card") + ".png"] else []
    ensures Alerts(t) == if hasElement && !captured then [HookFailure] else []
  {
    if !hasElement then []
    else HookExport(HookScale(quality), Transparent, "student-id-" + ValueOr(Get(f, "studentId"), "card") + ".png",
                    captured)
  }

  /** `downloadCertificate(quality)`: captured on the paper colour, named
      `enrollment-certificate-${studentId || "student"}.png`. */
  function CertificateHookDownload(hasElement: bool, f: Fields, quality: string, captured: bool): (t: seq<Effect>)
    ensures !hasElement ==> t == []
    ensures hasElement ==> |t| == 2 && t[0] == Capture(HookScale(quality), Paper(Get(f, "paperColor"))) && StylesAfter(0, t) == 0
    ensures Downloads(t) == if hasElement && captured
                            then ["enrollment-certificate-" + ValueOr(Get(f, "studentId"), "student") + ".png"]
                            else []
    ensures Alerts(t) == if hasElement && !captured then [HookFailure] else []
  {
    if !hasElement then []
    else HookExport(HookScale(quality), Paper(Get(f, "paperColor")),
                    "enrollment-certificate-" + ValueOr(Get(f, "studentId"), "student") + ".png", captured)
  }

  // ---------------------------------------------------------------------------
  // CertificateGenerator: the capture runs in a 300 ms timeout and its promise is continued
  // with `then` only.

  /** The generator's run: export and removal happen in the `then`; a rejected capture has no
      handler, so nothing is alerted and the fix stays. */
  function UncaughtStyledExport(scale: int, background: Background, fileName: string, captured: bool)
    : (t: seq<Effect>)
    ensures Captures(t) && Alerts(t) == []
    ensures Downloads(t) == (if captured then [ImageFile(fileName)] else [])
    ensures StylesAfter(0, t) == if captured then 0 else 1
  {
    var tail := if captured then [Download(ImageFile(fileName)), RemoveStyle] else [];
    OpeningThen(scale, background, tail, 0);
    Two(Download(ImageFile(fileName)), RemoveStyle, 1);
    Opening(scale, background) + tail
  }

  /** CertificateGenerator's `handleDownload`: its own validator, the letter ladder, the paper
      colour as background. */
  function CertificateGeneratorDownload(hasPreview: bool, f: Fields, quality: string, captured: bool)
    : (t: seq<Effect>)
    ensures !hasPreview ==> t == []
    ensures hasPreview && Certificate.ValidateCertificateData(f) != map[] ==> t == [Alert(PageIncomplete)]
    ensures Captures(t) <==> hasPreview && Certificate.ValidateCertificateData(f) == map[]
    ensures Downloads(t) == if hasPreview && Certificate.ValidateCertificateData(f) == map[] && captured
                            then [ImageFile(BaseName(Get(f, "fullName"), "_certificate"))] else []
    ensures Alerts(t) == if hasPreview && Certificate.ValidateCertificateData(f) != map[] then [PageIncomplete] else []
  {
    if !hasPreview then []
    else
      Gated(Certificate.ValidateCertificateData(f), PageIncomplete,
            UncaughtStyledExport(LetterScale(quality), Paper(Get(f, "paperColor")),
                                 BaseName(Get(f, "fullName"), "_certificate"), captured))
  }

  /** A failed capture in the certificate generator is silent: no download, no alert, and
      the fix element is left in the head. */
  lemma CertificateFailureIsSilent(f: Fields, quality: string)
    requires Certificate.ValidateCertificateData(f) == map[]
    ensures Downloads(CertificateGeneratorDownload(true, f, quality, false)) == []
    ensures Alerts(CertificateGeneratorDownload(true, f, quality, false)) == []
    ensures StylesAfter(0, CertificateGeneratorDownload(true, f, quality, false)) == 1
  {
  }

  // ---------------------------------------------------------------------------
  // AdmissionLetterGenerator: no validation and no style fix.

  const LetterFailure := "导出过程中发生错误，请重试。"

  /** `admission-letter-${studentName.replace(/\s+/g, "-")}`: whitespace runs become one dash. */
  function AdmissionFileName(studentName: string): (r: string)
    ensures |r| >= 17 && r[..17] == "admission-letter-"
    ensures forall k :: 17 <= k < |r| ==> !IsSpace(r[k])
    ensures (forall k :: 0 <= k < |studentName| ==> !IsSpace(studentName[k])) ==> r[17..] == studentName
  {
    assert !IsSpace('-');
    "admission-letter-" + ReplaceWhitespaceRuns(studentName, "-")
  }

  /** The letter's `handleDownload`: the letter ladder, the paper colour or white. The file name
      is computed after the capture, so a student name that is not a string (its `replace`
      throws) ends in the catch as well. */
  function AdmissionDownload(hasPreview: bool, f: Fields, quality: string, captured: bool): (t: seq<Effect>)
    ensures !hasPreview ==> t == []
    ensures hasPreview ==> |t| == 2 && t[0] == Capture(LetterScale(quality), Paper(Str(ValueOr(Get(f, "paperColor"), "#ffffff"))))
    ensures StylesAfter(0, t) == 0
    ensures Downloads(t) == if hasPreview && captured && Get(f, "studentName").Str?
                            then [ImageFile(AdmissionFileName(Get(f, "studentName").s))] else []
    ensures Alerts(t) == if hasPreview && !(captured && Get(f, "studentName").Str?) then [LetterFailure] else []
  {
    if !hasPreview then []
    else
      var capture := Capture(LetterScale(quality), Paper(Str(ValueOr(Get(f, "paperColor"), "#ffffff"))));
      if captured && Get(f, "studentName").Str? then
        var download := Download(ImageFile(AdmissionFileName(Get(f, "studentName").s)));
        Two(capture, download, 0);
        One(capture, 0);
        One(download, 0);
        [capture, download]
      else
        Two(capture, Alert(LetterFailure), 0);
        One(capture, 0);
        One(Alert(LetterFailure), 0);
        [capture, Alert(LetterFailure)]
  }
}
