/** The webcam monitor (frontend/src/views/student/Components/WebCam.jsx):
    per-frame classification of detector labels into violation signals, the
    per-type cooldown, evidence capture, focus-loss counting and the data-URL
    to file conversion. The detector, the camera, the upload service, the
    clock and `atob` are outside the model: their results are parameters. */
module WebCam {
  import opened Common
  import opened CheatingLog

  /** Minimum time in milliseconds between two acted-on signals of one type. */
  const Cooldown := 3000

  /** Signals one detected label contributes, given how many persons the frame
      showed before it. */
  function LabelSignals(detected: string, personsBefore: nat): seq<ViolationType> {
    (if detected == "cell phone" then [CellPhone] else [])
    + (if detected == "book" || detected == "laptop" then [ProhibitedObject] else [])
    + (if detected == "person" && personsBefore >= 1 then [MultipleFace] else [])
  }

  /** Signals raised while walking the labels left to right. */
  function ScanSignals(labels: seq<string>): seq<ViolationType>
    decreases |labels|
  {
    if labels == [] then []
    else
      var init := labels[..|labels| - 1];
      ScanSignals(init) + LabelSignals(labels[|labels| - 1], multiset(init)["person"])
  }

  /** All signals of one frame: the scan, then noFace when no person was seen. */
  function FrameSignals(labels: seq<string>): seq<ViolationType> {
    ScanSignals(labels) + (if multiset(labels)["person"] == 0 then [NoFace] else [])
  }

  /** The callback `forEach` runs on one detected object: it raises the
      object's signal and counts persons. */
  method OnLabel(detectedClass: string, signals: seq<ViolationType>, personCount: nat, faceDetected: bool)
    returns (signals': seq<ViolationType>, personCount': nat, faceDetected': bool)
    ensures signals' == signals + LabelSignals(detectedClass, personCount)
    ensures personCount' == personCount + (if detectedClass == "person" then 1 else 0)
    ensures faceDetected' == (faceDetected || detectedClass == "person")
  {
    signals', personCount', faceDetected' := signals, personCount, faceDetected;
    if detectedClass == "cell phone" {
      signals' := signals' + [CellPhone];
    }
    if detectedClass == "book" || detectedClass == "laptop" {
      signals' := signals' + [ProhibitedObject];
    }
    if detectedClass == "person" {
      faceDetected' := true;
      personCount' := personCount' + 1;
      if personCount' > 1 {
        signals' := signals' + [MultipleFace];
      }
    }
  }

  /** The `forEach` of `detect`: the order in which `handleDetection` is called. */
  method Classify(labels: seq<string>) returns (signals: seq<ViolationType>)
    ensures signals == FrameSignals(labels)
  {
    signals := [];
    var personCount := 0;
    var faceDetected := false;
    for i := 0 to |labels|
      invariant signals == ScanSignals(labels[..i])
      invariant personCount == multiset(labels[..i])["person"]
      invariant faceDetected <==> personCount > 0
    {
      assert labels[..i + 1] == labels[..i] + [labels[i]];
      assert labels[..i + 1][..i] == labels[..i];
      signals, personCount, faceDetected := OnLabel(labels[i], signals, personCount, faceDetected);
    }
    assert labels[..|labels|] == labels;
    if !faceDetected {
      signals := signals + [NoFace];
    }
  }

  /** Signals of each type contributed by one label. */
  lemma LabelSignalCounts(detected: string, personsBefore: nat)
    ensures var m := multiset(LabelSignals(detected, personsBefore));
      && m[CellPhone] == (if detected == "cell phone" then 1 else 0)
      && m[ProhibitedObject] == (if detected == "book" || detected == "laptop" then 1 else 0)
      && m[MultipleFace] == (if detected == "person" && personsBefore >= 1 then 1 else 0)
      && m[NoFace] == 0
  {
  }

  /** The scan's signals after one more label. */
  lemma ScanSignalsStep(labels: seq<string>)
    requires labels != []
    ensures var init := labels[..|labels| - 1];
      && multiset(ScanSignals(labels))
         == multiset(ScanSignals(init)) + multiset(LabelSignals(labels[|labels| - 1], multiset(init)["person"]))
      && multiset(labels) == multiset(init) + multiset{labels[|labels| - 1]}
  {
    assert labels == labels[..|labels| - 1] + [labels[|labels| - 1]];
  }

  /** The scan raises cellPhone once per "cell phone" label. */
  lemma {:induction false} ScanCellPhones(labels: seq<string>)
    ensures multiset(ScanSignals(labels))[CellPhone] == multiset(labels)["cell phone"]
    decreases |labels|
  {
    if labels != [] {
      var init := labels[..|labels| - 1];
      ScanCellPhones(init);
      LabelSignalCounts(labels[|labels| - 1], multiset(init)["person"]);
      ScanSignalsStep(labels);
    }
  }

  /** The scan raises prohibitedObject once per "book" or "laptop" label. */
  lemma {:induction false} ScanProhibitedObjects(labels: seq<string>)
    ensures multiset(ScanSignals(labels))[ProhibitedObject]
         == multiset(labels)["book"] + multiset(labels)["laptop"]
    decreases |labels|
  {
    if labels != [] {
      var init := labels[..|labels| - 1];
      ScanProhibitedObjects(init);
      LabelSignalCounts(labels[|labels| - 1], multiset(init)["person"]);
      ScanSignalsStep(labels);
    }
  }

  /** The scan raises multipleFace once for every person after the first. */
  lemma {:induction false} ScanMultipleFaces(labels: seq<string>)
    ensures multiset(ScanSignals(labels))[MultipleFace]
         == if multiset(labels)["person"] == 0 then 0 else multiset(labels)["person"] - 1
    decreases |labels|
  {
    if labels != [] {
      var init := labels[..|labels| - 1];
      ScanMultipleFaces(init);
      LabelSignalCounts(labels[|labels| - 1], multiset(init)["person"]);
      ScanSignalsStep(labels);
    }
  }

  /** The scan itself never raises noFace. */
  lemma {:induction false} ScanNoFace(labels: seq<string>)
    ensures NoFace !in ScanSignals(labels)
    decreases |labels|
  {
    if labels != [] {
      var init := labels[..|labels| - 1];
      ScanNoFace(init);
      LabelSignalCounts(labels[|labels| - 1], multiset(init)["person"]);
      ScanSignalsStep(labels);
    }
  }

  /** noFace is raised exactly when the frame has no person, multipleFace once
      for every person after the first, cellPhone once per phone and
      prohibitedObject once per book or laptop; so noFace and multipleFace
      never come from the same frame. */
  lemma FrameSignalCounts(labels: seq<string>)
    ensures var s := FrameSignals(labels);
      && (NoFace in s <==> "person" !in labels)
      && multiset(s)[MultipleFace] == (if "person" in labels then multiset(labels)["person"] - 1 else 0)
      && multiset(s)[CellPhone] == multiset(labels)["cell phone"]
      && multiset(s)[ProhibitedObject] == multiset(labels)["book"] + multiset(labels)["laptop"]
      && !(NoFace in s && MultipleFace in s)
  {
    ScanCellPhones(labels);
    ScanProhibitedObjects(labels);
    ScanMultipleFaces(labels);
    ScanNoFace(labels);
  }

  /** The video element as the capture code sees it. */
  datatype Video = Video(readyState: int, videoWidth: int, videoHeight: int)

  /** The capture precondition: a video exists, has a decoded frame
      (readyState 4) and non-zero dimensions. */
  predicate VideoReady(video: Option<Video>) {
    video.Some? && video.value.readyState == 4
    && video.value.videoWidth != 0 && video.value.videoHeight != 0
  }

  /** `captureScreenshotAndUpload`: a record only when the video is ready and
      the upload returned a URL (`upload` is None when the upload threw). */
  function Capture(t: ViolationType, video: Option<Video>, upload: Option<string>, at: int)
    : (r: Option<Screenshot>)
    ensures r.Some? <==> VideoReady(video) && upload.Some?
    ensures r.Some? ==> r.value == Screenshot(upload.value, t, at)
  {
    if !VideoReady(video) then None
    else if upload.None? then None
    else Some(Screenshot(upload.value, t, at))
  }

  /** `lastDetectionTime[type] || 0`. */
  function LastTime(last: map<ViolationType, int>, t: ViolationType): int {
    if t in last then last[t] else 0
  }

  /** The warning title shown for an acted-on signal. */
  function AlertTitle(t: ViolationType): string {
    match t
    case NoFace => "Face Not Visible"
    case MultipleFace => "Multiple Faces Detected"
    case CellPhone => "Cell Phone Detected"
    case ProhibitedObject => "Prohibited Object Detected"
  }

  const FocusLostTitle := "Focus Lost"

  /** The alert titles of a sequence of signals, in order. */
  function TitlesOf(sigs: seq<ViolationType>): (r: seq<string>)
    ensures |r| == |sigs| && forall i :: 0 <= i < |sigs| ==> r[i] == AlertTitle(sigs[i])
  {
    seq(|sigs|, i requires 0 <= i < |sigs| => AlertTitle(sigs[i]))
  }

  /** The log `handleDetection` hands to the provider: the current log with
      the type's count raised by one and the screenshot appended. */
  function DetectionUpdate(log: Log, t: ViolationType, shot: Screenshot): Log {
    log.(counts := log.counts[t := CountOf(log, t) + 1], screenshots := Some(ShotsOf(log) + [shot]))
  }

  /** The log the focus handlers hand to the provider. */
  function FocusUpdate(log: Log, newCount: int): Log {
    log.(counts := log.counts[FocusLost := newCount])
  }

  lemma {:induction false} DetectionMerge(log: Log, t: ViolationType, shot: Screenshot)
    requires LogInvariant(log) && shot.kind == t
    ensures var r := Merge(log, DetectionUpdate(log, t, shot));
      && CountOf(r, t) == CountOf(log, t) + 1
      && (forall c :: c != t ==> CountOf(r, c) == CountOf(log, c))
      && ShotsOf(r) == ShotsOf(log) + [shot]
      && r.examId == log.examId && r.username == log.username && r.email == log.email
      && LogInvariant(r)
  {
    var upd := DetectionUpdate(log, t, shot);
    var r := Merge(log, upd);
    assert Truthy(upd, t);
    assert CountOf(r, t) == CountOf(log, t) + 1;
    forall c | c != t
      ensures CountOf(r, c) == CountOf(log, c)
    {
      assert Truthy(upd, c) <==> Truthy(log, c);
    }
    assert ShotsOf(r) == ShotsOf(log) + [shot];
    forall u: ViolationType
      ensures ShotsOfKind(ShotsOf(r), u) <= CountOf(r, u)
    {
      ShotsOfKindAppend(ShotsOf(log), shot, u);
    }
  }

  lemma {:induction false} FocusMerge(log: Log)
    requires LogInvariant(log)
    ensures var r := Merge(log, FocusUpdate(log, CountOf(log, FocusLost) + 1));
      && CountOf(r, FocusLost) == CountOf(log, FocusLost) + 1
      && (forall c :: c != FocusLost ==> CountOf(r, c) == CountOf(log, c))
      && r.screenshots == log.screenshots
      && r.examId == log.examId && r.username == log.username && r.email == log.email
      && LogInvariant(r)
  {
    var r := Merge(log, FocusUpdate(log, CountOf(log, FocusLost) + 1));
    assert CountOf(r, FocusLost) == CountOf(log, FocusLost) + 1;
    assert forall c :: c != FocusLost ==> CountOf(r, c) == CountOf(log, c);
    assert ShotsOf(r) == ShotsOf(log);
  }

  /** What one `handleDetection` call does to the cooldown map, the log and the
      alerts, given the capture outcome `shot`. */
  ghost predicate DetectionStep(last: map<ViolationType, int>, log: Log, alerts: seq<string>,
                                t: ViolationType, now: int, shot: Option<Screenshot>, acted: bool,
                                last': map<ViolationType, int>, log': Log, alerts': seq<string>)
  {
    && (acted <==> now - LastTime(last, t) >= Cooldown)
    && (acted ==> last' == last[t := now] && alerts' == alerts + [AlertTitle(t)])
    && (!acted ==> last' == last && alerts' == alerts)
    && if acted && shot.Some? then
         && CountOf(log', t) == CountOf(log, t) + 1
         && (forall c :: c != t ==> CountOf(log', c) == CountOf(log, c))
         && ShotsOf(log') == ShotsOf(log) + [shot.value]
         && log'.examId == log.examId && log'.username == log.username && log'.email == log.email
       else log' == log
  }

  /** Whether type `c` acts in a tick over the signals `sigs` that began with
      the cooldown map `last0`: it was signalled and its cooldown had passed. */
  predicate Acts(last0: map<ViolationType, int>, now: int, sigs: seq<ViolationType>, c: ViolationType) {
    c in sigs && now - LastTime(last0, c) >= Cooldown
  }

  /** The types that act in such a tick, in the order they act: each signal
      whose type was not signalled earlier in the tick and whose cooldown had
      passed when the tick began. */
  function Acted(last0: map<ViolationType, int>, now: int, sigs: seq<ViolationType>): seq<ViolationType>
    decreases |sigs|
  {
    if sigs == [] then []
    else
      var init, t := sigs[..|sigs| - 1], sigs[|sigs| - 1];
      Acted(last0, now, init) + (if t !in init && now - LastTime(last0, t) >= Cooldown then [t] else [])
  }

  /** A type is among those acting in a tick exactly when it acts. */
  lemma {:induction false} ActedIff(last0: map<ViolationType, int>, now: int, sigs: seq<ViolationType>)
    ensures forall c :: c in Acted(last0, now, sigs) <==> Acts(last0, now, sigs, c)
    decreases |sigs|
  {
    if sigs != [] {
      var init, t := sigs[..|sigs| - 1], sigs[|sigs| - 1];
      assert sigs == init + [t];
      ActedIff(last0, now, init);
    }
  }

  /** No type acts twice in one tick. */
  lemma {:induction false} ActedDistinct(last0: map<ViolationType, int>, now: int, sigs: seq<ViolationType>)
    ensures forall i, j :: 0 <= i < j < |Acted(last0, now, sigs)| ==>
      Acted(last0, now, sigs)[i] != Acted(last0, now, sigs)[j]
    decreases |sigs|
  {
    if sigs != [] {
      var init, t := sigs[..|sigs| - 1], sigs[|sigs| - 1];
      ActedDistinct(last0, now, init);
      ActedIff(last0, now, init);
      var a := Acted(last0, now, init);
      var r := Acted(last0, now, sigs);
      var acts := t !in init && now - LastTime(last0, t) >= Cooldown;
      assert r == a + (if acts then [t] else []);
      forall i, j | 0 <= i < j < |r|
        ensures r[i] != r[j]
      {
        if j < |a| {
          assert r[i] == a[i] && r[j] == a[j];
          assert a[i] != a[j];
        } else {
          assert acts && r[j] == t;
          assert r[i] == a[i] && a[i] in a;
          assert a[i] in init;
        }
      }
    }
  }

  /** Index of the first signal of type `c`. */
  function FirstOf(sigs: seq<ViolationType>, c: ViolationType): (i: nat)
    requires c in sigs
    ensures i < |sigs| && sigs[i] == c && c !in sigs[..i]
  {
    if sigs[0] == c then 0
    else
      var i := FirstOf(sigs[1..], c);
      assert sigs[..i + 1] == [sigs[0]] + sigs[1..][..i];
      i + 1
  }

  /** The first signal of a type is the one no earlier signal of that type precedes. */
  lemma FirstOfUnique(sigs: seq<ViolationType>, c: ViolationType, i: nat)
    requires i < |sigs| && sigs[i] == c && c !in sigs[..i]
    ensures FirstOf(sigs, c) == i
  {
  }

  /** How much type `c`'s count rises in a tick whose i-th capture outcome is
      `caps[i]`: one when the type acts and its first signal's capture
      produced a screenshot, zero otherwise. */
  function Gain(last0: map<ViolationType, int>, now: int, sigs: seq<ViolationType>,
                caps: seq<Option<Screenshot>>, c: ViolationType): nat
    requires |caps| == |sigs|
  {
    if Acts(last0, now, sigs, c) && caps[FirstOf(sigs, c)].Some? then 1 else 0
  }

  /** The evidence a tick appends: the screenshot of each acting type's
      first signal whose capture produced one, in order. */
  function Evidence(last0: map<ViolationType, int>, now: int, sigs: seq<ViolationType>,
                    caps: seq<Option<Screenshot>>): seq<Screenshot>
    requires |caps| == |sigs|
    decreases |sigs|
  {
    if sigs == [] then []
    else
      var n := |sigs| - 1;
      var init, t := sigs[..n], sigs[n];
      Evidence(last0, now, init, caps[..n])
        + (if t !in init && now - LastTime(last0, t) >= Cooldown && caps[n].Some? then [caps[n].value] else [])
  }

  /** The capture outcome of each signal of a tick, `upload(i)` being the
      i-th upload's outcome. */
  function Captures(sigs: seq<ViolationType>, video: Option<Video>, upload: nat -> Option<string>,
                    uploadedAt: int): (r: seq<Option<Screenshot>>)
    ensures |r| == |sigs|
    ensures forall i :: 0 <= i < |sigs| ==> r[i] == Capture(sigs[i], video, upload(i), uploadedAt)
  {
    seq(|sigs|, i requires 0 <= i < |sigs| => Capture(sigs[i], video, upload(i), uploadedAt))
  }

  /** How a detection tick that has handled the signals `sigs`, with the
      capture outcomes `caps`, stands against the state it started from
      (`last0`, `log0`, `alerts0`): the types that act hold the tick's time
      and have their counts raised by their gain, every other type keeps its
      time and count, the acting types' alerts are appended in order, and the
      evidence and the log's identity are kept. */
  ghost predicate TickFrame(last0: map<ViolationType, int>, log0: Log, alerts0: seq<string>,
                            now: int, sigs: seq<ViolationType>, caps: seq<Option<Screenshot>>,
                            last: map<ViolationType, int>, log: Log, alerts: seq<string>)
  {
    && |caps| == |sigs|
    && (forall c: ViolationType ::
          LastTime(last, c) == if Acts(last0, now, sigs, c) then now else LastTime(last0, c))
    && (forall c: ViolationType :: CountOf(log, c) == CountOf(log0, c) + Gain(last0, now, sigs, caps, c))
    && CountOf(log, FocusLost) == CountOf(log0, FocusLost)
    && (forall t :: t in last0 ==> t in last)
    && (forall t :: t in last ==> t in last0 || t in sigs)
    && alerts == alerts0 + TitlesOf(Acted(last0, now, sigs))
    && ShotsOf(log) == ShotsOf(log0) + Evidence(last0, now, sigs, caps)
    && log.examId == log0.examId && log.username == log0.username && log.email == log0.email
  }

  /** What a tick's frame says about its counts, its cooldown map and its
      alerts, as bounds. */
  lemma TickFrameFacts(last0: map<ViolationType, int>, log0: Log, alerts0: seq<string>,
                       now: int, sigs: seq<ViolationType>, caps: seq<Option<Screenshot>>,
                       last: map<ViolationType, int>, log: Log, alerts: seq<string>)
    requires TickFrame(last0, log0, alerts0, now, sigs, caps, last, log, alerts)
    ensures forall c :: CountOf(log0, c) <= CountOf(log, c) <= CountOf(log0, c) + multiset(sigs)[c]
    ensures forall c :: CountOf(log, c) <= CountOf(log0, c) + (if c in sigs then 1 else 0)
    ensures forall t :: t !in sigs ==> LastTime(last, t) == LastTime(last0, t)
    ensures forall t :: LastTime(last, t) in {LastTime(last0, t), now}
    ensures |alerts0| <= |alerts| && alerts[..|alerts0|] == alerts0
    ensures forall k :: |alerts0| <= k < |alerts| ==> alerts[k] in TitlesOf(sigs)
    ensures ShotsOf(log0) <= ShotsOf(log)
  {
    forall c
      ensures CountOf(log0, c) <= CountOf(log, c) <= CountOf(log0, c) + multiset(sigs)[c]
      ensures CountOf(log, c) <= CountOf(log0, c) + (if c in sigs then 1 else 0)
    {
      if c != FocusLost {
        var v: ViolationType := c;
        assert CountOf(log, v) == CountOf(log0, v) + Gain(last0, now, sigs, caps, v);
        if v in sigs {
          assert multiset(sigs)[v] >= 1;
        }
      }
    }
    ActedIff(last0, now, sigs);
    var a := Acted(last0, now, sigs);
    assert alerts[..|alerts0|] == alerts0;
    forall k | |alerts0| <= k < |alerts|
      ensures alerts[k] in TitlesOf(sigs)
    {
      var t := a[k - |alerts0|];
      assert alerts[k] == AlertTitle(t);
      assert t in a;
      var i := FirstOf(sigs, t);
      assert TitlesOf(sigs)[i] == AlertTitle(t);
    }
  }

  /** A tick starts in its own frame. */
  lemma TickFrameStart(last: map<ViolationType, int>, log: Log, alerts: seq<string>, now: int)
    ensures TickFrame(last, log, alerts, now, [], [], last, log, alerts)
  {
    assert TitlesOf(Acted(last, now, [])) == [];
  }

  /** One more `handleDetection` call keeps a tick in its frame: the signal
      acts exactly when its type was not signalled earlier in the tick and
      its cooldown had passed when the tick began. */
  lemma {:induction false} TickFrameStep(last0: map<ViolationType, int>, log0: Log, alerts0: seq<string>,
                                         now: int, sigs: seq<ViolationType>, caps: seq<Option<Screenshot>>,
                                         last: map<ViolationType, int>, log: Log, alerts: seq<string>,
                                         t: ViolationType, shot: Option<Screenshot>, acted: bool,
                                         last': map<ViolationType, int>, log': Log, alerts': seq<string>)
    requires TickFrame(last0, log0, alerts0, now, sigs, caps, last, log, alerts)
    requires DetectionStep(last, log, alerts, t, now, shot, acted, last', log', alerts')
    ensures TickFrame(last0, log0, alerts0, now, sigs + [t], caps + [shot], last', log', alerts')
  {
    ActsStep(last0, now, sigs, last, t, acted);
    TimesStep(last0, now, sigs, last, t, acted, last');
    GainStep(last0, now, sigs, caps, t, shot, acted);
    CountsStep(last0, log0, now, sigs, caps, log, t, shot, acted, log');
    AlertsStep(last0, alerts0, now, sigs, alerts, t, acted, alerts');
    EvidenceStep(last0, log0, now, sigs, caps, log, t, shot, acted, log');
  }

  /** The evidence after one more signal of a tick: the screenshot of the
      signal is appended when it acted with a capture. */
  lemma EvidenceStep(last0: map<ViolationType, int>, log0: Log, now: int, sigs: seq<ViolationType>,
                     caps: seq<Option<Screenshot>>, log: Log,
                     t: ViolationType, shot: Option<Screenshot>, acted: bool, log': Log)
    requires |caps| == |sigs|
    requires ShotsOf(log) == ShotsOf(log0) + Evidence(last0, now, sigs, caps)
    requires acted <==> t !in sigs && now - LastTime(last0, t) >= Cooldown
    requires acted && shot.Some? ==> ShotsOf(log') == ShotsOf(log) + [shot.value]
    requires !(acted && shot.Some?) ==> log' == log
    ensures ShotsOf(log') == ShotsOf(log0) + Evidence(last0, now, sigs + [t], caps + [shot])
  {
    assert (sigs + [t])[..|sigs|] == sigs;
    assert (caps + [shot])[..|caps|] == caps;
  }

  /** The alerts after one more signal of a tick: the acting types' titles,
      with the signal's own title when it acted. */
  lemma AlertsStep(last0: map<ViolationType, int>, alerts0: seq<string>, now: int, sigs: seq<ViolationType>,
                   alerts: seq<string>, t: ViolationType, acted: bool, alerts': seq<string>)
    requires alerts == alerts0 + TitlesOf(Acted(last0, now, sigs))
    requires acted <==> t !in sigs && now - LastTime(last0, t) >= Cooldown
    requires acted ==> alerts' == alerts + [AlertTitle(t)]
    requires !acted ==> alerts' == alerts
    ensures alerts' == alerts0 + TitlesOf(Acted(last0, now, sigs + [t]))
  {
    var a := Acted(last0, now, sigs);
    assert (sigs + [t])[..|sigs|] == sigs;
    assert Acted(last0, now, sigs + [t]) == a + (if acted then [t] else []);
    assert TitlesOf(a + [t]) == TitlesOf(a) + [AlertTitle(t)];
  }

  /** In a tick's frame, a signal acts exactly when its type was not
      signalled earlier in the tick and its cooldown had passed when the
      tick began; so the types acting after it are those acting before it,
      and its own type when it acted. */
  lemma ActsStep(last0: map<ViolationType, int>, now: int, sigs: seq<ViolationType>,
                 last: map<ViolationType, int>, t: ViolationType, acted: bool)
    requires forall c: ViolationType ::
      LastTime(last, c) == if Acts(last0, now, sigs, c) then now else LastTime(last0, c)
    requires acted <==> now - LastTime(last, t) >= Cooldown
    ensures acted <==> t !in sigs && now - LastTime(last0, t) >= Cooldown
    ensures forall c :: Acts(last0, now, sigs + [t], c) <==> Acts(last0, now, sigs, c) || (c == t && acted)
  {
    assert LastTime(last, t) == if Acts(last0, now, sigs, t) then now else LastTime(last0, t);
    assert forall c :: c in sigs + [t] <==> c in sigs || c == t;
  }

  /** The cooldown map after one more signal of a tick. */
  lemma TimesStep(last0: map<ViolationType, int>, now: int, sigs: seq<ViolationType>,
                  last: map<ViolationType, int>, t: ViolationType, acted: bool,
                  last': map<ViolationType, int>)
    requires forall c: ViolationType ::
      LastTime(last, c) == if Acts(last0, now, sigs, c) then now else LastTime(last0, c)
    requires forall c :: Acts(last0, now, sigs + [t], c) <==> Acts(last0, now, sigs, c) || (c == t && acted)
    requires acted ==> last' == last[t := now]
    requires !acted ==> last' == last
    ensures forall c: ViolationType ::
      LastTime(last', c) == if Acts(last0, now, sigs + [t], c) then now else LastTime(last0, c)
  {
    forall c: ViolationType
      ensures LastTime(last', c) == if Acts(last0, now, sigs + [t], c) then now else LastTime(last0, c)
    {
      if acted && c == t {
        assert LastTime(last', c) == now;
      }
    }
  }

  /** The gains after one more signal of a tick: the earlier types keep
      theirs, and the signal's type gains one when it acted with a capture. */
  lemma GainStep(last0: map<ViolationType, int>, now: int, sigs: seq<ViolationType>,
                 caps: seq<Option<Screenshot>>, t: ViolationType, shot: Option<Screenshot>, acted: bool)
    requires |caps| == |sigs|
    requires acted <==> t !in sigs && now - LastTime(last0, t) >= Cooldown
    requires forall c :: Acts(last0, now, sigs + [t], c) <==> Acts(last0, now, sigs, c) || (c == t && acted)
    ensures forall c :: c != t ==> Gain(last0, now, sigs + [t], caps + [shot], c) == Gain(last0, now, sigs, caps, c)
    ensures Gain(last0, now, sigs + [t], caps + [shot], t)
      == Gain(last0, now, sigs, caps, t) + (if acted && shot.Some? then 1 else 0)
  {
    var sigs', caps' := sigs + [t], caps + [shot];
    forall c | Acts(last0, now, sigs, c)
      ensures FirstOf(sigs', c) == FirstOf(sigs, c)
    {
      var i := FirstOf(sigs, c);
      assert sigs'[..i] == sigs[..i];
      FirstOfUnique(sigs', c, i);
    }
    if acted {
      assert sigs'[..|sigs|] == sigs;
      FirstOfUnique(sigs', t, |sigs|);
    }
  }

  /** The counts and the log after one more signal of a tick. */
  lemma CountsStep(last0: map<ViolationType, int>, log0: Log, now: int, sigs: seq<ViolationType>,
                   caps: seq<Option<Screenshot>>, log: Log,
                   t: ViolationType, shot: Option<Screenshot>, acted: bool, log': Log)
    requires |caps| == |sigs|
    requires forall c: ViolationType :: CountOf(log, c) == CountOf(log0, c) + Gain(last0, now, sigs, caps, c)
    requires CountOf(log, FocusLost) == CountOf(log0, FocusLost)
    requires forall c :: c != t ==> Gain(last0, now, sigs + [t], caps + [shot], c) == Gain(last0, now, sigs, caps, c)
    requires Gain(last0, now, sigs + [t], caps + [shot], t)
      == Gain(last0, now, sigs, caps, t) + (if acted && shot.Some? then 1 else 0)
    requires acted && shot.Some? ==> CountOf(log', t) == CountOf(log, t) + 1
    requires forall c :: c != t ==> CountOf(log', c) == CountOf(log, c)
    requires !(acted && shot.Some?) ==> log' == log
    ensures forall c: ViolationType ::
      CountOf(log', c) == CountOf(log0, c) + Gain(last0, now, sigs + [t], caps + [shot], c)
    ensures CountOf(log', FocusLost) == CountOf(log0, FocusLost)
  {
  }

  /** One mounted webcam component: its cooldown map, its copy of the focus
      count, the alerts it has shown, and the provider whose log it updates. */
  class Monitor {
    const provider: Provider
    var lastDetectionTime: map<ViolationType, int>
    var focusLostCount: int
    var alerts: seq<string>

    /** The component's focus count mirrors the log's and the log keeps its
        invariant. The mount effect copies the log's count only when it is
        truthy, so the mirror relies on the log not being reset to a zero
        count while the component is mounted. */
    ghost predicate Valid()
      reads this, provider
    {
      LogInvariant(provider.log) && focusLostCount == CountOf(provider.log, FocusLost)
    }

    /** Mounting: an empty cooldown map and the focus count taken from the log
        when truthy. */
    constructor (p: Provider)
      requires LogInvariant(p.log)
      ensures provider == p && Valid()
      ensures lastDetectionTime == map[] && alerts == []
    {
      provider := p;
      lastDetectionTime := map[];
      focusLostCount := if Truthy(p.log, FocusLost) then p.log.counts[FocusLost] else 0;
      alerts := [];
    }

    /** `handleDetection(type)` at time `now`, with the camera state, the
        upload outcome and the upload time as inputs. */
    method HandleDetection(t: ViolationType, now: int, video: Option<Video>,
                           upload: Option<string>, uploadedAt: int) returns (acted: bool)
      requires Valid()
      modifies this`lastDetectionTime, this`alerts, provider`log
      ensures Valid() && focusLostCount == old(focusLostCount)
      ensures provider.userInfo == old(provider.userInfo)
      ensures acted <==> now - LastTime(old(lastDetectionTime), t) >= Cooldown
      ensures acted ==> lastDetectionTime == old(lastDetectionTime)[t := now]
      ensures acted ==> alerts == old(alerts) + [AlertTitle(t)]
      ensures !acted ==> lastDetectionTime == old(lastDetectionTime) && alerts == old(alerts)
      ensures var shot := Capture(t, video, upload, uploadedAt);
        if acted && shot.Some? then
          && CountOf(provider.log, t) == old(CountOf(provider.log, t)) + 1
          && (forall c :: c != t ==> CountOf(provider.log, c) == old(CountOf(provider.log, c)))
          && ShotsOf(provider.log) == old(ShotsOf(provider.log)) + [shot.value]
          && provider.log.examId == old(provider.log.examId)
          && provider.log.username == old(provider.log.username)
          && provider.log.email == old(provider.log.email)
        else provider.log == old(provider.log)
      ensures DetectionStep(old(lastDetectionTime), old(provider.log), old(alerts), t, now,
                            Capture(t, video, upload, uploadedAt), acted,
                            lastDetectionTime, provider.log, alerts)
    {
      var lastTime := LastTime(lastDetectionTime, t);
      acted := now - lastTime >= Cooldown;
      if acted {
        lastDetectionTime := lastDetectionTime[t := now];
        var screenshot := Capture(t, video, upload, uploadedAt);
        if screenshot.Some? {
          DetectionMerge(provider.log, t, screenshot.value);
          provider.Update(DetectionUpdate(provider.log, t, screenshot.value));
        }
        alerts := alerts + [AlertTitle(t)];
      }
    }

    /** The `visibilitychange` listener: a hidden document raises the focus
        count by one and shows an alert; becoming visible does nothing. */
    method HandleVisibilityChange(hidden: bool)
      requires Valid()
      modifies this`focusLostCount, this`alerts, provider`log
      ensures Valid() && lastDetectionTime == old(lastDetectionTime)
      ensures hidden ==> alerts == old(alerts) + [FocusLostTitle]
      ensures hidden ==>
        && CountOf(provider.log, FocusLost) == old(CountOf(provider.log, FocusLost)) + 1
        && (forall c :: c != FocusLost ==> CountOf(provider.log, c) == old(CountOf(provider.log, c)))
        && provider.log.screenshots == old(provider.log.screenshots)
        && provider.log.examId == old(provider.log.examId)
        && provider.log.username == old(provider.log.username)
        && provider.log.email == old(provider.log.email)
      ensures !hidden ==> provider.log == old(provider.log) && alerts == old(alerts)
    {
      if hidden {
        HandleBlur();
        alerts := alerts + [FocusLostTitle];
      }
    }

    /** The window `blur` listener: the focus count rises by one, with no
        cooldown and no alert. */
    method HandleBlur()
      requires Valid()
      modifies this`focusLostCount, provider`log
      ensures Valid() && lastDetectionTime == old(lastDetectionTime) && alerts == old(alerts)
      ensures CountOf(provider.log, FocusLost) == old(CountOf(provider.log, FocusLost)) + 1
      ensures forall c :: c != FocusLost ==> CountOf(provider.log, c) == old(CountOf(provider.log, c))
      ensures provider.log.screenshots == old(provider.log.screenshots)
      ensures provider.log.examId == old(provider.log.examId)
      ensures provider.log.username == old(provider.log.username)
      ensures provider.log.email == old(provider.log.email)
    {
      ghost var log0 := provider.log;
      var newCount := focusLostCount + 1;
      FocusMerge(log0);
      provider.Update(FocusUpdate(provider.log, newCount));
      assert provider.log == Merge(log0, FocusUpdate(log0, CountOf(log0, FocusLost) + 1));
      focusLostCount := newCount;
    }

    /** The `forEach` over a frame's signals: `handleDetection` on each in
        turn, `upload(i)` being the outcome of the i-th capture. */
    method ActOnSignals(signals: seq<ViolationType>, now: int, video: Option<Video>,
                        upload: nat -> Option<string>, uploadedAt: int)
      requires Valid()
      modifies this`lastDetectionTime, this`alerts, provider`log
      ensures Valid() && focusLostCount == old(focusLostCount)
      ensures provider.userInfo == old(provider.userInfo)
      ensures TickFrame(old(lastDetectionTime), old(provider.log), old(alerts), now, signals,
                        Captures(signals, video, upload, uploadedAt),
                        lastDetectionTime, provider.log, alerts)
    {
      ghost var last0, log0, alerts0 := lastDetectionTime, provider.log, alerts;
      ghost var caps := Captures(signals, video, upload, uploadedAt);
      TickFrameStart(last0, log0, alerts0, now);
      for i := 0 to |signals|
        invariant Valid() && focusLostCount == old(focusLostCount)
        invariant provider.userInfo == old(provider.userInfo)
        invariant TickFrame(last0, log0, alerts0, now, signals[..i], caps[..i],
                            lastDetectionTime, provider.log, alerts)
      {
        ActOnSignal(last0, log0, alerts0, signals, caps, i, now, video, upload(i), uploadedAt);
      }
      assert signals[..|signals|] == signals && caps[..|signals|] == caps;
    }

    /** The i-th turn of that `forEach`: `handleDetection(signals[i])`, whose
        capture outcome is `caps[i]`, keeps the tick in its frame, with one
        more signal handled. */
    method ActOnSignal(ghost last0: map<ViolationType, int>, ghost log0: Log, ghost alerts0: seq<string>,
                       signals: seq<ViolationType>, ghost caps: seq<Option<Screenshot>>, i: nat, now: int,
                       video: Option<Video>, upload: Option<string>, uploadedAt: int)
      requires Valid() && i < |signals| == |caps|
      requires caps[i] == Capture(signals[i], video, upload, uploadedAt)
      requires TickFrame(last0, log0, alerts0, now, signals[..i], caps[..i],
                         lastDetectionTime, provider.log, alerts)
      modifies this`lastDetectionTime, this`alerts, provider`log
      ensures Valid() && focusLostCount == old(focusLostCount)
      ensures provider.userInfo == old(provider.userInfo)
      ensures TickFrame(last0, log0, alerts0, now, signals[..i + 1], caps[..i + 1],
                        lastDetectionTime, provider.log, alerts)
    {
      ghost var last, log, shown := lastDetectionTime, provider.log, alerts;
      var t := signals[i];
      var acted := HandleDetection(t, now, video, upload, uploadedAt);
      TickFrameStep(last0, log0, alerts0, now, signals[..i], caps[..i], last, log, shown, t,
                    caps[i], acted, lastDetectionTime, provider.log, alerts);
      assert signals[..i + 1] == signals[..i] + [t];
      assert caps[..i + 1] == caps[..i] + [caps[i]];
    }

    /** One detection tick: `detect` runs only on a video with readyState 4,
        and then acts on the frame's signals one after another. `upload(i)` is
        the outcome of the i-th capture. All signals of a tick share one time,
        so a type acts at most once per tick: exactly the signalled types
        whose cooldown had passed act, in the order of their first signals;
        each takes the tick's time and shows its alert, and its count rises by
        one when its first signal's capture produced a screenshot. Every other
        type keeps its time and its count; evidence is only appended; the
        log's identity fields are kept. */
    method DetectTick(video: Option<Video>, labels: seq<string>, now: int,
                      upload: nat -> Option<string>, uploadedAt: int)
      returns (signals: seq<ViolationType>)
      requires Valid()
      modifies this`lastDetectionTime, this`alerts, provider`log
      ensures Valid() && focusLostCount == old(focusLostCount)
      ensures provider.userInfo == old(provider.userInfo)
      ensures signals == if video.Some? && video.value.readyState == 4 then FrameSignals(labels) else []
      ensures forall t: ViolationType :: LastTime(lastDetectionTime, t)
                == if Acts(old(lastDetectionTime), now, signals, t) then now else LastTime(old(lastDetectionTime), t)
      ensures forall t: ViolationType :: CountOf(provider.log, t) == old(CountOf(provider.log, t))
                + Gain(old(lastDetectionTime), now, signals, Captures(signals, video, upload, uploadedAt), t)
      ensures CountOf(provider.log, FocusLost) == old(CountOf(provider.log, FocusLost))
      ensures alerts == old(alerts) + TitlesOf(Acted(old(lastDetectionTime), now, signals))
      ensures forall c :: old(CountOf(provider.log, c)) <= CountOf(provider.log, c)
                            <= old(CountOf(provider.log, c)) + multiset(signals)[c]
      ensures forall c :: CountOf(provider.log, c)
                            <= old(CountOf(provider.log, c)) + (if c in signals then 1 else 0)
      ensures forall t :: t !in signals ==> LastTime(lastDetectionTime, t) == LastTime(old(lastDetectionTime), t)
      ensures forall t :: LastTime(lastDetectionTime, t) in {LastTime(old(lastDetectionTime), t), now}
      ensures forall t :: t in old(lastDetectionTime) ==> t in lastDetectionTime
      ensures forall t :: t in lastDetectionTime ==> t in old(lastDetectionTime) || t in signals
      ensures |old(alerts)| <= |alerts| && alerts[..|old(alerts)|] == old(alerts)
      ensures forall k :: |old(alerts)| <= k < |alerts| ==> alerts[k] in TitlesOf(signals)
      ensures ShotsOf(provider.log) == old(ShotsOf(provider.log))
                + Evidence(old(lastDetectionTime), now, signals, Captures(signals, video, upload, uploadedAt))
      ensures ShotsOf(old(provider.log)) <= ShotsOf(provider.log)
      ensures provider.log.examId == old(provider.log.examId)
      ensures provider.log.username == old(provider.log.username)
      ensures provider.log.email == old(provider.log.email)
    {
      ghost var last0, log0, alerts0 := lastDetectionTime, provider.log, alerts;
      signals := [];
      TickFrameStart(last0, log0, alerts0, now);
      if video.Some? && video.value.readyState == 4 {
        signals := Classify(labels);
        ActOnSignals(signals, now, video, upload, uploadedAt);
      }
      ghost var caps := Captures(signals, video, upload, uploadedAt);
      TickFrameFacts(last0, log0, alerts0, now, signals, caps, lastDetectionTime, provider.log, alerts);
    }
  }

  /** The part of a data URL before the first ','. */
  function HeaderOf(dataUrl: string): string {
    if dataUrl == [] || dataUrl[0] == ',' then [] else [dataUrl[0]] + HeaderOf(dataUrl[1..])
  }

  /** The characters JavaScript's `.` does not match: the line terminators
      of section 12.3 of ECMA-262. */
  predicate IsLineTerminator(c: char) {
    c == '\n' || c == '\r' || c == '\U{2028}' || c == '\U{2029}'
  }

  /** The lazy `(.*?);` tried from the start of `s`: the text before the first
      ';', provided no line terminator comes before it. */
  function LazyToSemicolon(s: string): (r: Option<string>)
    ensures r.Some? ==> |r.value| < |s| && s[..|r.value|] == r.value && s[|r.value|] == ';'
    ensures r.Some? ==> forall k :: 0 <= k < |r.value| ==> r.value[k] != ';' && !IsLineTerminator(r.value[k])
  {
    if s == [] then None
    else if s[0] == ';' then Some([])
    else if IsLineTerminator(s[0]) then None
    else
      var rest := LazyToSemicolon(s[1..]);
      if rest.None? then None else Some([s[0]] + rest.value)
  }

  /** Every ';' of `s` comes after a line terminator. */
  ghost predicate SemicolonsBroken(s: string) {
    forall k :: 0 <= k < |s| && s[k] == ';' ==> exists m :: 0 <= m < k && IsLineTerminator(s[m])
  }

  /** The lazy scan fails exactly when a line terminator comes before every
      ';' (or there is none). */
  lemma {:induction false} LazyNoneIff(s: string)
    ensures LazyToSemicolon(s).None? <==> SemicolonsBroken(s)
    decreases |s|
  {
    if s == [] {
    } else if s[0] == ';' {
      assert !SemicolonsBroken(s) by { assert s[0] == ';'; }
    } else if IsLineTerminator(s[0]) {
      forall k | 0 <= k < |s| && s[k] == ';'
        ensures exists m :: 0 <= m < k && IsLineTerminator(s[m])
      {
        assert 0 < k && IsLineTerminator(s[0]);
      }
    } else {
      LazyNoneIff(s[1..]);
      LazyStep(s);
    }
  }

  /** One character of the lazy scan: when `s[0]` is neither ';' nor a line
      terminator, `s` and `s[1..]` have their ';' broken alike. */
  lemma LazyStep(s: string)
    requires s != [] && s[0] != ';' && !IsLineTerminator(s[0])
    ensures SemicolonsBroken(s) <==> SemicolonsBroken(s[1..])
  {
    if SemicolonsBroken(s[1..]) {
      forall k | 0 <= k < |s| && s[k] == ';'
        ensures exists m :: 0 <= m < k && IsLineTerminator(s[m])
      {
        assert s[1..][k - 1] == ';';
        var m :| 0 <= m < k - 1 && IsLineTerminator(s[1..][m]);
        assert IsLineTerminator(s[m + 1]);
      }
    }
    if SemicolonsBroken(s) {
      forall k | 0 <= k < |s| - 1 && s[1..][k] == ';'
        ensures exists m :: 0 <= m < k && IsLineTerminator(s[1..][m])
      {
        assert s[k + 1] == ';';
        var m :| 0 <= m < k + 1 && IsLineTerminator(s[m]);
        assert IsLineTerminator(s[1..][m - 1]);
      }
    }
  }

  /** `header.match(/:(.*?);/)[1]`: the regular expression is tried at each
      ':' from the left, and the first one followed by a ';' with no line
      terminator in between gives the media type. None where the match is
      null (the source then throws on `[1]`). */
  function MimeOf(header: string): (r: Option<string>)
    ensures r.Some? ==> ';' !in r.value
    ensures r.Some? ==> forall k :: 0 <= k < |r.value| ==> !IsLineTerminator(r.value[k])
  {
    if header == [] then None
    else if header[0] == ':' && LazyToSemicolon(header[1..]).Some? then LazyToSemicolon(header[1..])
    else MimeOf(header[1..])
  }

  /** The regular expression's match starts at the ':' at `i`: the lazy scan
      succeeds there and at no earlier ':'. */
  ghost predicate FirstMatchAt(header: string, i: int) {
    0 <= i < |header| && header[i] == ':' && LazyToSemicolon(header[i + 1..]).Some?
    && forall j :: 0 <= j < i && header[j] == ':' ==> LazyToSemicolon(header[j + 1..]).None?
  }

  /** The match is made at the first ':' whose lazy scan succeeds; it is null
      exactly when no ':' has one. */
  lemma {:induction false} MimeOfFirstColon(header: string)
    ensures MimeOf(header).None? <==>
      forall i :: 0 <= i < |header| && header[i] == ':' ==> LazyToSemicolon(header[i + 1..]).None?
    ensures MimeOf(header).Some? ==>
      exists i :: FirstMatchAt(header, i) && LazyToSemicolon(header[i + 1..]) == MimeOf(header)
    decreases |header|
  {
    if header != [] && !(header[0] == ':' && LazyToSemicolon(header[1..]).Some?) {
      MimeOfFirstColon(header[1..]);
      forall i | 1 <= i < |header|
        ensures header[1..][i - 1] == header[i] && header[1..][i - 1 + 1..] == header[i + 1..]
      {
      }
      if MimeOf(header).Some? {
        var i :| FirstMatchAt(header[1..], i) && LazyToSemicolon(header[1..][i + 1..]) == MimeOf(header[1..]);
        assert FirstMatchAt(header, i + 1);
      }
    } else if header != [] {
      assert FirstMatchAt(header, 0);
    }
  }

  /** Text with no ':' in front of a header does not change its media type. */
  lemma {:induction false} MimeOfSkips(p: string, s: string)
    requires ':' !in p
    ensures MimeOf(p + s) == MimeOf(s)
    decreases |p|
  {
    if p == [] {
      assert p + s == s;
    } else {
      assert p[0] in p;
      assert (p + s)[0] == p[0];
      assert (p + s)[1..] == p[1..] + s;
      MimeOfSkips(p[1..], s);
    }
  }

  /** The header of an RFC 2397 data URL, "data:<mime>;base64", yields exactly
      its media type when that contains no ';' and no line terminator. */
  lemma {:induction false} MimeOfDataHeader(scheme: string, mime: string, rest: string)
    requires ':' !in scheme && ';' !in mime
    requires forall k :: 0 <= k < |mime| ==> !IsLineTerminator(mime[k])
    ensures MimeOf(scheme + ":" + mime + ";" + rest) == Some(mime)
  {
    assert scheme + ":" + mime + ";" + rest == scheme + (":" + mime + ";" + rest);
    MimeOfSkips(scheme, ":" + mime + ";" + rest);
    var tail := (":" + mime + ";" + rest)[1..];
    assert tail == mime + ";" + rest;
    LazyOfClean(mime, rest);
  }

  /** A lazy scan over text free of ';' and line terminators stops at the ';'
      that follows it. */
  lemma {:induction false} LazyOfClean(mime: string, rest: string)
    requires ';' !in mime
    requires forall k :: 0 <= k < |mime| ==> !IsLineTerminator(mime[k])
    ensures LazyToSemicolon(mime + ";" + rest) == Some(mime)
    decreases |mime|
  {
    if mime == [] {
      assert (mime + ";" + rest)[0] == ';';
    } else {
      assert (mime + ";" + rest)[0] == mime[0] && !IsLineTerminator(mime[0]);
      assert (mime + ";" + rest)[1..] == mime[1..] + ";" + rest;
      assert mime[0] in mime;
      assert forall k :: 0 <= k < |mime[1..]| ==> mime[1..][k] == mime[k + 1];
      LazyOfClean(mime[1..], rest);
      assert [mime[0]] + mime[1..] == mime;
    }
  }

  /** A ':' whose lazy scan fails does not end the search: the regular
      expression retries at the next ':' of the header. */
  lemma MimeOfRetries(p: string, s: string)
    requires ':' !in p && LazyToSemicolon(s).None?
    ensures MimeOf(p + ":" + s) == MimeOf(s)
  {
    assert p + ":" + s == p + (":" + s);
    MimeOfSkips(p, ":" + s);
    assert (":" + s)[0] == ':' && (":" + s)[1..] == s;
  }

  /** The lazy scan fails on a line terminator met before any ';'. */
  lemma {:induction false} LazyBroken(before: string, t: char, after: string)
    requires ';' !in before && IsLineTerminator(t)
    ensures LazyToSemicolon(before + [t] + after).None?
    decreases |before|
  {
    var s := before + [t] + after;
    if before == [] {
      assert s[0] == t;
    } else {
      assert s[0] == before[0] && before[0] in before;
      assert s[1..] == before[1..] + [t] + after;
      LazyBroken(before[1..], t, after);
    }
  }

  /** A header "<scheme>:<type>;<rest>" whose type holds a line terminator,
      with no other ':' to retry at, does not match: the source throws on
      `[1]`, and no file is made. */
  lemma LineTerminatorBreaksMime(scheme: string, before: string, t: char, after: string, rest: string)
    requires ':' !in scheme && ':' !in before && ':' !in after && ':' !in rest
    requires ';' !in before && IsLineTerminator(t)
    ensures MimeOf(scheme + ":" + before + [t] + after + ";" + rest) == None
  {
    var s := before + [t] + after + ";" + rest;
    assert scheme + ":" + before + [t] + after + ";" + rest == scheme + ":" + s;
    assert s == before + [t] + (after + ";" + rest);
    LazyBroken(before, t, after + ";" + rest);
    MimeOfRetries(scheme, s);
    assert ':' !in s && s + [] == s;
    MimeOfSkips(s, []);
  }






  /** A file as the upload client receives it. */
  datatype File = File(bytes: seq<int>, name: string, mime: string)

  /** The `Uint8Array` fill loop: byte i is char code i reduced to 8 bits. */
  method FillBytes(bstr: string) returns (u8arr: array<int>)
    ensures fresh(u8arr) && u8arr.Length == |bstr|
    ensures forall i :: 0 <= i < |bstr| ==> u8arr[i] == (bstr[i] as int) % 256
  {
    var n := |bstr|;
    u8arr := new int[n];
    while n > 0
      invariant 0 <= n <= |bstr|
      invariant forall i :: n <= i < |bstr| ==> u8arr[i] == (bstr[i] as int) % 256
    {
      n := n - 1;
      u8arr[n] := (bstr[n] as int) % 256;
    }
  }

  /** `dataURLtoFile`: `decoded` is what `atob` gave for the payload (None when
      it threw). The result is None where the source throws. */
  method DataUrlToFile(dataUrl: string, decoded: Option<string>, fileName: string)
    returns (file: Option<File>)
    ensures file.Some? <==> MimeOf(HeaderOf(dataUrl)).Some? && decoded.Some?
    ensures file.Some? ==>
      && file.value.mime == MimeOf(HeaderOf(dataUrl)).value
      && file.value.name == fileName
      && |file.value.bytes| == |decoded.value|
      && forall i :: 0 <= i < |decoded.value| ==> file.value.bytes[i] == (decoded.value[i] as int) % 256
  {
    var mime := MimeOf(HeaderOf(dataUrl));
    if mime.None? || decoded.None? {
      return None;
    }
    var u8arr := FillBytes(decoded.value);
    file := Some(File(u8arr[..], fileName, mime.value));
  }
}
