/**
 * The per-frame bookkeeping of VideoPanel.js, once the external detector has
 * returned its predictions: the class allow-list filter, the pass that gives
 * every person an activity label while threading a single "last person"
 * cell, the capped most-recent-first history log, the click hit test and the
 * overlay label text.
 *
 * The pure parts are functions; the state the component keeps between
 * frames (`lastPersonRef`, `detectionsRef` and the history list its parent
 * stores) is the class `FramePanel`, whose `Cycle` method performs one
 * detection cycle and is proved against the functions.
 */
module VideoPanel {
  import opened Wrappers
  import opened ActivityDetection
  import opened Text

  /** One detector result, with the activity the cycle attaches to persons. */
  datatype Detection = Detection(cls: string, score: real, bbox: Box, activity: Option<Activity>)

  const Person: string := "person"

  /** The classes the panel keeps, in the order the source lists them. */
  const Allowed: seq<string> := ["person", "cell phone", "bottle", "cup", "keyboard"]

  predicate IsAllowed(cls: string) {
    cls in Allowed
  }

  // ---------------------------------------------------------------------
  // Allow-list filter
  // ---------------------------------------------------------------------

  /** The detector's predictions whose class is on the allow-list, in their original order. */
  function Filter(preds: seq<Detection>): (r: seq<Detection>)
    ensures |r| <= |preds|
  {
    if preds == [] then []
    else (if IsAllowed(preds[0].cls) then [preds[0]] else []) + Filter(preds[1..])
  }

  /**
   * Filtering distributes over concatenation. With the one-element case
   * (kept exactly when allowed) this pins the result down as the
   * subsequence of allowed detections in their original order.
   */
  lemma {:induction false} FilterAppend(a: seq<Detection>, b: seq<Detection>)
    ensures Filter(a + b) == Filter(a) + Filter(b)
  {
    if a == [] {
      assert a + b == b;
    } else {
      var keep := if IsAllowed(a[0].cls) then [a[0]] else [];
      assert (a + b)[0] == a[0];
      assert (a + b)[1..] == a[1..] + b;
      FilterAppend(a[1..], b);
      assert Filter(a + b) == keep + (Filter(a[1..]) + Filter(b));
      assert Filter(a) == keep + Filter(a[1..]);
    }
  }

  /** A single detection survives exactly when its class is allowed. */
  lemma FilterSingle(d: Detection)
    ensures Filter([d]) == if IsAllowed(d.cls) then [d] else []
  {
    assert [d][1..] == [];
  }

  /** Everything the filter keeps comes from the input and has an allowed class. */
  lemma {:induction false} FilterOnlyAllowed(preds: seq<Detection>)
    ensures forall d :: d in Filter(preds) ==> d in preds && IsAllowed(d.cls)
  {
    if preds != [] {
      FilterOnlyAllowed(preds[1..]);
    }
  }

  /** Every allowed detection of the input is kept. */
  lemma {:induction false} FilterKeepsAllowed(preds: seq<Detection>, d: Detection)
    requires d in preds && IsAllowed(d.cls)
    ensures d in Filter(preds)
  {
    if preds[0] != d {
      FilterKeepsAllowed(preds[1..], d);
    }
  }

  /** The filter changes its input exactly when some class is not allowed. */
  lemma {:induction false} FilterIdentity(preds: seq<Detection>)
    ensures Filter(preds) == preds <==> forall d :: d in preds ==> IsAllowed(d.cls)
  {
    if preds != [] {
      FilterIdentity(preds[1..]);
      if Filter(preds) == preds {
        assert Filter(preds[1..]) == preds[1..];
      }
    }
  }

  /** Filtering twice is filtering once. */
  lemma FilterIdempotent(preds: seq<Detection>)
    ensures Filter(Filter(preds)) == Filter(preds)
  {
    FilterOnlyAllowed(preds);
    FilterIdentity(Filter(preds));
  }

  /** The worked example: `person`, `dog`, `bottle` keeps `person` and `bottle`. */
  lemma FilterExample(b: Box)
    ensures
      var p := Detection("person", 0.9, b, None);
      var g := Detection("dog", 0.8, b, None);
      var t := Detection("bottle", 0.7, b, None);
      Filter([p, g, t]) == [p, t]
  {
    var p := Detection("person", 0.9, b, None);
    var g := Detection("dog", 0.8, b, None);
    var t := Detection("bottle", 0.7, b, None);
    assert [p, g, t][1..] == [g, t] && [g, t][1..] == [t] && [t][1..] == [];
    assert IsAllowed(p.cls) && !IsAllowed(g.cls) && IsAllowed(t.cls);
    assert Filter([t]) == [t];
    assert Filter([g, t]) == [t];
  }

  // ---------------------------------------------------------------------
  // Person annotation
  // ---------------------------------------------------------------------

  /** One item of the annotation pass: a person gets `obj.activity`, anything else is untouched. */
  function Mark(d: Detection, last: Option<Box>): (m: Detection)
    ensures m.cls == d.cls && m.score == d.score && m.bbox == d.bbox
    ensures d.cls != Person ==> m == d
    ensures d.cls == Person ==> m.activity.Some? && m.activity.value != Unknown
  {
    if d.cls == Person then d.(activity := Some(EstimateActivity(Some(d.bbox), last))) else d
  }

  /** The "last person" cell after visiting one item: overwritten by each person. */
  function Carry(d: Detection, last: Option<Box>): (c: Option<Box>)
    ensures c == LastPerson([d], last)
  {
    if d.cls == Person then Some(d.bbox) else last
  }

  /** What the annotation pass produces: the annotated items and the final "last person" cell. */
  datatype Annotation = Annotation(items: seq<Detection>, last: Option<Box>)

  /**
   * The annotation pass over a frame's filtered detections, starting from
   * the "last person" cell left by earlier frames.
   */
  function Annotate(items: seq<Detection>, last: Option<Box>): (r: Annotation)
    ensures |r.items| == |items|
  {
    if items == [] then Annotation([], last)
    else
      var rest := Annotate(items[1..], Carry(items[0], last));
      Annotation([Mark(items[0], last)] + rest.items, rest.last)
  }

  predicate NoPersonAfter(items: seq<Detection>, k: nat) {
    forall j :: k < j < |items| ==> items[j].cls != Person
  }

  /**
   * The box of the last person in `items`, or `last` when `items` holds no
   * person: an independent, right-to-left description of the cell.
   */
  function LastPerson(items: seq<Detection>, last: Option<Box>): (p: Option<Box>) {
    if items == [] then last
    else if items[|items| - 1].cls == Person then Some(items[|items| - 1].bbox)
    else LastPerson(items[..|items| - 1], last)
  }

  /** With no person in `items` the cell keeps its earlier value. */
  lemma {:induction false} LastPersonNone(items: seq<Detection>, last: Option<Box>)
    requires forall j :: 0 <= j < |items| ==> items[j].cls != Person
    ensures LastPerson(items, last) == last
  {
    if items != [] {
      LastPersonNone(items[..|items| - 1], last);
    }
  }

  /** When `k` is the last person in `items`, the cell holds its box. */
  lemma {:induction false} LastPersonIs(items: seq<Detection>, last: Option<Box>, k: nat)
    requires k < |items| && items[k].cls == Person && NoPersonAfter(items, k)
    ensures LastPerson(items, last) == Some(items[k].bbox)
  {
    if k < |items| - 1 {
      var p := items[..|items| - 1];
      assert items[|items| - 1].cls != Person;
      assert NoPersonAfter(p, k);
      LastPersonIs(p, last, k);
    }
  }

  /** Annotating a concatenation is annotating the parts in turn, threading the cell. */
  lemma {:induction false} AnnotateAppend(a: seq<Detection>, b: seq<Detection>, last: Option<Box>)
    ensures
      var first := Annotate(a, last);
      var second := Annotate(b, first.last);
      Annotate(a + b, last) == Annotation(first.items + second.items, second.last)
  {
    if a == [] {
      assert a + b == b;
    } else {
      var c := Carry(a[0], last);
      assert (a + b)[0] == a[0];
      assert (a + b)[1..] == a[1..] + b;
      AnnotateAppend(a[1..], b, c);
      var rest := Annotate(a[1..], c);
      var second := Annotate(b, rest.last);
      assert Annotate(a + b, last).items == [Mark(a[0], last)] + (rest.items + second.items);
      assert Annotate(a, last).items == [Mark(a[0], last)] + rest.items;
    }
  }

  /** One more item: the pass extends by that item marked against the current cell. */
  lemma AnnotateStep(s: seq<Detection>, d: Detection, last: Option<Box>)
    ensures
      var before := Annotate(s, last);
      Annotate(s + [d], last) == Annotation(before.items + [Mark(d, before.last)], Carry(d, before.last))
  {
    AnnotateAppend(s, [d], last);
    assert [d][1..] == [];
  }

  /** After the pass the cell holds the last person's box, or is unchanged when there is none. */
  lemma {:induction false} AnnotateLast(items: seq<Detection>, last: Option<Box>)
    ensures Annotate(items, last).last == LastPerson(items, last)
  {
    if items != [] {
      var p := items[..|items| - 1];
      AnnotateLast(p, last);
      AnnotateStep(p, items[|items| - 1], last);
      assert p + [items[|items| - 1]] == items;
    }
  }

  /**
   * Item `i` of the pass is item `i` marked against the box of the person
   * just before it in this frame, or against the cell left by earlier
   * frames when no person precedes it.
   */
  lemma AnnotateAt(items: seq<Detection>, last: Option<Box>, i: nat)
    requires i < |items|
    ensures Annotate(items, last).items[i] == Mark(items[i], LastPerson(items[..i], last))
  {
    AnnotateAppend(items[..i], items[i..], last);
    assert items[..i] + items[i..] == items;
    AnnotateLast(items[..i], last);
  }

  /**
   * The pass keeps every item's class, score and box, leaves every
   * non-person as it was and gives every person an activity other than
   * "unknown".
   */
  lemma AnnotateMarksPersons(items: seq<Detection>, last: Option<Box>)
    ensures var r := Annotate(items, last).items;
      && (forall i :: 0 <= i < |items| ==>
            r[i].cls == items[i].cls && r[i].score == items[i].score && r[i].bbox == items[i].bbox)
      && (forall i :: 0 <= i < |items| && items[i].cls != Person ==> r[i] == items[i])
      && (forall i :: 0 <= i < |items| && items[i].cls == Person ==>
            r[i].activity.Some? && r[i].activity.value != Unknown)
  {
    forall i | 0 <= i < |items|
      ensures Annotate(items, last).items[i] == Mark(items[i], LastPerson(items[..i], last))
    {
      AnnotateAt(items, last, i);
    }
  }

  /** The first person of a frame is compared against the earlier frames' last person. */
  lemma FirstPersonUsesEarlierFrame(items: seq<Detection>, last: Option<Box>, i: nat)
    requires i < |items| && items[i].cls == Person
    requires forall j :: 0 <= j < i ==> items[j].cls != Person
    ensures Annotate(items, last).items[i].activity == Some(EstimateActivity(Some(items[i].bbox), last))
  {
    AnnotateAt(items, last, i);
    LastPersonNone(items[..i], last);
  }

  // ---------------------------------------------------------------------
  // History log
  // ---------------------------------------------------------------------

  /** The log keeps the new record and at most 20 older ones. */
  const MaxHistory: nat := 21

  /** A history entry: an opaque wall-clock text and the frame's retained detections. */
  datatype Record = Record(time: string, items: seq<Detection>)

  function Min(a: int, b: int): (m: int) {
    if a < b then a else b
  }

  /** The history after a frame: the new record first, then at most 20 older entries. */
  function Prepend(history: seq<Record>, r: Record): (h: seq<Record>)
    ensures |h| == Min(|history| + 1, MaxHistory)
    ensures h[0] == r
    ensures forall i :: 1 <= i < |h| ==> h[i] == history[i - 1]
  {
    [r] + history[..Min(|history|, MaxHistory - 1)]
  }

  /** Prepending each of `rs` in turn, as successive frames do. */
  function PrependAll(history: seq<Record>, rs: seq<Record>): (h: seq<Record>)
    decreases |rs|
  {
    if rs == [] then history else PrependAll(Prepend(history, rs[0]), rs[1..])
  }

  function Reverse<T>(s: seq<T>): (r: seq<T>)
    ensures |r| == |s|
    ensures forall i :: 0 <= i < |s| ==> r[i] == s[|s| - 1 - i]
  {
    if s == [] then [] else Reverse(s[1..]) + [s[0]]
  }

  /**
   * After any number of frames the log is the newest records first,
   * followed by the older log, cut to its capacity.
   */
  lemma {:induction false} PrependAllKeepsNewest(history: seq<Record>, rs: seq<Record>)
    requires |history| <= MaxHistory
    decreases |rs|
    ensures var all := Reverse(rs) + history;
      PrependAll(history, rs) == all[..Min(|all|, MaxHistory)]
  {
    if rs != [] {
      var h1 := Prepend(history, rs[0]);
      PrependAllKeepsNewest(h1, rs[1..]);
      var all := Reverse(rs) + history;
      var all1 := Reverse(rs[1..]) + h1;
      var n := Min(|all|, MaxHistory);
      assert |all1| >= n;
      assert Min(|all1|, MaxHistory) == n;
      forall i | 0 <= i < n
        ensures all1[i] == all[i]
      {
        if i < |rs| - 1 {
          assert all1[i] == rs[|rs| - 1 - i];
        } else if i == |rs| - 1 {
          assert all1[i] == h1[0];
        } else {
          assert all1[i] == h1[i - |rs| + 1];
        }
      }
      assert all1[..n] == all[..n];
    }
  }

  /** Twenty-five frames with detections leave exactly the 21 most recent, newest first. */
  lemma TwentyFiveFrames(rs: seq<Record>)
    requires |rs| == 25
    ensures |PrependAll([], rs)| == MaxHistory
    ensures forall i :: 0 <= i < MaxHistory ==> PrependAll([], rs)[i] == rs[24 - i]
  {
    PrependAllKeepsNewest([], rs);
    assert Reverse(rs) + [] == Reverse(rs);
  }

  // ---------------------------------------------------------------------
  // Click hit test
  // ---------------------------------------------------------------------

  /** The point lies in the box, edges included. */
  predicate Inside(b: Box, cx: real, cy: real)
    ensures Inside(b, cx, cy) ==> b.w >= 0.0 && b.h >= 0.0
  {
    cx >= b.x && cx <= b.x + b.w && cy >= b.y && cy <= b.y + b.h
  }

  /** The index of the first detection whose box contains the point (the hit test's search). */
  function FirstHit(dets: seq<Detection>, cx: real, cy: real): (r: Option<nat>)
    ensures r.Some? ==> r.value < |dets| && Inside(dets[r.value].bbox, cx, cy)
    ensures r.Some? ==> forall j :: 0 <= j < r.value ==> !Inside(dets[j].bbox, cx, cy)
    ensures r.None? ==> forall j :: 0 <= j < |dets| ==> !Inside(dets[j].bbox, cx, cy)
  {
    if dets == [] then None
    else if Inside(dets[0].bbox, cx, cy) then Some(0)
    else
      match FirstHit(dets[1..], cx, cy)
      case None => None
      case Some(k) => Some(k + 1)
  }

  // ---------------------------------------------------------------------
  // Overlay label
  // ---------------------------------------------------------------------

  /** The separator between label fields: space, bullet, space. */
  const Separator: string := " \U{2022} "

  /**
   * The `ICONS` lookup, with the empty icon for a class it does not list:
   * exactly the allowed classes have an icon.
   */
  function Icon(cls: string): (i: string)
    ensures i != "" <==> IsAllowed(cls)
  {
    if cls == "person" then "\U{1F9CD}"
    else if cls == "cell phone" then "\U{1F4F1}"
    else if cls == "bottle" then "\U{1F37C}"
    else if cls == "cup" then "\U{1F964}"
    else if cls == "keyboard" then "\U{2328}\U{FE0F}"
    else ""
  }

  /** The confidence percentage: score times 100 rounded to the nearest integer, halves up. */
  function Confidence(score: real): (c: int)
    ensures c as real - 0.5 <= score * 100.0 < c as real + 0.5
    ensures 0.0 <= score <= 1.0 ==> 0 <= c <= 100
  {
    (score * 100.0 + 0.5).Floor
  }

  /** The label text drawn above a detection's box. */
  function Label(d: Detection): (s: string)
    ensures |s| > |Icon(d.cls)| + 1 && s[|s| - 1] == '%'
  {
    var head := Icon(d.cls) + " ";
    var tail := Separator + IntToString(Confidence(d.score)) + "%";
    if d.cls == Person && d.activity.Some? then head + "PERSON" + Separator + Name(d.activity.value) + tail
    else head + ToUpper(d.cls) + tail
  }

  /** Every label starts with the class icon and a space; an unknown class has no icon. */
  lemma LabelStartsWithIcon(d: Detection)
    ensures |Icon(d.cls)| + 1 <= |Label(d)| && Label(d)[..|Icon(d.cls)| + 1] == Icon(d.cls) + " "
    ensures !IsAllowed(d.cls) ==> Label(d)[0] == ' '
  {
    var s := Label(d);
    var head := Icon(d.cls) + " ";
    assert s[..|head|] == head;
  }

  /**
   * Every label ends with the separator, the confidence digits and "%",
   * and those digits read back as the confidence.
   */
  lemma LabelEndsWithConfidence(d: Detection)
    requires 0.0 <= d.score <= 1.0
    ensures
      var digits := Decimal(Confidence(d.score));
      var tail := Separator + digits + "%";
      |tail| <= |Label(d)| && Label(d)[|Label(d)| - |tail|..] == tail && DecimalValue(digits) == Confidence(d.score)
  {
    var digits := Decimal(Confidence(d.score));
    var tail := Separator + digits + "%";
    var s := Label(d);
    DecimalOfValue(IntToString(Confidence(d.score)));
    assert s[|s| - |tail|..] == tail;
    DecimalRoundTrip(Confidence(d.score));
  }

  /** The class name "person" upper-cases to "PERSON", the word the person label spells out. */
  lemma PersonUpper()
    ensures ToUpper(Person) == "PERSON"
  {
  }

  /**
   * An annotated person's label is the generic label of its class with the
   * separator and the activity text inserted after "PERSON".
   */
  lemma PersonLabelShowsActivity(d: Detection)
    requires d.cls == Person && d.activity.Some?
    ensures
      var head := Icon(Person) + " " + "PERSON";
      var tail := Separator + IntToString(Confidence(d.score)) + "%";
      && Label(d.(activity := None)) == head + tail
      && Label(d) == head + Separator + Name(d.activity.value) + tail
  {
    PersonUpper();
  }

  // ---------------------------------------------------------------------
  // The per-frame cycle
  // ---------------------------------------------------------------------

  /** The video element's state as the loop's safety check reads it. */
  datatype Video = Video(readyState: int, videoWidth: int, videoHeight: int)

  /** The media element's ready state meaning enough data to play (HAVE_ENOUGH_DATA). */
  const HaveEnoughData: int := 4

  /** The frame can be processed: a video element that is ready and has a non-empty frame. */
  predicate FrameReady(video: Option<Video>)
    ensures FrameReady(video) ==> video.Some? && video.value.videoWidth * video.value.videoHeight != 0
  {
    video.Some? && video.value.readyState == HaveEnoughData
    && video.value.videoWidth != 0 && video.value.videoHeight != 0
  }

  /** A frame's retained detections: allowed classes only, and every person annotated. */
  predicate WellFormed(items: seq<Detection>) {
    forall i :: 0 <= i < |items| ==> IsAllowed(items[i].cls) && (items[i].cls == Person ==> items[i].activity.Some?)
  }

  /** A history log as the panel keeps it: capped, and every record a non-empty well-formed frame. */
  predicate LogInvariant(history: seq<Record>) {
    && |history| <= MaxHistory
    && (forall i :: 0 <= i < |history| ==> history[i].items != [] && WellFormed(history[i].items))
  }

  /** A frame after filtering and annotation holds allowed classes only, with every person annotated. */
  lemma FrameWellFormed(predictions: seq<Detection>, last: Option<Box>)
    ensures WellFormed(Annotate(Filter(predictions), last).items)
  {
    var filtered := Filter(predictions);
    AnnotateMarksPersons(filtered, last);
    FilterOnlyAllowed(predictions);
    assert forall k :: 0 <= k < |filtered| ==> filtered[k] in filtered;
  }

  /** Prepending a non-empty well-formed record keeps the log invariant. */
  lemma PrependKeepsLog(history: seq<Record>, r: Record)
    requires LogInvariant(history)
    requires r.items != [] && WellFormed(r.items)
    ensures LogInvariant(Prepend(history, r))
  {
  }

  class FramePanel {
    /** `lastPersonRef.current` */
    var lastPerson: Option<Box>
    /** `detectionsRef.current`, read by the click handler */
    var detections: seq<Detection>
    /** The history list the panel updates through `onHistoryUpdate`, newest first */
    var history: seq<Record>

    ghost predicate Valid()
      reads this
    {
      && WellFormed(detections)
      && LogInvariant(history)
    }

    constructor ()
      ensures Valid()
      ensures lastPerson == None && detections == [] && history == []
    {
      lastPerson := None;
      detections := [];
      history := [];
    }

    /**
     * The `forEach` over the frame's detections: each person gets an
     * activity estimated against the cell, then overwrites the cell with
     * its own box.
     */
    method MarkPersons()
      modifies this`detections, this`lastPerson
      ensures Annotate(old(detections), old(lastPerson)) == Annotation(detections, lastPerson)
    {
      ghost var items, last0 := detections, lastPerson;
      var i := 0;
      while i < |detections|
        invariant 0 <= i <= |items| == |detections|
        invariant Annotate(items[..i], last0) == Annotation(detections[..i], lastPerson)
        invariant detections[i..] == items[i..]
      {
        var obj := detections[i];
        ghost var done, cell, rest := detections[..i], lastPerson, detections[i + 1..];
        assert obj == items[i] && rest == items[i + 1..] by {
          assert detections[i..][0] == obj && items[i..][0] == items[i];
          assert detections[i + 1..] == detections[i..][1..];
          assert items[i + 1..] == items[i..][1..];
        }
        if obj.cls == Person {
          var activity := EstimateActivity(Some(obj.bbox), lastPerson);
          detections := detections[i := obj.(activity := Some(activity))];
          lastPerson := Some(obj.bbox);
        }
        assert detections[..i + 1] == done + [Mark(obj, cell)];
        assert detections[i + 1..] == rest;
        AnnotateStep(items[..i], obj, last0);
        assert items[..i + 1] == items[..i] + [obj];
        i := i + 1;
      }
      assert items[..i] == items && detections[..i] == detections;
    }

    /**
     * One pass of `detectLoop` given the detector's predictions for the
     * current frame and the clock text for a history entry.
     */
    method Cycle(video: Option<Video>, predictions: seq<Detection>, now: string)
      requires Valid()
      modifies this
      ensures Valid()
      ensures !FrameReady(video) ==>
        lastPerson == old(lastPerson) && detections == old(detections) && history == old(history)
      ensures FrameReady(video) ==>
        var frame := Annotate(Filter(predictions), old(lastPerson));
        && detections == frame.items
        && lastPerson == frame.last
        && history == if frame.items == [] then old(history) else Prepend(old(history), Record(now, frame.items))
    {
      if !FrameReady(video) {
        return;
      }
      detections := Filter(predictions);
      MarkPersons();
      FrameWellFormed(predictions, old(lastPerson));
      if |detections| > 0 {
        PrependKeepsLog(history, Record(now, detections));
        history := Prepend(history, Record(now, detections));
      } else {
        assert detections == [];
      }
    }

    /**
     * `handleCanvasClick` at canvas point (cx, cy): the first current
     * detection whose box contains the point, or nothing.
     */
    method Click(cx: real, cy: real) returns (clicked: Option<Detection>)
      ensures clicked.None? <==> forall d :: d in detections ==> !Inside(d.bbox, cx, cy)
      ensures clicked.Some? ==>
        exists k :: 0 <= k < |detections| && detections[k] == clicked.value
          && Inside(detections[k].bbox, cx, cy)
          && (forall j :: 0 <= j < k ==> !Inside(detections[j].bbox, cx, cy))
    {
      if |detections| == 0 {
        return None;
      }
      var hit := FirstHit(detections, cx, cy);
      match hit
      case None => clicked := None;
      case Some(k) => clicked := Some(detections[k]);
    }
  }
}
