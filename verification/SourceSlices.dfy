/**
 Reading slices of source under a byte budget: each selected range is cut to whole characters, redacted, and cut again
 to what is left of the budget.
 */
module SourceSlices {
  import opened Graphs
  import opened Utf8
  import opened Wrappers

  datatype Disposition = READABLE | BINARY | SECRET_REDACTED | READ_FAILED

  datatype Artifact = Artifact(disposition: Disposition, content: seq<Scalar>)

  /** A range of bytes of an artifact; without an end, it reaches to the end of the artifact. */
  datatype Selector = Selector(artifact: Id, start: nat, end: Option<nat>)

  datatype Slice = Slice(artifact: Id, start: nat, end: nat, text: seq<Scalar>)

  datatype Redaction = Redaction(text: seq<Scalar>, matches: nat)

  datatype Reason = SCOPE_VIOLATION | FACT_NOT_IN_WORK_UNIT | ARTIFACT_NOT_IN_SNAPSHOT | UNREADABLE(d: Disposition) | BUDGET_EXCEEDED

  datatype Status = COMPLETE | TRUNCATED | REDACTED | REJECTED(reason: Reason)

  datatype Reading = Reading(status: Status, slices: seq<Slice>, redactions: nat, truncated: bool, omitted: seq<Reason>)

  function TotalBytes(slices: seq<Slice>): nat {
    if slices == [] then 0 else TotalBytes(slices[..|slices| - 1]) + |EncodeAll(slices[|slices| - 1].text)|
  }

  /** The characters `i..j` are those that lie whole in the range, and at most three bytes are lost at each end. */
  ghost predicate IsWholeRun(content: seq<Scalar>, start: nat, end: nat, i: nat, j: nat) {
    && i <= j <= |content| && start <= end <= |EncodeAll(content)|
    && (forall k :: 0 <= k < |content| && start <= Offset(content, k) && Offset(content, k + 1) <= end ==> i <= k < j)
    && (i < j ==> start <= Offset(content, i) <= start + 3 && end - 3 <= Offset(content, j) <= end)
  }

  /** What a slice shows: a beginning of the redacted whole characters of its range. */
  ghost predicate ShowsRange(redact: seq<Scalar> -> Redaction, content: seq<Scalar>, slice: Slice) {
    exists i: nat, j: nat :: IsWholeRun(content, slice.start, slice.end, i, j) && slice.text <= redact(content[i..j]).text
  }

  ghost predicate ShowsWholeRange(redact: seq<Scalar> -> Redaction, content: seq<Scalar>, slice: Slice) {
    exists i: nat, j: nat :: IsWholeRun(content, slice.start, slice.end, i, j) && slice.text == redact(content[i..j]).text
  }

  /** What a slice shows, with the matches that were redacted in all of its range. */
  ghost predicate ShowsRedacted(redact: seq<Scalar> -> Redaction, content: seq<Scalar>, slice: Slice, matches: nat) {
    exists i: nat, j: nat :: IsWholeRun(content, slice.start, slice.end, i, j)
      && slice.text <= redact(content[i..j]).text && matches == redact(content[i..j]).matches
  }

  /** A range that asks for more than there is. */
  ghost predicate EndsBeyond(selector: Selector, length: nat) {
    selector.end.Some? && selector.end.value > length
  }

  /** A slice that withholds nothing: the redacted rest of the artifact, from a whole character on. */
  ghost predicate ShowsAll(redact: seq<Scalar> -> Redaction, content: seq<Scalar>, slice: Slice) {
    && slice.end == |EncodeAll(content)|
    && exists i :: 0 <= i <= |content| && Offset(content, i) == slice.start && slice.text == redact(content[i..]).text
  }

  function Min(a: int, b: int): int {
    if a < b then a else b
  }

  /** The end of a selector's range, within the budget and the artifact. */
  function CappedEnd(selector: Selector, remaining: nat, length: nat): nat {
    Min(Min(if selector.end.Some? then selector.end.value else length, selector.start + remaining), length)
  }

  /** The end of a range: the first of the end asked for, the end of the budget and the end of the artifact. */
  ghost predicate IsCappedEnd(selector: Selector, remaining: nat, length: nat, end: nat) {
    && end <= length && end <= selector.start + remaining && (selector.end.Some? ==> end <= selector.end.value)
    && (end == length || end == selector.start + remaining || selector.end == Some(end))
  }

  /** The characters of a text that fit whole into `limit` bytes. */
  method CutToBudget(text: seq<Scalar>, limit: nat) returns (cut: seq<Scalar>)
    requires limit < |EncodeAll(text)|
    ensures cut <= text && limit - 3 <= |EncodeAll(cut)| <= limit
  {
    var bytes := EncodeAll(text);
    var s, e := CompleteWindow(bytes, 0, limit);
    ghost var i, j := WindowIsLargestRun(text, 0, limit, s, e);
    cut := Decode(bytes[s..e]);
    DecodeEncode(text[i..j]);
    assert text[..0] == [];
    OffsetIsBoundary(text, 0);
    if s < e {
      StartsAtZero(text, i);
      assert s == 0;
    }
  }

  lemma StartsAtZero(text: seq<Scalar>, i: nat)
    requires i <= |text| && Offset(text, i) <= |EncodeAll(text)|
    ensures Offset(text, i) == 0 <==> i == 0
  {
    if i > 0 {
      SliceIsEncoded(text, 0, i - 1);
      EncodedIsLonger(text, i - 1);
    }
  }

  method ReadRange(
      content: seq<Scalar>, selector: Selector, remaining: nat, redact: seq<Scalar> -> Redaction)
    returns (slice: Slice, truncated: bool, matches: nat)
    requires selector.start < CappedEnd(selector, remaining, |EncodeAll(content)|)
    ensures slice.artifact == selector.artifact && slice.start == selector.start
    ensures IsCappedEnd(selector, remaining, |EncodeAll(content)|, slice.end)
    ensures |EncodeAll(slice.text)| <= remaining && ShowsRange(redact, content, slice)
    ensures ShowsRedacted(redact, content, slice, matches)
    ensures ShowsWholeRange(redact, content, slice) || remaining - 3 <= |EncodeAll(slice.text)|
    ensures truncated <==> !ShowsAll(redact, content, slice) || EndsBeyond(selector, |EncodeAll(content)|)
  {
    var bytes := EncodeAll(content);
    var requestedEnd := if selector.end.Some? then selector.end.value else |bytes|;
    var cappedEnd := Min(Min(requestedEnd, selector.start + remaining), |bytes|);
    var s, e := CompleteWindow(bytes, selector.start, cappedEnd);
    ghost var i, j := WindowIsLargestRun(content, selector.start, cappedEnd, s, e);
    truncated := e - s < cappedEnd - selector.start;
    var text := Decode(bytes[s..e]);
    DecodeEncode(content[i..j]);
    WindowIsWholeRun(content, selector.start, cappedEnd, s, e, i, j);
    var redacted := redact(text);
    matches := redacted.matches;
    var shown := redacted.text;
    if |EncodeAll(shown)| > remaining {
      shown := CutToBudget(shown, remaining);
      truncated := true;
    }
    truncated := truncated || cappedEnd < requestedEnd || cappedEnd < |bytes|;
    slice := Slice(selector.artifact, selector.start, cappedEnd, shown);
    assert IsWholeRun(content, slice.start, slice.end, i, j);
    if !truncated {
      EndsAtEnd(content, j);
      assert content[i..j] == content[i..];
    }
    if ShowsAll(redact, content, slice) {
      ghost var k: nat :| k <= |content| && Offset(content, k) == slice.start && slice.text == redact(content[k..]).text;
      AllIsWhole(content, slice.start, s, e, k, i, j);
    }
  }

  function Unredacted(text: seq<Scalar>): Redaction {
    Redaction(text, 0)
  }

  lemma WholeRunOfAll(content: seq<Scalar>, i: nat, j: nat)
    requires content != [] && IsWholeRun(content, 0, |EncodeAll(content)|, i, j)
    ensures content[i..j] == content
  {
    assert content[..|content|] == content && content[..0] == [];
    SliceIsEncoded(content, 1, |content|);
    var last := |content| - 1;
    assert 0 <= Offset(content, 0) && Offset(content, 1) <= |EncodeAll(content)|;
    assert 0 <= Offset(content, last) && Offset(content, last + 1) <= |EncodeAll(content)|;
    assert i == 0 && j == |content|;
  }

  lemma WholeSliceShowsAll(content: seq<Scalar>, slice: Slice)
    requires content != [] && slice.start == 0 && slice.end == |EncodeAll(content)|
    requires ShowsWholeRange(Unredacted, content, slice)
    ensures slice.text == content && ShowsAll(Unredacted, content, slice)
  {
    var i: nat, j: nat :| IsWholeRun(content, 0, slice.end, i, j) && slice.text == Unredacted(content[i..j]).text;
    WholeRunOfAll(content, i, j);
    assert content[..0] == [] && content[0..] == content;
    assert Offset(content, 0) == slice.start && slice.text == Unredacted(content[0..]).text;
  }

  lemma NotLonger(redact: seq<Scalar> -> Redaction, content: seq<Scalar>, slice: Slice, remaining: nat)
    requires redact == Unredacted && content != [] && slice.start == 0 && slice.end == |EncodeAll(content)|
    requires ShowsRange(redact, content, slice) && |EncodeAll(content)| + 3 < remaining
    ensures |EncodeAll(slice.text)| < remaining - 3
  {
    var i: nat, j: nat :| IsWholeRun(content, 0, slice.end, i, j) && slice.text <= redact(content[i..j]).text;
    WholeRunOfAll(content, i, j);
    assert slice.text == content[..|slice.text|];
    SliceIsEncoded(content, |slice.text|, |content|);
    assert content[..|content|] == content;
  }

  /**
   The input: a range from the start of an artifact to one byte beyond its end, within the budget and with nothing to
   redact. The slice shows the whole artifact, and is flagged as truncated.
   */
  method FlaggedThoughComplete(artifact: Id, content: seq<Scalar>) returns (slice: Slice, truncated: bool)
    requires content != []
    ensures slice.text == content && truncated && ShowsAll(Unredacted, content, slice)
  {
    var length := |EncodeAll(content)|;
    assert length > 0 by {
      EncodedIsLonger(content, 0);
      assert content[..|content|] == content;
      SliceIsEncoded(content, 1, |content|);
    }
    var selector := Selector(artifact, 0, Some(length + 1));
    var matches;
    slice, truncated, matches := ReadRange(content, selector, length + 4, Unredacted);
    NotLonger(Unredacted, content, slice, length + 4);
    WholeSliceShowsAll(content, slice);
  }

  /** From a whole character to the end, the window is the whole range. */
  lemma AllIsWhole(content: seq<Scalar>, start: nat, s: nat, e: nat, k: nat, i: nat, j: nat)
    requires k <= |content| && Offset(content, k) == start < |EncodeAll(content)|
    requires IsRounded(EncodeAll(content), start, |EncodeAll(content)|, s, e)
    requires i <= j <= |content| && (s < e ==> Offset(content, i) == s && Offset(content, j) == e)
    ensures s == start && e == |EncodeAll(content)| && i == k && content[i..j] == content[k..]
  {
    OffsetIsBoundary(content, k);
    EndsAtEnd(content, j);
    SameOffset(content, i, k);
  }

  lemma SameOffset(text: seq<Scalar>, i: nat, k: nat)
    requires i <= |text| && k <= |text| && Offset(text, i) == Offset(text, k)
    ensures i == k
  {
    if i < k {
      SliceIsEncoded(text, i + 1, k);
      EncodedIsLonger(text, i);
    }
    if k < i {
      SliceIsEncoded(text, k + 1, i);
      EncodedIsLonger(text, k);
    }
  }

  lemma WindowIsWholeRun(content: seq<Scalar>, start: nat, end: nat, s: nat, e: nat, i: nat, j: nat)
    requires start <= end <= |EncodeAll(content)| && IsRounded(EncodeAll(content), start, end, s, e)
    requires i <= j <= |content| && EncodeAll(content)[s..e] == EncodeAll(content[i..j])
    requires forall k :: 0 <= k < |content| && start <= Offset(content, k) && Offset(content, k + 1) <= end ==> i <= k < j
    requires s - start <= 3 && end - e <= 3 && (s < e ==> Offset(content, i) == s && Offset(content, j) == e)
    ensures IsWholeRun(content, start, end, i, j)
  {
    if i < j {
      assert EncodeAll(content[i..j]) != [];
      assert s < e;
    }
  }

  lemma EndsAtEnd(content: seq<Scalar>, j: nat)
    requires j <= |content| && Offset(content, j) == |EncodeAll(content)|
    ensures j == |content|
  {
    assert content[..|content|] == content;
    if j < |content| {
      SliceIsEncoded(content, j + 1, |content|);
      EncodedIsLonger(content, j);
    }
  }

  /** Slices so far, each of an allowed and readable artifact. */
  ghost predicate SlicesShow(
      resolve: Id -> Option<Artifact>, redact: seq<Scalar> -> Redaction, allowed: set<Id>, slices: seq<Slice>, truncated: bool)
  {
    forall k :: 0 <= k < |slices| ==>
      && slices[k].artifact in allowed && resolve(slices[k].artifact).Some?
      && resolve(slices[k].artifact).value.disposition == READABLE
      && ShowsRange(redact, resolve(slices[k].artifact).value.content, slices[k])
      && (!truncated ==> ShowsAll(redact, resolve(slices[k].artifact).value.content, slices[k]))
  }

  lemma OneMoreSlice(
      resolve: Id -> Option<Artifact>, redact: seq<Scalar> -> Redaction, allowed: set<Id>, slices: seq<Slice>, slice: Slice,
      truncated: bool, cut: bool)
    requires SlicesShow(resolve, redact, allowed, slices, truncated) && SlicesShow(resolve, redact, allowed, [slice], cut)
    ensures SlicesShow(resolve, redact, allowed, slices + [slice], truncated || cut)
    ensures TotalBytes(slices + [slice]) == TotalBytes(slices) + |EncodeAll(slice.text)|
  {
    assert (slices + [slice])[..|slices|] == slices;
    assert slice == [slice][0];
  }

  /** What becomes of one selector; `cut` says that something of it was withheld. */
  datatype Outcome = Shown(slice: Slice, matches: nat, cut: bool) | Omitted(reason: Reason, cut: bool)

  /** Nothing of the range can be shown: no budget is left, or the range is empty within the artifact. */
  ghost predicate NothingToShow(selector: Selector, remaining: nat, length: nat) {
    remaining == 0 || length <= selector.start || (selector.end.Some? && selector.end.value <= selector.start)
  }

  ghost predicate IsShown(
      selector: Selector, remaining: nat, content: seq<Scalar>, redact: seq<Scalar> -> Redaction, slice: Slice, matches: nat,
      cut: bool)
  {
    && slice.artifact == selector.artifact && slice.start == selector.start
    && IsCappedEnd(selector, remaining, |EncodeAll(content)|, slice.end)
    && |EncodeAll(slice.text)| <= remaining && ShowsRedacted(redact, content, slice, matches)
    && (ShowsWholeRange(redact, content, slice) || remaining - 3 <= |EncodeAll(slice.text)|)
    && (cut <==> !ShowsAll(redact, content, slice) || EndsBeyond(selector, |EncodeAll(content)|))
  }

  /** What has to become of a selector when `remaining` bytes of the budget are left. */
  ghost predicate IsOutcome(
      selector: Selector, remaining: nat, resolve: Id -> Option<Artifact>, redact: seq<Scalar> -> Redaction, outcome: Outcome)
  {
    match resolve(selector.artifact)
    case None => outcome == Omitted(ARTIFACT_NOT_IN_SNAPSHOT, false)
    case Some(artifact) =>
      if artifact.disposition != READABLE then outcome == Omitted(UNREADABLE(artifact.disposition), false)
      else if NothingToShow(selector, remaining, |EncodeAll(artifact.content)|) then outcome == Omitted(BUDGET_EXCEEDED, true)
      else
        outcome.Shown? && IsShown(selector, remaining, artifact.content, redact, outcome.slice, outcome.matches, outcome.cut)
  }

  method ReadSelector(
      selector: Selector, remaining: nat, allowed: set<Id>, resolve: Id -> Option<Artifact>, redact: seq<Scalar> -> Redaction)
    returns (outcome: Outcome)
    requires selector.artifact in allowed
    ensures IsOutcome(selector, remaining, resolve, redact, outcome)
    ensures outcome.Shown? ==> SlicesShow(resolve, redact, allowed, [outcome.slice], outcome.cut)
  {
    var artifact := resolve(selector.artifact);
    if artifact == None {
      return Omitted(ARTIFACT_NOT_IN_SNAPSHOT, false);
    }
    if artifact.value.disposition != READABLE {
      return Omitted(UNREADABLE(artifact.value.disposition), false);
    }
    var cappedEnd := CappedEnd(selector, remaining, |EncodeAll(artifact.value.content)|);
    if cappedEnd <= selector.start || remaining <= 0 {
      return Omitted(BUDGET_EXCEEDED, true);
    }
    var slice, cut, matches := ReadRange(artifact.value.content, selector, remaining, redact);
    outcome := Shown(slice, matches, cut);
  }

  ghost function SlicesOf(outcomes: seq<Outcome>): seq<Slice> {
    if outcomes == [] then []
    else
      var last := outcomes[|outcomes| - 1];
      SlicesOf(outcomes[..|outcomes| - 1]) + if last.Shown? then [last.slice] else []
  }

  ghost function ReasonsOf(outcomes: seq<Outcome>): seq<Reason> {
    if outcomes == [] then []
    else
      var last := outcomes[|outcomes| - 1];
      ReasonsOf(outcomes[..|outcomes| - 1]) + if last.Omitted? then [last.reason] else []
  }

  ghost function MatchesOf(outcomes: seq<Outcome>): nat {
    if outcomes == [] then 0
    else
      var last := outcomes[|outcomes| - 1];
      MatchesOf(outcomes[..|outcomes| - 1]) + if last.Shown? then last.matches else 0
  }

  /** One outcome for each of the first selectors, in order, each within what those before it have left of the budget. */
  ghost predicate AreOutcomes(
      selectors: seq<Selector>, maxBytes: nat, resolve: Id -> Option<Artifact>, redact: seq<Scalar> -> Redaction,
      outcomes: seq<Outcome>)
  {
    if outcomes == [] then true
    else
      var init, last := outcomes[..|outcomes| - 1], outcomes[|outcomes| - 1];
      var shown := TotalBytes(SlicesOf(init));
      && AreOutcomes(selectors, maxBytes, resolve, redact, init)
      && |init| < |selectors| && shown <= maxBytes && IsOutcome(selectors[|init|], maxBytes - shown, resolve, redact, last)
  }

  lemma OneMoreOutcome(
      selectors: seq<Selector>, maxBytes: nat, resolve: Id -> Option<Artifact>, redact: seq<Scalar> -> Redaction,
      outcomes: seq<Outcome>, outcome: Outcome)
    requires AreOutcomes(selectors, maxBytes, resolve, redact, outcomes) && |outcomes| < |selectors|
    requires TotalBytes(SlicesOf(outcomes)) <= maxBytes
    requires IsOutcome(selectors[|outcomes|], maxBytes - TotalBytes(SlicesOf(outcomes)), resolve, redact, outcome)
    ensures AreOutcomes(selectors, maxBytes, resolve, redact, outcomes + [outcome])
  {
    assert (outcomes + [outcome])[..|outcomes|] == outcomes;
  }

  /** What a reading of the selectors reports. */
  ghost predicate Reports(outcomes: seq<Outcome>, slices: seq<Slice>, redactions: nat, omitted: seq<Reason>, truncated: bool) {
    && slices == SlicesOf(outcomes) && omitted == ReasonsOf(outcomes) && redactions == MatchesOf(outcomes)
    && (truncated <==> exists n :: 0 <= n < |outcomes| && outcomes[n].cut)
  }

  lemma OneMoreReported(
      outcomes: seq<Outcome>, outcome: Outcome, slices: seq<Slice>, redactions: nat, omitted: seq<Reason>, truncated: bool)
    requires Reports(outcomes, slices, redactions, omitted, truncated)
    ensures match outcome
            case Shown(slice, matches, cut) =>
              Reports(outcomes + [outcome], slices + [slice], redactions + matches, omitted, truncated || cut)
            case Omitted(reason, cut) => Reports(outcomes + [outcome], slices, redactions, omitted + [reason], truncated || cut)
  {
    var all := outcomes + [outcome];
    assert all[..|outcomes|] == outcomes;
    assert all[|outcomes|] == outcome && forall n :: 0 <= n < |outcomes| ==> all[n] == outcomes[n];
  }

  /** What holds between two selectors, with `remaining` bytes of the budget left. */
  ghost predicate ReadSoFar(
      selectors: seq<Selector>, maxBytes: nat, allowed: set<Id>, resolve: Id -> Option<Artifact>,
      redact: seq<Scalar> -> Redaction, outcomes: seq<Outcome>, slices: seq<Slice>, redactions: nat, omitted: seq<Reason>,
      truncated: bool, remaining: nat)
  {
    && AreOutcomes(selectors, maxBytes, resolve, redact, outcomes)
    && Reports(outcomes, slices, redactions, omitted, truncated)
    && TotalBytes(slices) + remaining == maxBytes && SlicesShow(resolve, redact, allowed, slices, truncated)
  }

  lemma OneMoreRead(
      selectors: seq<Selector>, maxBytes: nat, allowed: set<Id>, resolve: Id -> Option<Artifact>,
      redact: seq<Scalar> -> Redaction, outcomes: seq<Outcome>, slices: seq<Slice>, redactions: nat, omitted: seq<Reason>,
      truncated: bool, remaining: nat, outcome: Outcome)
    requires ReadSoFar(selectors, maxBytes, allowed, resolve, redact, outcomes, slices, redactions, omitted, truncated, remaining)
    requires |outcomes| < |selectors| && IsOutcome(selectors[|outcomes|], remaining, resolve, redact, outcome)
    requires outcome.Shown? ==> SlicesShow(resolve, redact, allowed, [outcome.slice], outcome.cut)
    ensures match outcome
            case Shown(slice, matches, cut) =>
              && |EncodeAll(slice.text)| <= remaining
              && ReadSoFar(selectors, maxBytes, allowed, resolve, redact, outcomes + [outcome], slices + [slice],
                           redactions + matches, omitted, truncated || cut, remaining - |EncodeAll(slice.text)|)
            case Omitted(reason, cut) =>
              ReadSoFar(selectors, maxBytes, allowed, resolve, redact, outcomes + [outcome], slices, redactions,
                        omitted + [reason], truncated || cut, remaining)
  {
    OneMoreOutcome(selectors, maxBytes, resolve, redact, outcomes, outcome);
    OneMoreReported(outcomes, outcome, slices, redactions, omitted, truncated);
    if outcome.Shown? {
      OneMoreSlice(resolve, redact, allowed, slices, outcome.slice, truncated, outcome.cut);
    }
  }

  /** What the loop keeps: the slices, redactions, omissions and flag so far, and what is left of the budget. */
  datatype Progress = Progress(slices: seq<Slice>, redactions: nat, omitted: seq<Reason>, truncated: bool, remaining: nat)

  /** The next selector. */
  method ReadNext(
      selectors: seq<Selector>, maxBytes: nat, allowed: set<Id>, resolve: Id -> Option<Artifact>,
      redact: seq<Scalar> -> Redaction, p: Progress, n: nat, ghost outcomes: seq<Outcome>)
    returns (next: Progress, ghost outcome: Outcome)
    requires n == |outcomes| < |selectors| && selectors[n].artifact in allowed
    requires ReadSoFar(selectors, maxBytes, allowed, resolve, redact, outcomes, p.slices, p.redactions, p.omitted, p.truncated, p.remaining)
    ensures ReadSoFar(selectors, maxBytes, allowed, resolve, redact, outcomes + [outcome],
                      next.slices, next.redactions, next.omitted, next.truncated, next.remaining)
  {
    var read := ReadSelector(selectors[n], p.remaining, allowed, resolve, redact);
    outcome := read;
    OneMoreRead(selectors, maxBytes, allowed, resolve, redact, outcomes, p.slices, p.redactions, p.omitted, p.truncated,
                p.remaining, outcome);
    match read
    case Shown(slice, matches, cut) =>
      next := Progress(p.slices + [slice], p.redactions + matches, p.omitted, p.truncated || cut,
                       p.remaining - |EncodeAll(slice.text)|);
    case Omitted(reason, cut) =>
      next := p.(omitted := p.omitted + [reason], truncated := p.truncated || cut);
  }

  /** The loop over the selectors. */
  method ReadSelectors(
      selectors: seq<Selector>, maxBytes: nat, allowed: set<Id>, resolve: Id -> Option<Artifact>,
      redact: seq<Scalar> -> Redaction)
    returns (slices: seq<Slice>, redactions: nat, omitted: seq<Reason>, truncated: bool, ghost outcomes: seq<Outcome>)
    requires forall s :: s in selectors ==> s.artifact in allowed
    ensures |outcomes| == |selectors| && AreOutcomes(selectors, maxBytes, resolve, redact, outcomes)
    ensures Reports(outcomes, slices, redactions, omitted, truncated)
    ensures TotalBytes(slices) <= maxBytes && SlicesShow(resolve, redact, allowed, slices, truncated)
  {
    var p := Progress([], 0, [], false, maxBytes);
    outcomes := [];
    for n := 0 to |selectors|
      invariant |outcomes| == n
      invariant ReadSoFar(selectors, maxBytes, allowed, resolve, redact, outcomes, p.slices, p.redactions, p.omitted,
                          p.truncated, p.remaining)
    {
      ghost var outcome;
      p, outcome := ReadNext(selectors, maxBytes, allowed, resolve, redact, p, n, outcomes);
      outcomes := outcomes + [outcome];
    }
    return p.slices, p.redactions, p.omitted, p.truncated, outcomes;
  }

  lemma {:induction false} NothingShown(
      selectors: seq<Selector>, maxBytes: nat, resolve: Id -> Option<Artifact>, redact: seq<Scalar> -> Redaction,
      outcomes: seq<Outcome>)
    requires AreOutcomes(selectors, maxBytes, resolve, redact, outcomes) && SlicesOf(outcomes) == []
    ensures |ReasonsOf(outcomes)| == |outcomes| && MatchesOf(outcomes) == 0
    ensures outcomes != [] ==>
              outcomes[0].Omitted? && ReasonsOf(outcomes)[0] == outcomes[0].reason != SCOPE_VIOLATION
              && outcomes[0].reason != FACT_NOT_IN_WORK_UNIT
  {
    if outcomes != [] {
      NothingShown(selectors, maxBytes, resolve, redact, outcomes[..|outcomes| - 1]);
    }
  }

  /**
   * Whatever the selectors, the artifacts and the redaction: no more than `maxBytes` are shown, and only of allowed
   * artifacts; each selector is shown or omitted for a reason, as `outcomes` has it; a complete reading withholds nothing
   * of what it shows; and the first reason that applies is the one a rejection gives.
   */
  method Read(
      selectors: seq<Selector>, maxBytes: nat, allowed: set<Id>, sameScope: bool, factsAllowed: bool,
      resolve: Id -> Option<Artifact>, redact: seq<Scalar> -> Redaction)
    returns (r: Reading, ghost outcomes: seq<Outcome>)
    ensures TotalBytes(r.slices) <= maxBytes && SlicesShow(resolve, redact, allowed, r.slices, r.truncated)
    ensures r.status.REJECTED? <==> r.slices == []
    ensures r.status == REJECTED(SCOPE_VIOLATION) <==> !sameScope || exists s :: s in selectors && s.artifact !in allowed
    ensures r.status == REJECTED(FACT_NOT_IN_WORK_UNIT) <==> r.status != REJECTED(SCOPE_VIOLATION) && !factsAllowed
    ensures r.status != REJECTED(SCOPE_VIOLATION) && r.status != REJECTED(FACT_NOT_IN_WORK_UNIT) ==>
              && |outcomes| == |selectors| && AreOutcomes(selectors, maxBytes, resolve, redact, outcomes)
              && r.slices == SlicesOf(outcomes)
              && if r.slices == [] then
                   if outcomes == [] then r.status == REJECTED(ARTIFACT_NOT_IN_SNAPSHOT)
                   else outcomes[0].Omitted? && r.status == REJECTED(outcomes[0].reason)
                 else Reports(outcomes, r.slices, r.redactions, r.omitted, r.truncated)
    ensures r.status == REDACTED <==> r.slices != [] && r.redactions > 0
    ensures r.status == TRUNCATED <==> r.slices != [] && r.redactions == 0 && r.truncated
    ensures r.status.REJECTED? ==> r == Reading(r.status, [], 0, false, [r.status.reason])
    ensures r.status == COMPLETE ==> SlicesShow(resolve, redact, allowed, r.slices, false)
  {
    outcomes := [];
    if !sameScope || exists s :: s in selectors && s.artifact !in allowed {
      return Rejected(SCOPE_VIOLATION), outcomes;
    }
    if !factsAllowed {
      return Rejected(FACT_NOT_IN_WORK_UNIT), outcomes;
    }
    var slices, redactions, omitted, truncated;
    slices, redactions, omitted, truncated, outcomes := ReadSelectors(selectors, maxBytes, allowed, resolve, redact);
    if slices == [] {
      NothingShown(selectors, maxBytes, resolve, redact, outcomes);
      return Rejected(if omitted == [] then ARTIFACT_NOT_IN_SNAPSHOT else omitted[0]), outcomes;
    }
    r := Reading(if redactions > 0 then REDACTED else if truncated then TRUNCATED else COMPLETE, slices, redactions, truncated, omitted);
  }

  function Rejected(reason: Reason): Reading {
    Reading(REJECTED(reason), [], 0, false, [reason])
  }
}
