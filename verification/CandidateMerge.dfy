/**
 Merging of candidates that share a key: what a fold over them keeps, whatever their order and however they are grouped.
 */
module CandidateMerge {
  import opened Graphs
  import opened Sorting

  datatype Level = LOW | MEDIUM | HIGH

  function Rank(level: Level): nat {
    match level
    case LOW => 1
    case MEDIUM => 2
    case HIGH => 3
  }

  function Lower(a: Level, b: Level): Level {
    if Rank(b) < Rank(a) then b else a
  }

  function Higher(a: Level, b: Level): Level {
    if Rank(a) < Rank(b) then b else a
  }

  datatype Producer = Producer(analyzer: string, usesModel: bool)

  /** Sorted arrays without duplicates are sets. */
  datatype Candidate = Candidate(key: Id, mode: string, name: string, description: string,
                                 confidence: Level, cap: Level, evidence: set<Id>, stableEvidence: set<Id>,
                                 provenance: seq<Producer>, uncertainties: seq<string>, design: map<string, string>)

  predicate HasModel(c: Candidate) {
    exists p :: p in c.provenance && p.usesModel
  }

  predicate RespectsCap(c: Candidate) {
    Rank(c.confidence) <= Rank(c.cap)
  }

  /** The distinct elements, in the order of their first occurrence. */
  function Uniq(s: seq<string>): (r: seq<string>)
    ensures forall x :: x in r <==> x in s
  {
    if s == [] then []
    else
      var init, last := s[..|s| - 1], s[|s| - 1];
      assert s == init + [last];
      if last in init then Uniq(init) else Uniq(init) + [last]
  }

  function RaisedConfidence(current: Level, candidate: Level): Level {
    if candidate == HIGH || (candidate == MEDIUM && current == LOW) then candidate else current
  }

  /** One candidate folded into the entry of its key. */
  function MergeInto(current: Candidate, candidate: Candidate): Candidate {
    var cap := if Rank(candidate.cap) < Rank(current.cap) then candidate.cap else current.cap;
    var raised := RaisedConfidence(current.confidence, candidate.confidence);
    var model := HasModel(candidate);
    current.(
      evidence := current.evidence + candidate.evidence,
      stableEvidence := current.stableEvidence + candidate.stableEvidence,
      provenance := current.provenance + candidate.provenance,
      uncertainties := Uniq(current.uncertainties + candidate.uncertainties),
      cap := cap,
      confidence := if Rank(raised) > Rank(cap) then cap else raised,
      name := if model then candidate.name else current.name,
      description := if model then candidate.description else current.description,
      design := if model then current.design + candidate.design else current.design)
  }

  function Fold(cs: seq<Candidate>): Candidate
    requires cs != []
  {
    if |cs| == 1 then cs[0] else MergeInto(Fold(cs[..|cs| - 1]), cs[|cs| - 1])
  }

  function OfKey(cs: seq<Candidate>, key: Id): (r: seq<Candidate>)
    ensures forall c :: c in r <==> c in cs && c.key == key
  {
    if cs == [] then []
    else
      var init, last := cs[..|cs| - 1], cs[|cs| - 1];
      assert cs == init + [last];
      if last.key == key then OfKey(init, key) + [last] else OfKey(init, key)
  }

  lemma {:induction false} FoldKeepsKey(cs: seq<Candidate>)
    requires cs != []
    ensures Fold(cs).key == cs[0].key && Fold(cs).mode == cs[0].mode
  {
    if |cs| > 1 {
      FoldKeepsKey(cs[..|cs| - 1]);
    }
  }

  // ---------------------------------------------------------------- the closed form

  ghost predicate IsLowestCap(cs: seq<Candidate>, level: Level) {
    (exists c :: c in cs && c.cap == level) && forall c :: c in cs ==> Rank(level) <= Rank(c.cap)
  }

  ghost predicate IsHighestConfidence(cs: seq<Candidate>, level: Level) {
    (exists c :: c in cs && c.confidence == level) && forall c :: c in cs ==> Rank(c.confidence) <= Rank(level)
  }

  ghost function AllEvidence(cs: seq<Candidate>): set<Id> {
    set c, x | c in cs && x in c.evidence :: x
  }

  ghost function AllStableEvidence(cs: seq<Candidate>): set<Id> {
    set c, x | c in cs && x in c.stableEvidence :: x
  }

  function HighestConfidence(cs: seq<Candidate>): (level: Level)
    requires cs != []
    ensures IsHighestConfidence(cs, level)
  {
    var last := cs[|cs| - 1];
    if |cs| == 1 then last.confidence
    else
      assert cs == cs[..|cs| - 1] + [last];
      Higher(HighestConfidence(cs[..|cs| - 1]), last.confidence)
  }

  lemma {:induction false} FoldLevels(cs: seq<Candidate>)
    requires cs != []
    ensures IsLowestCap(cs, Fold(cs).cap)
    ensures Fold(cs).confidence == if |cs| == 1 then cs[0].confidence else Lower(HighestConfidence(cs), Fold(cs).cap)
  {
    if |cs| > 1 {
      assert cs == cs[..|cs| - 1] + [cs[|cs| - 1]];
      FoldLevels(cs[..|cs| - 1]);
    }
  }

  lemma {:induction false} FoldEvidence(cs: seq<Candidate>)
    requires cs != []
    ensures Fold(cs).evidence == AllEvidence(cs) && Fold(cs).stableEvidence == AllStableEvidence(cs)
  {
    if |cs| > 1 {
      var init, last := cs[..|cs| - 1], cs[|cs| - 1];
      assert cs == init + [last];
      FoldEvidence(init);
      assert AllEvidence(cs) == AllEvidence(init) + last.evidence;
      assert AllStableEvidence(cs) == AllStableEvidence(init) + last.stableEvidence;
    }
  }

  /**
   The fold of several candidates has their lowest cap, their highest confidence below that cap, and all their
   evidence; a lone candidate is kept as it is.
   */
  lemma FoldClosedForm(cs: seq<Candidate>)
    requires cs != []
    ensures IsLowestCap(cs, Fold(cs).cap)
    ensures Fold(cs).confidence == if |cs| == 1 then cs[0].confidence else Lower(HighestConfidence(cs), Fold(cs).cap)
    ensures Fold(cs).evidence == AllEvidence(cs) && Fold(cs).stableEvidence == AllStableEvidence(cs)
  {
    FoldLevels(cs);
    FoldEvidence(cs);
  }

  /** The fold's confidence is the highest one below the lowest cap, unless a lone candidate exceeds its own cap. */
  lemma ConfidenceIsCappedMaximum(cs: seq<Candidate>)
    requires cs != []
    ensures Fold(cs).confidence == Lower(HighestConfidence(cs), Fold(cs).cap) <==> |cs| > 1 || RespectsCap(cs[0])
    ensures |cs| > 1 ==> RespectsCap(Fold(cs))
  {
    FoldClosedForm(cs);
  }

  lemma SameLowestCap(cs: seq<Candidate>, ds: seq<Candidate>, a: Level, b: Level)
    requires forall c :: c in cs <==> c in ds
    requires IsLowestCap(cs, a) && IsLowestCap(ds, b)
    ensures a == b
  {
  }

  lemma SameHighestConfidence(cs: seq<Candidate>, ds: seq<Candidate>, a: Level, b: Level)
    requires forall c :: c in cs <==> c in ds
    requires IsHighestConfidence(cs, a) && IsHighestConfidence(ds, b)
    ensures a == b
  {
  }

  /** The order of the candidates does not matter for cap, confidence and evidence. */
  lemma FoldIsOrderFree(cs: seq<Candidate>, ds: seq<Candidate>)
    requires cs != [] && multiset(cs) == multiset(ds)
    ensures ds != [] && Fold(cs).cap == Fold(ds).cap && Fold(cs).confidence == Fold(ds).confidence
    ensures Fold(cs).evidence == Fold(ds).evidence && Fold(cs).stableEvidence == Fold(ds).stableEvidence
  {
    assert |multiset(cs)| == |cs| && |multiset(ds)| == |ds|;
    forall c
      ensures c in cs <==> c in ds
    {
      assert c in multiset(cs) <==> c in multiset(ds);
    }
    FoldClosedForm(cs);
    FoldClosedForm(ds);
    SameLowestCap(cs, ds, Fold(cs).cap, Fold(ds).cap);
    SameHighestConfidence(cs, ds, HighestConfidence(cs), HighestConfidence(ds));
    if |cs| == 1 {
      assert cs[0] in ds;
    }
  }

  // ---------------------------------------------------------------- names, lists and details

  /** Some producer of the candidate used a model. */
  ghost predicate ComesFromModel(c: Candidate) {
    exists k :: 0 <= k < |c.provenance| && c.provenance[k].usesModel
  }

  lemma MergedTexts(current: Candidate, candidate: Candidate, k: string)
    ensures var merged := MergeInto(current, candidate);
      && merged.name == (if ComesFromModel(candidate) then candidate.name else current.name)
      && merged.description == (if ComesFromModel(candidate) then candidate.description else current.description)
      && if ComesFromModel(candidate) && k in candidate.design then
           k in merged.design && merged.design[k] == candidate.design[k]
         else (k in merged.design <==> k in current.design) && (k in merged.design ==> merged.design[k] == current.design[k])
  {
  }

  /** `cs[i]` is the last candidate of a model after the first one; without one, the first. */
  ghost predicate SpeaksLast(cs: seq<Candidate>, i: nat) {
    i < |cs| && (i > 0 ==> ComesFromModel(cs[i])) && forall j :: i < j < |cs| ==> !ComesFromModel(cs[j])
  }

  lemma SpeaksLastOf(cs: seq<Candidate>, i: nat)
    requires |cs| > 1 && SpeaksLast(cs[..|cs| - 1], i)
    ensures SpeaksLast(cs, if ComesFromModel(cs[|cs| - 1]) then |cs| - 1 else i)
  {
  }

  /** The last candidate of a model after the first one gives name and description; without one, the first candidate does. */
  lemma {:induction false} FoldTexts(cs: seq<Candidate>) returns (i: nat)
    requires cs != []
    ensures SpeaksLast(cs, i) && Fold(cs).name == cs[i].name && Fold(cs).description == cs[i].description
  {
    i := 0;
    if |cs| > 1 {
      var last := |cs| - 1;
      i := FoldTexts(cs[..last]);
      SpeaksLastOf(cs, i);
      MergedTexts(Fold(cs[..last]), cs[last], "");
      i := if ComesFromModel(cs[last]) then last else i;
    }
  }

  /** `cs[i]` is the last of the candidates that decide about detail `k`: the first one, and those of models. */
  ghost predicate DecidesDetail(cs: seq<Candidate>, k: string, i: nat) {
    && (i < |cs| ==> k in cs[i].design && (i > 0 ==> ComesFromModel(cs[i])))
    && forall j :: 0 <= j < |cs| && (i < |cs| ==> i < j) && k in cs[j].design ==> j > 0 && !ComesFromModel(cs[j])
  }

  lemma DecidesDetailOf(cs: seq<Candidate>, k: string, i: nat) returns (next: nat)
    requires |cs| > 1 && DecidesDetail(cs[..|cs| - 1], k, i)
    ensures DecidesDetail(cs, k, next)
    ensures next == if ComesFromModel(cs[|cs| - 1]) && k in cs[|cs| - 1].design then |cs| - 1
                    else if i < |cs| - 1 then i else |cs|
  {
    next := if ComesFromModel(cs[|cs| - 1]) && k in cs[|cs| - 1].design then |cs| - 1 else if i < |cs| - 1 then i else |cs|;
  }

  /** A detail of the design is what the last of these candidates that speaks of it says, if any does. */
  lemma {:induction false} FoldDetail(cs: seq<Candidate>, k: string) returns (i: nat)
    requires cs != []
    ensures DecidesDetail(cs, k, i) && (k in Fold(cs).design <==> i < |cs|)
    ensures i < |cs| ==> Fold(cs).design[k] == cs[i].design[k]
  {
    if |cs| == 1 {
      i := if k in cs[0].design then 0 else 1;
    } else {
      MergedTexts(Fold(cs[..|cs| - 1]), cs[|cs| - 1], k);
      i := FoldDetail(cs[..|cs| - 1], k);
      i := DecidesDetailOf(cs, k, i);
    }
  }

  ghost function AllProvenance(cs: seq<Candidate>): seq<Producer> {
    if cs == [] then [] else AllProvenance(cs[..|cs| - 1]) + cs[|cs| - 1].provenance
  }

  ghost function AllUncertainties(cs: seq<Candidate>): seq<string> {
    if cs == [] then [] else AllUncertainties(cs[..|cs| - 1]) + cs[|cs| - 1].uncertainties
  }

  /** `r` is `s` at the positions: those of the first occurrences of its elements. */
  ghost predicate AreFirstOccurrences(s: seq<string>, r: seq<string>, at: seq<nat>) {
    && |r| == |at| && (forall j, k :: 0 <= j < k < |at| ==> at[j] < at[k])
    && (forall k :: 0 <= k < |at| ==> at[k] < |s| && r[k] == s[at[k]] && r[k] !in s[..at[k]])
    && forall x :: x in s ==> x in r
  }

  lemma StillFirst(init: seq<string>, last: string, r: seq<string>, at: seq<nat>)
    requires AreFirstOccurrences(init, r, at)
    ensures forall k :: 0 <= k < |at| ==> at[k] < |init| && (init + [last])[..at[k]] == init[..at[k]]
    ensures last in init ==> AreFirstOccurrences(init + [last], r, at)
  {
    forall k | 0 <= k < |at|
      ensures at[k] < |init| && (init + [last])[..at[k]] == init[..at[k]]
    {
    }
  }

  lemma FirstOfAll(init: seq<string>, last: string, r: seq<string>, at: seq<nat>)
    requires AreFirstOccurrences(init, r, at) && last !in init && (forall x :: x in r ==> x in init)
    ensures AreFirstOccurrences(init + [last], r + [last], at + [|init|])
  {
    StillFirst(init, last, r, at);
    assert (init + [last])[..|init|] == init;
  }

  lemma {:induction false} UniqIsFirstOccurrences(s: seq<string>) returns (at: seq<nat>)
    ensures AreFirstOccurrences(s, Uniq(s), at)
  {
    if s == [] {
      at := [];
    } else {
      var init, last := s[..|s| - 1], s[|s| - 1];
      assert s == init + [last];
      at := UniqIsFirstOccurrences(init);
      if last in init {
        StillFirst(init, last, Uniq(init), at);
      } else {
        FirstOfAll(init, last, Uniq(init), at);
        at := at + [|init|];
      }
    }
  }

  /** Producers are listed one after the other, uncertainties each once, both in the order of the candidates. */
  lemma {:induction false} FoldLists(cs: seq<Candidate>)
    requires cs != []
    ensures Fold(cs).provenance == AllProvenance(cs)
    ensures Fold(cs).uncertainties == if |cs| == 1 then cs[0].uncertainties else Uniq(AllUncertainties(cs))
  {
    if |cs| == 1 {
      assert cs[..0] == [];
    } else {
      var init, last := cs[..|cs| - 1], cs[|cs| - 1];
      FoldLists(init);
      assert |init| == 1 ==> init[..0] == [] && AllUncertainties(init) == init[0].uncertainties;
      UniqOfUniq(AllUncertainties(init), last.uncertainties);
    }
  }

  // ---------------------------------------------------------------- grouping

  ghost predicate SameButDesign(a: Candidate, b: Candidate) {
    a.(design := map[]) == b.(design := map[])
  }

  lemma {:induction false} UniqOfUniq(a: seq<string>, b: seq<string>)
    ensures Uniq(Uniq(a) + b) == Uniq(a + b)
    decreases |b|
  {
    if b == [] {
      assert Uniq(a) + b == Uniq(a) && a + b == a;
      UniqIdempotent(a);
    } else {
      var init, last := b[..|b| - 1], b[|b| - 1];
      UniqOfUniq(a, init);
      assert (Uniq(a) + b)[..|Uniq(a) + b| - 1] == Uniq(a) + init;
      assert (a + b)[..|a + b| - 1] == a + init;
    }
  }

  lemma {:induction false} UniqIdempotent(a: seq<string>)
    ensures Uniq(Uniq(a)) == Uniq(a)
  {
    if a != [] {
      var init, last := a[..|a| - 1], a[|a| - 1];
      UniqIdempotent(init);
      if last !in init {
        assert (Uniq(init) + [last])[..|Uniq(init)|] == Uniq(init);
      }
    }
  }

  lemma UniqOneMore(s: seq<string>, x: string)
    ensures Uniq(s + [x]) == if x in s then Uniq(s) else Uniq(s) + [x]
  {
    assert (s + [x])[..|s|] == s;
  }

  lemma {:induction false} UniqBeforeUniq(a: seq<string>, b: seq<string>)
    ensures Uniq(a + Uniq(b)) == Uniq(a + b)
    decreases |b|
  {
    if b != [] {
      var init, last := b[..|b| - 1], b[|b| - 1];
      UniqBeforeUniq(a, init);
      assert a + b == a + init + [last];
      UniqOneMore(a + init, last);
      if last !in init {
        assert a + (Uniq(init) + [last]) == a + Uniq(init) + [last];
        UniqOneMore(a + Uniq(init), last);
      }
    }
  }

  lemma {:induction false} UniqAssociative(x: seq<string>, y: seq<string>, z: seq<string>)
    ensures Uniq(Uniq(x + y) + z) == Uniq(x + Uniq(y + z))
  {
    UniqOfUniq(x + y, z);
    UniqBeforeUniq(x, y + z);
    ConcatAssociative(x, y, z);
  }

  lemma ConcatAssociative<T>(x: seq<T>, y: seq<T>, z: seq<T>)
    ensures (x + y) + z == x + (y + z)
  {
  }

  lemma ListsAssociate(x: Candidate, y: Candidate, z: Candidate, left: Candidate, right: Candidate)
    requires left == MergeInto(MergeInto(x, y), z) && right == MergeInto(x, MergeInto(y, z))
    ensures left.provenance == right.provenance && left.uncertainties == right.uncertainties
    ensures left.evidence == right.evidence && left.stableEvidence == right.stableEvidence
  {
    UniqAssociative(x.uncertainties, y.uncertainties, z.uncertainties);
    ConcatAssociative(x.provenance, y.provenance, z.provenance);
  }

  lemma LevelsAssociate(x: Candidate, y: Candidate, z: Candidate, left: Candidate, right: Candidate)
    requires left == MergeInto(MergeInto(x, y), z) && right == MergeInto(x, MergeInto(y, z))
    ensures left.cap == right.cap && left.confidence == right.confidence
  {
  }

  lemma NamesAssociate(x: Candidate, y: Candidate, z: Candidate, left: Candidate, right: Candidate)
    requires left == MergeInto(MergeInto(x, y), z) && right == MergeInto(x, MergeInto(y, z))
    ensures left.name == right.name && left.description == right.description
    ensures left.key == right.key && left.mode == right.mode
  {
    assert HasModel(MergeInto(y, z)) <==> HasModel(y) || HasModel(z);
  }

  /**
   Apart from the design, folding one after the other is the same as folding a fold. The designs are the same as well
   exactly if `y` comes from a model, or no model speaks in `z`, or what `y` says and `z` does not stands in `x` already.
   */
  lemma MergeIsAssociative(x: Candidate, y: Candidate, z: Candidate, left: Candidate, right: Candidate)
    requires left == MergeInto(MergeInto(x, y), z) && right == MergeInto(x, MergeInto(y, z))
    ensures SameButDesign(left, right)
    ensures left.design == right.design <==>
            || HasModel(y) || !HasModel(z)
            || forall k :: k in y.design && k !in z.design ==> k in x.design && x.design[k] == y.design[k]
  {
    ListsAssociate(x, y, z, left, right);
    LevelsAssociate(x, y, z, left, right);
    NamesAssociate(x, y, z, left, right);
    DesignsAssociate(x, y, z, left, right);
  }

  lemma DesignsAssociate(x: Candidate, y: Candidate, z: Candidate, left: Candidate, right: Candidate)
    requires left == MergeInto(MergeInto(x, y), z) && right == MergeInto(x, MergeInto(y, z))
    ensures left.design == right.design <==>
            || HasModel(y) || !HasModel(z)
            || forall k :: k in y.design && k !in z.design ==> k in x.design && x.design[k] == y.design[k]
  {
    assert HasModel(MergeInto(y, z)) <==> HasModel(y) || HasModel(z);
    LayersAssociate(x.design, y.design, z.design);
    MiddleLayer(x.design, y.design, z.design);
  }

  lemma LayersAssociate(a: map<string, string>, b: map<string, string>, c: map<string, string>)
    ensures (a + b) + c == a + (b + c)
  {
  }

  /** A layer in between makes no difference exactly if what shows of it is what would show without it. */
  lemma MiddleLayer(x: map<string, string>, y: map<string, string>, z: map<string, string>)
    ensures x + z == x + (y + z) <==> forall k :: k in y && k !in z ==> k in x && x[k] == y[k]
  {
    if x + z == x + (y + z) {
      forall k | k in y && k !in z
        ensures k in x && x[k] == y[k]
      {
        assert k in x + (y + z) && (x + (y + z))[k] == y[k];
        assert k in x + z && (x + z)[k] == y[k];
      }
    }
  }

  lemma SameUpToDesign(a: Candidate, b: Candidate)
    requires SameButDesign(a, b)
    ensures a == b <==> a.design == b.design
  {
    if a.design == b.design {
      assert a == a.(design := map[]).(design := a.design) == b.(design := map[]).(design := a.design) == b;
    }
  }

  lemma MergeRespectsSameness(a: Candidate, a': Candidate, b: Candidate, b': Candidate)
    requires SameButDesign(a, a') && SameButDesign(b, b')
    ensures SameButDesign(MergeInto(a, b), MergeInto(a', b'))
  {
    assert a.(design := map[]).provenance == a.provenance && a'.(design := map[]).provenance == a'.provenance;
    assert b.(design := map[]).provenance == b.provenance && b'.(design := map[]).provenance == b'.provenance;
  }

  lemma {:induction false} FoldOfConcat(a: seq<Candidate>, b: seq<Candidate>)
    requires a != [] && b != []
    ensures SameButDesign(Fold(a + b), MergeInto(Fold(a), Fold(b)))
    decreases |b|
  {
    var init, last := b[..|b| - 1], b[|b| - 1];
    assert (a + b)[..|a + b| - 1] == a + init;
    if init == [] {
      assert a + init == a;
    } else {
      FoldOfConcat(a, init);
      MergeRespectsSameness(Fold(a + init), MergeInto(Fold(a), Fold(init)), last, last);
      MergeIsAssociative(Fold(a), Fold(init), last, MergeInto(MergeInto(Fold(a), Fold(init)), last), MergeInto(Fold(a), Fold(b)));
    }
  }

  function Flatten(units: seq<seq<Candidate>>): seq<Candidate> {
    if units == [] then [] else Flatten(units[..|units| - 1]) + units[|units| - 1]
  }

  predicate NoneEmpty(groups: seq<seq<Candidate>>) {
    forall j :: 0 <= j < |groups| ==> groups[j] != []
  }

  /** The candidates of one key in the units that have any, in unit order. */
  function Groups(units: seq<seq<Candidate>>, key: Id): (groups: seq<seq<Candidate>>)
    ensures NoneEmpty(groups)
  {
    if units == [] then []
    else
      var earlier, own := Groups(units[..|units| - 1], key), OfKey(units[|units| - 1], key);
      if own == [] then earlier else earlier + [own]
  }

  function Folds(groups: seq<seq<Candidate>>): (folds: seq<Candidate>)
    requires NoneEmpty(groups)
    ensures |folds| == |groups|
  {
    if groups == [] then [] else Folds(groups[..|groups| - 1]) + [Fold(groups[|groups| - 1])]
  }

  lemma {:induction false} OfKeyOfConcat(a: seq<Candidate>, b: seq<Candidate>, key: Id)
    ensures OfKey(a + b, key) == OfKey(a, key) + OfKey(b, key)
    decreases |b|
  {
    if b == [] {
      assert a + b == a;
    } else {
      OfKeyOfConcat(a, b[..|b| - 1], key);
      assert (a + b)[..|a + b| - 1] == a + b[..|b| - 1];
    }
  }

  lemma {:induction false} GroupsFlatten(units: seq<seq<Candidate>>, key: Id)
    ensures Flatten(Groups(units, key)) == OfKey(Flatten(units), key)
  {
    if units != [] {
      var init, last := units[..|units| - 1], units[|units| - 1];
      GroupsFlatten(init, key);
      OfKeyOfConcat(Flatten(init), last, key);
      if OfKey(last, key) == [] {
        assert OfKey(Flatten(init), key) + [] == OfKey(Flatten(init), key);
      } else {
        FlattenOneMore(Groups(init, key), OfKey(last, key));
      }
    }
  }

  lemma FlattenOneMore(groups: seq<seq<Candidate>>, last: seq<Candidate>)
    ensures Flatten(groups + [last]) == Flatten(groups) + last
  {
    assert (groups + [last])[..|groups|] == groups;
  }

  /** Merging inside every group and then across the groups is one flat merge, apart from the design. */
  lemma {:induction false} MergingPerUnitIsFlat(groups: seq<seq<Candidate>>)
    requires groups != [] && NoneEmpty(groups)
    ensures Flatten(groups) != [] && SameButDesign(Fold(Folds(groups)), Fold(Flatten(groups)))
  {
    var init, last := groups[..|groups| - 1], groups[|groups| - 1];
    if init == [] {
      assert Flatten(init) == [] && Flatten(groups) == [] + last == last;
    } else {
      MergingPerUnitIsFlat(init);
      FoldOfConcat(Flatten(init), last);
      FoldOfConcat(Folds(init), [Fold(last)]);
      MergeRespectsSameness(Fold(Folds(init)), Fold(Flatten(init)), Fold(last), Fold(last));
    }
  }

  // ---------------------------------------------------------------- designs

  predicate AnyModel(cs: seq<Candidate>) {
    exists c :: c in cs && HasModel(c)
  }

  /** What the candidates of models say, later ones over earlier ones. */
  function ModelDesign(cs: seq<Candidate>): map<string, string> {
    if cs == [] then map[]
    else
      var earlier, last := ModelDesign(cs[..|cs| - 1]), cs[|cs| - 1];
      if HasModel(last) then earlier + last.design else earlier
  }

  lemma {:induction false} ModelDesignOfConcat(a: seq<Candidate>, b: seq<Candidate>)
    ensures ModelDesign(a + b) == ModelDesign(a) + ModelDesign(b)
    decreases |b|
  {
    if b == [] {
      assert a + b == a;
    } else {
      ModelDesignOfConcat(a, b[..|b| - 1]);
      assert (a + b)[..|a + b| - 1] == a + b[..|b| - 1];
    }
  }

  lemma {:induction false} SilentWithoutModel(cs: seq<Candidate>)
    requires !AnyModel(cs)
    ensures ModelDesign(cs) == map[]
  {
    if cs != [] {
      assert cs[|cs| - 1] in cs;
      SilentWithoutModel(cs[..|cs| - 1]);
    }
  }

  /** The first candidate's design, and over it what the models among the others say. */
  function DesignOf(cs: seq<Candidate>): map<string, string>
    requires cs != []
  {
    cs[0].design + ModelDesign(cs[1..])
  }

  lemma DesignOfConcat(a: seq<Candidate>, b: seq<Candidate>)
    requires a != []
    ensures DesignOf(a + b) == DesignOf(a) + ModelDesign(b)
  {
    assert (a + b)[1..] == a[1..] + b;
    ModelDesignOfConcat(a[1..], b);
    LayersAssociate(a[0].design, ModelDesign(a[1..]), ModelDesign(b));
  }

  lemma ModelDesignOfOne(c: Candidate)
    ensures ModelDesign([c]) == if HasModel(c) then c.design else map[]
  {
    assert [c][..0] == [];
  }

  lemma {:induction false} FoldDesign(cs: seq<Candidate>)
    requires cs != []
    ensures Fold(cs).design == DesignOf(cs)
  {
    if |cs| > 1 {
      var init, last := cs[..|cs| - 1], cs[|cs| - 1];
      FoldDesign(init);
      DesignOfConcat(init, [last]);
      ModelDesignOfOne(last);
      assert cs == init + [last];
    }
  }

  lemma {:induction false} FoldHasModel(cs: seq<Candidate>)
    requires cs != []
    ensures HasModel(Fold(cs)) <==> AnyModel(cs)
  {
    if |cs| > 1 {
      var init, last := cs[..|cs| - 1], cs[|cs| - 1];
      FoldHasModel(init);
      assert cs == init + [last];
      assert HasModel(Fold(cs)) <==> HasModel(Fold(init)) || HasModel(last);
    }
  }

  /**
   The details that a group of candidates shows once it has been merged, and would not show in a flat merge: those its
   first candidate has from no model, if a model speaks after it, but not of them.
   */
  function Leaked(group: seq<Candidate>): map<string, string>
    requires group != []
  {
    if AnyModel(group) && !HasModel(group[0]) then group[0].design - ModelDesign(group).Keys else map[]
  }

  lemma MergedGroupDesign(group: seq<Candidate>)
    requires group != [] && AnyModel(group)
    ensures DesignOf(group) == Leaked(group) + ModelDesign(group)
  {
    ModelDesignOfConcat([group[0]], group[1..]);
    ModelDesignOfOne(group[0]);
    assert [group[0]] + group[1..] == group;
  }

  predicate SameDetail(a: map<string, string>, b: map<string, string>, k: string) {
    (k in a <==> k in b) && (k in a ==> a[k] == b[k])
  }

  /**
   The last of the later groups that speaks of `k` decides: a model does, or what leaks from it is what the flat merge
   of all groups before it shows.
   */
  predicate DetailAgrees(groups: seq<seq<Candidate>>, k: string)
    requires NoneEmpty(groups)
  {
    if |groups| <= 1 then true
    else
      var init, last := groups[..|groups| - 1], groups[|groups| - 1];
      if k in ModelDesign(last) then true
      else if k in Leaked(last) then ShownBefore(Flatten(init), k, Leaked(last)[k])
      else DetailAgrees(init, k)
  }

  ghost predicate AllDetailsAgree(groups: seq<seq<Candidate>>)
    requires NoneEmpty(groups)
  {
    forall k :: DetailAgrees(groups, k)
  }

  predicate ShownBefore(cs: seq<Candidate>, k: string, detail: string) {
    cs != [] && k in DesignOf(cs) && DesignOf(cs)[k] == detail
  }

  lemma FlatWithOneMoreGroup(flat: seq<Candidate>, last: seq<Candidate>)
    requires flat != [] && last != []
    ensures Fold(flat + last).design == Fold(flat).design + ModelDesign(last)
  {
    FoldDesign(flat);
    FoldDesign(flat + last);
    DesignOfConcat(flat, last);
  }

  lemma FoldsWithOneMoreGroup(folds: seq<Candidate>, last: seq<Candidate>)
    requires folds != [] && last != []
    ensures Fold(folds + [Fold(last)]).design == Fold(folds).design + (Leaked(last) + ModelDesign(last))
  {
    assert (folds + [Fold(last)])[..|folds|] == folds;
    FoldDesign(last);
    FoldHasModel(last);
    if AnyModel(last) {
      MergedGroupDesign(last);
    } else {
      SilentWithoutModel(last);
      assert Leaked(last) + ModelDesign(last) == map[];
    }
  }

  /** One more layer of models' details `said` on both sides, over details `leaked` on one of them. */
  lemma DetailAfter(flat: map<string, string>, twice: map<string, string>, leaked: map<string, string>,
                    said: map<string, string>, k: string)
    ensures SameDetail(twice + (leaked + said), flat + said, k) <==>
            if k in said then true
            else if k in leaked then k in flat && flat[k] == leaked[k]
            else SameDetail(twice, flat, k)
  {
  }

  lemma {:induction false} DetailsAgree(groups: seq<seq<Candidate>>, k: string)
    requires groups != [] && NoneEmpty(groups)
    ensures Flatten(groups) != []
    ensures SameDetail(Fold(Folds(groups)).design, Fold(Flatten(groups)).design, k) <==> DetailAgrees(groups, k)
  {
    var init, last := groups[..|groups| - 1], groups[|groups| - 1];
    if init == [] {
      assert Flatten(groups) == last;
    } else {
      DetailsAgree(init, k);
      FlatWithOneMoreGroup(Flatten(init), last);
      FoldsWithOneMoreGroup(Folds(init), last);
      FoldDesign(Flatten(init));
      DetailAfter(Fold(Flatten(init)).design, Fold(Folds(init)).design, Leaked(last), ModelDesign(last), k);
    }
  }

  lemma SameDetailsSameDesign(a: map<string, string>, b: map<string, string>)
    requires forall k :: SameDetail(a, b, k)
    ensures a == b
  {
    forall k
      ensures (k in a <==> k in b) && (k in a ==> a[k] == b[k])
    {
      assert SameDetail(a, b, k);
    }
  }

  /** Merging merges gives the candidate of the flat merge exactly if the groups agree on every detail. */
  lemma DesignsAgree(groups: seq<seq<Candidate>>)
    requires groups != [] && NoneEmpty(groups)
    ensures Flatten(groups) != []
    ensures Fold(Folds(groups)) == Fold(Flatten(groups)) <==> AllDetailsAgree(groups)
  {
    MergingPerUnitIsFlat(groups);
    var twice, flat := Fold(Folds(groups)), Fold(Flatten(groups));
    SameUpToDesign(twice, flat);
    forall k
      ensures SameDetail(twice.design, flat.design, k) <==> DetailAgrees(groups, k)
    {
      DetailsAgree(groups, k);
    }
    if AllDetailsAgree(groups) {
      forall k
        ensures SameDetail(twice.design, flat.design, k)
      {
        assert DetailAgrees(groups, k);
      }
      SameDetailsSameDesign(twice.design, flat.design);
    }
    if twice == flat {
      forall k
        ensures DetailAgrees(groups, k)
      {
        assert SameDetail(twice.design, flat.design, k);
      }
    }
  }

  /** Nothing leaks where each later group begins with a candidate of a model or has none. */
  lemma {:induction false} NothingLeaks(groups: seq<seq<Candidate>>, k: string)
    requires NoneEmpty(groups)
    requires forall j :: 1 <= j < |groups| ==> HasModel(groups[j][0]) || !AnyModel(groups[j])
    ensures DetailAgrees(groups, k)
  {
    if |groups| > 1 {
      NothingLeaks(groups[..|groups| - 1], k);
    }
  }

  // ---------------------------------------------------------------- the merge

  /** The comparison of the result's order. */
  function ByModeThenName(localeLe: (string, string) -> bool, a: Candidate, b: Candidate): bool {
    if localeLe(a.mode, b.mode) && localeLe(b.mode, a.mode) then localeLe(a.name, b.name) else localeLe(a.mode, b.mode)
  }

  /** By mode, and by name within one mode. */
  ghost predicate AreInOrder(cs: seq<Candidate>, localeLe: (string, string) -> bool) {
    forall i, j :: 0 <= i < j < |cs| ==>
      localeLe(cs[i].mode, cs[j].mode) && (localeLe(cs[j].mode, cs[i].mode) ==> localeLe(cs[i].name, cs[j].name))
  }

  lemma OrderIsPreorder(localeLe: (string, string) -> bool)
    requires TotalPreorder(localeLe)
    ensures TotalPreorder((a, b) => ByModeThenName(localeLe, a, b))
  {
  }

  lemma SortedIsInOrder(cs: seq<Candidate>, localeLe: (string, string) -> bool)
    requires TotalPreorder(localeLe) && SortedBy(cs, (a, b) => ByModeThenName(localeLe, a, b))
    ensures AreInOrder(cs, localeLe)
  {
    forall i, j | 0 <= i < j < |cs|
      ensures localeLe(cs[i].mode, cs[j].mode) && (localeLe(cs[j].mode, cs[i].mode) ==> localeLe(cs[i].name, cs[j].name))
    {
      assert ByModeThenName(localeLe, cs[i], cs[j]);
    }
  }

  /** `merged` holds one candidate for each key of `cs`, the fold of the candidates with that key. */
  ghost predicate IsMergeOf(cs: seq<Candidate>, merged: seq<Candidate>) {
    && (forall i, j :: 0 <= i < j < |merged| ==> merged[i].key != merged[j].key)
    && (forall c :: c in merged ==> OfKey(cs, c.key) != [] && c == Fold(OfKey(cs, c.key)))
    && (forall c :: c in cs ==> exists m :: m in merged && m.key == c.key)
  }

  ghost predicate EntriesFold(entries: map<Id, Candidate>, cs: seq<Candidate>) {
    forall k :: FoldsAt(entries, cs, k)
  }

  ghost predicate FoldsAt(entries: map<Id, Candidate>, cs: seq<Candidate>, k: Id) {
    (k in entries <==> OfKey(cs, k) != []) && (k in entries ==> entries[k] == Fold(OfKey(cs, k)))
  }

  lemma EntryAfterOneMore(cs: seq<Candidate>, c: Candidate, k: Id)
    ensures OfKey(cs + [c], k) == if c.key == k then OfKey(cs, k) + [c] else OfKey(cs, k)
    ensures c.key == k && OfKey(cs, k) != [] ==> Fold(OfKey(cs + [c], k)) == MergeInto(Fold(OfKey(cs, k)), c)
  {
    assert (cs + [c])[..|cs|] == cs;
    assert (OfKey(cs, k) + [c])[..|OfKey(cs, k)|] == OfKey(cs, k);
  }

  /** The keys in the order of their first candidates. */
  ghost predicate Indexes(order: seq<Id>, entries: map<Id, Candidate>) {
    NoDuplicates(order) && forall k :: k in order <==> k in entries
  }

  function Entered(entries: map<Id, Candidate>, c: Candidate): map<Id, Candidate> {
    entries[c.key := if c.key in entries then MergeInto(entries[c.key], c) else c]
  }

  lemma OneMoreEntryAt(entries: map<Id, Candidate>, cs: seq<Candidate>, c: Candidate, k: Id)
    requires FoldsAt(entries, cs, k)
    ensures FoldsAt(Entered(entries, c), cs + [c], k)
  {
    EntryAfterOneMore(cs, c, k);
    if k == c.key && k !in entries {
      assert OfKey(cs + [c], k) == [c];
    }
  }

  lemma OneMoreEntry(entries: map<Id, Candidate>, order: seq<Id>, cs: seq<Candidate>, c: Candidate)
    requires EntriesFold(entries, cs) && Indexes(order, entries)
    ensures EntriesFold(Entered(entries, c), cs + [c])
    ensures Indexes(if c.key in entries then order else order + [c.key], Entered(entries, c))
  {
    forall k
      ensures FoldsAt(Entered(entries, c), cs + [c], k)
    {
      assert FoldsAt(entries, cs, k);
      OneMoreEntryAt(entries, cs, c, k);
    }
  }

  method MergeCandidates(cs: seq<Candidate>, localeLe: (string, string) -> bool) returns (result: seq<Candidate>)
    ensures IsMergeOf(cs, result)
    ensures TotalPreorder(localeLe) ==> AreInOrder(result, localeLe)
  {
    var merged: map<Id, Candidate> := map[];
    var order: seq<Id> := [];
    for i := 0 to |cs|
      invariant EntriesFold(merged, cs[..i]) && Indexes(order, merged)
    {
      var candidate := cs[i];
      assert cs[..i + 1] == cs[..i] + [candidate];
      OneMoreEntry(merged, order, cs[..i], candidate);
      if candidate.key !in merged {
        merged := merged[candidate.key := candidate];
        order := order + [candidate.key];
      } else {
        merged := merged[candidate.key := MergeInto(merged[candidate.key], candidate)];
      }
    }
    assert cs[..|cs|] == cs;
    var values := Values(merged, order);
    result := Sort(values, (a, b) => ByModeThenName(localeLe, a, b));
    SortedValuesMerge(cs, merged, order, values, result, (a, b) => ByModeThenName(localeLe, a, b));
    if TotalPreorder(localeLe) {
      OrderIsPreorder(localeLe);
      SortedIsInOrder(result, localeLe);
    }
  }

  /** The entries in insertion order. */
  function Values(merged: map<Id, Candidate>, order: seq<Id>): (values: seq<Candidate>)
    requires forall k :: k in order ==> k in merged
    ensures |values| == |order| && forall i :: 0 <= i < |order| ==> values[i] == merged[order[i]]
  {
    seq(|order|, i requires 0 <= i < |order| => assert order[i] in order; merged[order[i]])
  }

  lemma EntriesKeepKeys(cs: seq<Candidate>, merged: map<Id, Candidate>)
    requires EntriesFold(merged, cs)
    ensures forall k :: k in merged ==> merged[k].key == k
  {
    forall k | k in merged
      ensures merged[k].key == k
    {
      assert FoldsAt(merged, cs, k);
      FoldKeepsKey(OfKey(cs, k));
      assert OfKey(cs, k)[0] in OfKey(cs, k);
    }
  }

  lemma SortedValuesMerge(cs: seq<Candidate>, merged: map<Id, Candidate>, order: seq<Id>, values: seq<Candidate>,
                          result: seq<Candidate>, le: (Candidate, Candidate) -> bool)
    requires EntriesFold(merged, cs) && Indexes(order, merged)
    requires values == Values(merged, order) && result == Sort(values, le)
    ensures IsMergeOf(cs, result)
    ensures TotalPreorder(le) ==> SortedBy(result, le)
  {
    EntriesKeepKeys(cs, merged);
    forall i, j | 0 <= i < j < |values|
      ensures values[i] != values[j]
    {
      assert order[i] != order[j] && order[i] in order && order[j] in order;
    }
    SortKeepsElements(values, le);
    forall c | c in result
      ensures OfKey(cs, c.key) != [] && c == Fold(OfKey(cs, c.key)) && c.key in merged && c == merged[c.key]
    {
      var i :| 0 <= i < |values| && values[i] == c;
      assert order[i] in order;
      assert FoldsAt(merged, cs, order[i]);
    }
    forall i, j | 0 <= i < j < |result|
      ensures result[i].key != result[j].key
    {
      assert result[i] in result && result[j] in result && result[i] != result[j];
    }
    forall c | c in cs
      ensures exists m :: m in result && m.key == c.key
    {
      assert c in OfKey(cs, c.key) && FoldsAt(merged, cs, c.key);
      assert c.key in order;
      var i :| 0 <= i < |order| && order[i] == c.key;
      assert values[i] in result;
    }
    if TotalPreorder(le) {
      SortSorts(values, le);
    }
  }

  lemma EmptyOrMember<T>(s: seq<T>)
    ensures s == [] || exists x :: x in s
  {
    if s != [] {
      assert s[0] in s;
    }
  }

  lemma OnlyMember<T>(s: seq<T>, x: T)
    requires |s| <= 1 && x in s
    ensures s == [x]
  {
  }

  lemma {:induction false} DistinctKeysOnce(merged: seq<Candidate>, key: Id)
    requires forall i, j :: 0 <= i < j < |merged| ==> merged[i].key != merged[j].key
    ensures |OfKey(merged, key)| <= 1
  {
    if merged != [] {
      var init, last := merged[..|merged| - 1], merged[|merged| - 1];
      DistinctKeysOnce(init, key);
      if last.key == key {
        forall c | c in init
          ensures c.key != key
        {
          var i :| 0 <= i < |init| && init[i] == c;
          assert merged[i].key != last.key;
        }
        EmptyOrMember(OfKey(init, key));
      }
    }
  }

  /** A merge holds exactly one candidate of a key that occurs, and none of any other. */
  lemma MergeHoldsEachKeyOnce(cs: seq<Candidate>, merged: seq<Candidate>, key: Id, own: seq<Candidate>)
    requires IsMergeOf(cs, merged) && own == OfKey(cs, key)
    ensures own == [] ==> OfKey(merged, key) == []
    ensures own != [] ==> OfKey(merged, key) == [Fold(own)]
  {
    DistinctKeysOnce(merged, key);
    if own == [] {
      EmptyOrMember(OfKey(merged, key));
    } else {
      assert own[0] in own;
      var m :| m in merged && m.key == key;
      OnlyMember(OfKey(merged, key), m);
    }
  }

  lemma {:induction false} MergesPerUnit(units: seq<seq<Candidate>>, merges: seq<seq<Candidate>>, key: Id)
    requires |units| == |merges| && forall i :: 0 <= i < |units| ==> IsMergeOf(units[i], merges[i])
    ensures OfKey(Flatten(merges), key) == Folds(Groups(units, key))
  {
    if units != [] {
      var n := |units| - 1;
      MergesPerUnit(units[..n], merges[..n], key);
      OfKeyOfConcat(Flatten(merges[..n]), merges[n], key);
      MergeHoldsEachKeyOnce(units[n], merges[n], key, OfKey(units[n], key));
    }
  }

  /** `merges` are the merges of the units, `twice` is the merge of these, and `flat` that of all candidates at once. */
  ghost predicate MergedBothWays(
      units: seq<seq<Candidate>>, merges: seq<seq<Candidate>>, twice: seq<Candidate>, flat: seq<Candidate>)
  {
    && |units| == |merges| && (forall i :: 0 <= i < |units| ==> IsMergeOf(units[i], merges[i]))
    && IsMergeOf(Flatten(merges), twice) && IsMergeOf(Flatten(units), flat)
  }

  lemma MergesHoldKey(
      units: seq<seq<Candidate>>, merges: seq<seq<Candidate>>, twice: seq<Candidate>, flat: seq<Candidate>, key: Id)
    returns (groups: seq<seq<Candidate>>, inTwice: seq<Candidate>, inFlat: seq<Candidate>)
    requires MergedBothWays(units, merges, twice, flat)
    ensures groups == Groups(units, key) && inTwice == OfKey(twice, key) && inFlat == OfKey(flat, key)
    ensures groups == [] ==> inTwice == inFlat == []
    ensures groups != [] ==> Flatten(groups) != [] && inTwice == [Fold(Folds(groups))] && inFlat == [Fold(Flatten(groups))]
  {
    groups, inTwice, inFlat := Groups(units, key), OfKey(twice, key), OfKey(flat, key);
    GroupsFlatten(units, key);
    MergesPerUnit(units, merges, key);
    MergeHoldsEachKeyOnce(Flatten(merges), twice, key, Folds(groups));
    MergeHoldsEachKeyOnce(Flatten(units), flat, key, Flatten(groups));
    if groups != [] {
      MergingPerUnitIsFlat(groups);
    }
  }

  /** The two merges have at most one candidate of a key each, the same one apart from the design. */
  ghost predicate MergesMatch(inTwice: seq<Candidate>, inFlat: seq<Candidate>) {
    |inTwice| == |inFlat| <= 1 && (inTwice != [] ==> SameButDesign(inTwice[0], inFlat[0]))
  }

  /**
   The candidates of a whole run: merging the merged outputs of the units has for each key the candidate of one flat
   merge, design apart; it has the same design exactly if the units agree on every detail.
   */
  lemma MergeOfMergesIsFlat(
      units: seq<seq<Candidate>>, merges: seq<seq<Candidate>>, twice: seq<Candidate>, flat: seq<Candidate>, key: Id)
    requires MergedBothWays(units, merges, twice, flat)
    ensures MergesMatch(OfKey(twice, key), OfKey(flat, key))
    ensures OfKey(twice, key) == OfKey(flat, key) <==> AllDetailsAgree(Groups(units, key))
  {
    var groups, inTwice, inFlat := MergesHoldKey(units, merges, twice, flat, key);
    if groups != [] {
      MergingPerUnitIsFlat(groups);
      DesignsAgree(groups);
      assert inTwice == inFlat <==> inTwice[0] == inFlat[0];
    }
  }

  /** Each later unit's candidates of a key begin with a model's, or no model has one. */
  ghost predicate ModelsFirst(units: seq<seq<Candidate>>, key: Id) {
    var groups := Groups(units, key);
    forall j :: 1 <= j < |groups| ==> HasModel(groups[j][0]) || !AnyModel(groups[j])
  }

  /** Where models come first, merging by unit and then across units is the flat merge, design included. */
  lemma ModelsFirstIsFlat(units: seq<seq<Candidate>>, merges: seq<seq<Candidate>>, twice: seq<Candidate>, flat: seq<Candidate>)
    requires MergedBothWays(units, merges, twice, flat) && forall key :: ModelsFirst(units, key)
    ensures forall c :: c in twice <==> c in flat
  {
    forall c
      ensures c in twice <==> c in flat
    {
      assert ModelsFirst(units, c.key);
      forall k
        ensures DetailAgrees(Groups(units, c.key), k)
      {
        NothingLeaks(Groups(units, c.key), k);
      }
      MergeOfMergesIsFlat(units, merges, twice, flat, c.key);
      assert c in twice <==> c in OfKey(twice, c.key);
    }
  }

  lemma FoldOfTwo(a: Candidate, b: Candidate)
    ensures Fold([a, b]) == MergeInto(a, b)
  {
    assert [a, b][..1] == [a];
  }

  lemma FoldOfThree(a: Candidate, b: Candidate, c: Candidate)
    ensures Fold([a, b, c]) == MergeInto(MergeInto(a, b), c)
  {
    assert [a, b, c][..2] == [a, b];
    FoldOfTwo(a, b);
  }

  /**
   The design is the exception: here the first candidate keeps its screen in a flat merge, but loses it to the second
   one once that has been merged with a model's candidate of its own unit.
   */
  lemma DesignDependsOnGrouping(first: Candidate, second: Candidate, model: Candidate)
    requires first.design == map["screen" := "list"] && second.design == map["screen" := "form"] && model.design == map[]
    requires !HasModel(second) && HasModel(model)
    ensures Fold([first, second, model]).design == map["screen" := "list"]
    ensures Fold([first, Fold([second, model])]).design == map["screen" := "form"]
  {
    FoldOfThree(first, second, model);
    FoldOfTwo(second, model);
    FoldOfTwo(first, Fold([second, model]));
    var merged := MergeInto(second, model);
    var p :| p in model.provenance && p.usesModel;
    assert p in merged.provenance;
    assert merged.design == map["screen" := "form"] + map[];
    assert map["screen" := "list"] + map[] == map["screen" := "list"];
  }
}
