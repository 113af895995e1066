/**
 Understanding plans: the artifacts of a sealed inventory, grouped by lane and module, cut into partitions of bounded
 size, with one work unit for each partition and synthesis units above them.
 */
module UnderstandingPlans {
  import opened Graphs
  import opened Sorting
  import opened Wrappers

  datatype ArtifactKind = DOCUMENT | CONTRACT | TEST | CONFIG | RESULT | OTHER(text: string)

  datatype Lane = DOCUMENT_CONTRACT | TEST_CONFIG_RESULT | DIRECT_SOURCE | GAP

  /** The whole bytes of one artifact. */
  datatype Range = Range(artifact: Id, digest: string, size: nat)

  datatype Artifact = Artifact(range: Range, path: string, included: bool, kinds: seq<ArtifactKind>)

  datatype GroupKey = GroupKey(lane: Lane, locality: string)

  datatype Partition = Partition(key: GroupKey, shard: nat, ranges: seq<Range>)

  datatype UnitKind = LEAF_UNIT | GAP_UNIT | MODULE_SYNTHESIS | PROJECT_SYNTHESIS | FOLLOW_UP

  datatype WorkUnit = WorkUnit(
    id: Id, partition: Option<Id>, kind: UnitKind, dependencies: set<Id>, artifacts: seq<Id>)

  /** What the identifier of a work unit is computed from. */
  datatype UnitIdentity =
    | LeafIdentity(partition: Id)
    | ModuleIdentity(locality: string, dependencies: set<Id>)
    | ProjectIdentity(dependencies: set<Id>)
    | FollowUpIdentity(parent: Id, question: string, depth: int)

  /** The content identifiers of one planner version, convention version and policy. */
  datatype Names = Names(partition: Partition -> Id, unit: UnitIdentity -> Id)

  ghost predicate AreInjective(names: Names) {
    && (forall p, q :: names.partition(p) == names.partition(q) ==> p == q)
    && forall u, v :: names.unit(u) == names.unit(v) ==> u == v
  }

  // ---------------------------------------------------------------- grouping

  function LaneOfKind(kind: ArtifactKind): Option<Lane> {
    match kind
    case DOCUMENT => Some(DOCUMENT_CONTRACT)
    case CONTRACT => Some(DOCUMENT_CONTRACT)
    case TEST => Some(TEST_CONFIG_RESULT)
    case CONFIG => Some(TEST_CONFIG_RESULT)
    case RESULT => Some(TEST_CONFIG_RESULT)
    case OTHER(_) => None
  }

  function FirstLane(kinds: seq<ArtifactKind>): Lane {
    if kinds == [] then DIRECT_SOURCE
    else if LaneOfKind(kinds[0]).Some? then LaneOfKind(kinds[0]).value
    else FirstLane(kinds[1..])
  }

  function LaneFor(a: Artifact): Lane {
    if !a.included then GAP else FirstLane(a.kinds)
  }

  /** The kinds that decide a lane; any other kind is passed over. */
  ghost predicate BelongsTo(kind: ArtifactKind, lane: Lane) {
    || (lane == DOCUMENT_CONTRACT && (kind == DOCUMENT || kind == CONTRACT))
    || (lane == TEST_CONFIG_RESULT && (kind == TEST || kind == CONFIG || kind == RESULT))
  }

  /** The first kind that decides does; without one, and only then, an artifact is source; and only what is left out is a gap. */
  lemma {:induction false} FirstKindDecides(kinds: seq<ArtifactKind>) returns (i: nat)
    ensures i <= |kinds| && forall j :: 0 <= j < i ==> kinds[j].OTHER?
    ensures if i == |kinds| then FirstLane(kinds) == DIRECT_SOURCE else BelongsTo(kinds[i], FirstLane(kinds))
  {
    if kinds == [] || !kinds[0].OTHER? {
      i := 0;
    } else {
      i := FirstKindDecides(kinds[1..]);
      i := i + 1;
    }
  }

  /** The parts of `path` between slashes. */
  function Parts(path: string): (parts: seq<string>)
    ensures |parts| >= 1
  {
    if path == "" then [""]
    else
      var rest := Parts(path[1..]);
      if path[0] == '/' then [""] + rest else [[path[0]] + rest[0]] + rest[1..]
  }

  function ModuleFor(path: string): string {
    var parts := Parts(path);
    if |parts| == 1 then "."
    else if parts[0] in {"src", "test", "tests", "docs", "contracts", "web"} then
      if |parts| > 2 then parts[0] + "/" + parts[1] else parts[0]
    else parts[0]
  }

  lemma {:induction false} PartsWithoutSlash(path: string)
    requires '/' !in path
    ensures Parts(path) == [path]
  {
    if path != "" {
      PartsWithoutSlash(path[1..]);
      assert [path[0]] + path[1..] == path;
    }
  }

  lemma {:induction false} PartsAtSlash(path: string, i: nat)
    requires i < |path| && path[i] == '/' && '/' !in path[..i]
    ensures Parts(path) == [path[..i]] + Parts(path[i + 1..])
  {
    if i > 0 {
      assert path[0] == path[..i][0] && path[1..][..i - 1] == path[..i][1..];
      PartsAtSlash(path[1..], i - 1);
      assert path[1..][i - 1 + 1..] == path[i + 1..];
      assert [path[0]] + path[1..][..i - 1] == path[..i];
    }
  }

  lemma {:induction false} FirstSlash(path: string) returns (i: nat)
    requires '/' in path
    ensures i < |path| && path[i] == '/' && '/' !in path[..i]
  {
    if path[0] == '/' {
      i := 0;
    } else {
      var k :| 0 <= k < |path| && path[k] == '/';
      assert path[1..][k - 1] == '/';
      i := FirstSlash(path[1..]);
      i := i + 1;
      assert path[..i] == [path[0]] + path[1..][..i - 1];
    }
  }

  lemma ModuleWithOneSlash(path: string, i: nat)
    requires i < |path| && path[i] == '/' && '/' !in path[..i] && '/' !in path[i + 1..]
    ensures ModuleFor(path) == path[..i]
  {
    PartsAtSlash(path, i);
    PartsWithoutSlash(path[i + 1..]);
  }

  lemma ModuleWithMoreSlashes(path: string, i: nat, k: nat)
    requires i < k < |path| && path[i] == '/' && '/' !in path[..i] && path[k] == '/' && '/' !in path[i + 1..k]
    ensures ModuleFor(path) == if path[..i] in {"src", "test", "tests", "docs", "contracts", "web"} then path[..k] else path[..i]
  {
    var rest, j := path[i + 1..], k - i - 1;
    assert rest[..j] == path[i + 1..k];
    PartsAtSlash(path, i);
    PartsAtSlash(rest, j);
    assert path[..k] == path[..i] + "/" + path[i + 1..k];
  }

  /**
   The module of a path with a slash is what comes before its first one, or before its second one, if there is one, where
   the first directory is one of those that hold many modules; that of a path without a slash is a dot.
   */
  lemma ModuleIsPrefix(path: string) returns (i: nat, k: nat)
    ensures '/' !in path ==> ModuleFor(path) == "."
    ensures '/' in path ==>
              && i <= k < |path| && path[i] == '/' && '/' !in path[..i] && ModuleFor(path) == path[..k]
              && (k > i <==> path[..i] in {"src", "test", "tests", "docs", "contracts", "web"} && '/' in path[i + 1..])
              && (k > i ==> path[k] == '/' && '/' !in path[i + 1..k])
  {
    i, k := 0, 0;
    if '/' !in path {
      PartsWithoutSlash(path);
    } else {
      i := FirstSlash(path);
      k := i;
      if '/' in path[i + 1..] {
        var j := FirstSlash(path[i + 1..]);
        assert path[i + 1..][..j] == path[i + 1..i + 1 + j];
        ModuleWithMoreSlashes(path, i, i + 1 + j);
        k := if path[..i] in {"src", "test", "tests", "docs", "contracts", "web"} then i + 1 + j else i;
      } else {
        ModuleWithOneSlash(path, i);
      }
    }
  }

  /** A module name is empty only for a path that begins with a slash, which no relative path does. */
  lemma ModuleForIsEmpty(path: string)
    ensures ModuleFor(path) == "" <==> path != "" && path[0] == '/'
  {
    if path != "" {
      var rest := Parts(path[1..]);
      assert Parts(path)[0] == "" <==> path[0] == '/';
    }
  }

  function KeyFor(a: Artifact): GroupKey {
    GroupKey(LaneFor(a), ModuleFor(a.path))
  }

  /** The artifacts of one group, in the order of the inventory. */
  function Members(artifacts: seq<Artifact>, key: GroupKey): seq<Range> {
    if artifacts == [] then []
    else
      var rest := Members(artifacts[..|artifacts| - 1], key);
      var last := artifacts[|artifacts| - 1];
      if KeyFor(last) == key then rest + [last.range] else rest
  }

  /** The artifacts that the partitions of one group hold, in the order of the partitions. */
  function HeldBy(partitions: seq<Partition>, key: GroupKey): seq<Range> {
    if partitions == [] then []
    else
      var rest := HeldBy(partitions[..|partitions| - 1], key);
      var last := partitions[|partitions| - 1];
      if last.key == key then rest + last.ranges else rest
  }

  function RangesOf(artifacts: seq<Artifact>): seq<Range> {
    seq(|artifacts|, i requires 0 <= i < |artifacts| => artifacts[i].range)
  }

  function Assigned(partitions: seq<Partition>): seq<Range> {
    if partitions == [] then []
    else Assigned(partitions[..|partitions| - 1]) + partitions[|partitions| - 1].ranges
  }

  /** The groups one after another. */
  function Flat(groups: map<GroupKey, seq<Range>>, keys: seq<GroupKey>): seq<Range>
    requires forall k :: k in keys ==> k in groups
  {
    if keys == [] then [] else groups[keys[0]] + Flat(groups, keys[1..])
  }

  lemma {:induction false} FlatOfInsert(
      groups: map<GroupKey, seq<Range>>, x: GroupKey, keys: seq<GroupKey>, le: (GroupKey, GroupKey) -> bool)
    requires x in groups && forall k :: k in keys ==> k in groups
    ensures forall k :: k in Insert(x, keys, le) ==> k in groups
    ensures multiset(Flat(groups, Insert(x, keys, le))) == multiset(groups[x]) + multiset(Flat(groups, keys))
  {
    forall k | k in Insert(x, keys, le)
      ensures k in groups
    {
      assert k in multiset(Insert(x, keys, le));
    }
    if keys != [] && !le(x, keys[0]) {
      FlatOfInsert(groups, x, keys[1..], le);
      var r := [keys[0]] + Insert(x, keys[1..], le);
      assert Insert(x, keys, le) == r && r[1..] == Insert(x, keys[1..], le);
    } else {
      assert Insert(x, keys, le) == [x] + keys && ([x] + keys)[1..] == keys;
    }
  }

  lemma {:induction false} FlatOfSort(groups: map<GroupKey, seq<Range>>, keys: seq<GroupKey>, le: (GroupKey, GroupKey) -> bool)
    requires forall k :: k in keys ==> k in groups
    ensures forall k :: k in Sort(keys, le) ==> k in groups
    ensures multiset(Flat(groups, Sort(keys, le))) == multiset(Flat(groups, keys))
  {
    SortKeepsElements(keys, le);
    if keys != [] {
      FlatOfSort(groups, keys[1..], le);
      FlatOfInsert(groups, keys[0], Sort(keys[1..], le), le);
    }
  }

  lemma {:induction false} FlatOfUpdate(groups: map<GroupKey, seq<Range>>, keys: seq<GroupKey>, key: GroupKey, r: Range)
    requires (forall k :: k in keys ==> k in groups) && NoDuplicates(keys) && key in groups
    ensures multiset(Flat(groups[key := groups[key] + [r]], keys))
            == multiset(Flat(groups, keys)) + if key in keys then multiset{r} else multiset{}
  {
    if keys != [] {
      DistinctTail(keys);
      FlatOfUpdate(groups, keys[1..], key, r);
    }
  }

  lemma {:induction false} FlatOfAppend(groups: map<GroupKey, seq<Range>>, keys: seq<GroupKey>, key: GroupKey)
    requires (forall k :: k in keys ==> k in groups) && key in groups
    ensures Flat(groups, keys + [key]) == Flat(groups, keys) + groups[key]
  {
    if keys == [] {
      assert keys + [key] == [key] && [key][1..] == [];
    } else {
      FlatOfAppend(groups, keys[1..], key);
      assert (keys + [key])[1..] == keys[1..] + [key];
    }
  }

  lemma {:induction false} FlatOfWider(groups: map<GroupKey, seq<Range>>, wider: map<GroupKey, seq<Range>>, keys: seq<GroupKey>)
    requires forall k :: k in keys ==> k in groups && k in wider && wider[k] == groups[k]
    ensures Flat(groups, keys) == Flat(wider, keys)
  {
    if keys != [] {
      FlatOfWider(groups, wider, keys[1..]);
    }
  }

  /** `groups` holds the groups of the artifacts. */
  ghost predicate Groups(artifacts: seq<Artifact>, groups: map<GroupKey, seq<Range>>) {
    forall k :: GroupAt(artifacts, groups, k)
  }

  ghost predicate GroupAt(artifacts: seq<Artifact>, groups: map<GroupKey, seq<Range>>, k: GroupKey) {
    if k in groups then groups[k] == Members(artifacts, k) && groups[k] != [] else Members(artifacts, k) == []
  }

  /** `order` lists the keys of the groups. */
  ghost predicate Lists(order: seq<GroupKey>, groups: map<GroupKey, seq<Range>>) {
    NoDuplicates(order) && forall k :: k in order <==> k in groups
  }

  function Grouped(groups: map<GroupKey, seq<Range>>, a: Artifact): map<GroupKey, seq<Range>> {
    groups[KeyFor(a) := (if KeyFor(a) in groups then groups[KeyFor(a)] else []) + [a.range]]
  }

  lemma OneMoreMember(artifacts: seq<Artifact>, a: Artifact, k: GroupKey)
    ensures Members(artifacts + [a], k) == if KeyFor(a) == k then Members(artifacts, k) + [a.range] else Members(artifacts, k)
  {
    assert (artifacts + [a])[..|artifacts|] == artifacts;
  }

  lemma OneMoreGrouped(artifacts: seq<Artifact>, a: Artifact, groups: map<GroupKey, seq<Range>>)
    requires Groups(artifacts, groups)
    ensures Groups(artifacts + [a], Grouped(groups, a))
  {
    forall k
      ensures GroupAt(artifacts + [a], Grouped(groups, a), k)
    {
      assert GroupAt(artifacts, groups, k);
      OneMoreMember(artifacts, a, k);
    }
  }

  lemma OneMoreListed(groups: map<GroupKey, seq<Range>>, a: Artifact, order: seq<GroupKey>)
    requires Lists(order, groups)
    ensures var next := if KeyFor(a) in groups then order else order + [KeyFor(a)];
      && Lists(next, Grouped(groups, a))
      && multiset(Flat(Grouped(groups, a), next)) == multiset(Flat(groups, order)) + multiset{a.range}
  {
    var key := KeyFor(a);
    if key in groups {
      FlatOfUpdate(groups, order, key, a.range);
    } else {
      FlatOfWider(groups, Grouped(groups, a), order);
      FlatOfAppend(Grouped(groups, a), order, key);
    }
  }

  lemma OneMoreRange(artifacts: seq<Artifact>, i: nat)
    requires i < |artifacts|
    ensures artifacts[..i + 1] == artifacts[..i] + [artifacts[i]]
    ensures multiset(RangesOf(artifacts[..i + 1])) == multiset(RangesOf(artifacts[..i])) + multiset{artifacts[i].range}
  {
    assert RangesOf(artifacts[..i + 1]) == RangesOf(artifacts[..i]) + [artifacts[i].range];
  }

  method GroupArtifacts(artifacts: seq<Artifact>) returns (groups: map<GroupKey, seq<Range>>, order: seq<GroupKey>)
    ensures Groups(artifacts, groups) && Lists(order, groups)
    ensures multiset(Flat(groups, order)) == multiset(RangesOf(artifacts))
  {
    groups, order := map[], [];
    for i := 0 to |artifacts|
      invariant Groups(artifacts[..i], groups) && Lists(order, groups)
      invariant multiset(Flat(groups, order)) == multiset(RangesOf(artifacts[..i]))
    {
      var a := artifacts[i];
      OneMoreRange(artifacts, i);
      OneMoreGrouped(artifacts[..i], a, groups);
      OneMoreListed(groups, a, order);
      if KeyFor(a) !in groups {
        order := order + [KeyFor(a)];
      }
      groups := Grouped(groups, a);
    }
    assert artifacts[..|artifacts|] == artifacts;
  }

  // ---------------------------------------------------------------- cutting into partitions

  /** The partitions of one group: full ones and a last one that is not empty, numbered from zero. */
  ghost predicate IsSharding(key: GroupKey, records: seq<Range>, max: nat, shards: seq<Partition>) {
    && Assigned(shards) == records
    && forall j :: 0 <= j < |shards| ==>
         && shards[j].key == key && shards[j].shard == j
         && 1 <= |shards[j].ranges| <= max && (j < |shards| - 1 ==> |shards[j].ranges| == max)
  }

  function Chunk(records: seq<Range>, offset: nat, max: nat): seq<Range>
    requires offset <= |records|
  {
    if |records| - offset <= max then records[offset..] else records[offset..offset + max]
  }

  /** A partition holds the chunk of its group that its number says. */
  predicate IsShard(records: seq<Range>, max: nat, p: Partition) {
    p.shard * max < |records| && p.ranges == Chunk(records, p.shard * max, max)
  }

  ghost predicate AreShards(key: GroupKey, records: seq<Range>, max: nat, shards: seq<Partition>) {
    forall j :: 0 <= j < |shards| ==> shards[j].key == key && shards[j].shard == j && IsShard(records, max, shards[j])
  }

  lemma ShardNumber(j: nat, max: nat)
    requires max >= 1
    ensures j * max / max == j && (j + 1) * max == j * max + max
  {
    QuotientIsUnique(j * max, max, j, j * max / max);
  }

  lemma QuotientIsUnique(x: nat, max: nat, p: nat, q: nat)
    requires max >= 1 && p * max <= x < p * max + max && q * max <= x < q * max + max
    ensures p == q
  {
    NextMultiple(p, q, max);
    NextMultiple(q, p, max);
  }

  lemma NextMultiple(p: nat, q: nat, max: nat)
    ensures p < q ==> p * max + max <= q * max
  {
    if p < q {
      assert (p + 1) * max <= q * max;
    }
  }

  lemma OneMoreAssigned(partitions: seq<Partition>, p: Partition)
    ensures Assigned(partitions + [p]) == Assigned(partitions) + p.ranges
  {
    assert (partitions + [p])[..|partitions|] == partitions;
  }

  /** The first `offset` artifacts of the group have been cut into full partitions, or all of them have been cut. */
  ghost predicate CutTo(key: GroupKey, records: seq<Range>, offset: nat, max: nat, shards: seq<Partition>) {
    && offset == |shards| * max && AreShards(key, records, max, shards)
    && IsSharding(key, records[..if offset < |records| then offset else |records|], max, shards)
    && (|records| <= offset || forall j :: 0 <= j < |shards| ==> |shards[j].ranges| == max)
  }

  method CutGroup(key: GroupKey, records: seq<Range>, max: nat) returns (shards: seq<Partition>)
    requires max >= 1
    ensures IsSharding(key, records, max, shards) && AreShards(key, records, max, shards) && |records| <= |shards| * max
  {
    shards := [];
    var offset := 0;
    while offset < |records|
      invariant CutTo(key, records, offset, max, shards)
    {
      var end := if offset + max < |records| then offset + max else |records|;
      ShardNumber(|shards|, max);
      var p := Partition(key, offset / max, records[offset..end]);
      OneMoreCutTo(key, records, offset, end, max, shards, p);
      shards := shards + [p];
      offset := offset + max;
    }
    assert records[..|records|] == records;
  }

  lemma OneMoreCutTo(key: GroupKey, records: seq<Range>, offset: nat, end: nat, max: nat, shards: seq<Partition>, p: Partition)
    requires max >= 1 && offset < |records| && CutTo(key, records, offset, max, shards)
    requires end == if offset + max < |records| then offset + max else |records|
    requires p == Partition(key, |shards|, records[offset..end])
    ensures CutTo(key, records, offset + max, max, shards + [p])
  {
    ShardNumber(|shards|, max);
    OneMoreShard(key, records, offset, end, max, shards, p);
    assert IsShard(records, max, p);
  }

  lemma OneMoreShard(key: GroupKey, records: seq<Range>, offset: nat, end: nat, max: nat, shards: seq<Partition>, p: Partition)
    requires offset < end <= |records| && end - offset <= max && IsSharding(key, records[..offset], max, shards)
    requires forall j :: 0 <= j < |shards| ==> |shards[j].ranges| == max
    requires p == Partition(key, |shards|, records[offset..end])
    ensures IsSharding(key, records[..end], max, shards + [p])
  {
    OneMoreAssigned(shards, p);
    assert records[..offset] + records[offset..end] == records[..end];
  }

  lemma {:induction false} AssignedMore(partitions: seq<Partition>, shards: seq<Partition>)
    ensures Assigned(partitions + shards) == Assigned(partitions) + Assigned(shards)
  {
    if shards == [] {
      assert partitions + shards == partitions;
    } else {
      var init, last := shards[..|shards| - 1], shards[|shards| - 1];
      AssignedMore(partitions, init);
      AssignedSnoc(partitions, init, last, Assigned(partitions), Assigned(init));
      assert init + [last] == shards;
    }
  }

  lemma AssignedSnoc(partitions: seq<Partition>, init: seq<Partition>, last: Partition, a: seq<Range>, b: seq<Range>)
    requires Assigned(partitions + init) == a + b && Assigned(init) == b
    ensures Assigned(partitions + (init + [last])) == a + Assigned(init + [last])
  {
    OneMoreAssigned(partitions + init, last);
    OneMoreAssigned(init, last);
    assert partitions + (init + [last]) == partitions + init + [last];
    assert a + b + last.ranges == a + (b + last.ranges);
  }

  lemma OneMoreHeld(partitions: seq<Partition>, p: Partition, k: GroupKey)
    ensures HeldBy(partitions + [p], k) == if p.key == k then HeldBy(partitions, k) + p.ranges else HeldBy(partitions, k)
  {
    assert (partitions + [p])[..|partitions|] == partitions;
  }

  lemma {:induction false} HeldByMore(partitions: seq<Partition>, shards: seq<Partition>, key: GroupKey, k: GroupKey)
    requires forall j :: 0 <= j < |shards| ==> shards[j].key == key
    ensures HeldBy(partitions + shards, k) == if k == key then HeldBy(partitions, k) + Assigned(shards) else HeldBy(partitions, k)
  {
    if shards == [] {
      assert partitions + shards == partitions;
    } else {
      var init, last := shards[..|shards| - 1], shards[|shards| - 1];
      HeldByMore(partitions, init, key, k);
      HeldSnoc(partitions, init, last, k, HeldBy(partitions, k), Assigned(init));
      assert init + [last] == shards;
    }
  }

  lemma HeldSnoc(partitions: seq<Partition>, init: seq<Partition>, last: Partition, k: GroupKey, a: seq<Range>, b: seq<Range>)
    requires Assigned(init) == b
    requires HeldBy(partitions + init, k) == (if k == last.key then a + b else a)
    ensures HeldBy(partitions + (init + [last]), k) == if k == last.key then a + Assigned(init + [last]) else a
  {
    OneMoreHeld(partitions + init, last, k);
    OneMoreAssigned(init, last);
    assert partitions + (init + [last]) == partitions + init + [last];
    assert a + b + last.ranges == a + (b + last.ranges);
  }

  ghost predicate SizesWithin(partitions: seq<Partition>, max: nat) {
    forall i :: 0 <= i < |partitions| ==> 1 <= |partitions[i].ranges| <= max
  }

  /** The partitions of one group come in the order of their numbers, so no two of them are equal. */
  ghost predicate ShardsInOrder(partitions: seq<Partition>) {
    forall i, j :: 0 <= i < j < |partitions| && partitions[i].key == partitions[j].key ==>
      partitions[i].shard < partitions[j].shard
  }

  /** The partitions hold the groups of the first `g` keys, and no others. */
  ghost predicate HoldsGroups(
      groups: map<GroupKey, seq<Range>>, keys: seq<GroupKey>, g: nat, partitions: seq<Partition>)
    requires g <= |keys| && forall k :: k in keys ==> k in groups
  {
    && (forall j :: 0 <= j < g ==> HeldBy(partitions, keys[j]) == groups[keys[j]])
    && (forall k :: (forall j :: 0 <= j < g ==> keys[j] != k) ==> HeldBy(partitions, k) == [])
    && (forall i :: 0 <= i < |partitions| ==> exists j :: 0 <= j < g && keys[j] == partitions[i].key)
  }

  lemma OneMoreGroupHeld(
      groups: map<GroupKey, seq<Range>>, keys: seq<GroupKey>, g: nat, partitions: seq<Partition>, shards: seq<Partition>, max: nat)
    requires g < |keys| && (forall k :: k in keys ==> k in groups) && NoDuplicates(keys)
    requires HoldsGroups(groups, keys, g, partitions) && IsSharding(keys[g], groups[keys[g]], max, shards)
    ensures HoldsGroups(groups, keys, g + 1, partitions + shards)
  {
    forall k
      ensures HeldBy(partitions + shards, k)
              == if k == keys[g] then HeldBy(partitions, k) + Assigned(shards) else HeldBy(partitions, k)
    {
      HeldByMore(partitions, shards, keys[g], k);
    }
    forall i | 0 <= i < |partitions + shards|
      ensures exists j :: 0 <= j < g + 1 && keys[j] == (partitions + shards)[i].key
    {
      if i < |partitions| {
        var j :| 0 <= j < g && keys[j] == partitions[i].key;
      } else {
        assert keys[g] == (partitions + shards)[i].key;
      }
    }
  }

  /** The partitions are the shards of the first `g` groups, all of them and no others. */
  ghost predicate AreAllShards(
      groups: map<GroupKey, seq<Range>>, keys: seq<GroupKey>, g: nat, partitions: seq<Partition>, max: nat)
    requires g <= |keys| && forall k :: k in keys ==> k in groups
  {
    forall p :: p in partitions <==> p.key in keys[..g] && p.key in groups && IsShard(groups[p.key], max, p)
  }

  lemma ShardIsListed(key: GroupKey, records: seq<Range>, max: nat, shards: seq<Partition>, p: Partition)
    requires AreShards(key, records, max, shards) && |records| <= |shards| * max
    ensures p in shards <==> p.key == key && IsShard(records, max, p)
  {
    if p.key == key && IsShard(records, max, p) {
      NextMultiple(|shards|, p.shard, max);
      assert p.shard < |shards|;
      assert shards[p.shard] == p;
    }
  }

  lemma OneMoreGroupOfShards(
      groups: map<GroupKey, seq<Range>>, keys: seq<GroupKey>, g: nat, partitions: seq<Partition>, shards: seq<Partition>, max: nat)
    requires g < |keys| && (forall k :: k in keys ==> k in groups) && AreAllShards(groups, keys, g, partitions, max)
    requires NoDuplicates(keys)
    requires AreShards(keys[g], groups[keys[g]], max, shards) && |groups[keys[g]]| <= |shards| * max
    ensures AreAllShards(groups, keys, g + 1, partitions + shards, max)
  {
    assert keys[..g + 1] == keys[..g] + [keys[g]];
    forall p
      ensures p in partitions + shards <==> p.key in keys[..g + 1] && p.key in groups && IsShard(groups[p.key], max, p)
    {
      ShardIsListed(keys[g], groups[keys[g]], max, shards, p);
    }
  }

  lemma OneMoreGroupInOrder(
      groups: map<GroupKey, seq<Range>>, keys: seq<GroupKey>, g: nat, partitions: seq<Partition>, shards: seq<Partition>, max: nat)
    requires g < |keys| && (forall k :: k in keys ==> k in groups) && NoDuplicates(keys)
    requires HoldsGroups(groups, keys, g, partitions) && IsSharding(keys[g], groups[keys[g]], max, shards)
    requires SizesWithin(partitions, max) && ShardsInOrder(partitions)
    ensures SizesWithin(partitions + shards, max) && ShardsInOrder(partitions + shards)
  {
    forall i, j | 0 <= i < |partitions| && 0 <= j < |shards|
      ensures partitions[i].key != shards[j].key
    {
      var h :| 0 <= h < g && keys[h] == partitions[i].key;
    }
  }

  ghost predicate CutSoFar(
      groups: map<GroupKey, seq<Range>>, keys: seq<GroupKey>, g: nat, partitions: seq<Partition>, max: nat)
    requires g <= |keys| && forall k :: k in keys ==> k in groups
  {
    && HoldsGroups(groups, keys, g, partitions) && Assigned(partitions) == Flat(groups, keys[..g])
    && SizesWithin(partitions, max) && ShardsInOrder(partitions)
  }

  lemma OneMoreCut(
      groups: map<GroupKey, seq<Range>>, keys: seq<GroupKey>, g: nat, partitions: seq<Partition>, shards: seq<Partition>, max: nat)
    requires g < |keys| && (forall k :: k in keys ==> k in groups) && NoDuplicates(keys)
    requires CutSoFar(groups, keys, g, partitions, max) && IsSharding(keys[g], groups[keys[g]], max, shards)
    ensures CutSoFar(groups, keys, g + 1, partitions + shards, max)
  {
    OneMoreGroupHeld(groups, keys, g, partitions, shards, max);
    OneMoreGroupInOrder(groups, keys, g, partitions, shards, max);
    assert Assigned(partitions + shards) == Flat(groups, keys[..g + 1]) by {
      AssignedMore(partitions, shards);
      assert keys[..g + 1] == keys[..g] + [keys[g]];
      FlatOfAppend(groups, keys[..g], keys[g]);
    }
  }

  method CutPartitions(groups: map<GroupKey, seq<Range>>, keys: seq<GroupKey>, max: nat) returns (partitions: seq<Partition>)
    requires max >= 1 && NoDuplicates(keys) && forall k :: k in keys <==> k in groups
    ensures HoldsGroups(groups, keys, |keys|, partitions) && Assigned(partitions) == Flat(groups, keys)
    ensures SizesWithin(partitions, max) && ShardsInOrder(partitions)
    ensures AreAllShards(groups, keys, |keys|, partitions, max)
  {
    partitions := [];
    for g := 0 to |keys|
      invariant CutSoFar(groups, keys, g, partitions, max) && AreAllShards(groups, keys, g, partitions, max)
    {
      var shards := CutGroup(keys[g], groups[keys[g]], max);
      OneMoreCut(groups, keys, g, partitions, shards, max);
      OneMoreGroupOfShards(groups, keys, g, partitions, shards, max);
      partitions := partitions + shards;
    }
    assert keys[..|keys|] == keys;
  }

  // ---------------------------------------------------------------- the partitions of a plan

  /** Each group's partitions hold exactly its artifacts, in the order of the inventory, cut every `max` of them. */
  ghost predicate PartitionsHold(artifacts: seq<Artifact>, max: nat, partitions: seq<Partition>) {
    && (forall k :: HeldBy(partitions, k) == Members(artifacts, k))
    && multiset(Assigned(partitions)) == multiset(RangesOf(artifacts))
    && SizesWithin(partitions, max) && ShardsInOrder(partitions)
    && forall p :: p in partitions <==> IsShard(Members(artifacts, p.key), max, p)
  }

  method PartitionArtifacts(artifacts: seq<Artifact>, max: nat, localeLe: (GroupKey, GroupKey) -> bool)
    returns (partitions: seq<Partition>)
    requires max >= 1
    ensures PartitionsHold(artifacts, max, partitions)
  {
    var groups, order := GroupArtifacts(artifacts);
    var keys := Sort(order, localeLe);
    SortKeepsElements(order, localeLe);
    FlatOfSort(groups, order, localeLe);
    partitions := CutPartitions(groups, keys, max);
    GroupsAreHeld(artifacts, groups, keys, partitions);
    ShardsAreHeld(artifacts, groups, keys, partitions, max);
  }

  lemma ShardsAreHeld(
      artifacts: seq<Artifact>, groups: map<GroupKey, seq<Range>>, keys: seq<GroupKey>, partitions: seq<Partition>, max: nat)
    requires Groups(artifacts, groups) && (forall k :: k in keys <==> k in groups)
    requires AreAllShards(groups, keys, |keys|, partitions, max)
    ensures forall p :: p in partitions <==> IsShard(Members(artifacts, p.key), max, p)
  {
    assert keys[..|keys|] == keys;
    forall p
      ensures p in partitions <==> IsShard(Members(artifacts, p.key), max, p)
    {
      assert GroupAt(artifacts, groups, p.key);
    }
  }

  lemma GroupsAreHeld(
      artifacts: seq<Artifact>, groups: map<GroupKey, seq<Range>>, keys: seq<GroupKey>, partitions: seq<Partition>)
    requires Groups(artifacts, groups) && forall k :: k in keys <==> k in groups
    requires HoldsGroups(groups, keys, |keys|, partitions)
    ensures forall k :: HeldBy(partitions, k) == Members(artifacts, k)
  {
    forall k
      ensures HeldBy(partitions, k) == Members(artifacts, k)
    {
      assert GroupAt(artifacts, groups, k);
      if k in groups {
        var j :| 0 <= j < |keys| && keys[j] == k;
      }
    }
  }
}
