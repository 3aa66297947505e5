/** Recovery manifests: reviewed segments of retained frames. */
module RecoveryManifest {
  import opened Wrappers
  import opened Identifiers

  const MAX_SEGMENT_FRAMES := 4
  const MAX_SEGMENT_BYTES := 1_048_576
  const MAX_TOTAL_BYTES := 268_435_456

  datatype Segment = Segment(
    source: string, from: int, to: int, firstMS: int, lastMS: int, frameCount: int, bytes: int, digest: string)

  datatype Loss = Loss(startMS: int, endMS: int, lostCount: int, safeReason: bool)

  /** A reviewed definition of a source: its kind is host or runtime, and only a runtime names a target. */
  datatype SourceDefinition = SourceDefinition(source: string, active: bool, currentRevision: bool, kind: string, target: Option<string>)

  datatype TargetDefinition = TargetDefinition(target: string, adapter: string, selector: string, association: string)

  datatype ModelDefinition = ModelDefinition(model: string, target: string, safeAlias: bool, loaded: bool, digest: Option<string>)

  /** The historical definitions that come with a manifest. */
  datatype Definitions = Definitions(
    historicalOnly: bool, sources: seq<SourceDefinition>, targets: seq<TargetDefinition>, models: seq<ModelDefinition>)

  datatype Manifest = Manifest(
    envelopeOK: bool, createdMS: int, totalBytes: int, totalFrames: int,
    sources: seq<string>, definitions: Definitions, segments: seq<Segment>, losses: seq<Loss>,
    digest: string)

  // ----- order -----

  /** Byte order of two identifiers. */
  predicate Before(a: string, b: string) {
    if b == "" then false
    else if a == "" then true
    else a[0] < b[0] || (a[0] == b[0] && Before(a[1..], b[1..]))
  }

  /** The comparison given to the sort. */
  predicate Less(a: Segment, b: Segment) {
    if a.source != b.source then Before(a.source, b.source) else a.from < b.from
  }

  /** What the sort guarantees, whatever it does with ties. */
  predicate SortedSegments(segments: seq<Segment>) {
    forall i, j :: 0 <= i < j < |segments| ==> !Less(segments[j], segments[i])
  }

  // ----- what is accepted -----

  predicate SegmentOK(s: Segment, sources: set<string>) {
    && s.source in sources && 0 <= s.from <= s.to <= MAX_UINT53
    && 0 <= s.firstMS <= s.lastMS <= MAX_UINT53
    && 1 <= s.frameCount <= 4 && s.to - s.from + 1 == s.frameCount
    && 1 <= s.bytes <= 1_048_576 && IsDigest(s.digest)
  }

  /** The field checks of one segment. */
  method CheckSegment(s: Segment, sources: set<string>) returns (ok: bool)
    ensures ok <==> SegmentOK(s, sources)
  {
    hide IsDigest;
    var expectedFrames := s.to - s.from + 1;
    if s.source !in sources || s.from < 0 || s.to < s.from || s.to > MAX_UINT53 {
      return false;
    }
    if s.firstMS < 0 || s.lastMS < s.firstMS || s.lastMS > MAX_UINT53 {
      return false;
    }
    if s.frameCount < 1 || s.frameCount > MAX_SEGMENT_FRAMES || expectedFrames != s.frameCount {
      return false;
    }
    return !(s.bytes < 1 || s.bytes > MAX_SEGMENT_BYTES || !IsDigest(s.digest));
  }

  /** The two segments name no frame in common. */
  predicate Apart(a: Segment, b: Segment) {
    a.source != b.source || a.to < b.from || b.to < a.from
  }

  predicate PairwiseApart(segments: seq<Segment>) {
    forall i, j :: 0 <= i < |segments| && 0 <= j < |segments| && i != j ==> Apart(segments[i], segments[j])
  }

  function Bytes(segments: seq<Segment>): int {
    if segments == [] then 0 else Bytes(segments[..|segments| - 1]) + segments[|segments| - 1].bytes
  }

  function Frames(segments: seq<Segment>): int {
    if segments == [] then 0 else Frames(segments[..|segments| - 1]) + segments[|segments| - 1].frameCount
  }

  /** The frames a list of segments names. */
  ghost function Named(segments: seq<Segment>): set<(string, int)> {
    set i, n | 0 <= i < |segments| && segments[i].from <= n <= segments[i].to :: (segments[i].source, n)
  }

  // ----- order does not matter -----

  /** Pairwise apart, told from the multiset alone. */
  ghost predicate ApartAsMultiset(m: multiset<Segment>) {
    && (forall s :: s in m ==> m[s] == 1)
    && (forall s, t :: s in m && t in m && s != t ==> Apart(s, t))
  }

  lemma ApartIsAboutTheMultiset(segments: seq<Segment>)
    requires forall i :: 0 <= i < |segments| ==> segments[i].from <= segments[i].to
    ensures PairwiseApart(segments) <==> ApartAsMultiset(multiset(segments))
  {
    if PairwiseApart(segments) {
      assert forall i, j :: 0 <= i < j < |segments| ==> segments[i] != segments[j];
      OnceEach(segments);
    }
    if ApartAsMultiset(multiset(segments)) {
      forall i, j | 0 <= i < |segments| && 0 <= j < |segments| && i != j ensures Apart(segments[i], segments[j]) {
        if segments[i] == segments[j] {
          TwiceIn(segments, if i < j then i else j, if i < j then j else i);
        }
        assert segments[i] in multiset(segments) && segments[j] in multiset(segments);
      }
    }
  }

  lemma {:induction false} OnceEach(segments: seq<Segment>)
    requires forall i, j :: 0 <= i < j < |segments| ==> segments[i] != segments[j]
    ensures forall s :: s in multiset(segments) ==> multiset(segments)[s] == 1
  {
    if segments != [] {
      var front, last := segments[..|segments| - 1], segments[|segments| - 1];
      OnceEach(front);
      assert segments == front + [last];
      assert last !in front;
    }
  }

  lemma TwiceIn(segments: seq<Segment>, i: nat, j: nat)
    requires i < j < |segments| && segments[i] == segments[j]
    ensures multiset(segments)[segments[i]] >= 2
  {
    assert segments == segments[..j] + [segments[j]] + segments[j + 1..];
    assert segments[..j][i] == segments[i];
    assert segments[i] in multiset(segments[..j]);
  }

  lemma WithoutOne<T>(b: seq<T>, x: T) returns (k: nat)
    requires x in multiset(b)
    ensures k < |b| && b[k] == x && multiset(b[..k] + b[k + 1..]) == multiset(b) - multiset{x}
  {
    k :| 0 <= k < |b| && b[k] == x;
    assert b == b[..k] + [x] + b[k + 1..];
    assert multiset(b) == multiset(b[..k]) + multiset{x} + multiset(b[k + 1..]);
  }

  lemma {:induction false} SumsOfMultiset(a: seq<Segment>, b: seq<Segment>)
    requires multiset(a) == multiset(b)
    ensures Bytes(a) == Bytes(b) && Frames(a) == Frames(b)
    decreases |a|
  {
    if a == [] {
      assert |multiset(b)| == 0;
    } else {
      var front, last := a[..|a| - 1], a[|a| - 1];
      assert a == front + [last];
      assert last in multiset(a);
      var k := WithoutOne(b, last);
      var rest := b[..k] + b[k + 1..];
      assert multiset(a) == multiset(front) + multiset{last};
      assert multiset(front) == multiset(a) - multiset{last};
      SumsOfMultiset(front, rest);
      SumsWithout(b, k);
    }
  }

  lemma {:induction false} SumsOfConcat(a: seq<Segment>, b: seq<Segment>)
    ensures Bytes(a + b) == Bytes(a) + Bytes(b) && Frames(a + b) == Frames(a) + Frames(b)
  {
    if b == [] {
      assert a + b == a;
    } else {
      assert (a + b)[..|a + b| - 1] == a + b[..|b| - 1];
      SumsOfConcat(a, b[..|b| - 1]);
    }
  }

  lemma SumsWithout(b: seq<Segment>, k: nat)
    requires k < |b|
    ensures Bytes(b) == Bytes(b[..k] + b[k + 1..]) + b[k].bytes
    ensures Frames(b) == Frames(b[..k] + b[k + 1..]) + b[k].frameCount
  {
    assert b == b[..k + 1] + b[k + 1..] && b[..k + 1][..k] == b[..k];
    SumsOfConcat(b[..k + 1], b[k + 1..]);
    SumsOfConcat(b[..k], b[k + 1..]);
  }

  // ----- the count of frames -----

  ghost function NamedBy(s: Segment): set<(string, int)> {
    set n | s.from <= n <= s.to :: (s.source, n)
  }

  lemma {:induction false} NamedByCounts(s: Segment)
    requires s.from <= s.to + 1
    ensures |NamedBy(s)| == s.to - s.from + 1
    decreases s.to - s.from + 1
  {
    if s.from == s.to + 1 {
      assert NamedBy(s) == {};
    } else {
      var shorter := s.(to := s.to - 1);
      NamedByCounts(shorter);
      assert NamedBy(s) == NamedBy(shorter) + {(s.source, s.to)};
    }
  }

  /** Apart segments name as many different frames as their counts add up to. */
  lemma {:induction false} FramesAreDistinct(segments: seq<Segment>)
    requires PairwiseApart(segments)
    requires forall i :: 0 <= i < |segments| ==> segments[i].from <= segments[i].to && segments[i].to - segments[i].from + 1 == segments[i].frameCount
    ensures |Named(segments)| == Frames(segments)
  {
    if segments == [] {
      assert Named(segments) == {};
    } else {
      var front, last := segments[..|segments| - 1], segments[|segments| - 1];
      assert forall i :: 0 <= i < |front| ==> front[i] == segments[i];
      NamedOneMore(segments);
      FramesAreDistinct(front);
      NamedByCounts(last);
      hide Named, NamedBy, Apart;
      assert |Named(front) + NamedBy(last)| == |Named(front)| + |NamedBy(last)|;
    }
  }

  lemma NamedOneMore(segments: seq<Segment>)
    requires segments != [] && PairwiseApart(segments)
    ensures
      var front, last := segments[..|segments| - 1], segments[|segments| - 1];
      Named(segments) == Named(front) + NamedBy(last) && Named(front) !! NamedBy(last)
  {
    var front, last := segments[..|segments| - 1], segments[|segments| - 1];
    assert forall i :: 0 <= i < |front| ==> front[i] == segments[i];
    forall f | f in Named(front) ensures f !in NamedBy(last) {
      var i, n :| 0 <= i < |front| && front[i].from <= n <= front[i].to && f == (front[i].source, n);
      assert Apart(segments[i], segments[|segments| - 1]);
    }
  }

  // ----- validation -----

  /** The loop over the sorted copy: each segment's own checks, and a start past the last end seen for its
      source, decide whether the segments are apart. */
  method ValidateSegments(ordered: seq<Segment>, sources: set<string>) returns (ok: bool, totalBytes: int, totalFrames: int)
    requires SortedSegments(ordered)
    ensures ok <==> (forall i :: 0 <= i < |ordered| ==> SegmentOK(ordered[i], sources)) && PairwiseApart(ordered)
    ensures ok ==> totalBytes == Bytes(ordered) && totalFrames == Frames(ordered)
  {
    hide *;
    totalBytes, totalFrames := 0, 0;
    var lastTo: map<string, int> := map[];
    StartOfLoop(ordered);
    for n := 0 to |ordered|
      invariant forall i :: 0 <= i < n ==> SegmentOK(ordered[i], sources)
      invariant ApartUpTo(ordered, n) && LastEnds(ordered, n, lastTo)
      invariant totalBytes == Bytes(ordered[..n]) && totalFrames == Frames(ordered[..n])
    {
      var s := ordered[n];
      ok := CheckSegment(s, sources);
      if !ok {
        return false, 0, 0;
      }
      NotEmpty(s, sources);
      NextAgainstLast(ordered, n, lastTo);
      if s.source in lastTo && s.from <= lastTo[s.source] {
        return false, 0, 0;
      }
      lastTo := lastTo[s.source := s.to];
      SumsOneMore(ordered, n);
      totalBytes, totalFrames := totalBytes + s.bytes, totalFrames + s.frameCount;
    }
    assert ordered[..|ordered|] == ordered;
    return true, totalBytes, totalFrames;
  }

  /** The segments before n are apart; up to the end that is all of them. */
  predicate ApartUpTo(ordered: seq<Segment>, n: nat)
    requires n <= |ordered|
  {
    forall i, j :: 0 <= i < j < n ==> Apart(ordered[i], ordered[j])
  }

  lemma StartOfLoop(ordered: seq<Segment>)
    ensures ApartUpTo(ordered, 0) && LastEnds(ordered, 0, map[])
    ensures Bytes(ordered[..0]) == 0 == Frames(ordered[..0])
    ensures ApartUpTo(ordered, |ordered|) <==> PairwiseApart(ordered)
  {
  }

  /** The last end recorded for a source is the latest of its segments so far. */
  ghost predicate LastEnds(ordered: seq<Segment>, n: nat, lastTo: map<string, int>)
    requires n <= |ordered|
  {
    && (forall i :: 0 <= i < n ==> ordered[i].source in lastTo && ordered[i].to <= lastTo[ordered[i].source])
    && (forall source :: source in lastTo ==> exists i :: 0 <= i < n && ordered[i].source == source && ordered[i].to == lastTo[source])
  }

  lemma NotEmpty(s: Segment, sources: set<string>)
    requires SegmentOK(s, sources)
    ensures s.from <= s.to
  {
  }

  lemma SumsOneMore(ordered: seq<Segment>, n: nat)
    requires n < |ordered|
    ensures Bytes(ordered[..n + 1]) == Bytes(ordered[..n]) + ordered[n].bytes
    ensures Frames(ordered[..n + 1]) == Frames(ordered[..n]) + ordered[n].frameCount
  {
    assert ordered[..n + 1][..n] == ordered[..n];
  }

  /** The comparison with the last end alone tells whether the next segment is apart from all before it. */
  lemma NextAgainstLast(ordered: seq<Segment>, n: nat, lastTo: map<string, int>)
    requires SortedSegments(ordered) && n < |ordered| && LastEnds(ordered, n, lastTo) && ordered[n].from <= ordered[n].to
    ensures
      var s := ordered[n];
      if s.source in lastTo && s.from <= lastTo[s.source] then !PairwiseApart(ordered)
      else (ApartUpTo(ordered, n) ==> ApartUpTo(ordered, n + 1)) && LastEnds(ordered, n + 1, lastTo[s.source := s.to])
  {
    hide Less;
    var s := ordered[n];
    if s.source in lastTo && s.from <= lastTo[s.source] {
      var i :| 0 <= i < n && ordered[i].source == s.source && ordered[i].to == lastTo[s.source];
      OverlapIsReal(ordered, i, n);
    } else {
      var lastTo' := lastTo[s.source := s.to];
      forall source | source in lastTo'
        ensures exists i :: 0 <= i < n + 1 && ordered[i].source == source && ordered[i].to == lastTo'[source]
      {
        if source == s.source {
          assert ordered[n].source == source;
        } else {
          var i :| 0 <= i < n && ordered[i].source == source && ordered[i].to == lastTo[source];
        }
      }
    }
  }

  /** After sorting, a start not past an earlier end of the same source is a frame named twice. */
  lemma OverlapIsReal(ordered: seq<Segment>, i: nat, n: nat)
    requires SortedSegments(ordered) && i < n < |ordered| && ordered[i].source == ordered[n].source
    requires ordered[n].from <= ordered[i].to && ordered[n].from <= ordered[n].to
    ensures !Apart(ordered[i], ordered[n])
  {
    hide Before;
    assert !Less(ordered[n], ordered[i]);
  }

  predicate DefinitionOK(d: SourceDefinition, want: set<string>, targets: set<string>) {
    && d.source in want && !d.active && d.currentRevision && (d.kind == "host" || d.kind == "runtime")
    && (d.kind == "host" <==> d.target.None?) && (d.target.Some? ==> d.target.value in targets)
  }

  method CheckDefinition(d: SourceDefinition, want: set<string>, targets: set<string>) returns (ok: bool)
    ensures ok <==> DefinitionOK(d, want, targets)
  {
    if d.source !in want || d.active || !d.currentRevision || (d.kind != "host" && d.kind != "runtime") {
      return false;
    }
    if (d.kind == "host") != d.target.None? {
      return false;
    }
    return !(d.target.Some? && d.target.value !in targets);
  }

  function SetOf(sources: seq<string>): set<string> {
    set source | source in sources
  }

  ghost function DefinedSources(definitions: seq<SourceDefinition>): set<string> {
    set i | 0 <= i < |definitions| :: definitions[i].source
  }

  predicate DistinctDefinitions(definitions: seq<SourceDefinition>) {
    forall i, j :: 0 <= i < j < |definitions| ==> definitions[i].source != definitions[j].source
  }

  /** The source loop of the definitions: by counting, every wanted source is defined, once. */
  method ValidateSourceDefinitions(definitions: seq<SourceDefinition>, sources: seq<string>, targets: set<string>) returns (ok: bool)
    ensures ok <==>
      && (forall i :: 0 <= i < |definitions| ==> DefinitionOK(definitions[i], SetOf(sources), targets))
      && DistinctDefinitions(definitions) && DefinedSources(definitions) == SetOf(sources)
  {
    var want := SetOf(sources);
    hide DefinitionOK;
    var seen: set<string> := {};
    for n := 0 to |definitions|
      invariant forall i :: 0 <= i < n ==> DefinitionOK(definitions[i], want, targets)
      invariant seen <= want && DistinctDefinitions(definitions[..n]) && seen == DefinedSources(definitions[..n])
    {
      var d := definitions[n];
      ok := CheckDefinition(d, want, targets);
      if !ok {
        return false;
      }
      if d.source in seen {
        var i :| 0 <= i < n && definitions[..n][i].source == d.source;
        return false;
      }
      OKIsWanted(d, want, targets);
      assert definitions[..n + 1] == definitions[..n] + [d];
      DefinedOneMore(definitions[..n], d);
      seen := seen + {d.source};
    }
    assert definitions[..|definitions|] == definitions;
    SubsetOfSameSize(seen, want);
    return |seen| == |want|;
  }

  lemma DefinedOneMore(definitions: seq<SourceDefinition>, d: SourceDefinition)
    ensures DefinedSources(definitions + [d]) == DefinedSources(definitions) + {d.source}
    ensures d.source !in DefinedSources(definitions) && DistinctDefinitions(definitions) ==> DistinctDefinitions(definitions + [d])
  {
    var all := definitions + [d];
    assert all[|definitions|] == d;
    assert forall i :: 0 <= i < |definitions| ==> all[i] == definitions[i];
    forall s | s in DefinedSources(definitions) ensures s in DefinedSources(all) {
      var i :| 0 <= i < |definitions| && definitions[i].source == s;
      assert all[i].source == s;
    }
  }

  lemma OKIsWanted(d: SourceDefinition, want: set<string>, targets: set<string>)
    requires DefinitionOK(d, want, targets)
    ensures d.source in want
  {
  }

  lemma SubsetOfSameSize(a: set<string>, b: set<string>)
    requires a <= b
    ensures |a| == |b| <==> a == b
  {
    var missing := b - a;
    assert b == a + missing && |b| == |a| + |missing|;
  }

  predicate DistinctSources(sources: seq<string>) {
    forall i, j :: 0 <= i < j < |sources| ==> sources[i] != sources[j]
  }

  /** The source set of a manifest. */
  method ValidateSources(sources: seq<string>) returns (ok: bool, seen: set<string>)
    ensures ok <==> (forall i :: 0 <= i < |sources| ==> IsUUID(sources[i])) && DistinctSources(sources)
    ensures ok ==> seen == SetOf(sources)
  {
    hide IsUUID;
    seen := {};
    for n := 0 to |sources|
      invariant forall i :: 0 <= i < n ==> IsUUID(sources[i])
      invariant DistinctSources(sources[..n]) && seen == SetOf(sources[..n])
    {
      if !IsUUID(sources[n]) || sources[n] in seen {
        return false, seen;
      }
      assert sources[..n + 1] == sources[..n] + [sources[n]];
      seen := seen + {sources[n]};
    }
    assert sources[..|sources|] == sources;
    return true, seen;
  }

  predicate TargetOK(t: TargetDefinition) {
    && IsUUID(t.target) && t.adapter == "ollama" && IsDigest(t.selector)
    && t.association in {"verified", "declared_unverified", "ambiguous"}
  }

  method CheckTarget(t: TargetDefinition) returns (ok: bool)
    ensures ok <==> TargetOK(t)
  {
    hide IsUUID, IsDigest;
    if !IsUUID(t.target) || t.adapter != "ollama" || !IsDigest(t.selector) {
      return false;
    }
    return !(t.association != "verified" && t.association != "declared_unverified" && t.association != "ambiguous");
  }

  ghost function DefinedTargets(targets: seq<TargetDefinition>): set<string> {
    set i | 0 <= i < |targets| :: targets[i].target
  }

  predicate DistinctTargets(targets: seq<TargetDefinition>) {
    forall i, j :: 0 <= i < j < |targets| ==> targets[i].target != targets[j].target
  }

  /** The target loop of the definitions, which collects the targets the other loops refer to. */
  method ValidateTargets(targets: seq<TargetDefinition>) returns (ok: bool, seen: set<string>)
    ensures ok <==> (forall i :: 0 <= i < |targets| ==> TargetOK(targets[i])) && DistinctTargets(targets)
    ensures ok ==> seen == DefinedTargets(targets)
  {
    hide TargetOK;
    ok, seen := true, {};
    for n := 0 to |targets|
      invariant ok && forall i :: 0 <= i < n ==> TargetOK(targets[i])
      invariant seen == DefinedTargets(targets[..n]) && DistinctTargets(targets[..n])
    {
      var t := targets[n];
      var valid := CheckTarget(t);
      if !valid || t.target in seen {
        ok := false;
        if t.target in seen {
          var i :| 0 <= i < n && targets[..n][i].target == t.target;
        }
        return;
      }
      assert targets[..n + 1] == targets[..n] + [t];
      TargetsOneMore(targets[..n], t);
      seen := seen + {t.target};
    }
    assert targets[..|targets|] == targets;
  }

  lemma TargetsOneMore(targets: seq<TargetDefinition>, t: TargetDefinition)
    ensures DefinedTargets(targets + [t]) == DefinedTargets(targets) + {t.target}
    ensures t.target !in DefinedTargets(targets) && DistinctTargets(targets) ==> DistinctTargets(targets + [t])
  {
    var all := targets + [t];
    assert all[|targets|] == t;
    assert forall i :: 0 <= i < |targets| ==> all[i] == targets[i];
    forall s | s in DefinedTargets(targets) ensures s in DefinedTargets(all) {
      var i :| 0 <= i < |targets| && targets[i].target == s;
      assert all[i].target == s;
    }
  }

  predicate ModelOK(m: ModelDefinition, targets: set<string>) {
    && IsUUID(m.model) && IsUUID(m.target) && m.target in targets && m.safeAlias && !m.loaded
    && (m.digest.Some? ==> IsDigest(m.digest.value))
  }

  method CheckModel(m: ModelDefinition, targets: set<string>) returns (ok: bool)
    ensures ok <==> ModelOK(m, targets)
  {
    hide IsUUID, IsDigest;
    if !IsUUID(m.model) || !IsUUID(m.target) || m.target !in targets || !m.safeAlias || m.loaded {
      return false;
    }
    return !(m.digest.Some? && !IsDigest(m.digest.value));
  }

  predicate DistinctModels(models: seq<ModelDefinition>) {
    forall i, j :: 0 <= i < j < |models| ==> models[i].model != models[j].model
  }

  /** The model loop of the definitions. */
  method ValidateModels(models: seq<ModelDefinition>, targets: set<string>) returns (ok: bool)
    ensures ok <==> (forall i :: 0 <= i < |models| ==> ModelOK(models[i], targets)) && DistinctModels(models)
  {
    hide ModelOK;
    var seen: set<string> := {};
    for n := 0 to |models|
      invariant forall i :: 0 <= i < n ==> ModelOK(models[i], targets)
      invariant forall m :: m in seen <==> exists i :: 0 <= i < n && models[i].model == m
      invariant DistinctModels(models[..n])
    {
      ok := CheckModel(models[n], targets);
      if !ok || models[n].model in seen {
        return false;
      }
      seen := seen + {models[n].model};
    }
    assert models[..|models|] == models;
    return true;
  }

  /** The historical definitions are whole: inactive sources of the current registry, exactly the wanted
      ones and each once, on defined targets; models of defined targets, each once. */
  ghost predicate DefinitionsFit(d: Definitions, sources: seq<string>) {
    var targets := DefinedTargets(d.targets);
    && d.historicalOnly && 1 <= |d.sources| <= 8 && |d.targets| <= 1 && |d.models| <= 64
    && (forall i :: 0 <= i < |d.targets| ==> TargetOK(d.targets[i])) && DistinctTargets(d.targets)
    && (forall i :: 0 <= i < |d.sources| ==> DefinitionOK(d.sources[i], SetOf(sources), targets))
    && DistinctDefinitions(d.sources) && DefinedSources(d.sources) == SetOf(sources)
    && (forall i :: 0 <= i < |d.models| ==> ModelOK(d.models[i], targets)) && DistinctModels(d.models)
  }

  /** RecoveryDefinitions.validate. */
  method ValidateDefinitions(d: Definitions, sources: seq<string>) returns (ok: bool)
    ensures ok <==> DefinitionsFit(d, sources)
  {
    hide TargetOK, DefinitionOK, ModelOK, DefinedTargets, DefinedSources, SetOf, DistinctTargets, DistinctDefinitions, DistinctModels;
    if !d.historicalOnly || |d.sources| < 1 || |d.sources| > 8 || |d.targets| > 1 || |d.models| > 64 {
      return false;
    }
    var targets;
    ok, targets := ValidateTargets(d.targets);
    if !ok {
      return;
    }
    ok := ValidateSourceDefinitions(d.sources, sources, targets);
    if !ok {
      return;
    }
    ok := ValidateModels(d.models, targets);
  }

  predicate LossOK(l: Loss) {
    0 <= l.startMS <= l.endMS <= MAX_UINT53 && 1 <= l.lostCount <= MAX_UINT53 && l.safeReason
  }

  predicate EnvelopeOK(m: Manifest) {
    && m.envelopeOK && IsUint53(m.createdMS)
    && 1 <= m.totalBytes <= 268_435_456 && 1 <= m.totalFrames <= 1_000_000
    && 1 <= |m.sources| <= 8 && 1 <= |m.segments| <= 4096 && |m.losses| <= 1024 && IsDigest(m.digest)
  }

  ghost predicate SegmentsFit(m: Manifest) {
    && (forall i :: 0 <= i < |m.segments| ==> SegmentOK(m.segments[i], SetOf(m.sources)))
    && PairwiseApart(m.segments) && Bytes(m.segments) == m.totalBytes && Frames(m.segments) == m.totalFrames
  }

  /** What an accepted manifest says, without reference to any order of its segments. */
  ghost predicate Acceptable(m: Manifest, canonicalDigest: string) {
    && EnvelopeOK(m) && DefinitionsFit(m.definitions, m.sources)
    && (forall i :: 0 <= i < |m.sources| ==> IsUUID(m.sources[i])) && DistinctSources(m.sources)
    && SegmentsFit(m)
    && (forall i :: 0 <= i < |m.losses| ==> LossOK(m.losses[i])) && canonicalDigest == m.digest
  }

  lemma PermutationFits(a: seq<Segment>, b: seq<Segment>, sources: set<string>)
    requires multiset(a) == multiset(b)
    ensures (forall i :: 0 <= i < |a| ==> SegmentOK(a[i], sources)) ==> forall i :: 0 <= i < |b| ==> SegmentOK(b[i], sources)
  {
    hide SegmentOK;
    forall i | 0 <= i < |b| ensures b[i] in a {
      assert b[i] in multiset(b);
      assert b[i] in multiset(a);
    }
  }

  lemma PermutationIsApart(a: seq<Segment>, b: seq<Segment>, sources: set<string>)
    requires multiset(a) == multiset(b) && forall i :: 0 <= i < |a| ==> SegmentOK(a[i], sources)
    ensures PairwiseApart(a) <==> PairwiseApart(b)
  {
    PermutationFits(a, b, sources);
    forall i | 0 <= i < |a| ensures a[i].from <= a[i].to {
      NotEmpty(a[i], sources);
    }
    forall i | 0 <= i < |b| ensures b[i].from <= b[i].to {
      NotEmpty(b[i], sources);
    }
    ApartIsAboutTheMultiset(a);
    ApartIsAboutTheMultiset(b);
  }

  method ValidateLosses(losses: seq<Loss>) returns (ok: bool)
    ensures ok <==> forall i :: 0 <= i < |losses| ==> LossOK(losses[i])
  {
    for n := 0 to |losses|
      invariant forall i :: 0 <= i < n ==> LossOK(losses[i])
    {
      var l := losses[n];
      if l.startMS < 0 || l.endMS < l.startMS || l.endMS > MAX_UINT53 || l.lostCount < 1 || l.lostCount > MAX_UINT53 || !l.safeReason {
        return false;
      }
    }
    return true;
  }

  method CheckEnvelope(m: Manifest) returns (ok: bool)
    ensures ok <==> EnvelopeOK(m)
  {
    hide IsDigest;
    if !m.envelopeOK || m.createdMS < 0 || m.createdMS > MAX_UINT53 || m.totalBytes < 1 || m.totalBytes > MAX_TOTAL_BYTES
       || m.totalFrames < 1 || m.totalFrames > 1_000_000 {
      return false;
    }
    return !(|m.sources| < 1 || |m.sources| > 8 || |m.segments| < 1 || |m.segments| > 4096 || |m.losses| > 1024 || !IsDigest(m.digest));
  }

  /** RecoveryManifest.Validate. The verdict is the same whatever order the segments come in and however
      the sort leaves ties, since what it decides is about the segments as a collection. */
  method Validate(m: Manifest, ordered: seq<Segment>, canonicalDigest: string) returns (ok: bool)
    requires multiset(ordered) == multiset(m.segments) && SortedSegments(ordered)
    ensures ok <==> Acceptable(m, canonicalDigest)
  {
    hide EnvelopeOK, DefinitionsFit, IsUUID, DistinctSources, SegmentOK, PairwiseApart, Bytes, Frames,
         LossOK, SortedSegments;
    ok := CheckEnvelope(m);
    if !ok {
      return;
    }
    ok := ValidateDefinitions(m.definitions, m.sources);
    if !ok {
      return;
    }
    var seen;
    ok, seen := ValidateSources(m.sources);
    if !ok {
      return;
    }
    PermutationFits(ordered, m.segments, seen);
    PermutationFits(m.segments, ordered, seen);
    SumsOfMultiset(ordered, m.segments);
    if forall i :: 0 <= i < |ordered| ==> SegmentOK(ordered[i], seen) {
      PermutationIsApart(ordered, m.segments, seen);
    }
    var totalBytes, totalFrames;
    ok, totalBytes, totalFrames := ValidateSegments(ordered, seen);
    if !ok {
      return;
    }
    if totalBytes != m.totalBytes || totalFrames != m.totalFrames {
      return false;
    }
    ok := ValidateLosses(m.losses);
    ok := ok && canonicalDigest == m.digest;
  }

  /** The total of an accepted manifest is the number of different frames its segments name, no two of
      which overlap. */
  lemma TotalFramesIsTheCount(m: Manifest, canonicalDigest: string)
    requires Acceptable(m, canonicalDigest)
    ensures PairwiseApart(m.segments) && |Named(m.segments)| == m.totalFrames
  {
    hide EnvelopeOK, DefinitionsFit, IsUUID, LossOK;
    forall i | 0 <= i < |m.segments|
      ensures m.segments[i].from <= m.segments[i].to && m.segments[i].to - m.segments[i].from + 1 == m.segments[i].frameCount
    {
      assert SegmentOK(m.segments[i], SetOf(m.sources));
    }
    FramesAreDistinct(m.segments);
  }
}
