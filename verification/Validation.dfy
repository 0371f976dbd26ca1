/** The static checks on the source segments of a load profile. */
module Validation {
  import opened Results
  import opened Profile
  import opened Text

  datatype Complaint =
    | BadSegmentCount
    | BadName(index: nat)
    | DuplicateName(name: string)
    | BadStage(stage: string, name: string)
    | BadDuration(name: string)
    | BadRates(name: string)
    | NothingMeasured

  predicate IsConstant(s: SourceSegment) {
    s.rate > 0.0 && s.startRate == 0.0 && s.endRate == 0.0 && s.steps == 0
  }

  predicate IsRamp(s: SourceSegment) {
    s.rate == 0.0 && s.startRate > 0.0 && s.endRate > 0.0 && s.steps >= 2
  }

  predicate NameFits(name: string) {
    name != "" && |name| <= MAX_NAME_LENGTH
  }

  function Names(segments: seq<SourceSegment>): set<string> {
    set i | 0 <= i < |segments| :: TrimSpace(segments[i].name)
  }

  /** What a profile must satisfy, without reference to the order in which it is checked. */
  ghost predicate Admissible(segments: seq<SourceSegment>) {
    && 0 < |segments| <= MAX_SOURCE_SEGMENTS
    && (forall i :: 0 <= i < |segments| ==> NameFits(TrimSpace(segments[i].name)))
    && (forall i, j :: 0 <= i < j < |segments| ==> TrimSpace(segments[i].name) != TrimSpace(segments[j].name))
    && StagesAscend(segments)
    && (forall i :: 0 <= i < |segments| ==> segments[i].duration > 0 && (IsConstant(segments[i]) || IsRamp(segments[i])))
    && (exists i :: 0 <= i < |segments| && segments[i].stage == MEASURED)
  }

  /** The complaint about one segment, given the segments before it. */
  function Problem(before: seq<SourceSegment>, s: SourceSegment): Option<Complaint> {
    var name := TrimSpace(s.name);
    var previous := if before == [] then 0 else Rank(before[|before| - 1].stage);
    if !NameFits(name) then Some(BadName(|before|))
    else if name in Names(before) then Some(DuplicateName(name))
    else if Rank(s.stage) < 0 || Rank(s.stage) < previous then Some(BadStage(s.stage, name))
    else if s.duration <= 0 then Some(BadDuration(name))
    else if !IsConstant(s) && !IsRamp(s) then Some(BadRates(name))
    else None
  }

  /** No segment among the first `n` is complained about. */
  ghost predicate Clean(segments: seq<SourceSegment>, n: nat)
    requires n <= |segments|
  {
    forall i :: 0 <= i < n ==> Problem(segments[..i], segments[i]).None?
  }

  /** Checking each segment against the one before it is enough to order all stages. */
  lemma {:induction false} CleanAscends(segments: seq<SourceSegment>, i: nat, j: nat)
    requires i <= j < |segments| && Clean(segments, |segments|)
    ensures 0 <= Rank(segments[i].stage) <= Rank(segments[j].stage)
  {
    assert Problem(segments[..j], segments[j]).None?;
    if i < j {
      CleanAscends(segments, i, j - 1);
      assert segments[..j][j - 1] == segments[j - 1];
    }
  }

  lemma CleanDistinct(segments: seq<SourceSegment>, i: nat, j: nat)
    requires i < j < |segments| && Clean(segments, |segments|)
    ensures TrimSpace(segments[i].name) != TrimSpace(segments[j].name)
  {
    assert Problem(segments[..j], segments[j]).None?;
    assert segments[..j][i] == segments[i];
    assert TrimSpace(segments[..j][i].name) in Names(segments[..j]);
  }

  lemma CleanIsAdmissible(segments: seq<SourceSegment>)
    requires 0 < |segments| <= MAX_SOURCE_SEGMENTS && Clean(segments, |segments|)
    requires exists i :: 0 <= i < |segments| && segments[i].stage == MEASURED
    ensures Admissible(segments)
  {
    forall i, j | 0 <= i < j < |segments|
      ensures TrimSpace(segments[i].name) != TrimSpace(segments[j].name)
    {
      CleanDistinct(segments, i, j);
    }
    forall i, j | 0 <= i <= j < |segments|
      ensures 0 <= Rank(segments[i].stage) <= Rank(segments[j].stage)
    {
      CleanAscends(segments, i, j);
    }
    forall i | 0 <= i < |segments|
      ensures NameFits(TrimSpace(segments[i].name))
      ensures segments[i].duration > 0 && (IsConstant(segments[i]) || IsRamp(segments[i]))
    {
      CleanFits(segments, i);
    }
  }

  lemma CleanFits(segments: seq<SourceSegment>, i: nat)
    requires i < |segments| && Clean(segments, |segments|)
    ensures NameFits(TrimSpace(segments[i].name))
    ensures segments[i].duration > 0 && (IsConstant(segments[i]) || IsRamp(segments[i]))
  {
    assert Problem(segments[..i], segments[i]).None?;
  }

  /** A segment that is complained about makes the whole profile inadmissible. */
  lemma ProblemRefutes(segments: seq<SourceSegment>, i: nat)
    requires i < |segments| && Problem(segments[..i], segments[i]).Some?
    ensures !Admissible(segments)
  {
    var name, before := TrimSpace(segments[i].name), segments[..i];
    if name in Names(before) {
      var k :| 0 <= k < i && TrimSpace(before[k].name) == name;
      assert before[k] == segments[k];
    }
    if i > 0 { assert before[i - 1] == segments[i - 1]; }
  }

  /** What a complaint says: a problem is that of the first segment that has one. */
  ghost predicate Justified(complaint: Complaint, segments: seq<SourceSegment>) {
    match complaint
    case BadSegmentCount => |segments| == 0 || |segments| > MAX_SOURCE_SEGMENTS
    case NothingMeasured => Clean(segments, |segments|) && forall s :: s in segments ==> s.stage != MEASURED
    case _ => exists i :: 0 <= i < |segments| && FirstProblem(segments, i, complaint)
  }

  ghost predicate FirstProblem(segments: seq<SourceSegment>, i: nat, complaint: Complaint)
    requires i < |segments|
  {
    Clean(segments, i) && Problem(segments[..i], segments[i]) == Some(complaint)
  }

  lemma FirstProblemJustified(segments: seq<SourceSegment>, i: nat, complaint: Complaint)
    requires i < |segments| && FirstProblem(segments, i, complaint)
    ensures Justified(complaint, segments)
  {
    assert complaint != BadSegmentCount && complaint != NothingMeasured;
  }

  lemma CleanExtends(segments: seq<SourceSegment>, n: nat)
    requires n < |segments| && Clean(segments, n) && Problem(segments[..n], segments[n]).None?
    ensures Clean(segments, n + 1)
    ensures Names(segments[..n + 1]) == Names(segments[..n]) + {TrimSpace(segments[n].name)}
  {
    NamesExtend(segments, n);
  }

  lemma MeasuredOrNot(segments: seq<SourceSegment>)
    requires 0 < |segments| <= MAX_SOURCE_SEGMENTS && Clean(segments, |segments|)
    ensures Admissible(segments) <==> exists i :: 0 <= i < |segments| && segments[i].stage == MEASURED
    ensures !Admissible(segments) ==> Justified(NothingMeasured, segments)
  {
    if exists i :: 0 <= i < |segments| && segments[i].stage == MEASURED { CleanIsAdmissible(segments); }
  }

  /** Checks one segment against the names and the rank that came before it. */
  method CheckSegment(ghost before: seq<SourceSegment>, index: nat, seenNames: set<string>, previousRank: int,
                      segment: SourceSegment)
    returns (complaint: Option<Complaint>)
    requires index == |before| && seenNames == Names(before)
    requires previousRank == if before == [] then 0 else Rank(before[|before| - 1].stage)
    ensures complaint == Problem(before, segment)
  {
    var name := TrimSpace(segment.name);
    if name == "" || |name| > MAX_NAME_LENGTH { return Some(BadName(index)); }
    if name in seenNames { return Some(DuplicateName(name)); }
    var rank := Rank(segment.stage);
    if rank < 0 || rank < previousRank { return Some(BadStage(segment.stage, name)); }
    if segment.duration <= 0 { return Some(BadDuration(name)); }
    if !IsConstant(segment) && !IsRamp(segment) { return Some(BadRates(name)); }
    complaint := None;
  }

  /** Validates source segments one by one: accepts exactly the admissible profiles and
      otherwise reports the first segment with a problem. */
  method ValidateSegments(segments: seq<SourceSegment>) returns (complaint: Option<Complaint>)
    ensures complaint.None? <==> Admissible(segments)
    ensures complaint.Some? ==> Justified(complaint.value, segments)
  {
    if |segments| == 0 || |segments| > MAX_SOURCE_SEGMENTS { return Some(BadSegmentCount); }
    var seenNames := {};
    var previousRank, hasMeasured := 0, false;
    for index := 0 to |segments|
      invariant Clean(segments, index) && 0 < |segments| <= MAX_SOURCE_SEGMENTS
      invariant seenNames == Names(segments[..index])
      invariant previousRank == if index == 0 then 0 else Rank(segments[index - 1].stage)
      invariant hasMeasured <==> exists i :: 0 <= i < index && segments[i].stage == MEASURED
    {
      complaint := CheckSegment(segments[..index], index, seenNames, previousRank, segments[index]);
      if complaint.Some? {
        ProblemRefutes(segments, index);
        FirstProblemJustified(segments, index, complaint.value);
        return;
      }
      CleanExtends(segments, index);
      seenNames := seenNames + {TrimSpace(segments[index].name)};
      previousRank := Rank(segments[index].stage);
      hasMeasured := hasMeasured || segments[index].stage == MEASURED;
    }
    MeasuredOrNot(segments);
    complaint := if hasMeasured then None else Some(NothingMeasured);
  }

  lemma NamesExtend(segments: seq<SourceSegment>, n: nat)
    requires n < |segments|
    ensures Names(segments[..n + 1]) == Names(segments[..n]) + {TrimSpace(segments[n].name)}
  {
    var longer, shorter := segments[..n + 1], segments[..n];
    assert forall i :: 0 <= i < n ==> longer[i] == shorter[i];
    assert longer[n] == segments[n];
    forall name | name in Names(shorter) ensures name in Names(longer) {
      var i :| 0 <= i < n && name == TrimSpace(shorter[i].name);
      assert name == TrimSpace(longer[i].name);
    }
  }

  /** Validated profiles never lose time to compilation: their compiled duration is the
      sum of the source durations. */
  lemma ValidatedDuration(source: seq<SourceSegment>, timeUnit: int)
    requires Admissible(source) && timeUnit > 0
    ensures Compiled(source, |source|, timeUnit).totalDuration == TotalOf(source)
  {
    forall i | 0 <= i < |source| ensures source[i].steps >= 0 && source[i].duration >= 0 {
      assert IsConstant(source[i]) || IsRamp(source[i]);
    }
    CompiledOffset(source, |source|, timeUnit);
    OffsetsAddUp(source, |source|);
    assert source[..|source|] == source;
  }
}
