/** The status of a ScanJob: a list of conditions updated by find-or-append,
    the image counters and the start and completion times. */
module ScanJobStatus {
  import opened Ordering

  datatype Truth = True | False | Unknown

  /** The condition types a ScanJob carries, in the order the Mark methods set them. */
  datatype Kind = Scheduled | InProgress | Complete | Failed

  datatype Condition = Condition(
    kind: Kind, truth: Truth, reason: string, message: string,
    generation: int, transition: int)

  datatype Status = Status(
    conditions: seq<Condition>, imagesCount: nat, scannedImagesCount: nat,
    startTime: Option<int>, completionTime: Option<int>)

  const EMPTY_STATUS := Status([], 0, 0, None, None)

  /** Index of the first condition of a kind; the length when there is none. */
  function FindCondition(conditions: seq<Condition>, kind: Kind): (i: nat)
    ensures i <= |conditions|
    ensures i < |conditions| ==> conditions[i].kind == kind
    ensures forall j :: 0 <= j < i ==> conditions[j].kind != kind
  {
    if conditions == [] || conditions[0].kind == kind then 0
    else 1 + FindCondition(conditions[1..], kind)
  }

  /** `meta.SetStatusCondition`: append a new kind, or update the first condition
      of the kind, moving its transition time only when its truth changes. */
  function SetCondition(conditions: seq<Condition>, c: Condition, now: int): seq<Condition> {
    var i := FindCondition(conditions, c.kind);
    if i == |conditions| then conditions + [c.(transition := now)]
    else conditions[i := c.(transition :=
                              if conditions[i].truth == c.truth then conditions[i].transition else now)]
  }

  predicate IsTrue(conditions: seq<Condition>, kind: Kind) {
    var i := FindCondition(conditions, kind);
    i < |conditions| && conditions[i].truth == True
  }

  predicate IsScheduled(s: Status) { IsTrue(s.conditions, Scheduled) }
  predicate IsInProgress(s: Status) { IsTrue(s.conditions, InProgress) }
  predicate IsComplete(s: Status) { IsTrue(s.conditions, Complete) }
  predicate IsFailed(s: Status) { IsTrue(s.conditions, Failed) }
  predicate IsPending(s: Status) {
    !IsScheduled(s) && !IsInProgress(s) && !IsComplete(s) && !IsFailed(s)
  }

  /** `telemetry.JobFinished`. */
  predicate Finished(s: Status) { IsComplete(s) || IsFailed(s) }

  /** Four find-or-append updates in the order every Mark method makes them:
      `active` becomes True with its own reason, the other three become False. */
  function MarkAll(conditions: seq<Condition>, active: Kind, reason: string, message: string,
                   otherReason: string, otherMessage: string, generation: int, now: int): seq<Condition>
  {
    var entry := (kind: Kind) =>
      if kind == active then Condition(kind, True, reason, message, generation, 0)
      else Condition(kind, False, otherReason, otherMessage, generation, 0);
    var c1 := SetCondition(conditions, entry(Scheduled), now);
    var c2 := SetCondition(c1, entry(InProgress), now);
    var c3 := SetCondition(c2, entry(Complete), now);
    SetCondition(c3, entry(Failed), now)
  }

  /** Four Unknown conditions, replacing whatever list was there. */
  function Initialized(s: Status, generation: int, now: int): Status {
    var unknown := (kind: Kind) =>
      Condition(kind, Unknown, "Pending", "ScanJob is pending", generation, now);
    s.(conditions := [unknown(Scheduled), unknown(InProgress), unknown(Complete), unknown(Failed)])
  }

  function AsScheduled(s: Status, reason: string, message: string, generation: int, now: int): Status {
    s.(conditions := MarkAll(s.conditions, Scheduled, reason, message,
                             "Scheduled", "ScanJob is scheduled", generation, now))
  }

  function AsInProgress(s: Status, reason: string, message: string, generation: int, now: int): Status {
    s.(conditions := MarkAll(s.conditions, InProgress, reason, message,
                             "InProgress", "ScanJob is in progress", generation, now),
       startTime := if s.startTime == None then Some(now) else s.startTime)
  }

  function AsComplete(s: Status, reason: string, message: string, generation: int, now: int): Status {
    s.(conditions := MarkAll(s.conditions, Complete, reason, message,
                             "Complete", "ScanJob completed successfully", generation, now),
       completionTime := Some(now))
  }

  function AsFailed(s: Status, reason: string, message: string, generation: int, now: int): Status {
    s.(conditions := MarkAll(s.conditions, Failed, reason, message,
                             "Failed", "ScanJob failed", generation, now),
       completionTime := Some(now))
  }

  // --- What the list keeps ------------------------------------------------

  /** One condition per kind, and at most one of them True. */
  ghost predicate WellFormed(conditions: seq<Condition>) {
    DistinctKinds(conditions)
    && forall i, j :: 0 <= i < j < |conditions| ==> conditions[i].truth != True || conditions[j].truth != True
  }

  ghost predicate DistinctKinds(conditions: seq<Condition>) {
    forall i, j :: 0 <= i < j < |conditions| ==> conditions[i].kind != conditions[j].kind
  }

  /** A finished job has a completion time, and one in progress a start time. */
  ghost predicate Timed(s: Status) {
    && (IsComplete(s) || IsFailed(s) ==> s.completionTime.Some?)
    && (IsInProgress(s) ==> s.startTime.Some?)
  }

  /** A list that is not empty has a condition of every kind. */
  ghost predicate Stocked(conditions: seq<Condition>) {
    conditions == [] || forall kind :: EntryOf(conditions, kind).Some?
  }

  ghost predicate Valid(s: Status) { WellFormed(s.conditions) && Timed(s) && Stocked(s.conditions) }

  /** What a list says of a kind: the first condition of it. */
  function EntryOf(conditions: seq<Condition>, kind: Kind): Option<Condition> {
    var i := FindCondition(conditions, kind);
    if i < |conditions| then Some(conditions[i]) else None
  }

  ghost predicate Says(conditions: seq<Condition>, kind: Kind, truth: Truth, reason: string, message: string,
                       generation: int) {
    && EntryOf(conditions, kind).Some?
    && EntryOf(conditions, kind).value.(transition := 0) == Condition(kind, truth, reason, message, generation, 0)
  }

  /** The active kind is True for its own reason and each other kind False. */
  ghost predicate Marked(conditions: seq<Condition>, active: Kind, reason: string, message: string,
                         otherReason: string, otherMessage: string, generation: int) {
    forall kind :: if kind == active then Says(conditions, kind, True, reason, message, generation)
                   else Says(conditions, kind, False, otherReason, otherMessage, generation)
  }

  lemma EntryTruth(conditions: seq<Condition>, kind: Kind)
    ensures IsTrue(conditions, kind) <==>
        EntryOf(conditions, kind).Some? && EntryOf(conditions, kind).value.truth == True
  {
  }

  /** One update replaces what the list says of its own kind, with the earlier
      transition time exactly if the truth stays, and nothing it says of another. */
  lemma SetConditionEntry(conditions: seq<Condition>, c: Condition, now: int, kind: Kind)
    ensures var was, next := EntryOf(conditions, kind), EntryOf(SetCondition(conditions, c, now), kind);
            if kind != c.kind then next == was
            else if was.Some? && was.value.truth == c.truth then next == Some(c.(transition := was.value.transition))
            else next == Some(c.(transition := now))
  {
    var r := SetCondition(conditions, c, now);
    assert forall k :: 0 <= k < |conditions| ==> r[k].kind == conditions[k].kind;
    var i, j := FindCondition(conditions, kind), FindCondition(r, kind);
    if i < |conditions| {
      assert r[i].kind == kind && i == j;
    } else if kind == c.kind {
      assert r[|conditions|].kind == kind && j == |conditions|;
    } else {
      assert forall k :: 0 <= k < |r| ==> r[k].kind != kind;
    }
  }

  /** One update changes the truth of its own kind and of no other, on any list,
      and adds no second condition of a kind. */
  lemma SetConditionTruth(conditions: seq<Condition>, c: Condition, now: int)
    ensures var r := SetCondition(conditions, c, now);
            && (forall kind :: IsTrue(r, kind) == if kind == c.kind then c.truth == True else IsTrue(conditions, kind))
            && (DistinctKinds(conditions) ==> DistinctKinds(r))
  {
    var r := SetCondition(conditions, c, now);
    forall kind ensures IsTrue(r, kind) == if kind == c.kind then c.truth == True else IsTrue(conditions, kind) {
      SetConditionEntry(conditions, c, now, kind);
      EntryTruth(conditions, kind);
      EntryTruth(r, kind);
    }
  }

  lemma OneTrueKind(conditions: seq<Condition>, active: Kind)
    requires DistinctKinds(conditions)
    requires forall kind :: IsTrue(conditions, kind) ==> kind == active
    ensures WellFormed(conditions)
  {
    forall i | 0 <= i < |conditions| && conditions[i].truth == True
      ensures conditions[i].kind == active
    {
      var j := FindCondition(conditions, conditions[i].kind);
      assert !(j < i) && !(i < j);
      assert IsTrue(conditions, conditions[i].kind);
    }
  }

  /** Whatever list a Mark method starts from, exactly the active kind is True
      afterwards, and a list with one condition per kind becomes well-formed. */
  lemma MarkAllLeavesOne(conditions: seq<Condition>, active: Kind, reason: string, message: string,
                         otherReason: string, otherMessage: string, generation: int, now: int)
    ensures var r := MarkAll(conditions, active, reason, message, otherReason, otherMessage, generation, now);
            && (forall kind :: IsTrue(r, kind) <==> kind == active)
            && (DistinctKinds(conditions) ==> WellFormed(r))
  {
    var entry := (kind: Kind) =>
      if kind == active then Condition(kind, True, reason, message, generation, 0)
      else Condition(kind, False, otherReason, otherMessage, generation, 0);
    var c1 := SetCondition(conditions, entry(Scheduled), now);
    var c2 := SetCondition(c1, entry(InProgress), now);
    var c3 := SetCondition(c2, entry(Complete), now);
    SetConditionTruth(conditions, entry(Scheduled), now);
    SetConditionTruth(c1, entry(InProgress), now);
    SetConditionTruth(c2, entry(Complete), now);
    SetConditionTruth(c3, entry(Failed), now);
    if DistinctKinds(conditions) {
      OneTrueKind(SetCondition(c3, entry(Failed), now), active);
    }
  }

  /** What a Mark method says of each kind, whatever list it starts from. */
  lemma MarkAllSays(conditions: seq<Condition>, active: Kind, reason: string, message: string,
                    otherReason: string, otherMessage: string, generation: int, now: int)
    ensures Marked(MarkAll(conditions, active, reason, message, otherReason, otherMessage, generation, now),
                   active, reason, message, otherReason, otherMessage, generation)
  {
    hide SetCondition, EntryOf;
    var entry := (kind: Kind) =>
      if kind == active then Condition(kind, True, reason, message, generation, 0)
      else Condition(kind, False, otherReason, otherMessage, generation, 0);
    var c1 := SetCondition(conditions, entry(Scheduled), now);
    var c2 := SetCondition(c1, entry(InProgress), now);
    var c3 := SetCondition(c2, entry(Complete), now);
    forall kind ensures
        if kind == active
        then Says(SetCondition(c3, entry(Failed), now), kind, True, reason, message, generation)
        else Says(SetCondition(c3, entry(Failed), now), kind, False, otherReason, otherMessage, generation)
    {
      SetConditionEntry(conditions, entry(Scheduled), now, kind);
      SetConditionEntry(c1, entry(InProgress), now, kind);
      SetConditionEntry(c2, entry(Complete), now, kind);
      SetConditionEntry(c3, entry(Failed), now, kind);
    }
  }

  /** A status write that leaves the counters and a set start time alone. */
  ghost predicate KeepsCounts(a: Status, b: Status) {
    && a.imagesCount == b.imagesCount && a.scannedImagesCount == b.scannedImagesCount
    && (a.startTime.Some? ==> b.startTime == a.startTime)
  }

  /** The one phase a job is in after a Mark method. */
  ghost predicate OnlyPhase(s: Status, active: Kind) {
    forall kind :: IsTrue(s.conditions, kind) <==> kind == active
  }

  lemma MarkedStocks(conditions: seq<Condition>, active: Kind, reason: string, message: string,
                     otherReason: string, otherMessage: string, generation: int)
    requires Marked(conditions, active, reason, message, otherReason, otherMessage, generation)
    ensures Stocked(conditions)
  {
    forall kind ensures EntryOf(conditions, kind).Some? {
      assert Says(conditions, kind, True, reason, message, generation)
             || Says(conditions, kind, False, otherReason, otherMessage, generation);
    }
  }

  lemma MarkedPhase(s: Status, active: Kind, reason: string, message: string,
                    otherReason: string, otherMessage: string, generation: int, now: int)
    ensures var c := MarkAll(s.conditions, active, reason, message, otherReason, otherMessage, generation, now);
            && Stocked(c)
            && forall t: Status :: t.conditions == c ==> OnlyPhase(t, active) && (Valid(s) ==> WellFormed(t.conditions))
  {
    MarkAllSays(s.conditions, active, reason, message, otherReason, otherMessage, generation, now);
    MarkedStocks(MarkAll(s.conditions, active, reason, message, otherReason, otherMessage, generation, now),
                 active, reason, message, otherReason, otherMessage, generation);
    MarkAllLeavesOne(s.conditions, active, reason, message, otherReason, otherMessage, generation, now);
  }

  lemma AsScheduledPhase(s: Status, reason: string, message: string, generation: int, now: int)
    ensures OnlyPhase(AsScheduled(s, reason, message, generation, now), Scheduled)
    ensures Valid(s) ==> Valid(AsScheduled(s, reason, message, generation, now))
    ensures KeepsCounts(s, AsScheduled(s, reason, message, generation, now))
  {
    MarkedPhase(s, Scheduled, reason, message, "Scheduled", "ScanJob is scheduled", generation, now);
  }

  lemma AsInProgressPhase(s: Status, reason: string, message: string, generation: int, now: int)
    ensures OnlyPhase(AsInProgress(s, reason, message, generation, now), InProgress)
    ensures Valid(s) ==> Valid(AsInProgress(s, reason, message, generation, now))
    ensures KeepsCounts(s, AsInProgress(s, reason, message, generation, now))
  {
    MarkedPhase(s, InProgress, reason, message, "InProgress", "ScanJob is in progress", generation, now);
  }

  lemma AsCompletePhase(s: Status, reason: string, message: string, generation: int, now: int)
    ensures OnlyPhase(AsComplete(s, reason, message, generation, now), Complete)
    ensures Valid(s) ==> Valid(AsComplete(s, reason, message, generation, now))
    ensures KeepsCounts(s, AsComplete(s, reason, message, generation, now))
  {
    MarkedPhase(s, Complete, reason, message, "Complete", "ScanJob completed successfully", generation, now);
  }

  lemma AsFailedPhase(s: Status, reason: string, message: string, generation: int, now: int)
    ensures OnlyPhase(AsFailed(s, reason, message, generation, now), Failed)
    ensures Valid(s) ==> Valid(AsFailed(s, reason, message, generation, now))
    ensures KeepsCounts(s, AsFailed(s, reason, message, generation, now))
  {
    MarkedPhase(s, Failed, reason, message, "Failed", "ScanJob failed", generation, now);
  }

  lemma InitializedPhase(s: Status, generation: int, now: int)
    ensures IsPending(Initialized(s, generation, now)) && Valid(Initialized(s, generation, now))
  {
    var c := Initialized(s, generation, now).conditions;
    assert forall i :: 0 <= i < |c| ==> c[i].truth == Unknown;
    InitializedStocks(s, generation, now);
  }

  lemma InitializedStocks(s: Status, generation: int, now: int)
    ensures Stocked(Initialized(s, generation, now).conditions)
  {
    InitializedSays(s, generation, now);
    hide Initialized;
    var c := Initialized(s, generation, now).conditions;
    forall kind ensures EntryOf(c, kind).Some? {
      assert Says(c, kind, Unknown, "Pending", "ScanJob is pending", generation);
    }
  }

  lemma PhaseStocked(s: Status, active: Kind)
    requires OnlyPhase(s, active)
    ensures s.conditions != []
  {
    assert IsTrue(s.conditions, active);
  }

  lemma InitializedSays(s: Status, generation: int, now: int)
    ensures forall kind ::
        Says(Initialized(s, generation, now).conditions, kind, Unknown, "Pending", "ScanJob is pending", generation)
  {
    var c := Initialized(s, generation, now).conditions;
    forall kind ensures Says(c, kind, Unknown, "Pending", "ScanJob is pending", generation) {
      assert c[0].kind == Scheduled && c[1].kind == InProgress && c[2].kind == Complete && c[3].kind == Failed;
      assert c[FindCondition(c, kind)].kind == kind;
    }
  }

  // --- The object ---------------------------------------------------------

  /** A fetched ScanJob, changed in place before it is written back. The clock
      read by the Mark methods is a parameter. */
  class ScanJob {
    const generation: int
    var conditions: seq<Condition>
    var imagesCount: nat
    var scannedImagesCount: nat
    var startTime: Option<int>
    var completionTime: Option<int>

    function State(): Status
      reads this
    {
      Status(conditions, imagesCount, scannedImagesCount, startTime, completionTime)
    }

    constructor (s: Status, generation: int)
      ensures State() == s && this.generation == generation
    {
      this.generation := generation;
      conditions, imagesCount, scannedImagesCount := s.conditions, s.imagesCount, s.scannedImagesCount;
      startTime, completionTime := s.startTime, s.completionTime;
    }

    method SetStatusCondition(kind: Kind, truth: Truth, reason: string, message: string, now: int)
      modifies this`conditions
      ensures conditions == SetCondition(old(conditions), Condition(kind, truth, reason, message, generation, 0), now)
    {
      var i := 0;
      while i < |conditions| && conditions[i].kind != kind
        invariant 0 <= i <= |conditions|
        invariant forall j :: 0 <= j < i ==> conditions[j].kind != kind
      {
        i := i + 1;
      }
      assert i == FindCondition(conditions, kind);
      var c := Condition(kind, truth, reason, message, generation, now);
      if i == |conditions| {
        conditions := conditions + [c];
      } else {
        if conditions[i].truth == truth { c := c.(transition := conditions[i].transition); }
        conditions := conditions[i := c];
      }
    }

    method InitializeConditions(now: int)
      modifies this`conditions
      ensures State() == Initialized(old(State()), generation, now)
      ensures forall kind :: Says(conditions, kind, Unknown, "Pending", "ScanJob is pending", generation)
    {
      hide Says;
      InitializedSays(State(), generation, now);
      conditions := [];
      SetStatusCondition(Scheduled, Unknown, "Pending", "ScanJob is pending", now);
      SetStatusCondition(InProgress, Unknown, "Pending", "ScanJob is pending", now);
      SetStatusCondition(Complete, Unknown, "Pending", "ScanJob is pending", now);
      SetStatusCondition(Failed, Unknown, "Pending", "ScanJob is pending", now);
    }

    method MarkScheduled(reason: string, message: string, now: int)
      modifies this`conditions
      ensures State() == AsScheduled(old(State()), reason, message, generation, now)
      ensures Marked(conditions, Scheduled, reason, message, "Scheduled", "ScanJob is scheduled", generation)
    {
      hide SetCondition, Marked;
      MarkAllSays(conditions, Scheduled, reason, message, "Scheduled", "ScanJob is scheduled", generation, now);
      SetStatusCondition(Scheduled, True, reason, message, now);
      SetStatusCondition(InProgress, False, "Scheduled", "ScanJob is scheduled", now);
      SetStatusCondition(Complete, False, "Scheduled", "ScanJob is scheduled", now);
      SetStatusCondition(Failed, False, "Scheduled", "ScanJob is scheduled", now);
    }

    method MarkInProgress(reason: string, message: string, now: int)
      modifies this`conditions, this`startTime
      ensures State() == AsInProgress(old(State()), reason, message, generation, now)
      ensures Marked(conditions, InProgress, reason, message, "InProgress", "ScanJob is in progress", generation)
      ensures startTime == if old(startTime).Some? then old(startTime) else Some(now)
    {
      hide SetCondition, Marked;
      MarkAllSays(conditions, InProgress, reason, message, "InProgress", "ScanJob is in progress", generation, now);
      if startTime == None { startTime := Some(now); }
      SetStatusCondition(Scheduled, False, "InProgress", "ScanJob is in progress", now);
      SetStatusCondition(InProgress, True, reason, message, now);
      SetStatusCondition(Complete, False, "InProgress", "ScanJob is in progress", now);
      SetStatusCondition(Failed, False, "InProgress", "ScanJob is in progress", now);
    }

    method MarkComplete(reason: string, message: string, now: int)
      modifies this`conditions, this`completionTime
      ensures State() == AsComplete(old(State()), reason, message, generation, now)
      ensures Marked(conditions, Complete, reason, message, "Complete", "ScanJob completed successfully", generation)
      ensures completionTime == Some(now)
    {
      hide SetCondition, Marked;
      MarkAllSays(conditions, Complete, reason, message, "Complete", "ScanJob completed successfully", generation, now);
      completionTime := Some(now);
      SetStatusCondition(Scheduled, False, "Complete", "ScanJob completed successfully", now);
      SetStatusCondition(InProgress, False, "Complete", "ScanJob completed successfully", now);
      SetStatusCondition(Complete, True, reason, message, now);
      SetStatusCondition(Failed, False, "Complete", "ScanJob completed successfully", now);
    }

    method MarkFailed(reason: string, message: string, now: int)
      modifies this`conditions, this`completionTime
      ensures State() == AsFailed(old(State()), reason, message, generation, now)
      ensures Marked(conditions, Failed, reason, message, "Failed", "ScanJob failed", generation)
      ensures completionTime == Some(now)
    {
      hide SetCondition, Marked;
      MarkAllSays(conditions, Failed, reason, message, "Failed", "ScanJob failed", generation, now);
      completionTime := Some(now);
      SetStatusCondition(Scheduled, False, "Failed", "ScanJob failed", now);
      SetStatusCondition(InProgress, False, "Failed", "ScanJob failed", now);
      SetStatusCondition(Complete, False, "Failed", "ScanJob failed", now);
      SetStatusCondition(Failed, True, reason, message, now);
    }
  }
}
