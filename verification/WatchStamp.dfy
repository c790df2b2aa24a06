/** How the watcher tells its own registry writes from a refresh by someone else: it notes the
    database files' stamp after each write of its own and compares it before a request. */
module WatchStamp {

  /** `db` is the stamp of the files now, `stamp` the one last noted. */
  datatype State = State(db: nat, stamp: nat, writing: nat, armed: bool)

  datatype Step = BeginWrite | OwnWrite | EndWrite | OtherWrite | Arm | Disarm

  predicate Enabled(s: State, step: Step) {
    step.OwnWrite? || step.EndWrite? ==> s.writing > 0
  }

  /** Every write gives the files a stamp they did not have before. */
  function Take(s: State, step: Step): State
    requires Enabled(s, step)
  {
    match step
    case BeginWrite => s.(writing := s.writing + 1)
    case OwnWrite => s.(db := s.db + 1)
    case EndWrite => s.(stamp := s.db, writing := s.writing - 1)
    case OtherWrite => s.(db := s.db + 1)
    case Arm => s.(stamp := s.db, armed := true)
    case Disarm => s.(armed := false)
  }

  predicate ShouldRearm(s: State) {
    s.writing == 0 && (!s.armed || s.db != s.stamp)
  }

  const ARMED := State(0, 0, 0, true)

  predicate CanRun(steps: seq<Step>)
    decreases |steps|, 0
  {
    steps == [] || (CanRun(steps[..|steps| - 1]) && Enabled(Run(steps[..|steps| - 1]), steps[|steps| - 1]))
  }

  /** The state after these steps of a watcher that has just been armed. */
  function Run(steps: seq<Step>): State
    requires CanRun(steps)
    decreases |steps|, 1
  {
    if steps == [] then ARMED else Take(Run(steps[..|steps| - 1]), steps[|steps| - 1])
  }

  predicate Notes(step: Step) {
    step.EndWrite? || step.Arm?
  }

  /** Some step of this kind has not been noted since. */
  ghost predicate Unnoted(steps: seq<Step>, kind: Step) {
    exists i :: 0 <= i < |steps| && steps[i] == kind && Unnoticed(steps, i)
  }

  ghost predicate Unnoticed(steps: seq<Step>, i: nat) {
    forall j :: i <= j < |steps| ==> !Notes(steps[j])
  }

  lemma UnnotedSnoc(steps: seq<Step>, last: Step, kind: Step)
    requires !Notes(kind)
    ensures Unnoted(steps + [last], kind) <==> !Notes(last) && (last == kind || Unnoted(steps, kind))
  {
    var longer := steps + [last];
    if i :| 0 <= i < |longer| && longer[i] == kind && Unnoticed(longer, i) {
      assert !Notes(longer[|steps|]);
      if i < |steps| { assert forall j :: i <= j < |steps| ==> longer[j] == steps[j]; }
    }
    if !Notes(last) && last == kind { assert longer[|steps|] == kind && Unnoticed(longer, |steps|); }
    if i :| !Notes(last) && 0 <= i < |steps| && steps[i] == kind && Unnoticed(steps, i) {
      assert longer[i] == kind && Unnoticed(longer, i);
    }
  }

  lemma {:induction false} StampTracksWrites(steps: seq<Step>)
    requires CanRun(steps)
    ensures Run(steps).db >= Run(steps).stamp
    ensures Run(steps).db != Run(steps).stamp <==> Unnoted(steps, OwnWrite) || Unnoted(steps, OtherWrite)
    ensures Unnoted(steps, OwnWrite) ==> Run(steps).writing > 0
  {
    if steps != [] {
      var before, last := steps[..|steps| - 1], steps[|steps| - 1];
      assert steps == before + [last];
      StampTracksWrites(before);
      UnnotedSnoc(before, last, OwnWrite);
      UnnotedSnoc(before, last, OtherWrite);
    }
  }

  /** Disarmed and not armed again since. */
  ghost predicate Disarmed(steps: seq<Step>) {
    exists i :: 0 <= i < |steps| && steps[i] == Disarm && NotArmedSince(steps, i)
  }

  ghost predicate NotArmedSince(steps: seq<Step>, i: nat) {
    forall j :: i <= j < |steps| ==> steps[j] != Arm
  }

  lemma DisarmedSnoc(steps: seq<Step>, last: Step)
    ensures Disarmed(steps + [last]) <==> last == Disarm || (last != Arm && Disarmed(steps))
  {
    var longer := steps + [last];
    if i :| 0 <= i < |longer| && longer[i] == Disarm && NotArmedSince(longer, i) {
      assert longer[|steps|] == last;
      if i < |steps| { assert forall j :: i <= j < |steps| ==> longer[j] == steps[j]; }
    }
    if last == Disarm { assert longer[|steps|] == Disarm && NotArmedSince(longer, |steps|); }
    if i :| last != Arm && 0 <= i < |steps| && steps[i] == Disarm && NotArmedSince(steps, i) {
      assert longer[i] == Disarm && NotArmedSince(longer, i);
    }
  }

  /** Writing means more writes begun than ended, armed means armed since the last disarm. */
  lemma {:induction false} WritingAndArmed(steps: seq<Step>)
    requires CanRun(steps)
    ensures Run(steps).writing + multiset(steps)[EndWrite] == multiset(steps)[BeginWrite]
    ensures Run(steps).armed <==> !Disarmed(steps)
  {
    if steps != [] {
      var before, last := steps[..|steps| - 1], steps[|steps| - 1];
      assert steps == before + [last];
      WritingAndArmed(before);
      DisarmedSnoc(before, last);
    }
  }

  /** Before a request the watcher rearms exactly when none of its own writes is under way and it
      is disarmed, or somebody else wrote after the last stamp was noted: never because of its
      own writes. A foreign write that one of its own writes brackets is noted with it and goes
      unnoticed. */
  lemma RearmsExactly(steps: seq<Step>)
    requires CanRun(steps)
    ensures ShouldRearm(Run(steps)) <==>
      multiset(steps)[BeginWrite] == multiset(steps)[EndWrite] && (Disarmed(steps) || Unnoted(steps, OtherWrite))
  {
    StampTracksWrites(steps);
    WritingAndArmed(steps);
  }

  /** The shortest run in which a foreign write goes unnoticed, and the one in which it does
      not. */
  lemma ForeignWriteBracketed()
    ensures CanRun([BeginWrite, OtherWrite, EndWrite]) && !ShouldRearm(Run([BeginWrite, OtherWrite, EndWrite]))
    ensures CanRun([BeginWrite, EndWrite, OtherWrite]) && ShouldRearm(Run([BeginWrite, EndWrite, OtherWrite]))
  {
    var a, b := [BeginWrite, OtherWrite, EndWrite], [BeginWrite, EndWrite, OtherWrite];
    assert [BeginWrite][..0] == [] && Run([BeginWrite]) == State(0, 0, 1, true);
    assert a[..2] == [BeginWrite, OtherWrite] && a[..2][..1] == [BeginWrite] && Run(a[..2]) == State(1, 0, 1, true);
    assert b[..2] == [BeginWrite, EndWrite] && b[..2][..1] == [BeginWrite] && Run(b[..2]) == State(0, 0, 0, true);
    assert Run(a) == State(1, 1, 0, true) && Run(b) == State(1, 0, 0, true);
  }
}
