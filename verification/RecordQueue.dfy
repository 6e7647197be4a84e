/** The one-at-a-time queue of `record_staged` (scripts/ingest/ingest.py): what is where at every step, whatever
    the recorder does. */
module RecordQueue {
  import opened Chars

  /** The files of the staging directory and of the pending queue. */
  datatype Disk = Disk(staging: set<string>, pending: set<string>)

  /** What happens in one record's turn: the move into the queue raises, or the recorder is called; it deletes
      files from the queue, and exits or is cut short. A `stuck` record cannot be moved back out. */
  datatype Outcome =
    | NotMoved
    | Exits(code: int, deletes: set<string>, stuck: bool)
    | CutShort(deletes: set<string>, stuck: bool)

  function MovedIn(d: Disk, name: string): Disk {
    Disk(d.staging - {name}, d.pending + {name})
  }

  /** The files of the queue the recorder deletes. */
  function Deletes(o: Outcome): set<string> {
    if o.NotMoved? then {} else o.deletes
  }

  function Recorded(d: Disk, o: Outcome): Disk {
    d.(pending := d.pending - Deletes(o))
  }

  /** The record is still in the queue when its turn is over, and cannot be taken back. */
  predicate LeftQueued(name: string, o: Outcome) {
    !o.NotMoved? && o.stuck && name !in o.deletes
  }

  /** The `finally` clause: a record still in the queue is taken back. */
  function TakenBack(d: Disk, name: string, o: Outcome): Disk {
    if name in d.pending && !LeftQueued(name, o) then Disk(d.staging + {name}, d.pending - {name}) else d
  }

  /** The states of one turn. */
  function TurnStates(d: Disk, name: string, o: Outcome): (states: seq<Disk>)
    ensures |states| == if o.NotMoved? then 0 else 3
  {
    var recorded := Recorded(MovedIn(d, name), o);
    if o.NotMoved? then [] else [MovedIn(d, name), recorded, TakenBack(recorded, name, o)]
  }

  function AfterTurn(d: Disk, name: string, o: Outcome): Disk {
    if o.NotMoved? then d else TakenBack(Recorded(MovedIn(d, name), o), name, o)
  }

  /** The loop goes on to the next record: nothing was raised. */
  predicate GoesOn(name: string, o: Outcome) {
    o.Exits? && !LeftQueued(name, o)
  }

  /** Every state of the run after its start, in order. */
  function Run(d: Disk, names: seq<string>, outcomes: seq<Outcome>): (states: seq<Disk>)
    requires |names| == |outcomes|
    decreases |names|
  {
    if names == [] then []
    else
      TurnStates(d, names[0], outcomes[0])
      + if !GoesOn(names[0], outcomes[0]) then []
        else Run(AfterTurn(d, names[0], outcomes[0]), names[1..], outcomes[1..])
  }

  function EndOf(d: Disk, states: seq<Disk>): Disk {
    if states == [] then d else states[|states| - 1]
  }

  /** The names given a non-zero exit; None when something is raised. */
  function Failed(names: seq<string>, outcomes: seq<Outcome>): Option<seq<string>>
    requires |names| == |outcomes|
  {
    if names == [] then Some([])
    else if !GoesOn(names[0], outcomes[0]) then None
    else
      match Failed(names[1..], outcomes[1..])
      case None => None
      case Some(more) => Some((if outcomes[0].code != 0 then [names[0]] else []) + more)
  }

  predicate Distinct(names: seq<string>) {
    forall i, j :: 0 <= i < j < |names| ==> names[i] != names[j]
  }

  /** The staged records are on disk, each once, and none is queued. */
  predicate Staged(d: Disk, names: seq<string>) {
    && Distinct(names) && d.staging !! d.pending
    && forall i :: 0 <= i < |names| ==> names[i] in d.staging
  }

  /** At most one record of the run is queued, and no file is in two places. */
  predicate Orderly(d: Disk, names: seq<string>) {
    && d.staging !! d.pending
    && forall a, b :: a in names && b in names && a in d.pending && b in d.pending ==> a == b
  }

  lemma StagedNext(d: Disk, names: seq<string>, o: Outcome)
    requires names != [] && Staged(d, names)
    ensures Staged(AfterTurn(d, names[0], o), names[1..])
    ensures GoesOn(names[0], o) ==> names[0] !in AfterTurn(d, names[0], o).pending
    ensures forall n :: n in names[1..] ==> n in names && n != names[0]
  {
    var rest := names[1..];
    assert forall i :: 0 <= i < |rest| ==> rest[i] == names[i + 1];
  }

  /** A turn that goes on leaves three states behind it. */
  lemma EndOfMore(d: Disk, names: seq<string>, outcomes: seq<Outcome>)
    requires |names| == |outcomes| && names != []
    ensures var d' := AfterTurn(d, names[0], outcomes[0]);
      EndOf(d, Run(d, names, outcomes))
        == if GoesOn(names[0], outcomes[0]) then EndOf(d', Run(d', names[1..], outcomes[1..])) else d'
  {
    hide TakenBack, Recorded, MovedIn;
  }

  /** At every state of the run the queue holds at most one of its records. */
  lemma {:induction false} AlwaysOrderly(d: Disk, names: seq<string>, outcomes: seq<Outcome>, k: nat)
    requires |names| == |outcomes| && Staged(d, names) && k < |Run(d, names, outcomes)|
    ensures Orderly(Run(d, names, outcomes)[k], names)
    decreases |names|
  {
    var d' := AfterTurn(d, names[0], outcomes[0]);
    assert names == [names[0]] + names[1..];
    if k >= 3 {
      StagedNext(d, names, outcomes[0]);
      AlwaysOrderly(d', names[1..], outcomes[1..], k - 3);
      FirstIsNotQueued(d', names[0], names[1..], outcomes[1..], k - 3);
    }
  }

  /** A record whose turn is over and that left the queue is not queued again. */
  lemma {:induction false} FirstIsNotQueued(d: Disk, name: string, names: seq<string>, outcomes: seq<Outcome>, k: nat)
    requires |names| == |outcomes| && name !in d.pending && name !in names && k < |Run(d, names, outcomes)|
    ensures name !in Run(d, names, outcomes)[k].pending
    ensures name in Run(d, names, outcomes)[k].staging <==> name in d.staging
    decreases |names|
  {
    assert names == [names[0]] + names[1..];
    if k >= 3 {
      FirstIsNotQueued(AfterTurn(d, names[0], outcomes[0]), name, names[1..], outcomes[1..], k - 3);
    }
  }

  /** The run gets to the turn of record `i`. */
  predicate Reached(names: seq<string>, outcomes: seq<Outcome>, i: nat)
    requires |names| == |outcomes| && i < |names|
  {
    forall j :: 0 <= j < i ==> GoesOn(names[j], outcomes[j])
  }

  lemma ReachedNext(names: seq<string>, outcomes: seq<Outcome>, i: nat)
    requires |names| == |outcomes| && 0 < i < |names|
    ensures Reached(names, outcomes, i) <==> GoesOn(names[0], outcomes[0]) && Reached(names[1..], outcomes[1..], i - 1)
  {
    hide GoesOn;
    assert forall j :: 0 <= j < i - 1 ==> outcomes[1..][j] == outcomes[j + 1] && names[1..][j] == names[j + 1];
    assert forall j :: 0 < j < i ==> outcomes[j] == outcomes[1..][j - 1] && names[j] == names[1..][j - 1];
  }

  lemma FirstEnds(d: Disk, name: string, names: seq<string>, outcomes: seq<Outcome>)
    requires |names| == |outcomes| && name !in d.pending && name !in names
    ensures var end := EndOf(d, Run(d, names, outcomes));
      name !in end.pending && (name in end.staging <==> name in d.staging)
  {
    var states := Run(d, names, outcomes);
    if states != [] { FirstIsNotQueued(d, name, names, outcomes, |states| - 1); }
    hide Run;
  }

  /** However the run ends, a record of it is queued exactly when it was left there in its own turn; and it is back
      in staging unless that, or the recorder took it in its own turn. */
  lemma {:induction false} NothingIsLost(d: Disk, names: seq<string>, outcomes: seq<Outcome>, i: nat)
    requires |names| == |outcomes| && Staged(d, names) && i < |names|
    ensures var end := EndOf(d, Run(d, names, outcomes));
      var left := Reached(names, outcomes, i) && LeftQueued(names[i], outcomes[i]);
      && (names[i] in end.pending <==> left)
      && (names[i] in end.staging <==> !left && !(Reached(names, outcomes, i) && names[i] in Deletes(outcomes[i])))
    decreases |names|
  {
    var d' := AfterTurn(d, names[0], outcomes[0]);
    EndOfMore(d, names, outcomes);
    StagedNext(d, names, outcomes[0]);
    if i == 0 {
      if GoesOn(names[0], outcomes[0]) { FirstEnds(d', names[0], names[1..], outcomes[1..]); }
    } else {
      ReachedNext(names, outcomes, i);
      assert names[i] == names[1..][i - 1];
      if GoesOn(names[0], outcomes[0]) { NothingIsLost(d', names[1..], outcomes[1..], i - 1); }
    }
    hide Run, EndOf;
  }

  /** The queue ends with nothing it did not hold before, exactly when no record was left in it. */
  lemma {:induction false} QueueEndsAsItWas(d: Disk, names: seq<string>, outcomes: seq<Outcome>)
    requires |names| == |outcomes| && Staged(d, names)
    ensures EndOf(d, Run(d, names, outcomes)).pending <= d.pending
      <==> forall i :: 0 <= i < |names| && Reached(names, outcomes, i) ==> !LeftQueued(names[i], outcomes[i])
  {
    hide Run, EndOf, Reached, LeftQueued;
    var end := EndOf(d, Run(d, names, outcomes));
    forall i | 0 <= i < |names|
      ensures names[i] in end.pending <==> Reached(names, outcomes, i) && LeftQueued(names[i], outcomes[i])
      ensures names[i] !in d.pending
    {
      NothingIsLost(d, names, outcomes, i);
      assert names[i] in d.staging;
    }
    OnlyRecordsAreQueued(d, names, outcomes);
  }

  lemma {:induction false} OnlyRecordsAreQueued(d: Disk, names: seq<string>, outcomes: seq<Outcome>)
    requires |names| == |outcomes|
    ensures forall n :: n in EndOf(d, Run(d, names, outcomes)).pending ==> n in d.pending || n in names
    decreases |names|
  {
    if names != [] {
      EndOfMore(d, names, outcomes);
      assert names == [names[0]] + names[1..];
      OnlyRecordsAreQueued(AfterTurn(d, names[0], outcomes[0]), names[1..], outcomes[1..]);
    }
    hide Run, EndOf;
  }

  /** The returned list holds exactly the records given a non-zero exit. */
  lemma {:induction false} FailedAreTheRefused(names: seq<string>, outcomes: seq<Outcome>, name: string)
    requires |names| == |outcomes| && Failed(names, outcomes).Some?
    ensures name in Failed(names, outcomes).value
      <==> exists i :: 0 <= i < |names| && names[i] == name && outcomes[i].Exits? && outcomes[i].code != 0
    decreases |names|
  {
    if names != [] {
      FailedAreTheRefused(names[1..], outcomes[1..], name);
      assert forall i :: 1 <= i < |names| ==> names[i] == names[1..][i - 1] && outcomes[i] == outcomes[1..][i - 1];
      if i :| 0 <= i < |names| - 1 && names[1..][i] == name && outcomes[1..][i].Exits? && outcomes[1..][i].code != 0 {
        assert names[i + 1] == name && outcomes[i + 1] == outcomes[1..][i];
      }
    }
  }

  /** Every failed record is kept in staging exactly when the recorder deletes none that it refuses. */
  lemma FailedAreKept(d: Disk, names: seq<string>, outcomes: seq<Outcome>)
    requires |names| == |outcomes| && Staged(d, names) && Failed(names, outcomes).Some?
    ensures (forall n :: n in Failed(names, outcomes).value ==> n in EndOf(d, Run(d, names, outcomes)).staging)
      <==> (forall i :: 0 <= i < |names| && outcomes[i].Exits? && outcomes[i].code != 0 ==>
        names[i] !in outcomes[i].deletes)
  {
    hide Run, Failed, EndOf;
    forall i | 0 <= i < |names|
      ensures outcomes[i].Exits?
      ensures names[i] in EndOf(d, Run(d, names, outcomes)).staging <==> names[i] !in outcomes[i].deletes
    {
      NothingIsLost(d, names, outcomes, i);
      AllGoOn(names, outcomes);
    }
    forall n
      ensures n in Failed(names, outcomes).value
        <==> exists i :: 0 <= i < |names| && names[i] == n && outcomes[i].Exits? && outcomes[i].code != 0
    {
      FailedAreTheRefused(names, outcomes, n);
    }
    forall i | 0 <= i < |names| && outcomes[i].Exits? && outcomes[i].code != 0
      ensures names[i] in Failed(names, outcomes).value
    {
    }
  }

  lemma {:induction false} AllGoOn(names: seq<string>, outcomes: seq<Outcome>)
    requires |names| == |outcomes| && Failed(names, outcomes).Some?
    ensures forall i :: 0 <= i < |outcomes| ==> GoesOn(names[i], outcomes[i])
  {
    hide GoesOn;
    if names != [] {
      AllGoOn(names[1..], outcomes[1..]);
      assert forall i :: 1 <= i < |outcomes| ==> outcomes[i] == outcomes[1..][i - 1] && names[i] == names[1..][i - 1];
    }
  }

  // ---- the directories -------------------------------------------------------

  /** The two directories as the program changes them, and every state they went through. */
  class Directories {
    var staging: set<string>
    var pending: set<string>
    ghost var states: seq<Disk>

    constructor (staging: set<string>, pending: set<string>)
      ensures this.staging == staging && this.pending == pending && states == []
    {
      this.staging, this.pending, states := staging, pending, [];
    }

    ghost function Now(): Disk
      reads this
    {
      Disk(staging, pending)
    }

    /** `path.rename(queued)`. */
    method MoveIn(name: string)
      modifies this
      ensures Now() == MovedIn(old(Now()), name) && states == old(states) + [Now()]
    {
      staging, pending := staging - {name}, pending + {name};
      states := states + [Now()];
    }

    /** The call of the recorder. */
    method Record(o: Outcome)
      modifies this
      ensures Now() == Recorded(old(Now()), o) && states == old(states) + [Now()]
    {
      pending := pending - Deletes(o);
      states := states + [Now()];
    }

    /** `if queued.exists(): queued.rename(path)`, which may raise. */
    method TakeBack(name: string, o: Outcome)
      modifies this
      ensures Now() == TakenBack(old(Now()), name, o) && states == old(states) + [Now()]
    {
      if name in pending && !LeftQueued(name, o) {
        staging, pending := staging + {name}, pending - {name};
      }
      states := states + [Now()];
    }

    /** `stage_records`: the records are written unless this is a dry run, and handed on only to be recorded. */
    method StageRecords(names: seq<string>, dryRun: bool, record: bool) returns (staged: Option<seq<string>>)
      modifies this
      ensures pending == old(pending)
      ensures staging == old(staging) + if dryRun then {} else set n | n in names
      ensures staged == if record && !dryRun then Some(names) else None
    {
      if dryRun { return None; }
      var i := 0;
      while i < |names|
        invariant i <= |names| && pending == old(pending)
        invariant staging == old(staging) + set n | n in names[..i]
      {
        assert names[..i + 1] == names[..i] + [names[i]];
        staging := staging + {names[i]};
        i := i + 1;
      }
      assert names[..|names|] == names;
      staged := if record then Some(names) else None;
    }

    /** One record's turn: into the queue, past the recorder, and out again. */
    method Turn(name: string, o: Outcome)
      modifies this
      ensures Now() == AfterTurn(old(Now()), name, o)
      ensures states == old(states) + TurnStates(old(Now()), name, o)
    {
      hide MovedIn, Recorded, TakenBack;
      assert states + [] == states;
      if o.NotMoved? { return; }
      MoveIn(name);
      Record(o);
      TakeBack(name, o);
    }

    /** `record_staged`, with what happens in each turn. None: something was raised. */
    method RecordStaged(staged: seq<string>, outcomes: seq<Outcome>) returns (failed: Option<seq<string>>)
      requires |staged| == |outcomes|
      modifies this
      ensures failed == Failed(staged, outcomes)
      ensures states == old(states) + Run(old(Now()), staged, outcomes)
      ensures Now() == EndOf(old(Now()), Run(old(Now()), staged, outcomes))
    {
      hide MovedIn, Recorded, TakenBack;
      var out: seq<string> := [];
      var i := 0;
      assert staged[0..] == staged && outcomes[0..] == outcomes;
      JoinedNothing(Failed(staged, outcomes));
      ghost var start, before := Now(), states;
      ghost var done: seq<Disk> := [];
      while i < |staged|
        invariant i <= |staged|
        invariant states == before + done && Now() == EndOf(start, done)
        invariant Run(start, staged, outcomes) == done + Run(Now(), staged[i..], outcomes[i..])
        invariant Failed(staged, outcomes) == Joined(out, Failed(staged[i..], outcomes[i..]))
      {
        hide Run, AfterTurn, TurnStates, Failed, GoesOn, EndOf;
        ghost var here := Now();
        ghost var turn := TurnStates(here, staged[i], outcomes[i]);
        assert staged[i..][0] == staged[i] && staged[i..][1..] == staged[i + 1..];
        assert outcomes[i..][0] == outcomes[i] && outcomes[i..][1..] == outcomes[i + 1..];
        Turn(staged[i], outcomes[i]);
        OneTurn(here, staged[i..], outcomes[i..]);
        Associates(before, done, turn);
        var goesOn := GoesOn(staged[i], outcomes[i]);
        Associates(done, turn, if goesOn then Run(Now(), staged[i + 1..], outcomes[i + 1..]) else []);
        EndOfTurn(start, done, here, staged[i], outcomes[i]);
        done := done + turn;
        if !goesOn {
          assert done + [] == done;
          FailedNone(staged[i..], outcomes[i..]);
          return None;
        }
        FailedStep(staged[i..], outcomes[i..]);
        JoinedStep(out, staged[i], outcomes[i].code != 0, Failed(staged[i + 1..], outcomes[i + 1..]));
        if outcomes[i].code != 0 { out := out + [staged[i]]; }
        i := i + 1;
      }
      assert done + [] == done && out + [] == out;
      failed := Some(out);
    }
  }

  function Joined(out: seq<string>, more: Option<seq<string>>): Option<seq<string>> {
    match more
    case None => None
    case Some(names) => Some(out + names)
  }

  lemma JoinedNothing(more: Option<seq<string>>)
    ensures Joined([], more) == more
  {
    if more.Some? { assert [] + more.value == more.value; }
  }

  lemma JoinedStep(out: seq<string>, name: string, fails: bool, more: Option<seq<string>>)
    ensures more.Some? ==>
      Joined(out, Some((if fails then [name] else []) + more.value))
          == Joined(if fails then out + [name] else out, more)
  {
    if more.Some? {
      Associates(out, [name], more.value);
      assert [] + more.value == more.value;
    }
  }

  lemma EndOfTurn(start: Disk, done: seq<Disk>, here: Disk, name: string, o: Outcome)
    requires here == EndOf(start, done)
    ensures AfterTurn(here, name, o) == EndOf(start, done + TurnStates(here, name, o))
  {
    assert done + [] == done;
    hide MovedIn, Recorded, TakenBack;
  }

  lemma OneTurn(d: Disk, names: seq<string>, outcomes: seq<Outcome>)
    requires |names| == |outcomes| && names != []
    ensures Run(d, names, outcomes) == TurnStates(d, names[0], outcomes[0])
      + if !GoesOn(names[0], outcomes[0]) then []
        else Run(AfterTurn(d, names[0], outcomes[0]), names[1..], outcomes[1..])
  {
  }

  lemma FailedNone(names: seq<string>, outcomes: seq<Outcome>)
    requires |names| == |outcomes| && names != [] && !GoesOn(names[0], outcomes[0])
    ensures Failed(names, outcomes) == None
  {
  }

  lemma FailedStep(names: seq<string>, outcomes: seq<Outcome>)
    requires |names| == |outcomes| && names != [] && GoesOn(names[0], outcomes[0])
    ensures outcomes[0].Exits? && Failed(names, outcomes) ==
      match Failed(names[1..], outcomes[1..])
      case None => None
      case Some(more) => Some((if outcomes[0].code != 0 then [names[0]] else []) + more)
  {
  }
}
