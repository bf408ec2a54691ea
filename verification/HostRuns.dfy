/**
 All runs of one HostReactor at the granularity of its source: reads, writes and updates complete
 in any order, sections that hold the mutex exclude each other, and what OnWriteDone does for a
 failed write, and OnReadDone while it registers, happens step by step without the mutex.
 */
module HostRuns {
  import opened Sequences
  import opened Wrappers
  import opened HostReactors

  /** Where OnReadDone stands. */
  datatype ReadPc =
    | ReadOutstanding              // a read was started
    | ReadArrived(ok: bool)        // OnReadDone was called, before the mutex
    | ReadTested(ok: bool)         // holds the mutex and saw finished_ == false
    | ReadFinishing                // holds the mutex, Finish was called
    | ReadUnlocked                 // released the mutex because lis_ was null
    | ReadLive                     // the controller may call UpdateAlloc, lis_ is not set yet
    | ReadRegistered               // lis_ is set, before the mutex is taken again
    | ReadEnded                    // no further read is started

  /** Where OnWriteDone stands. */
  datatype WritePc =
    | WriteIdle
    | WriteFlying                  // a write was started
    | WriteLanding                 // OnWriteDone(true) was called, before the mutex
    | WriteFailing                 // OnWriteDone(false) was called
    | WriteTested                  // saw finished_ == false
    | WriteStoring                 // before finished_ = true
    | WriteClearing                // before lis_ = nullptr
    | WriteDead

  datatype Event =
    | Updated(alloc: Alloc)          // UpdateAlloc was called
    | WriteStarted(alloc: Alloc)     // StartWrite
    | WriteDone(ok: bool)
    | ReadStarted                    // StartRead
    | ReadDone(ok: bool)
    | Finished                       // Finish

  type Trace = seq<Event>

  /** The reactor, followed by history: the trace, and which callbacks called Finish. */
  datatype State = State(
    fields: Fields, read: ReadPc, write: WritePc, trace: Trace, byRead: bool, byWrite: bool)

  const INIT := State(NEW_FIELDS, ReadOutstanding, WriteIdle, [ReadStarted], false, false)

  datatype Action =
    | Update(alloc: Alloc)           // UpdateAlloc, under the mutex
    | ReadComplete(ok: bool)
    | ReadTest                       // takes the mutex and tests finished_
    | ReadFinish                     // Finish, under the mutex
    | ReadStore                      // finished_ = true, and releases the mutex
    | ReadContinue                   // lis_ is set: passes the info on, StartRead, releases the mutex
    | ReadUnlock                     // lis_ is null: releases the mutex
    | ReadRegister                   // RegisterListener
    | ReadHold                       // lis_ is set to its result
    | ReadRestart                    // takes the mutex again, passes the info on, StartRead
    | WriteComplete(ok: bool)
    | WriteLand                      // the section of OnWriteDone(true)
    | WriteTest                      // tests finished_ without the mutex
    | WriteFinish                    // Finish, without the mutex
    | WriteStore                     // finished_ = true, without the mutex
    | WriteClear                     // lis_ = nullptr

  ghost predicate MutexFree(s: State) {
    !s.read.ReadTested? && !s.read.ReadFinishing?
  }

  /** The controller holds the callback; destroying lis_ takes it back. */
  ghost predicate Listens(s: State) {
    s.read.ReadLive? || s.fields.hasListener
  }

  ghost predicate Enabled(s: State, a: Action) {
    match a
    case Update(_) => MutexFree(s) && Listens(s)
    case ReadComplete(_) => s.read.ReadOutstanding?
    case ReadTest => s.read.ReadArrived?
    case ReadFinish => s.read == ReadTested(false)
    case ReadStore => s.read.ReadFinishing?
    case ReadContinue => s.read == ReadTested(true) && s.fields.hasListener
    case ReadUnlock => s.read == ReadTested(true) && !s.fields.hasListener
    case ReadRegister => s.read.ReadUnlocked?
    case ReadHold => s.read.ReadLive?
    case ReadRestart => s.read.ReadRegistered?
    case WriteComplete(_) => s.write.WriteFlying?
    case WriteLand => MutexFree(s) && s.write.WriteLanding?
    case WriteTest => s.write.WriteFailing?
    case WriteFinish => s.write.WriteTested?
    case WriteStore => s.write.WriteStoring?
    case WriteClear => s.write.WriteClearing?
  }

  function Wrote(s: State, f: Fields, written: Option<Alloc>, idle: WritePc): State {
    match written
    case None => s.(fields := f, write := idle)
    case Some(a) => s.(fields := f, write := WriteFlying, trace := s.trace + [WriteStarted(a)])
  }

  function Apply(s: State, a: Action): State
    requires Enabled(s, a)
  {
    match a
    case Update(alloc) =>
      var (f, written) := Supplied(s.fields, alloc);
      Wrote(s.(trace := s.trace + [Updated(alloc)]), f, written, s.write)
    case ReadComplete(ok) => s.(read := ReadArrived(ok), trace := s.trace + [ReadDone(ok)])
    case ReadTest => s.(read := if s.fields.finished then ReadEnded else ReadTested(s.read.ok))
    case ReadFinish => s.(read := ReadFinishing, trace := s.trace + [Finished], byRead := true)
    case ReadStore => s.(read := ReadEnded, fields := s.fields.(finished := true))
    case ReadContinue => s.(read := ReadOutstanding, trace := s.trace + [ReadStarted])
    case ReadUnlock => s.(read := ReadUnlocked)
    case ReadRegister => s.(read := ReadLive)
    case ReadHold => s.(read := ReadRegistered, fields := s.fields.(hasListener := true))
    case ReadRestart => s.(read := ReadOutstanding, trace := s.trace + [ReadStarted])
    case WriteComplete(ok) =>
      s.(write := if ok then WriteLanding else WriteFailing, trace := s.trace + [WriteDone(ok)])
    case WriteLand =>
      var (f, written) := Landed(s.fields);
      Wrote(s, f, written, WriteIdle)
    case WriteTest => s.(write := if s.fields.finished then WriteStoring else WriteTested)
    case WriteFinish => s.(write := WriteStoring, trace := s.trace + [Finished], byWrite := true)
    case WriteStore => s.(write := WriteClearing, fields := s.fields.(finished := true))
    case WriteClear => s.(write := WriteDead, fields := s.fields.(hasListener := false))
  }

  // ---- What a trace says ----

  ghost function Newest(t: Trace): Option<Alloc> {
    if t == [] then None
    else if t[|t| - 1].Updated? then Some(t[|t| - 1].alloc) else Newest(t[..|t| - 1])
  }

  ghost function LastWrite(t: Trace): Option<Alloc> {
    if t == [] then None
    else if t[|t| - 1].WriteStarted? then Some(t[|t| - 1].alloc) else LastWrite(t[..|t| - 1])
  }

  ghost predicate Flying(t: Trace) {
    t != [] && if t[|t| - 1].WriteStarted? then true else if t[|t| - 1].WriteDone? then false else Flying(t[..|t| - 1])
  }

  ghost predicate Reading(t: Trace) {
    t != [] && if t[|t| - 1].ReadStarted? then true else if t[|t| - 1].ReadDone? then false else Reading(t[..|t| - 1])
  }

  ghost function Finishes(t: Trace): nat {
    if t == [] then 0 else Finishes(t[..|t| - 1]) + if t[|t| - 1].Finished? then 1 else 0
  }

  /** What may happen after t. */
  ghost predicate Allowed(t: Trace, e: Event) {
    match e
    case WriteStarted(a) => !Flying(t) && Finishes(t) == 0 && Newest(t) == Some(a)
    case WriteDone(_) => Flying(t)
    case ReadStarted => !Reading(t)
    case ReadDone(_) => Reading(t)
    case Finished => true
    case Updated(_) => true
  }

  /** One write and one read at a time, every write carries the newest allocation, and none starts after Finish. */
  ghost predicate Good(t: Trace) {
    forall k :: 0 <= k < |t| ==> Allowed(t[..k], t[k])
  }

  lemma GoodSnoc(t: Trace, e: Event)
    requires Good(t) && Allowed(t, e)
    ensures Good(t + [e])
  {
    var u := t + [e];
    forall k | 0 <= k < |u| ensures Allowed(u[..k], u[k]) {
      assert k < |t| ==> u[..k] == t[..k];
      assert u[..|t|] == t;
    }
  }

  lemma TraceSnoc(t: Trace, e: Event)
    ensures Newest(t + [e]) == if e.Updated? then Some(e.alloc) else Newest(t)
    ensures LastWrite(t + [e]) == if e.WriteStarted? then Some(e.alloc) else LastWrite(t)
    ensures Flying(t + [e]) == if e.WriteStarted? then true else if e.WriteDone? then false else Flying(t)
    ensures Reading(t + [e]) == if e.ReadStarted? then true else if e.ReadDone? then false else Reading(t)
    ensures Finishes(t + [e]) == Finishes(t) + if e.Finished? then 1 else 0
  {
    TakeAppend(t, [e]);
  }

  // ---- The invariant ----

  ghost function One(b: bool): nat {
    if b then 1 else 0
  }

  ghost predicate Inv(s: State) {
    var f, t := s.fields, s.trace;
    && Good(t)
    && Flying(t) == s.write.WriteFlying? && Reading(t) == s.read.ReadOutstanding?
    && (f.wipWrite <==> !s.write.WriteIdle?)
    && (s.write.WriteFlying? ==> LastWrite(t) == Some(f.wip))
    && (f.hasStaged ==> f.wipWrite || f.finished)
    && Newest(t) == (if f.hasStaged then Some(f.staged) else LastWrite(t))
    && FinishInv(s)
  }

  /** Who may have called Finish, and what keeps writes from starting after it. */
  ghost predicate FinishInv(s: State) {
    && Finishes(s.trace) == One(s.byRead) + One(s.byWrite)
    && (s.byRead ==> s.read.ReadFinishing? || (s.read.ReadEnded? && s.fields.finished))
    && (s.byWrite ==> s.write.WriteStoring? || s.write.WriteClearing? || s.write.WriteDead?)
    && (s.read.ReadFinishing? ==> s.byRead)
  }

  lemma EventKeeps(t: Trace, e: Event)
    requires Good(t) && Allowed(t, e)
    ensures Good(t + [e])
    ensures Newest(t + [e]) == if e.Updated? then Some(e.alloc) else Newest(t)
    ensures LastWrite(t + [e]) == if e.WriteStarted? then Some(e.alloc) else LastWrite(t)
    ensures Flying(t + [e]) == if e.WriteStarted? then true else if e.WriteDone? then false else Flying(t)
    ensures Reading(t + [e]) == if e.ReadStarted? then true else if e.ReadDone? then false else Reading(t)
    ensures Finishes(t + [e]) == Finishes(t) + if e.Finished? then 1 else 0
  {
    GoodSnoc(t, e);
    TraceSnoc(t, e);
  }

  lemma InitInv()
    ensures Inv(INIT)
  {
    var t: Trace := [ReadStarted];
    assert t[..0] == [];
    assert Allowed([], ReadStarted);
  }

  lemma UpdateKeeps(s: State, alloc: Alloc)
    requires Inv(s) && Enabled(s, Update(alloc))
    ensures Inv(Apply(s, Update(alloc)))
  {
    hide Good, Newest, LastWrite, Flying, Reading, Finishes;
    EventKeeps(s.trace, Updated(alloc));
    if !s.fields.wipWrite && !s.fields.finished {
      EventKeeps(s.trace + [Updated(alloc)], WriteStarted(alloc));
    }
  }

  lemma LandKeeps(s: State)
    requires Inv(s) && Enabled(s, WriteLand)
    ensures Inv(Apply(s, WriteLand))
  {
    hide Good, Newest, LastWrite, Flying, Reading, Finishes;
    if s.fields.hasStaged && !s.fields.finished {
      EventKeeps(s.trace, WriteStarted(s.fields.staged));
    }
  }

  lemma ReadKeeps(s: State, a: Action)
    requires Inv(s) && Enabled(s, a)
    requires a.ReadComplete? || a.ReadTest? || a.ReadFinish? || a.ReadStore? || a.ReadContinue? || a.ReadUnlock?
             || a.ReadRegister? || a.ReadHold? || a.ReadRestart?
    ensures Inv(Apply(s, a))
  {
    hide Good, Newest, LastWrite, Flying, Reading, Finishes;
    match a {
      case ReadComplete(ok) => EventKeeps(s.trace, ReadDone(ok));
      case ReadFinish => EventKeeps(s.trace, Finished);
      case ReadContinue => EventKeeps(s.trace, ReadStarted);
      case ReadRestart => EventKeeps(s.trace, ReadStarted);
      case _ =>
    }
  }

  lemma WriteKeeps(s: State, a: Action)
    requires Inv(s) && Enabled(s, a)
    requires a.WriteComplete? || a.WriteTest? || a.WriteFinish? || a.WriteStore? || a.WriteClear?
    ensures Inv(Apply(s, a))
  {
    hide Good, Newest, LastWrite, Flying, Reading, Finishes;
    match a {
      case WriteComplete(ok) => EventKeeps(s.trace, WriteDone(ok));
      case WriteFinish => EventKeeps(s.trace, Finished);
      case _ =>
    }
  }

  /** Every step of every callback keeps the invariant. */
  lemma StepKeeps(s: State, a: Action)
    requires Inv(s) && Enabled(s, a)
    ensures Inv(Apply(s, a))
  {
    hide Inv, Enabled, Apply;
    match a {
      case Update(alloc) => UpdateKeeps(s, alloc);
      case WriteLand => LandKeeps(s);
      case WriteComplete(_) => WriteKeeps(s, a);
      case WriteTest => WriteKeeps(s, a);
      case WriteFinish => WriteKeeps(s, a);
      case WriteStore => WriteKeeps(s, a);
      case WriteClear => WriteKeeps(s, a);
      case _ => ReadKeeps(s, a);
    }
  }

  // ---- Runs ----

  ghost predicate IsRun(states: seq<State>, actions: seq<Action>) {
    && |states| == |actions| + 1 && states[0] == INIT
    && forall k :: 0 <= k < |actions| ==> IsStep(states, actions, k)
  }

  ghost predicate IsStep(states: seq<State>, actions: seq<Action>, k: nat)
    requires k < |actions| && k + 1 < |states|
  {
    Enabled(states[k], actions[k]) && states[k + 1] == Apply(states[k], actions[k])
  }

  lemma {:induction false} RunKeeps(states: seq<State>, actions: seq<Action>, k: nat)
    requires IsRun(states, actions) && k < |states|
    ensures Inv(states[k])
  {
    hide Inv, Enabled, Apply;
    if k == 0 {
      InitInv();
    } else {
      RunKeeps(states, actions, k - 1);
      assert IsStep(states, actions, k - 1);
      StepKeeps(states[k - 1], actions[k - 1]);
    }
  }

  /**
   In every state of every run: at most one write is in flight and its buffer holds what was
   written, every write so far carried the newest allocation, none started after Finish, and an
   idle, unfinished stream has written the last update.
   */
  lemma WritesAreOrderly(states: seq<State>, actions: seq<Action>, k: nat)
    requires IsRun(states, actions) && k < |states|
    ensures var s := states[k];
            && Good(s.trace)
            && (Flying(s.trace) ==> LastWrite(s.trace) == Some(s.fields.wip))
            && (!s.fields.wipWrite && !s.fields.finished ==> LastWrite(s.trace) == Newest(s.trace) && !Flying(s.trace))
            && Finishes(s.trace) <= 2
  {
    hide Good, Newest, LastWrite, Flying, Reading, Finishes;
    RunKeeps(states, actions, k);
  }

  ghost predicate IsWriteStart(e: Event) {
    e.WriteStarted?
  }

  ghost predicate IsWriteDone(e: Event) {
    e.WriteDone?
  }

  ghost function Count(t: Trace, p: Event -> bool): nat {
    if t == [] then 0 else Count(t[..|t| - 1], p) + if p(t[|t| - 1]) then 1 else 0
  }

  lemma GoodPrefix(t: Trace)
    requires Good(t) && t != []
    ensures Good(t[..|t| - 1]) && Allowed(t[..|t| - 1], t[|t| - 1])
  {
    var p := t[..|t| - 1];
    forall k | 0 <= k < |p| ensures Allowed(p[..k], p[k]) {
      assert p[..k] == t[..k];
    }
  }

  /** Started writes outnumber completed ones by one while a write is in flight, and by none otherwise. */
  lemma {:induction false} OneWriteInFlight(t: Trace)
    requires Good(t)
    ensures Count(t, IsWriteStart) == Count(t, IsWriteDone) + One(Flying(t))
  {
    if t != [] {
      GoodPrefix(t);
      OneWriteInFlight(t[..|t| - 1]);
    }
  }

  lemma {:induction false} FinishIsCounted(t: Trace, i: nat)
    requires i < |t| && t[i].Finished?
    ensures Finishes(t) > 0
  {
    var n := |t| - 1;
    if i < n {
      FinishIsCounted(t[..n], i);
    }
  }

  /** No write starts after Finish. */
  lemma NoWriteAfterFinish(t: Trace, i: nat, j: nat)
    requires Good(t) && i < j < |t| && t[i].Finished?
    ensures !t[j].WriteStarted?
  {
    FinishIsCounted(t[..j], i);
    assert Allowed(t[..j], t[j]);
  }

  // ---- When Finish is called twice ----

  /** What the actions so far say about finished_ and Finish. */
  ghost predicate HistoryInv(s: State, done: seq<Action>) {
    HistoryOf(s, ReadStore in done, WriteStore in done, WriteFinish in done, WriteTest in done)
  }

  ghost predicate HistoryOf(s: State, readStore: bool, writeStore: bool, writeFinish: bool, writeTest: bool) {
    && (s.fields.finished <==> readStore || writeStore)
    && (s.byWrite <==> writeFinish)
    && (writeStore ==> s.write.WriteClearing? || s.write.WriteDead?)
    && (readStore ==> s.read.ReadEnded?)
    && (s.write.WriteIdle? || s.write.WriteFlying? || s.write.WriteLanding? || s.write.WriteFailing? ==>
          !writeTest && !s.byWrite)
    && (s.byRead ==> s.read.ReadFinishing? || s.read.ReadEnded?)
  }

  /** The sections that write leave the reader and finished_ alone, and a failed write stays one. */
  lemma SectionFrame(s: State, a: Action)
    requires Inv(s) && Enabled(s, a) && (a.Update? || a.WriteLand?)
    ensures var s' := Apply(s, a);
            && s'.read == s.read && s'.byRead == s.byRead && s'.byWrite == s.byWrite
            && s'.fields.finished == s.fields.finished && s'.fields.hasListener == s.fields.hasListener
            && (s.write.WriteIdle? || s.write.WriteLanding? ==>
                  s'.write.WriteIdle? || s'.write.WriteFlying? || s'.write.WriteLanding?)
            && (!s.write.WriteIdle? && !s.write.WriteLanding? ==> s'.write == s.write)
  {
    hide Good, Newest, LastWrite, Flying, Reading, Finishes;
  }

  lemma HistoryOfStep(s: State, a: Action, rs: bool, ws: bool, wf: bool, wt: bool)
    requires Inv(s) && HistoryOf(s, rs, ws, wf, wt) && Enabled(s, a)
    ensures HistoryOf(Apply(s, a), rs || a.ReadStore?, ws || a.WriteStore?, wf || a.WriteFinish?, wt || a.WriteTest?)
  {
    hide Inv;
    if a.Update? || a.WriteLand? {
      SectionFrame(s, a);
      hide Apply, Enabled;
    }
  }

  lemma HistoryStep(s: State, done: seq<Action>, a: Action)
    requires Inv(s) && HistoryInv(s, done) && Enabled(s, a)
    ensures HistoryInv(Apply(s, a), done + [a])
  {
    hide Inv, Enabled, Apply, HistoryOf;
    HistoryOfStep(s, a, ReadStore in done, WriteStore in done, WriteFinish in done, WriteTest in done);
  }

  lemma {:induction false} RunHistory(states: seq<State>, actions: seq<Action>, k: nat)
    requires IsRun(states, actions) && k < |states|
    ensures HistoryInv(states[k], actions[..k])
  {
    if k > 0 {
      hide HistoryInv, Enabled, Apply;
      RunHistory(states, actions, k - 1);
      RunKeeps(states, actions, k - 1);
      assert IsStep(states, actions, k - 1);
      HistoryStep(states[k - 1], actions[..k - 1], actions[k - 1]);
      TakeSnoc(actions, k - 1);
    }
  }

  lemma AfterWriteTestBegins(s: State, done: seq<Action>)
    requires HistoryInv(s, done) && s.write.WriteFailing?
    ensures !s.byWrite
  {
  }

  lemma AfterReadTestBegins(s: State, done: seq<Action>)
    requires HistoryInv(s, done) && s.read.ReadArrived?
    ensures !s.byRead
  {
  }

  /** Past the write's test, which saw finished_ as given: Finish is called exactly if it saw false. */
  ghost predicate PastWriteTest(s: State, saw: bool) {
    && (s.byWrite <==> !saw && !s.write.WriteTested?) && (s.write.WriteTested? ==> !saw)
    && (s.write.WriteTested? || s.write.WriteStoring? || s.write.WriteClearing? || s.write.WriteDead?)
  }

  lemma PastWriteTestStep(s: State, a: Action, saw: bool)
    requires Inv(s) && Enabled(s, a) && PastWriteTest(s, saw)
    ensures PastWriteTest(Apply(s, a), saw)
  {
    hide Inv, Listens;
    if a.Update? || a.WriteLand? {
      SectionFrame(s, a);
      hide Apply, Enabled;
    }
  }

  lemma {:induction false} AfterWriteTest(states: seq<State>, actions: seq<Action>, i: nat, k: nat)
    requires IsRun(states, actions) && i < k < |states| && actions[i] == WriteTest
    ensures PastWriteTest(states[k], states[i].fields.finished)
    decreases k
  {
    assert IsStep(states, actions, k - 1);
    RunKeeps(states, actions, k - 1);
    RunHistory(states, actions, k - 1);
    hide Inv, HistoryInv;
    if k == i + 1 {
      AfterWriteTestBegins(states[i], actions[..i]);
    } else {
      hide Apply, Enabled, PastWriteTest;
      AfterWriteTest(states, actions, i, k - 1);
      PastWriteTestStep(states[k - 1], actions[k - 1], states[i].fields.finished);
    }
  }

  /** The test of a failed read, and what follows it. */
  ghost predicate IsReadFailure(states: seq<State>, actions: seq<Action>, j: nat) {
    j < |actions| && j < |states| && actions[j] == ReadTest && states[j].read == ReadArrived(false)
  }

  ghost predicate PastReadTest(s: State, saw: bool) {
    && (s.byRead <==> !saw && !s.read.ReadTested?) && (s.read.ReadTested? ==> !saw)
    && (s.read == ReadTested(false) || s.read.ReadFinishing? || s.read.ReadEnded?)
  }

  lemma PastReadTestStep(s: State, a: Action, saw: bool)
    requires Inv(s) && Enabled(s, a) && PastReadTest(s, saw)
    ensures PastReadTest(Apply(s, a), saw)
  {
    hide Inv, Listens;
    if a.Update? || a.WriteLand? {
      SectionFrame(s, a);
      hide Apply, Enabled;
    }
  }

  lemma {:induction false} AfterReadTest(states: seq<State>, actions: seq<Action>, j: nat, k: nat)
    requires IsRun(states, actions) && j < k < |states| && IsReadFailure(states, actions, j)
    ensures PastReadTest(states[k], states[j].fields.finished)
    decreases k
  {
    assert IsStep(states, actions, k - 1);
    RunKeeps(states, actions, k - 1);
    RunHistory(states, actions, k - 1);
    hide Inv, HistoryInv;
    if k == j + 1 {
      AfterReadTestBegins(states[j], actions[..j]);
    } else {
      hide Apply, Enabled, PastReadTest;
      AfterReadTest(states, actions, j, k - 1);
      PastReadTestStep(states[k - 1], actions[k - 1], states[j].fields.finished);
    }
  }

  lemma {:induction false} WriteWasTested(states: seq<State>, actions: seq<Action>, k: nat) returns (i: nat)
    requires IsRun(states, actions) && k < |states| && states[k].byWrite
    ensures i < k && actions[i] == WriteTest
  {
    RunHistory(states, actions, k);
    i := FindWriteTest(states, actions, k);
  }

  lemma {:induction false} FindWriteTest(states: seq<State>, actions: seq<Action>, k: nat) returns (i: nat)
    requires IsRun(states, actions) && k < |states|
    requires states[k].write.WriteTested? || states[k].write.WriteStoring? || states[k].write.WriteClearing? || states[k].write.WriteDead?
    ensures i < k && actions[i] == WriteTest
  {
    assert k > 0;
    assert IsStep(states, actions, k - 1);
    if actions[k - 1] == WriteTest {
      i := k - 1;
    } else {
      i := FindWriteTest(states, actions, k - 1);
    }
  }

  lemma {:induction false} ReadWasTested(states: seq<State>, actions: seq<Action>, k: nat) returns (j: nat)
    requires IsRun(states, actions) && k < |states|
    requires states[k].byRead || states[k].read == ReadTested(false)
    ensures j < k && IsReadFailure(states, actions, j)
  {
    assert k > 0;
    assert IsStep(states, actions, k - 1);
    if actions[k - 1] == ReadTest && states[k - 1].read == ReadArrived(false) {
      j := k - 1;
    } else {
      RunHistory(states, actions, k - 1);
      j := ReadWasTested(states, actions, k - 1);
    }
  }

  /** Both failures tested finished_ before the other one stored it, and both went on to call Finish. */
  ghost predicate Overlap(states: seq<State>, actions: seq<Action>, i: nat, j: nat) {
    && i < |actions| && actions[i] == WriteTest && ReadStore !in actions[..i]
    && IsReadFailure(states, actions, j) && WriteStore !in actions[..j]
  }

  ghost predicate FailuresOverlap(states: seq<State>, actions: seq<Action>) {
    exists i, j :: Overlap(states, actions, i, j)
  }

  /** Neither failure stands between its test and its call of Finish. */
  ghost predicate Settled(s: State) {
    !s.write.WriteTested? && s.read != ReadTested(false)
  }

  /**
   Finish is called twice if and only if a read and a write both fail, and each of them tests
   finished_ before the other one has stored it.
   */
  lemma FinishedTwiceIffOverlap(states: seq<State>, actions: seq<Action>)
    requires IsRun(states, actions) && Settled(states[|actions|])
    ensures Finishes(states[|actions|].trace) == 2 <==> FailuresOverlap(states, actions)
  {
    var n := |actions|;
    RunKeeps(states, actions, n);
    if FailuresOverlap(states, actions) {
      var i, j :| Overlap(states, actions, i, j);
      OverlapFinishesTwice(states, actions, i, j);
    }
    if states[n].byRead && states[n].byWrite {
      var i := WriteWasTested(states, actions, n);
      var j := ReadWasTested(states, actions, n);
      AfterWriteTest(states, actions, i, n);
      AfterReadTest(states, actions, j, n);
      RunHistory(states, actions, i);
      RunHistory(states, actions, j);
      assert Overlap(states, actions, i, j);
    }
  }

  lemma OverlapFinishesTwice(states: seq<State>, actions: seq<Action>, i: nat, j: nat)
    requires IsRun(states, actions) && Settled(states[|actions|]) && Overlap(states, actions, i, j)
    ensures states[|actions|].byRead && states[|actions|].byWrite
  {
    var n := |actions|;
    AfterWriteTest(states, actions, i, n);
    AfterReadTest(states, actions, j, n);
    RunHistory(states, actions, i);
    RunHistory(states, actions, j);
    assert IsStep(states, actions, i) && IsStep(states, actions, j);
  }

  // ---- When a read starts after Finish ----

  ghost predicate StartsRead(a: Action) {
    a.ReadContinue? || a.ReadRestart?
  }

  /** Some read was started after Finish. */
  ghost predicate ReadAfterFinish(t: Trace) {
    t != [] && (ReadAfterFinish(t[..|t| - 1]) || (t[|t| - 1].ReadStarted? && Finishes(t[..|t| - 1]) > 0))
  }

  lemma ReadAfterSnoc(t: Trace, e: Event)
    ensures ReadAfterFinish(t + [e]) <==> ReadAfterFinish(t) || (e.ReadStarted? && Finishes(t) > 0)
  {
    TakeAppend(t, [e]);
  }

  /** A step adds such a read only by starting one. */
  lemma ReadAfterStep(s: State, a: Action)
    requires Enabled(s, a)
    ensures ReadAfterFinish(Apply(s, a).trace) <==>
            ReadAfterFinish(s.trace) || (StartsRead(a) && Finishes(s.trace) > 0)
  {
    hide ReadAfterFinish, Finishes;
    var t := s.trace;
    match a {
      case Update(alloc) =>
        ReadAfterSnoc(t, Updated(alloc));
        ReadAfterSnoc(t + [Updated(alloc)], WriteStarted(alloc));
      case ReadComplete(ok) => ReadAfterSnoc(t, ReadDone(ok));
      case ReadFinish => ReadAfterSnoc(t, Finished);
      case ReadContinue => ReadAfterSnoc(t, ReadStarted);
      case ReadRestart => ReadAfterSnoc(t, ReadStarted);
      case WriteComplete(ok) => ReadAfterSnoc(t, WriteDone(ok));
      case WriteLand => ReadAfterSnoc(t, WriteStarted(s.fields.staged));
      case WriteFinish => ReadAfterSnoc(t, Finished);
      case _ =>
    }
  }

  /** The read started at q passed its test at p before the write stored finished_, and starts after the write's Finish. */
  ghost predicate Slips(actions: seq<Action>, p: nat, q: nat) {
    && p < q < |actions| && actions[p] == ReadTest && StartsRead(actions[q]) && ReadTest !in actions[p + 1..q]
    && WriteStore !in actions[..p] && WriteFinish in actions[..q]
  }

  ghost predicate SlipsAt(actions: seq<Action>, q: nat) {
    exists p: nat :: Slips(actions, p, q)
  }

  ghost predicate SomeReadSlips(actions: seq<Action>, n: nat) {
    exists q: nat :: q < n && SlipsAt(actions, q)
  }

  ghost predicate PassedTest(r: ReadPc) {
    r.ReadTested? || r.ReadUnlocked? || r.ReadLive? || r.ReadRegistered?
  }

  lemma {:induction false} TestBefore(states: seq<State>, actions: seq<Action>, k: nat) returns (p: nat)
    requires IsRun(states, actions) && k < |states| && PassedTest(states[k].read)
    ensures p < k && actions[p] == ReadTest && ReadTest !in actions[p + 1..k] && WriteStore !in actions[..p]
  {
    assert k > 0;
    assert IsStep(states, actions, k - 1);
    if actions[k - 1] == ReadTest {
      p := k - 1;
      RunHistory(states, actions, p);
    } else {
      p := TestBefore(states, actions, k - 1);
      assert actions[p + 1..k] == actions[p + 1..k - 1] + [actions[k - 1]];
    }
  }

  lemma StartMeansSlip(states: seq<State>, actions: seq<Action>, q: nat)
    requires IsRun(states, actions) && q < |actions| && StartsRead(actions[q])
    ensures Finishes(states[q].trace) > 0 <==> WriteFinish in actions[..q]
    ensures WriteFinish in actions[..q] ==> SlipsAt(actions, q)
  {
    hide Good, Newest, LastWrite, Flying, Reading, Finishes;
    assert IsStep(states, actions, q);
    RunKeeps(states, actions, q);
    RunHistory(states, actions, q);
    var p := TestBefore(states, actions, q);
    if WriteFinish in actions[..q] {
      assert Slips(actions, p, q);
    }
  }

  /**
   A read starts after Finish if and only if some read passes its test of finished_ before a
   failed write stores it, and starts after that write has called Finish.
   */
  lemma {:induction false} ReadAfterFinishIffSlip(states: seq<State>, actions: seq<Action>, n: nat)
    requires IsRun(states, actions) && n <= |actions|
    ensures ReadAfterFinish(states[n].trace) <==> SomeReadSlips(actions, n)
  {
    hide ReadAfterFinish, Enabled, Apply, SlipsAt;
    if n == 0 {
      NoReadYet();
      assert !SomeReadSlips(actions, 0);
    } else {
      ReadAfterFinishIffSlip(states, actions, n - 1);
      assert IsStep(states, actions, n - 1);
      ReadAfterStep(states[n - 1], actions[n - 1]);
      if StartsRead(actions[n - 1]) {
        StartMeansSlip(states, actions, n - 1);
      }
      if SlipsAt(actions, n - 1) {
        SlipStartsRead(actions, n - 1);
      }
      SlipsSnoc(actions, n);
    }
  }

  lemma SlipStartsRead(actions: seq<Action>, q: nat)
    requires q < |actions| && SlipsAt(actions, q)
    ensures StartsRead(actions[q]) && WriteFinish in actions[..q]
  {
  }

  lemma NoReadYet()
    ensures !ReadAfterFinish(INIT.trace)
  {
    assert INIT.trace[..0] == [];
  }

  lemma SlipsSnoc(actions: seq<Action>, n: nat)
    requires 0 < n <= |actions|
    ensures SomeReadSlips(actions, n) <==> SomeReadSlips(actions, n - 1) || SlipsAt(actions, n - 1)
  {
    hide SlipsAt;
    if SomeReadSlips(actions, n) {
      var q: nat :| q < n && SlipsAt(actions, q);
    }
  }

  // ---- When the listener outlives the failure that drops it ----

  /**
   A failed write drops the listener for good if and only if no registration is under way then and
   none begins later.
   */
  lemma {:induction false} ListenerSurvivesIff(states: seq<State>, actions: seq<Action>, c: nat, n: nat)
    requires IsRun(states, actions) && c < n <= |actions| && actions[c] == WriteClear
    ensures states[n].write.WriteDead?
    ensures Listens(states[n]) <==> states[c].read.ReadLive? || ReadRegister in actions[c + 1..n]
    decreases n
  {
    assert IsStep(states, actions, n - 1);
    if n > c + 1 {
      ListenerSurvivesIff(states, actions, c, n - 1);
      RunKeeps(states, actions, n - 1);
      var a, before := actions[n - 1], actions[c + 1..n - 1];
      assert actions[c + 1..n] == before + [a];
      if a.Update? || a.WriteLand? {
        SectionFrame(states[n - 1], a);
      }
    } else {
      assert actions[c + 1..n] == [];
    }
  }

  // ---- Schedules on which they fail ----

  lemma Go(states: seq<State>, actions: seq<Action>, a: Action) returns (states': seq<State>, actions': seq<Action>)
    requires IsRun(states, actions) && Enabled(states[|actions|], a)
    ensures actions' == actions + [a] && IsRun(states', actions')
    ensures states'[|actions'|] == Apply(states[|actions|], a)
  {
    hide Enabled, Apply;
    actions' := actions + [a];
    states' := states + [Apply(states[|actions|], a)];
    forall k | 0 <= k < |actions'| ensures IsStep(states', actions', k) {
      assert k < |actions| ==> IsStep(states, actions, k);
    }
  }

  /** The first read registers, and the controller's first allocation is being written. */
  ghost const REGISTERED := INIT.(
    read := ReadRegistered, fields := NEW_FIELDS.(hasListener := true),
    trace := [ReadStarted, ReadDone(true)])

  lemma Registers() returns (states: seq<State>, actions: seq<Action>)
    ensures IsRun(states, actions) && states[|actions|] == REGISTERED
  {
    states, actions := [INIT], [];
    states, actions := Go(states, actions, ReadComplete(true));
    states, actions := Go(states, actions, ReadTest);
    states, actions := Go(states, actions, ReadUnlock);
    states, actions := Go(states, actions, ReadRegister);
    states, actions := Go(states, actions, ReadHold);
    assert [ReadStarted] + [ReadDone(true)] == [ReadStarted, ReadDone(true)];
  }

  /** A peer goes away: the read and the write both fail, and both call Finish. */
  lemma FinishCanHappenTwice(alloc: Alloc) returns (states: seq<State>, actions: seq<Action>)
    ensures IsRun(states, actions) && Settled(states[|actions|]) && Finishes(states[|actions|].trace) == 2
  {
    hide Finishes;
    states, actions := Registers();
    states, actions := Go(states, actions, ReadRestart);
    states, actions := Go(states, actions, Update(alloc));
    states, actions := Go(states, actions, WriteComplete(false));
    states, actions := Go(states, actions, WriteTest);
    states, actions := Go(states, actions, ReadComplete(false));
    states, actions := Go(states, actions, ReadTest);
    states, actions := Go(states, actions, ReadFinish);
    states, actions := Go(states, actions, ReadStore);
    states, actions := Go(states, actions, WriteFinish);
    assert states[|actions|].byRead && states[|actions|].byWrite;
    RunKeeps(states, actions, |actions|);
  }

  /** A write fails while the first OnReadDone has released the mutex: it starts a read after Finish. */
  lemma ReadCanStartAfterFinish(alloc: Alloc) returns (states: seq<State>, actions: seq<Action>)
    ensures IsRun(states, actions) && ReadAfterFinish(states[|actions|].trace)
  {
    hide Finishes, ReadAfterFinish;
    states, actions := Registers();
    states, actions := Go(states, actions, Update(alloc));
    states, actions := Go(states, actions, WriteComplete(false));
    states, actions := Go(states, actions, WriteTest);
    states, actions := Go(states, actions, WriteFinish);
    states, actions := Go(states, actions, WriteStore);
    states, actions := Go(states, actions, WriteClear);
    ghost var s := states[|actions|];
    RunKeeps(states, actions, |actions|);
    states, actions := Go(states, actions, ReadRestart);
    ReadAfterSnoc(s.trace, ReadStarted);
  }

  /** A write fails before lis_ is set: the listener is set after it was dropped, and updates go on. */
  lemma ListenerCanSurvive(alloc: Alloc) returns (states: seq<State>, actions: seq<Action>)
    ensures IsRun(states, actions) && states[|actions|].write.WriteDead? && states[|actions|].fields.hasListener
  {
    states, actions := [INIT], [];
    states, actions := Go(states, actions, ReadComplete(true));
    states, actions := Go(states, actions, ReadTest);
    states, actions := Go(states, actions, ReadUnlock);
    states, actions := Go(states, actions, ReadRegister);
    states, actions := Go(states, actions, Update(alloc));
    states, actions := Go(states, actions, WriteComplete(false));
    states, actions := Go(states, actions, WriteTest);
    states, actions := Go(states, actions, WriteFinish);
    states, actions := Go(states, actions, WriteStore);
    states, actions := Go(states, actions, WriteClear);
    states, actions := Go(states, actions, ReadHold);
  }

  // ---- The reactor takes these steps ----

  ghost function Started(t: Trace, t': Trace): Option<Alloc> {
    if t' != [] && |t'| > |t| && t'[|t'| - 1].WriteStarted? then Some(t'[|t'| - 1].alloc) else None
  }

  /** What a callback does to the fields in each step, and what it writes. */
  method Perform(r: HostReactor, a: Action, ghost s: State) returns (written: Option<Alloc>)
    requires r.Valid() && r.View() == s.fields && Enabled(s, a)
    modifies r, r.b1, r.b2
    ensures r.Valid() && r.View() == Apply(s, a).fields
    ensures written == Started(s.trace, Apply(s, a).trace)
  {
    written := None;
    match a
    case Update(alloc) => written := r.UpdateAlloc(alloc);
    case WriteLand => written := r.WriteLanded();
    case ReadStore => r.MarkFinished();
    case WriteStore => r.MarkFinished();
    case ReadHold => r.SetListener(true);
    case WriteClear => r.SetListener(false);
    case _ =>
  }
}
