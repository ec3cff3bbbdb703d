// Saving the session: the GTK thread snapshots, sends and notifies
// (src/app_state.rs), a worker debounces, drains and writes (src/main.rs), and
// a write goes to a temporary file first and is then renamed (src/session.rs).
// Every step is atomic, any two of them can interleave, and the process can be
// killed between any two.
module SaveProtocol {
  import opened Prelude
  import opened Restore

  datatype WorkspaceSession = WorkspaceSession(
    uuid: nat, name: string, activePane: Option<nat>, layout: NodeData, group: Option<string>)

  datatype SessionData = SessionData(version: nat, activeIndex: nat, workspaces: seq<WorkspaceSession>)

  // A snapshot with its place in the order of all snapshots ever taken.
  datatype Snapshot = Snapshot(stamp: nat, data: SessionData)

  // The JSON library: what it writes it can read.
  datatype Codec = Codec(encode: SessionData -> string, decode: string -> Option<SessionData>)

  ghost predicate Lossless(codec: Codec) {
    forall d {:trigger codec.encode(d)} :: codec.decode(codec.encode(d)) == Some(d)
  }

  datatype File = Absent | Content(text: string)

  // Where the GTK thread is inside `trigger_session_save`.
  datatype Sender = Idle | Remembered(current: Snapshot) | Sent

  datatype Worker =
    | Polling                                  // about to await the notification
    | Waiting                                  // registered, no permit stored
    | Woken
    | Sleeping                                 // the 500 ms window
    | Draining(latest: Option<Snapshot>)
    | Saving(snapshot: Snapshot)               // directory and serialization
    | Writing(snapshot: Snapshot, done: nat)   // so many characters are in the file
    | Renaming(snapshot: Snapshot)

  datatype State = State(
    sender: Sender,
    queue: seq<Snapshot>,
    permit: bool,
    worker: Worker,
    remembered: Option<Snapshot>,
    tmp: File,
    json: File,
    // history
    begun: nat,                    // snapshots taken so far, over all processes
    lastSent: Option<Snapshot>,    // of this process
    lastTaken: Option<Snapshot>,   // last one the worker received in this process
    failed: bool,                  // the last save attempt of this process failed
    committed: Option<Snapshot>)   // last one renamed into place, ever

  const INITIAL := State(Idle, [], false, Polling, None, Absent, Absent, 0, None, None, false, None)

  datatype Event =
    | Remember(activeIndex: nat, workspaces: seq<WorkspaceSession>)
    | Send
    | Notify
    | Poll
    | Wake
    | WindowEnds
    | Receive
    | DrainEnds
    | OpenTmp
    | WriteSome(count: nat)
    | WriteEnds
    | Rename
    | SaveFails
    | Kill

  /** What the event does in a state where it can happen; elsewhere nothing. */
  function Step(codec: Codec, s: State, e: Event): State {
    match e
    case Remember(activeIndex, workspaces) =>
      if !s.sender.Idle? then s
      else
        var snapshot := Snapshot(s.begun + 1, SessionData(2, activeIndex, workspaces));
        s.(sender := Remembered(snapshot), remembered := Some(snapshot), begun := s.begun + 1)
    case Send =>
      if !s.sender.Remembered? then s
      else s.(sender := Sent, queue := s.queue + [s.sender.current], lastSent := Some(s.sender.current))
    case Notify =>
      if !s.sender.Sent? then s
      else if s.worker.Waiting? then s.(sender := Idle, worker := Woken)
      else s.(sender := Idle, permit := true)
    case Poll =>
      if !s.worker.Polling? then s
      else if s.permit then s.(permit := false, worker := Sleeping)
      else s.(worker := Waiting)
    case Wake => if s.worker.Woken? then s.(worker := Sleeping) else s
    case WindowEnds => if s.worker.Sleeping? then s.(worker := Draining(None)) else s
    case Receive =>
      if !s.worker.Draining? || s.queue == [] then s
      else s.(worker := Draining(Some(s.queue[0])), queue := s.queue[1..], lastTaken := Some(s.queue[0]))
    case DrainEnds =>
      if !s.worker.Draining? || s.queue != [] then s
      else s.(worker := if s.worker.latest.Some? then Saving(s.worker.latest.value) else Polling)
    case OpenTmp =>
      if s.worker.Saving? then s.(worker := Writing(s.worker.snapshot, 0), tmp := Content("")) else s
    case WriteSome(count) =>
      if !s.worker.Writing? then s
      else
        var text := codec.encode(s.worker.snapshot.data);
        if s.worker.done + count > |text| then s
        else
          var done := s.worker.done + count;
          s.(worker := Writing(s.worker.snapshot, done), tmp := Content(text[..done]))
    case WriteEnds =>
      if s.worker.Writing? && s.worker.done == |codec.encode(s.worker.snapshot.data)| then
        s.(worker := Renaming(s.worker.snapshot))
      else s
    case Rename =>
      if s.worker.Renaming? then
        s.(worker := Polling, json := s.tmp, tmp := Absent, committed := Some(s.worker.snapshot), failed := false)
      else s
    case SaveFails =>
      if s.worker.Saving? || s.worker.Writing? || s.worker.Renaming? then s.(worker := Polling, failed := true) else s
    case Kill =>
      State(Idle, [], false, Polling, None, s.tmp, s.json, s.begun, None, None, false, s.committed)
  }

  function Run(codec: Codec, s: State, events: seq<Event>): State
    decreases events
  {
    if events == [] then s else Run(codec, Step(codec, s, events[0]), events[1..])
  }

  /** `load_session_from`: what the library reads, in one of the two versions there are. */
  function Load(codec: Codec, file: File): (r: Option<SessionData>)
    ensures r.Some? <==>
              file.Content? && codec.decode(file.text).Some? && codec.decode(file.text).value.version in {1, 2}
    ensures r.Some? ==> r == codec.decode(file.text)
  {
    if file.Absent? then None
    else
      var parsed := codec.decode(file.text);
      if parsed.Some? && parsed.value.version != 1 && parsed.value.version != 2 then None else parsed
  }

  // ── Invariant ──────────────────────────────────────────────────────────────

  function StampOf(s: Option<Snapshot>): nat {
    if s.Some? then s.value.stamp else 0
  }

  /** The snapshots in flight, oldest first: on disk, taken, queued, remembered. */
  ghost predicate Ordered(s: State) {
    && (forall i, j :: 0 <= i < j < |s.queue| ==> s.queue[i].stamp < s.queue[j].stamp)
    && (forall i :: 0 <= i < |s.queue| ==> StampOf(s.lastTaken) < s.queue[i].stamp <= s.begun)
    && StampOf(s.committed) <= s.begun && StampOf(s.lastSent) <= s.begun
    && (s.lastTaken.Some? ==> StampOf(s.committed) <= StampOf(s.lastTaken) <= s.begun)
    && (s.queue != [] ==> StampOf(s.committed) < s.queue[0].stamp)
    && (s.remembered.Some? ==> s.remembered.value.stamp == s.begun)
    && (s.sender.Remembered? ==>
          s.sender.current.stamp == s.begun && s.remembered == Some(s.sender.current)
          && StampOf(s.committed) < s.begun
          && StampOf(s.lastTaken) < s.begun && (forall i :: 0 <= i < |s.queue| ==> s.queue[i].stamp < s.begun))
    && (!s.sender.Remembered? ==> s.remembered == s.lastSent)
  }

  /** Nothing falls out of the channel. */
  ghost predicate Delivered(s: State) {
    s.lastSent == if s.queue == [] then s.lastTaken else Some(s.queue[|s.queue| - 1])
  }

  /** A queued snapshot is always going to be noticed. */
  ghost predicate Announced(s: State) {
    && (s.queue != [] ==> s.permit || s.sender.Sent? || s.worker.Woken? || s.worker.Sleeping? || s.worker.Draining?)
    && (s.worker.Waiting? ==> !s.permit)
  }

  /** Whatever the worker took is on its way to disk, there, or was given up. */
  ghost predicate Worked(s: State) {
    match s.worker
    case Draining(Some(latest)) => InHand(s, latest)
    case Saving(snapshot) => InHand(s, snapshot)
    case Writing(snapshot, _) => InHand(s, snapshot)
    case Renaming(snapshot) => InHand(s, snapshot)
    case _ =>
      if s.failed then s.lastTaken.Some? && StampOf(s.committed) < StampOf(s.lastTaken)
      else s.lastTaken.None? || s.committed == s.lastTaken
  }

  /** The worker has taken the snapshot and not committed it yet. */
  ghost predicate InHand(s: State, snapshot: Snapshot) {
    s.lastTaken == Some(snapshot) && StampOf(s.committed) < snapshot.stamp
  }

  /** The files: session.json is absent or the committed snapshot in full, and the
      temporary file is the prefix written so far. */
  ghost predicate Filed(codec: Codec, s: State) {
    && s.json == (if s.committed.Some? then Content(codec.encode(s.committed.value.data)) else Absent)
    && (s.worker.Writing? ==>
          var text := codec.encode(s.worker.snapshot.data);
          s.worker.done <= |text| && s.tmp == Content(text[..s.worker.done]))
    && (s.worker.Renaming? ==> s.tmp == Content(codec.encode(s.worker.snapshot.data)))
  }

  ghost predicate CurrentVersion(s: Option<Snapshot>) {
    s.Some? ==> s.value.data.version == 2
  }

  ghost predicate Versions(s: State) {
    && (forall i :: 0 <= i < |s.queue| ==> s.queue[i].data.version == 2)
    && CurrentVersion(s.lastTaken) && CurrentVersion(s.committed)
    && (s.sender.Remembered? ==> s.sender.current.data.version == 2)
  }

  ghost predicate Inv(codec: Codec, s: State) {
    Ordered(s) && Delivered(s) && Announced(s) && Worked(s) && Filed(codec, s) && Versions(s)
  }

  lemma SendOrdered(s: State)
    requires Ordered(s) && s.sender.Remembered?
    ensures Ordered(s.(sender := Sent, queue := s.queue + [s.sender.current], lastSent := Some(s.sender.current)))
  {
  }

  lemma ReceiveOrdered(s: State, w: Worker)
    requires Ordered(s) && s.queue != []
    ensures Ordered(s.(worker := w, queue := s.queue[1..], lastTaken := Some(s.queue[0])))
  {
  }

  lemma RememberOrdered(s: State, snapshot: Snapshot)
    requires Ordered(s) && s.sender.Idle? && snapshot.stamp == s.begun + 1
    ensures Ordered(s.(sender := Remembered(snapshot), remembered := Some(snapshot), begun := s.begun + 1))
  {
  }

  lemma RenameOrdered(s: State, json: File, snapshot: Snapshot)
    requires Ordered(s) && s.lastTaken == Some(snapshot)
    ensures Ordered(s.(worker := Polling, json := json, tmp := Absent, committed := Some(snapshot), failed := false))
  {
  }

  lemma KillOrdered(codec: Codec, s: State)
    requires Ordered(s)
    ensures Ordered(Step(codec, s, Kill)) && Step(codec, s, Kill).committed == s.committed
  {
  }

  lemma StepOrdered(codec: Codec, s: State, e: Event)
    requires Ordered(s) && Worked(s)
    ensures Ordered(Step(codec, s, e))
    ensures StampOf(s.committed) <= StampOf(Step(codec, s, e).committed)
  {
    if e.Remember? && s.sender.Idle? {
      RememberOrdered(s, Snapshot(s.begun + 1, SessionData(2, e.activeIndex, e.workspaces)));
    } else if e.Send? && s.sender.Remembered? {
      SendOrdered(s);
    } else if e.Receive? && s.worker.Draining? && s.queue != [] {
      ReceiveOrdered(s, Draining(Some(s.queue[0])));
    } else if e.Rename? && s.worker.Renaming? {
      RenameOrdered(s, s.tmp, s.worker.snapshot);
    } else if e.Kill? {
      KillOrdered(codec, s);
    } else {
      StepUnordered(codec, s, e);
    }
  }

  /** The other steps move no snapshot. */
  lemma StepUnordered(codec: Codec, s: State, e: Event)
    requires Ordered(s) && !e.Kill?
    requires !(e.Remember? && s.sender.Idle?) && !(e.Send? && s.sender.Remembered?)
    requires !(e.Receive? && s.worker.Draining? && s.queue != []) && !(e.Rename? && s.worker.Renaming?)
    ensures Ordered(Step(codec, s, e)) && Step(codec, s, e).committed == s.committed
  {
    var s' := Step(codec, s, e);
    assert s' == s.(sender := s'.sender, permit := s'.permit, worker := s'.worker, tmp := s'.tmp, failed := s'.failed);
    assert s'.sender.Remembered? <==> s.sender.Remembered?;
  }

  lemma StepDelivered(codec: Codec, s: State, e: Event)
    requires Delivered(s)
    ensures Delivered(Step(codec, s, e))
  {
  }

  lemma StepAnnounced(codec: Codec, s: State, e: Event)
    requires Announced(s)
    ensures Announced(Step(codec, s, e))
  {
  }

  lemma StepWorked(codec: Codec, s: State, e: Event)
    requires Worked(s) && Ordered(s)
    ensures Worked(Step(codec, s, e))
  {
  }

  lemma StepVersions(codec: Codec, s: State, e: Event)
    requires Versions(s) && Worked(s)
    ensures Versions(Step(codec, s, e))
  {
  }

  lemma StepFiled(codec: Codec, s: State, e: Event)
    requires Filed(codec, s)
    ensures Filed(codec, Step(codec, s, e))
  {
    if s.worker.Writing? {
      var text := codec.encode(s.worker.snapshot.data);
      assert text[..|text|] == text;
    }
  }

  lemma StepInv(codec: Codec, s: State, e: Event)
    requires Inv(codec, s)
    ensures Inv(codec, Step(codec, s, e))
    ensures StampOf(s.committed) <= StampOf(Step(codec, s, e).committed)
  {
    StepOrdered(codec, s, e);
    StepDelivered(codec, s, e);
    StepAnnounced(codec, s, e);
    StepWorked(codec, s, e);
    StepFiled(codec, s, e);
    StepVersions(codec, s, e);
  }

  /** Over every interleaving, kills included, the written version never decreases. */
  lemma {:induction false} RunInv(codec: Codec, s: State, events: seq<Event>)
    requires Inv(codec, s)
    ensures Inv(codec, Run(codec, s, events))
    ensures StampOf(s.committed) <= StampOf(Run(codec, s, events).committed)
    decreases events
  {
    if events != [] {
      StepInv(codec, s, events[0]);
      RunInv(codec, Step(codec, s, events[0]), events[1..]);
    }
  }

  // ── What it means ──────────────────────────────────────────────────────────

  /** No update is lost: when the worker waits and no sender is in mid-call, the queue
      is empty, and what this process has sent last is what was committed last, and
      what a load returns, exactly if the last save did not fail. */
  lemma NoUpdateLost(codec: Codec, events: seq<Event>)
    requires Lossless(codec)
    ensures var s := Run(codec, INITIAL, events);
            s.worker.Waiting? && s.sender.Idle? ==>
              && s.queue == []
              && (s.lastSent.Some? ==> (s.committed == s.lastSent <==> !s.failed))
              && (s.lastSent.Some? && !s.failed ==> Load(codec, s.json) == Some(s.lastSent.value.data))
  {
    RunInv(codec, INITIAL, events);
    var s := Run(codec, INITIAL, events);
    if s.lastSent.Some? {
      assert codec.decode(codec.encode(s.lastSent.value.data)) == Some(s.lastSent.value.data);
    }
  }

  /** The snapshot kept for a panic is never older than the one on disk. */
  lemma RememberedNotOlder(codec: Codec, events: seq<Event>)
    ensures var s := Run(codec, INITIAL, events);
            s.remembered.Some? ==> StampOf(s.committed) <= s.remembered.value.stamp
  {
    RunInv(codec, INITIAL, events);
  }

  /** Whenever the process is killed, in the middle of a write or between any two
      steps of any number of saves: session.json is absent if nothing was ever
      committed, and otherwise a load returns exactly the last committed snapshot. */
  lemma KillIsSafe(codec: Codec, events: seq<Event>)
    requires Lossless(codec)
    ensures var s := Step(codec, Run(codec, INITIAL, events), Kill);
            var was := Run(codec, INITIAL, events).committed;
            && s.committed == was && s.tmp == Run(codec, INITIAL, events).tmp
            && (was.None? ==> s.json == Absent)
            && Load(codec, s.json) == (if was.Some? then Some(was.value.data) else None)
  {
    RunInv(codec, INITIAL, events);
    var was := Run(codec, INITIAL, events).committed;
    if was.Some? {
      assert codec.decode(codec.encode(was.value.data)) == Some(was.value.data);
    }
  }

  /** A rename commits the newest snapshot the worker had received. */
  lemma RenameCommitsTaken(codec: Codec, events: seq<Event>)
    ensures var s := Run(codec, INITIAL, events);
            s.worker.Renaming? ==>
              && Step(codec, s, Rename).committed == s.lastTaken
              && s.lastTaken.Some?
              && Step(codec, s, Rename).json == Content(codec.encode(s.lastTaken.value.data))
  {
    RunInv(codec, INITIAL, events);
  }

  // ── The worker gets there ──────────────────────────────────────────────────

  /** What the worker does on its own, when no save fails. */
  predicate Works(e: Event) {
    e.Poll? || e.Wake? || e.WindowEnds? || e.Receive? || e.DrainEnds? || e.OpenTmp? || e.WriteSome? || e.WriteEnds?
    || e.Rename?
  }

  /** How far the worker is from waiting for the next notification. */
  function Distance(w: Worker): nat {
    match w
    case Waiting => 0
    case Polling => 1
    case Renaming(_) => 2
    case Writing(_, _) => 3
    case Saving(_) => 4
    case Draining(_) => 5
    case Sleeping => 6
    case Woken => 7
  }

  function Unwritten(codec: Codec, w: Worker): int {
    if w.Writing? then |codec.encode(w.snapshot.data)| - w.done else 0
  }

  /** Less is left to do: the stored permit is used up, or the worker is further on, or
      fewer snapshots are queued, or less text is unwritten. */
  ghost predicate LessToDo(codec: Codec, s: State, s': State) {
    if s'.permit != s.permit then s.permit
    else if Distance(s'.worker) != Distance(s.worker) then Distance(s'.worker) < Distance(s.worker)
    else if |s'.queue| != |s.queue| then |s'.queue| < |s.queue|
    else 0 <= Unwritten(codec, s'.worker) < Unwritten(codec, s.worker)
  }

  lemma WorkLowers(codec: Codec, s: State, e: Event)
    requires Inv(codec, s) && (Works(e) || e.SaveFails?)
    ensures Step(codec, s, e) == s || LessToDo(codec, s, Step(codec, s, e))
  {
  }

  /** Whatever the worker does on its own, in any order and with failed saves, leaves
      less to do or changes nothing; so it stops unless a sender acts. */
  lemma {:induction false} WorkRunLowers(codec: Codec, s: State, work: seq<Event>)
    requires Inv(codec, s) && forall e :: e in work ==> Works(e) || e.SaveFails?
    ensures Run(codec, s, work) == s || LessToDo(codec, s, Run(codec, s, work))
    decreases work
  {
    if work != [] {
      assert work[0] in work;
      WorkLowers(codec, s, work[0]);
      StepInv(codec, s, work[0]);
      WorkRunLowers(codec, Step(codec, s, work[0]), work[1..]);
    }
  }

  /** What the worker does next. */
  function NextWork(codec: Codec, s: State): (e: Event)
    ensures Works(e)
  {
    match s.worker
    case Waiting => Poll
    case Polling => Poll
    case Woken => Wake
    case Sleeping => WindowEnds
    case Draining(_) => if s.queue != [] then Receive else DrainEnds
    case Saving(_) => OpenTmp
    case Writing(snapshot, done) =>
      var text := codec.encode(snapshot.data);
      if done < |text| then WriteSome(|text| - done) else WriteEnds
    case Renaming(_) => Rename
  }

  /** A snapshot is on its way to the disk: still with the sender, queued, or in the
      worker's hands. */
  predicate Pending(s: State) {
    || s.sender.Remembered? || s.queue != []
    || (s.worker.Draining? && s.worker.latest.Some?)
    || s.worker.Saving? || s.worker.Writing? || s.worker.Renaming?
  }

  /** A worker that does not wait can do something, and it gives nothing up. */
  lemma WorkMoves(codec: Codec, s: State)
    requires Inv(codec, s) && s.sender.Idle? && !s.worker.Waiting?
    ensures var s' := Step(codec, s, NextWork(codec, s));
            && LessToDo(codec, s, s') && s'.sender.Idle?
            && s'.lastSent == s.lastSent && s'.remembered == s.remembered
            && (s.failed && !Pending(s) <==> s'.failed && !Pending(s'))
  {
    WorkLowers(codec, s, NextWork(codec, s));
  }

  /** Left alone, the worker ends up waiting with nothing queued, and what was on its
      way is on disk. */
  lemma {:induction false} WorkSettles(codec: Codec, s: State) returns (work: seq<Event>)
    requires Inv(codec, s) && s.sender.Idle?
    ensures forall e :: e in work ==> Works(e)
    ensures var s' := Run(codec, s, work);
            && Inv(codec, s') && s'.worker.Waiting? && s'.sender.Idle? && s'.queue == []
            && s'.lastSent == s.lastSent && s'.remembered == s.remembered
            && (s'.failed <==> s.failed && !Pending(s))
    decreases s.permit, Distance(s.worker), |s.queue|, Unwritten(codec, s.worker)
  {
    if s.worker.Waiting? {
      work := [];
    } else {
      var e := NextWork(codec, s);
      WorkMoves(codec, s);
      StepInv(codec, s, e);
      var rest := WorkSettles(codec, Step(codec, s, e));
      work := [e] + rest;
      assert work[1..] == rest;
    }
  }

  /** What the sender still has to do in the call it is in. */
  function RestOfCall(s: State): seq<Event> {
    match s.sender
    case Idle => []
    case Remembered(_) => [Send, Notify]
    case Sent => [Notify]
  }

  lemma RunOne(codec: Codec, s: State, e: Event)
    ensures Run(codec, s, [e]) == Step(codec, s, e)
  {
    assert [e][1..] == [];
  }

  lemma RunTwo(codec: Codec, s: State, e1: Event, e2: Event)
    ensures Run(codec, s, [e1, e2]) == Step(codec, Step(codec, s, e1), e2)
  {
    assert [e1, e2][1..] == [e2];
    RunOne(codec, Step(codec, s, e1), e2);
  }

  lemma NotifyEnds(codec: Codec, s: State)
    requires s.sender.Sent?
    ensures var s' := Step(codec, s, Notify);
            && s'.sender.Idle? && s'.remembered == s.remembered && s'.failed == s.failed
            && (Pending(s') <==> Pending(s))
  {
  }

  lemma SendPends(codec: Codec, s: State)
    requires s.sender.Remembered?
    ensures var s' := Step(codec, s, Send);
            s'.sender.Sent? && s'.remembered == s.remembered && s'.failed == s.failed && Pending(s')
  {
    assert Step(codec, s, Send).queue[|s.queue|] == s.sender.current;
  }

  lemma CallEnds(codec: Codec, s: State)
    requires Inv(codec, s)
    ensures var s' := Run(codec, s, RestOfCall(s));
            && Inv(codec, s') && s'.sender.Idle? && s'.remembered == s.remembered
            && (s'.failed && !Pending(s') <==> s.failed && !Pending(s))
  {
    RunInv(codec, s, RestOfCall(s));
    if s.sender.Remembered? {
      RunTwo(codec, s, Send, Notify);
      SendPends(codec, s);
      NotifyEnds(codec, Step(codec, s, Send));
    } else if s.sender.Sent? {
      RunOne(codec, s, Notify);
      NotifyEnds(codec, s);
    }
  }

  lemma {:induction false} RunConcat(codec: Codec, s: State, a: seq<Event>, b: seq<Event>)
    ensures Run(codec, s, a + b) == Run(codec, Run(codec, s, a), b)
    decreases a
  {
    if a == [] {
      assert a + b == b;
    } else {
      assert (a + b)[1..] == a[1..] + b;
      RunConcat(codec, Step(codec, s, a[0]), a[1..], b);
    }
  }

  /** From every reachable state, once the sender has finished its call, steps of the
      worker alone lead to where it waits, nothing is queued, and a load returns the
      last snapshot taken; only a snapshot whose save failed, with none after it, is
      not tried again. */
  lemma WorkerSettles(codec: Codec, events: seq<Event>) returns (work: seq<Event>)
    requires Lossless(codec)
    ensures forall e :: e in work ==> Works(e)
    ensures var s := Run(codec, INITIAL, events);
            var s' := Run(codec, s, RestOfCall(s) + work);
            && s'.worker.Waiting? && s'.sender.Idle? && s'.queue == [] && s'.remembered == s.remembered
            && (s.remembered.Some? && (!s.failed || Pending(s)) ==>
                  Load(codec, s'.json) == Some(s.remembered.value.data))
  {
    RunInv(codec, INITIAL, events);
    var s := Run(codec, INITIAL, events);
    CallEnds(codec, s);
    work := WorkSettles(codec, Run(codec, s, RestOfCall(s)));
    RunConcat(codec, s, RestOfCall(s), work);
    if s.remembered.Some? {
      assert codec.decode(codec.encode(s.remembered.value.data)) == Some(s.remembered.value.data);
    }
  }

  /** A failing input: a save that fails, and the worker waits with the snapshot lost. */
  lemma FailedSaveIsLost(codec: Codec, activeIndex: nat, workspaces: seq<WorkspaceSession>)
    ensures var call := [Remember(activeIndex, workspaces), Send, Notify];
            var s := Run(codec, INITIAL, call + [Poll, WindowEnds, Receive, DrainEnds, SaveFails, Poll]);
            && s.worker.Waiting? && s.sender.Idle? && s.queue == [] && s.failed
            && s.lastSent == Some(Snapshot(1, SessionData(2, activeIndex, workspaces))) && s.json == Absent
  {
    var s1 := Step(codec, Step(codec, Step(codec, INITIAL, Remember(activeIndex, workspaces)), Send), Notify);
    var s2 := Step(codec, Step(codec, s1, Poll), WindowEnds);
    var s3 := Step(codec, Step(codec, s2, Receive), DrainEnds);
    var call := [Remember(activeIndex, workspaces), Send, Notify];
    RunTwo(codec, INITIAL, call[0], Send);
    RunOne(codec, Step(codec, Step(codec, INITIAL, call[0]), Send), Notify);
    RunConcat(codec, INITIAL, [call[0], Send], [Notify]);
    assert [call[0], Send] + [Notify] == call;
    RunTwo(codec, s1, Poll, WindowEnds);
    RunTwo(codec, s2, Receive, DrainEnds);
    RunTwo(codec, s3, SaveFails, Poll);
    RunConcat(codec, s1, [Poll, WindowEnds], [Receive, DrainEnds] + [SaveFails, Poll]);
    RunConcat(codec, s2, [Receive, DrainEnds], [SaveFails, Poll]);
    RunConcat(codec, INITIAL, call, [Poll, WindowEnds] + ([Receive, DrainEnds] + [SaveFails, Poll]));
    assert [Poll, WindowEnds] + ([Receive, DrainEnds] + [SaveFails, Poll])
        == [Poll, WindowEnds, Receive, DrainEnds, SaveFails, Poll];
  }

  /** A change in the application: from any reachable state between calls, remembering
      the new session and the rest of the call and of the worker's steps put exactly
      that session on disk, as version 2. */
  lemma ChangeReachesDisk(codec: Codec, events: seq<Event>, activeIndex: nat, workspaces: seq<WorkspaceSession>)
    returns (work: seq<Event>)
    requires Lossless(codec) && Run(codec, INITIAL, events).sender.Idle?
    ensures forall e :: e in work ==> Works(e)
    ensures var s' := Run(codec, INITIAL, events + [Remember(activeIndex, workspaces)] + [Send, Notify] + work);
            && s'.worker.Waiting? && s'.sender.Idle?
            && Load(codec, s'.json) == Some(SessionData(2, activeIndex, workspaces))
  {
    var change := Remember(activeIndex, workspaces);
    var all := events + [change];
    RunConcat(codec, INITIAL, events, [change]);
    var s := Run(codec, INITIAL, events);
    RunOne(codec, s, change);
    work := WorkerSettles(codec, all);
    RunConcat(codec, INITIAL, all, [Send, Notify] + work);
    assert all + [Send, Notify] + work == all + ([Send, Notify] + work);
  }
}
