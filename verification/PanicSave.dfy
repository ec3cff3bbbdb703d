// Two savers at once: the panic hook (src/logging.rs) saves the remembered
// snapshot through the same temporary file as the worker (src/session.rs). A
// file is an inode, an open writer keeps its inode and its own offset, and a
// rename only moves a name.
module PanicSave {
  import opened Prelude

  datatype Who = Worker | Hook

  datatype Writer =
    | Idle
    | Writing(text: string, inode: nat, done: nat)
    | Renaming(text: string)

  datatype State = State(
    inodes: seq<string>,
    tmp: Option<nat>,            // what session.json.tmp names
    json: Option<nat>,           // what session.json names
    worker: Writer,
    hook: Writer,
    committed: Option<string>)   // the text of the last save that renamed

  datatype Event =
    | Open(who: Who, text: string)
    | Write(who: Who, count: nat)
    | WriteEnds(who: Who)
    | Rename(who: Who)
    | Fail(who: Who)
    | Kill

  function Of(s: State, who: Who): Writer {
    if who == Worker then s.worker else s.hook
  }

  function Put(s: State, who: Who, w: Writer): State {
    if who == Worker then s.(worker := w) else s.(hook := w)
  }

  function Other(who: Who): Who {
    if who == Worker then Hook else Worker
  }

  /** A JSON text of a session starts with a brace. */
  predicate JsonText(text: string) {
    text != "" && text[0] == '{'
  }

  /** The file after writing `part` at offset `at`; a gap reads as zero bytes. */
  function Overlay(file: string, at: nat, part: string): string {
    if part == "" then file
    else
      (if at <= |file| then file[..at] else file + seq(at - |file|, _ => '\0')) + part
      + if at + |part| <= |file| then file[at + |part|..] else ""
  }

  /** What the event does where it can happen; elsewhere nothing. */
  function Step(s: State, e: Event): State {
    match e
    case Open(who, text) =>
      // create and truncate
      if !Of(s, who).Idle? || !JsonText(text) then s
      else if s.tmp.Some? && s.tmp.value < |s.inodes| then
        Put(s.(inodes := s.inodes[s.tmp.value := ""]), who, Writing(text, s.tmp.value, 0))
      else
        Put(s.(inodes := s.inodes + [""], tmp := Some(|s.inodes|)), who, Writing(text, |s.inodes|, 0))
    case Write(who, count) =>
      var w := Of(s, who);
      if !w.Writing? || w.done + count > |w.text| || w.inode >= |s.inodes| then s
      else
        var file := Overlay(s.inodes[w.inode], w.done, w.text[w.done..w.done + count]);
        Put(s.(inodes := s.inodes[w.inode := file]), who, w.(done := w.done + count))
    case WriteEnds(who) =>
      var w := Of(s, who);
      if w.Writing? && w.done == |w.text| then Put(s, who, Renaming(w.text)) else s
    case Rename(who) =>
      var w := Of(s, who);
      if !w.Renaming? then s
      else if s.tmp.None? then Put(s, who, Idle)
      else Put(s.(json := s.tmp, tmp := None, committed := Some(w.text)), who, Idle)
    case Fail(who) => Put(s, who, Idle)
    case Kill => s.(worker := Idle, hook := Idle)
  }

  function Run(s: State, events: seq<Event>): State
    decreases events
  {
    if events == [] then s else Run(Step(s, events[0]), events[1..])
  }

  /** session.json is absent or the last committed text, in full. */
  ghost predicate Whole(s: State) {
    if s.json.None? then s.committed.None?
    else s.json.value < |s.inodes| && s.committed == Some(s.inodes[s.json.value])
  }

  /** A save does not start while the other one is under way. */
  predicate Alone(s: State, e: Event) {
    e.Open? ==> Of(s, Other(e.who)).Idle?
  }

  predicate AllAlone(s: State, events: seq<Event>)
    decreases events
  {
    events == [] || (Alone(s, events[0]) && AllAlone(Step(s, events[0]), events[1..]))
  }

  // ── One save at a time ─────────────────────────────────────────────────────

  /** The saver under way has written a prefix of its text to the temporary file. */
  ghost predicate OnTrack(s: State, w: Writer) {
    match w
    case Idle => true
    case Writing(text, inode, done) =>
      JsonText(text) && s.tmp == Some(inode) && inode < |s.inodes| && done <= |text| && s.inodes[inode] == text[..done]
    case Renaming(text) =>
      JsonText(text) && s.tmp.Some? && s.tmp.value < |s.inodes| && s.inodes[s.tmp.value] == text
  }

  ghost predicate Single(s: State) {
    && Whole(s)
    && (s.tmp.Some? ==> s.tmp.value < |s.inodes| && s.tmp != s.json)
    && (s.worker.Idle? || s.hook.Idle?)
    && OnTrack(s, s.worker) && OnTrack(s, s.hook)
  }

  lemma OverlayAppends(text: string, done: nat, count: nat)
    requires done + count <= |text|
    ensures Overlay(text[..done], done, text[done..done + count]) == text[..done + count]
  {
    assert text[..done] + text[done..done + count] == text[..done + count];
  }

  const INITIAL := State([], None, None, Idle, Idle, None)

  lemma StepSingle(s: State, e: Event)
    requires Single(s) && Alone(s, e)
    ensures Single(Step(s, e))
  {
    if e.Write? && Of(s, e.who).Writing? {
      var w := Of(s, e.who);
      if w.done + e.count <= |w.text| {
        OverlayAppends(w.text, w.done, e.count);
      }
    }
    if e.WriteEnds? && Of(s, e.who).Writing? {
      var text := Of(s, e.who).text;
      assert text[..|text|] == text;
    }
  }

  /** As long as no save starts while the other is under way, session.json is whole
      after every step, kills between any two included. */
  lemma {:induction false} AloneRunsAreWhole(s: State, events: seq<Event>)
    requires Single(s) && AllAlone(s, events)
    ensures Single(Run(s, events)) && Whole(Run(s, events))
    decreases events
  {
    if events != [] {
      StepSingle(s, events[0]);
      AloneRunsAreWhole(Step(s, events[0]), events[1..]);
    }
  }

  lemma AloneFromStart(events: seq<Event>)
    requires AllAlone(INITIAL, events)
    ensures Whole(Run(INITIAL, events))
  {
    AloneRunsAreWhole(INITIAL, events);
  }

  // ── Two saves of one text ──────────────────────────────────────────────────

  /** A saver of `text` on inode `i`, of which `m` characters are written. */
  ghost predicate Echo(s: State, w: Writer, text: string, i: nat, m: nat) {
    match w
    case Idle => true
    case Writing(t, inode, done) => t == text && inode == i && done <= m
    case Renaming(t) => t == text && m == |text|
  }

  /** Both savers write the same text into the same file, which is still the
      temporary one or, then complete, session.json. */
  ghost predicate Twins(s: State, text: string, i: nat, m: nat) {
    && Whole(s) && JsonText(text) && i < |s.inodes| && m <= |text| && s.inodes[i] == text[..m]
    && Echo(s, s.worker, text, i, m) && Echo(s, s.hook, text, i, m)
    && ((s.tmp == Some(i) && s.json != Some(i))
        || (s.tmp == None && s.json == Some(i) && m == |text|))
  }

  lemma OverlayTwice(text: string, m: nat, done: nat, count: nat)
    requires done <= m <= |text| && done + count <= |text|
    ensures Overlay(text[..m], done, text[done..done + count]) == text[..if m < done + count then done + count else m]
  {
    var part := text[done..done + count];
    assert text[..m][..done] == text[..done];
    assert text[..done] + part == text[..done + count];
    if done + count <= m {
      assert text[..m][done + count..] == text[done + count..m];
      assert text[..done + count] + text[done + count..m] == text[..m];
    }
  }

  /** A step keeps the twins going, unless both have ended and another save starts. */
  lemma StepTwins(s: State, text: string, i: nat, m: nat, e: Event)
    requires Twins(s, text, i, m) && Alone(s, e)
    ensures Single(Step(s, e)) || exists m' :: Twins(Step(s, e), text, i, m')
  {
    if e.Write? {
      var m' := TwinWrites(s, text, i, m, e.who, e.count);
    } else if e.Open? {
      TwinOpens(s, text, i, m, e);
    } else {
      TwinEnds(s, text, i, m, e);
    }
  }

  lemma TwinWrites(s: State, text: string, i: nat, m: nat, who: Who, count: nat) returns (m': nat)
    requires Twins(s, text, i, m)
    ensures Twins(Step(s, Write(who, count)), text, i, m')
  {
    var w := Of(s, who);
    m' := m;
    if w.Writing? && w.done + count <= |text| {
      OverlayTwice(text, m, w.done, count);
      m' := if m < w.done + count then w.done + count else m;
      assert Step(s, Write(who, count)).inodes == s.inodes[i := text[..m']];
    }
  }

  lemma TwinOpens(s: State, text: string, i: nat, m: nat, e: Event)
    requires Twins(s, text, i, m) && e.Open? && Alone(s, e)
    ensures Single(Step(s, e)) || Twins(Step(s, e), text, i, m)
  {
    if Step(s, e) != s {
      assert s.worker.Idle? && s.hook.Idle?;
      assert Single(s);
      StepSingle(s, e);
    }
  }

  lemma TwinEnds(s: State, text: string, i: nat, m: nat, e: Event)
    requires Twins(s, text, i, m) && !e.Write? && !e.Open?
    ensures Twins(Step(s, e), text, i, m)
  {
    assert text[..|text|] == text;
  }

  lemma {:induction false} TwinRunsAreWhole(s: State, text: string, i: nat, m: nat, events: seq<Event>)
    requires Twins(s, text, i, m) && AllAlone(s, events)
    ensures Whole(Run(s, events))
    decreases events
  {
    if events != [] {
      StepTwins(s, text, i, m, events[0]);
      var s' := Step(s, events[0]);
      if Single(s') {
        AloneRunsAreWhole(s', events[1..]);
      } else {
        var m' :| Twins(s', text, i, m');
        TwinRunsAreWhole(s', text, i, m', events[1..]);
      }
    }
  }

  // ── When a save may start ──────────────────────────────────────────────────

  /** session.json stays whole whatever happens next, short of yet another save
      that starts while one is under way. */
  ghost predicate StaysWhole(s: State) {
    forall events :: AllAlone(s, events) ==> Whole(Run(s, events))
  }

  /** The other saver is between saves, or has just opened the file for the same text. */
  predicate MayStart(s: State, who: Who, text: string) {
    var w := Of(s, Other(who));
    w.Idle? || (w.Writing? && w.done == 0 && w.text == text)
  }

  /** When the hook, or the worker, starts a save, session.json stays whole exactly
      if the other one is between saves, or has just opened the file to write the
      same text. */
  lemma SaveSafeIff(s: State, who: Who, text: string)
    requires Single(s) && Of(s, who).Idle? && JsonText(text)
    ensures StaysWhole(Step(s, Open(who, text))) <==> MayStart(s, who, text)
  {
    var s' := Step(s, Open(who, text));
    if MayStart(s, who, text) {
      forall events | AllAlone(s', events)
        ensures Whole(Run(s', events))
      {
        if Of(s, Other(who)).Idle? {
          StepSingle(s, Open(who, text));
          AloneRunsAreWhole(s', events);
        } else {
          assert Twins(s', text, s.tmp.value, 0);
          TwinRunsAreWhole(s', text, s.tmp.value, 0, events);
        }
      }
    } else {
      var events := SaveBreaks(s, who, text);
    }
  }

  /** Each other case, with the steps that leave a session.json that is not whole:
      the file is truncated under the saver, gets a gap at its start, or is written
      on by the slower saver after the faster one has renamed it. */
  lemma SaveBreaks(s: State, who: Who, text: string) returns (events: seq<Event>)
    requires Single(s) && Of(s, who).Idle? && JsonText(text) && !MayStart(s, who, text)
    ensures var s' := Step(s, Open(who, text)); AllAlone(s', events) && !Whole(Run(s', events))
  {
    var s' := Step(s, Open(who, text));
    var w := Of(s, Other(who));
    if w.Renaming? {
      events := [Rename(Other(who))];
      RunsOn(s', Rename(Other(who)), []);
    } else if w.done > 0 {
      events := GapAtStart(s', Other(who), s.tmp.value);
    } else if text <= w.text {
      events := LateWriter(s', s.tmp.value, who, Other(who));
    } else {
      events := LateWriter(s', s.tmp.value, Other(who), who);
    }
  }

  /** No save starts. */
  predicate NoneOpens(events: seq<Event>) {
    forall e :: e in events ==> !e.Open?
  }

  /** A run without a new save is alone. */
  lemma {:induction false} NoneStarts(s: State, events: seq<Event>)
    requires NoneOpens(events)
    ensures AllAlone(s, events)
    decreases events
  {
    if events != [] {
      NoneStarts(Step(s, events[0]), events[1..]);
    }
  }

  lemma RunsOn(s: State, e: Event, rest: seq<Event>)
    ensures Run(s, [e] + rest) == Run(Step(s, e), rest)
    ensures AllAlone(s, [e] + rest) <==> Alone(s, e) && AllAlone(Step(s, e), rest)
  {
    assert ([e] + rest)[1..] == rest;
  }

  /** A saver runs to its end: the rest of its text, then the rename. */
  lemma Completes(s: State, who: Who, i: nat) returns (events: seq<Event>)
    requires i < |s.inodes| && s.tmp == Some(i)
    requires Of(s, who).Writing? && Of(s, who).inode == i && Of(s, who).done <= |Of(s, who).text|
    ensures NoneOpens(events)
    ensures var w := Of(s, who);
            var file := Overlay(s.inodes[i], w.done, w.text[w.done..]);
            var s' := s.(inodes := s.inodes[i := file], tmp := None, json := Some(i), committed := Some(w.text));
            Run(s, events) == Put(s', who, Idle)
  {
    var w := Of(s, who);
    var count := |w.text| - w.done;
    assert w.text[w.done..w.done + count] == w.text[w.done..];
    var s1 := Step(s, Write(who, count));
    var s2 := Step(s1, WriteEnds(who));
    events := [Write(who, count)] + ([WriteEnds(who)] + ([Rename(who)] + []));
    RunsOn(s, Write(who, count), [WriteEnds(who)] + ([Rename(who)] + []));
    RunsOn(s1, WriteEnds(who), [Rename(who)] + []);
    RunsOn(s2, Rename(who), []);
  }

  lemma {:induction false} RunConcat(s: State, a: seq<Event>, b: seq<Event>)
    ensures Run(s, a + b) == Run(Run(s, a), b)
    decreases a
  {
    if a == [] {
      assert a + b == b;
    } else {
      assert (a + b)[1..] == a[1..] + b;
      RunConcat(Step(s, a[0]), a[1..], b);
    }
  }

  /** Truncated under a saver that has begun, the file starts with zero bytes. */
  lemma GapAtStart(s: State, who: Who, i: nat) returns (events: seq<Event>)
    requires i < |s.inodes| && s.tmp == Some(i) && s.inodes[i] == ""
    requires var w := Of(s, who);
             w.Writing? && w.inode == i && 0 < w.done <= |w.text| && JsonText(w.text)
    ensures AllAlone(s, events) && !Whole(Run(s, events))
  {
    var w := Of(s, who);
    events := Completes(s, who, i);
    NoneStarts(s, events);
    if w.text[w.done..] != "" {
      assert Overlay("", w.done, w.text[w.done..])[0] == '\0';
    }
  }

  /** The first saver has renamed the file when the second, still at its start,
      writes its own text over it. */
  lemma LateWriter(s: State, i: nat, first: Who, second: Who) returns (events: seq<Event>)
    requires first != second && i < |s.inodes| && s.tmp == Some(i) && s.inodes[i] == ""
    requires var (a, b) := (Of(s, first), Of(s, second));
             && a.Writing? && a.inode == i && a.done == 0 && JsonText(a.text)
             && b.Writing? && b.inode == i && b.done == 0 && JsonText(b.text)
             && !(b.text <= a.text)
    ensures AllAlone(s, events) && !Whole(Run(s, events))
  {
    var a, b := Of(s, first).text, Of(s, second).text;
    var done := Completes(s, first, i);
    var s1 := Run(s, done);
    events := done + ([Write(second, |b|)] + []);
    RunConcat(s, done, [Write(second, |b|)] + []);
    RunsOn(s1, Write(second, |b|), []);
    NoneStarts(s, events);
    assert a[0..] == a && b[0..|b|] == b && Overlay("", 0, a) == a;
    assert b <= Overlay(a, 0, b);
  }

  // ── Which text is committed ────────────────────────────────────────────────

  // `age` gives the place of a text in the order of all snapshots.

  function AgeOf(age: string -> nat, text: Option<string>): nat {
    if text.Some? then age(text.value) else 0
  }

  /** The saver under way, if any, holds a text no older than the committed one. */
  ghost predicate Fresh(age: string -> nat, s: State) {
    && (!s.worker.Idle? ==> AgeOf(age, s.committed) <= age(s.worker.text))
    && (!s.hook.Idle? ==> AgeOf(age, s.committed) <= age(s.hook.text))
  }

  /** Without a new save, and with at most one under way, nothing older is committed. */
  lemma {:induction false} FreshRunsAscend(age: string -> nat, s: State, events: seq<Event>)
    requires (s.worker.Idle? || s.hook.Idle?) && Fresh(age, s) && NoneOpens(events)
    ensures AgeOf(age, s.committed) <= AgeOf(age, Run(s, events).committed)
    decreases events
  {
    if events != [] {
      FreshRunsAscend(age, Step(s, events[0]), events[1..]);
    }
  }

  /** A save that starts alone can put the committed text back to an older one
      exactly if its own text is older: the worker's, taken before the hook saved a
      newer one. */
  lemma SaveLowersIff(age: string -> nat, s: State, who: Who, text: string)
    requires Single(s) && s.worker.Idle? && s.hook.Idle? && JsonText(text)
    ensures (forall events :: NoneOpens(events) ==>
               AgeOf(age, s.committed) <= AgeOf(age, Run(Step(s, Open(who, text)), events).committed))
            <==> AgeOf(age, s.committed) <= age(text)
  {
    var s' := Step(s, Open(who, text));
    if AgeOf(age, s.committed) <= age(text) {
      forall events | NoneOpens(events)
        ensures AgeOf(age, s.committed) <= AgeOf(age, Run(s', events).committed)
      {
        FreshRunsAscend(age, s', events);
      }
    } else {
      var events := Completes(s', who, s'.tmp.value);
      assert Run(s', events).committed == Some(text);
    }
  }

  /** A failing input: alone all the way, the hook commits the newer text, then the
      worker the older one that it had taken before. */
  lemma HookOvertaken(older: string, newer: string) returns (events: seq<Event>)
    requires JsonText(older) && JsonText(newer)
    ensures AllAlone(INITIAL, events) && Single(Run(INITIAL, events))
    ensures exists k :: 0 <= k <= |events| && Run(INITIAL, events[..k]).committed == Some(newer)
    ensures Run(INITIAL, events).committed == Some(older)
  {
    var first := SaveAlone(INITIAL, Hook, newer);
    var s1 := Run(INITIAL, first);
    AloneRunsAreWhole(INITIAL, first);
    var second := SaveAlone(s1, Worker, older);
    events := first + second;
    RunConcat(INITIAL, first, second);
    AloneConcat(INITIAL, first, second);
    AloneRunsAreWhole(INITIAL, events);
    assert events[..|first|] == first;
  }

  /** One save from its start to its end. */
  lemma SaveAlone(s: State, who: Who, text: string) returns (events: seq<Event>)
    requires Single(s) && s.worker.Idle? && s.hook.Idle? && JsonText(text)
    ensures AllAlone(s, events)
    ensures var s' := Run(s, events); s'.committed == Some(text) && s'.worker.Idle? && s'.hook.Idle?
  {
    var s1 := Step(s, Open(who, text));
    var rest := Completes(s1, who, s1.tmp.value);
    events := [Open(who, text)] + rest;
    RunsOn(s, Open(who, text), rest);
    NoneStarts(s1, rest);
  }

  /** Both savers stop where they are: the process is killed, or their saves fail. */
  predicate Stops(events: seq<Event>) {
    events == [Kill] || events == [Fail(Worker), Fail(Hook)]
  }

  /** Whatever the two savers were doing, as long as session.json is whole when they
      stop, it stays so, and the next save puts its text there in full: what they have
      left in the temporary file does no harm. */
  lemma SaveAfterStop(s: State, stop: seq<Event>, who: Who, text: string) returns (events: seq<Event>)
    requires Whole(s) && (s.tmp.Some? ==> s.tmp.value < |s.inodes| && s.tmp != s.json)
    requires Stops(stop) && JsonText(text)
    ensures var stopped := Run(s, stop);
            && Whole(stopped) && stopped.json == s.json && stopped.inodes == s.inodes
            && stopped.committed == s.committed
            && AllAlone(stopped, events)
            && Whole(Run(stopped, events)) && Run(stopped, events).committed == Some(text)
  {
    var stopped := Run(s, stop);
    if stop == [Kill] {
      assert [Kill][1..] == [] && stopped == Run(Step(s, Kill), []);
    } else {
      var s1 := Step(s, Fail(Worker));
      assert stop[1..] == [Fail(Hook)] && [Fail(Hook)][1..] == [];
      assert stopped == Run(s1, [Fail(Hook)]) == Run(Step(s1, Fail(Hook)), []);
    }
    events := SaveAlone(stopped, who, text);
    AloneRunsAreWhole(stopped, events);
  }

  lemma {:induction false} AloneConcat(s: State, a: seq<Event>, b: seq<Event>)
    requires AllAlone(s, a) && AllAlone(Run(s, a), b)
    ensures AllAlone(s, a + b)
    decreases a
  {
    if a == [] {
      assert a + b == b;
    } else {
      assert (a + b)[1..] == a[1..] + b;
      AloneConcat(Step(s, a[0]), a[1..], b);
    }
  }
}
