// Saving a layout tree as data and rebuilding an engine from it
// (`SplitNode::to_data`, `SplitEngine::from_data` in src/split_engine.rs).
// Divider ratios are not part of this model.
module Restore {
  import opened Prelude
  import opened Layout
  import opened Engine
  import opened Widgets
  import opened Drawing
  import opened Surfaces
  import opened Toolkit
  import opened SplitEngines
  import opened Agents

  // The nil uuid, saved for preview panes.
  const NIL: nat := 0

  const MAX_DEPTH: nat := 16

  datatype NodeData =
    | LeafData(pane: nat, uuid: nat, shell: string, cwd: string, provider: Option<string>, session: Option<string>)
    | SplitData(orientation: string, start: NodeData, end: NodeData)

  // What the environment answers while a tree is saved: the shell, and a guess
  // at the working directory of a surface's process.
  datatype Environment = Environment(shell: string, guess: nat -> string)

  function SurfaceCwd(env: Environment, surface: nat): string {
    if surface == 0 then "" else env.guess(surface)
  }

  /** The registered launch directory, or the guess when there is none. */
  function SavedCwd(agent: Option<AgentSession>, env: Environment, surface: nat): string {
    if agent.Some? && agent.value.cwd.Some? && agent.value.cwd.value != "" then agent.value.cwd.value
    else SurfaceCwd(env, surface)
  }

  function AgentOf(agents: map<nat, AgentSession>, uuid: nat): Option<AgentSession> {
    if uuid in agents then Some(agents[uuid]) else None
  }

  function ToData(n: Node, agents: map<nat, AgentSession>, env: Environment): NodeData {
    match n
    case Leaf(pane, _, surface, uuid, _) =>
      var agent := AgentOf(agents, uuid);
      LeafData(pane, uuid, env.shell, SavedCwd(agent, env, surface),
               if agent.Some? then Some(AsStr(agent.value.provider)) else None,
               if agent.Some? then agent.value.session else None)
    case Preview(_, _, _) => LeafData(0, NIL, "", "", None, None)
    case Split(o, _, s, e) =>
      SplitData(if o == Vertical then "vertical" else "horizontal", ToData(s, agents, env), ToData(e, agents, env))
  }

  function DataHeight(d: NodeData): nat {
    match d
    case LeafData(_, _, _, _, _, _) => 0
    case SplitData(_, s, e) => 1 + if DataHeight(s) < DataHeight(e) then DataHeight(e) else DataHeight(s)
  }

  function Leaves(d: NodeData): nat {
    match d
    case LeafData(_, _, _, _, _, _) => 1
    case SplitData(_, s, e) => Leaves(s) + Leaves(e)
  }

  /** Widgets a rebuilt tree takes: one for each pane and each divider. */
  function WidgetCount(d: NodeData): nat {
    match d
    case LeafData(_, _, _, _, _, _) => 1
    case SplitData(_, s, e) => WidgetCount(s) + WidgetCount(e) + 1
  }

  /** Any word but one means horizontal. */
  function ParseOrientation(s: string): (o: Orientation)
    ensures o == Vertical <==> s == "vertical"
  {
    if s == "vertical" then Vertical else Horizontal
  }

  /** The tree that `d` describes, with panes and widgets numbered in order. */
  function Rebuild(d: NodeData, pane: nat, wid: nat): Node {
    match d
    case LeafData(_, uuid, _, _, _, _) => Leaf(pane, wid, 0, uuid, false)
    case SplitData(o, s, e) =>
      Split(ParseOrientation(o), wid + WidgetCount(s) + WidgetCount(e),
            Rebuild(s, pane, wid), Rebuild(e, pane + Leaves(s), wid + WidgetCount(s)))
  }

  function RegisterLeaf(d: NodeData, m: map<nat, AgentSession>): map<nat, AgentSession>
    requires d.LeafData?
  {
    if d.provider.Some? && FromStr(d.provider.value).Some? then
      m[d.uuid := AgentSession(FromStr(d.provider.value).value, d.session, if d.cwd == "" then None else Some(d.cwd))]
    else m
  }

  /** The agent registry after rebuilding `d` at `depth`, whether or not the
      rebuild ran into the depth bound. */
  function Registered(d: NodeData, depth: nat, m: map<nat, AgentSession>): map<nat, AgentSession> {
    if depth > MAX_DEPTH then m
    else
      match d
      case LeafData(_, _, _, _, _, _) => RegisterLeaf(d, m)
      case SplitData(_, s, e) =>
        var m1 := Registered(s, depth + 1, m);
        if depth + 1 + DataHeight(s) > MAX_DEPTH then m1 else Registered(e, depth + 1, m1)
  }

  /** The directories the rebuilt areas are told to start in, added to the others. */
  function StartDirs(d: NodeData, wid: nat, dirs: map<nat, Option<string>>): map<nat, Option<string>> {
    match d
    case LeafData(_, _, _, cwd, _, _) => dirs[wid := if cwd == "" then None else Some(cwd)]
    case SplitData(_, s, e) => StartDirs(e, wid + WidgetCount(s), StartDirs(s, wid, dirs))
  }

  /** The engine a restore starts with. */
  function Restored(d: NodeData, activeUuid: Option<nat>, wid: nat): State {
    var root := Rebuild(d, 1, wid);
    var found := if activeUuid.Some? then FindByUuid(root, activeUuid.value) else None;
    State(root, if found.Some? then found.value else FirstPane(root), 1 + Leaves(d), None, None)
  }

  /** A restore is possible exactly for trees up to the depth bound. */
  predicate Restorable(d: NodeData) {
    DataHeight(d) <= MAX_DEPTH
  }

  // ── The rebuilt tree ───────────────────────────────────────────────────────

  function Numbers(from: nat, count: nat): seq<nat> {
    seq(count, i => from + i)
  }

  /** Panes are numbered in order, all of them terminals. */
  lemma {:induction false} RebuildNumbers(d: NodeData, pane: nat, wid: nat)
    ensures var n := Rebuild(d, pane, wid);
            Panes(n) == Numbers(pane, Leaves(d)) && Terminals(n) == Leaves(d) && Leaves(d) >= 1 && Unique(n)
  {
    if d.SplitData? {
      RebuildNumbers(d.start, pane, wid);
      RebuildNumbers(d.end, pane + Leaves(d.start), wid + WidgetCount(d.start));
    }
  }

  /** Widgets too, the divider of a split last. */
  lemma {:induction false} RebuildWidgets(d: NodeData, pane: nat, wid: nat)
    ensures var w := Draw(Rebuild(d, pane, wid));
            Proper(w) && (forall id :: id in Ids(w) ==> wid <= id < wid + WidgetCount(d))
            && w.wid == wid + WidgetCount(d) - 1 && WidgetCount(d) >= 1
  {
    if d.SplitData? {
      RebuildWidgets(d.start, pane, wid);
      RebuildWidgets(d.end, pane + Leaves(d.start), wid + WidgetCount(d.start));
    }
  }

  lemma RestoredInv(d: NodeData, activeUuid: Option<nat>, wid: nat)
    ensures Inv(Restored(d, activeUuid, wid))
  {
    var root := Rebuild(d, 1, wid);
    RebuildNumbers(d, 1, wid);
    FirstPaneLeads(root);
    if activeUuid.Some? {
      LookupsByPosition(root, 0, activeUuid.value);
    }
  }

  // ── Save, then restore ─────────────────────────────────────────────────────

  /** The same splits in the same directions, with a terminal for every pane: under
      its own uuid for a terminal, under the nil uuid for a preview. */
  ghost predicate SameLayout(n: Node, r: Node) {
    match n
    case Leaf(_, _, _, uuid, _) => r.Leaf? && r.uuid == uuid
    case Preview(_, _, _) => r.Leaf? && r.uuid == NIL
    case Split(o, _, s, e) => r.Split? && r.orientation == o && SameLayout(s, r.start) && SameLayout(e, r.end)
  }

  lemma {:induction false} LayoutRestored(n: Node, agents: map<nat, AgentSession>, env: Environment,
                                          pane: nat, wid: nat)
    ensures var d := ToData(n, agents, env);
            && SameLayout(n, Rebuild(d, pane, wid))
            && DataHeight(d) == Height(n) && Leaves(d) == |Panes(n)|
  {
    if n.Split? {
      var d := ToData(n, agents, env);
      LayoutRestored(n.start, agents, env, pane, wid);
      LayoutRestored(n.end, agents, env, pane + Leaves(d.start), wid + WidgetCount(d.start));
    }
  }

  /** The uuids that are saved: a terminal's own, the nil uuid for a preview. */
  function SavedUuids(n: Node): (r: seq<nat>)
    ensures |r| == |Panes(n)|
  {
    match n
    case Leaf(_, _, _, uuid, _) => [uuid]
    case Preview(_, _, _) => [NIL]
    case Split(_, _, s, e) => SavedUuids(s) + SavedUuids(e)
  }

  lemma {:induction false} SameLayoutUuids(n: Node, r: Node)
    requires SameLayout(n, r)
    ensures Uuids(r) == SavedUuids(n) && |Panes(r)| == |Panes(n)|
  {
    if n.Split? {
      SameLayoutUuids(n.start, r.start);
      SameLayoutUuids(n.end, r.end);
    }
  }

  lemma {:induction false} SavedUuidAt(n: Node, i: nat)
    requires Unique(n) && i < |Panes(n)|
    ensures SavedUuids(n)[i] == if HasTerminal(n, Panes(n)[i]) then Uuids(n)[i] else NIL
  {
    if n.Split? {
      var k := |Panes(n.start)|;
      SavedUuidAt(if i < k then n.start else n.end, if i < k then i else i - k);
      FindPaneIffListed(n.start, Panes(n)[i]);
      FindPaneIffListed(n.end, Panes(n)[i]);
      assert Panes(n)[i] in Elems(if i < k then Panes(n.start) else Panes(n.end));
    }
  }

  /** The uuids come back in order exactly if every pane is a terminal or carries
      the nil uuid itself: with a preview under a uuid of its own they do not. */
  lemma UuidsRestoredIff(n: Node, r: Node)
    requires SameLayout(n, r) && Unique(n)
    ensures Uuids(r) == Uuids(n)
            <==> forall i :: 0 <= i < |Panes(n)| ==> HasTerminal(n, Panes(n)[i]) || Uuids(n)[i] == NIL
  {
    SameLayoutUuids(n, r);
    forall i | 0 <= i < |Panes(n)|
      ensures Uuids(r)[i] == Uuids(n)[i] <==> HasTerminal(n, Panes(n)[i]) || Uuids(n)[i] == NIL
    {
      SavedUuidAt(n, i);
    }
  }

  /** The position that becomes active: the first pane saved under the active
      pane's uuid, else the first pane. */
  function ActiveAt(s: State): nat
    requires Inv(s)
  {
    var saved, u := SavedUuids(s.root), Uuids(s.root)[Position(Panes(s.root), s.active)];
    if u in saved then Position(saved, u) else 0
  }

  lemma ActiveRestored(s: State, agents: map<nat, AgentSession>, env: Environment, wid: nat)
    requires Inv(s)
    ensures Restored(ToData(s.root, agents, env), UuidOf(s.root, s.active), wid).active == 1 + ActiveAt(s)
    ensures ActiveAt(s) < |Panes(s.root)|
  {
    var d := ToData(s.root, agents, env);
    var root := Rebuild(d, 1, wid);
    LayoutRestored(s.root, agents, env, 1, wid);
    SameLayoutUuids(s.root, root);
    RebuildNumbers(d, 1, wid);
    FirstPaneLeads(root);
    var u := Uuids(s.root)[Position(Panes(s.root), s.active)];
    LookupsByPosition(s.root, s.active, u);
    LookupsByPosition(root, 0, u);
  }

  /** When the active pane is found again: no earlier pane is saved under its uuid,
      and it is saved under it itself; or it is the first pane and none is. */
  ghost predicate FoundAgain(s: State)
    requires Inv(s)
  {
    var saved, at := SavedUuids(s.root), Position(Panes(s.root), s.active);
    var u := Uuids(s.root)[at];
    || (saved[at] == u && forall j :: 0 <= j < at ==> saved[j] != u)
    || (at == 0 && u !in saved)
  }

  /** Saving and restoring a layout up to the depth bound gives back its shape and
      directions; panes are numbered 1..k in order and the next id is k + 1; which
      uuids come back, and when the active pane does, is said exactly. */
  lemma SaveThenRestore(s: State, agents: map<nat, AgentSession>, env: Environment, wid: nat)
    requires Inv(s)
    ensures var d := ToData(s.root, agents, env);
            var r := Restored(d, UuidOf(s.root, s.active), wid);
            && (Restorable(d) <==> Height(s.root) <= MAX_DEPTH)
            && SameLayout(s.root, r.root) && Uuids(r.root) == SavedUuids(s.root)
            && Panes(r.root) == Numbers(1, |Panes(s.root)|) && r.next == |Panes(s.root)| + 1
            && (Position(Panes(r.root), r.active) == Position(Panes(s.root), s.active) <==> FoundAgain(s))
  {
    var d := ToData(s.root, agents, env);
    var r := Restored(d, UuidOf(s.root, s.active), wid);
    LayoutRestored(s.root, agents, env, 1, wid);
    RebuildNumbers(d, 1, wid);
    SameLayoutUuids(s.root, r.root);
    ActiveRestored(s, agents, env, wid);
    UniqueIsNoDup(r.root);
    PositionUnique(Panes(r.root), ActiveAt(s));
    FoundAgainIff(s);
  }

  lemma FoundAgainIff(s: State)
    requires Inv(s)
    ensures ActiveAt(s) == Position(Panes(s.root), s.active) <==> FoundAgain(s)
  {
    var saved, at := SavedUuids(s.root), Position(Panes(s.root), s.active);
    var u := Uuids(s.root)[at];
    var first := Position(saved, u);
    assert forall j :: 0 <= j < first ==> saved[j] in saved[..first];
  }

  /** Without previews and with distinct uuids, the nil uuid among them or not, the
      same uuids come back in order, the same pane is active, and the result can be
      saved and restored again with the same outcome. */
  lemma PreviewFreeRoundTrip(s: State, agents: map<nat, AgentSession>, env: Environment, wid: nat)
    requires Inv(s) && NoDup(Uuids(s.root)) && forall id :: id in Panes(s.root) ==> HasTerminal(s.root, id)
    ensures var r := Restored(ToData(s.root, agents, env), UuidOf(s.root, s.active), wid);
            && Uuids(r.root) == Uuids(s.root)
            && Position(Panes(r.root), r.active) == Position(Panes(s.root), s.active)
            && UuidOf(r.root, r.active) == UuidOf(s.root, s.active)
            && forall id :: id in Panes(r.root) ==> HasTerminal(r.root, id)
  {
    var d := ToData(s.root, agents, env);
    var r := Restored(d, UuidOf(s.root, s.active), wid);
    SaveThenRestore(s, agents, env, wid);
    RestoredInv(d, UuidOf(s.root, s.active), wid);
    RebuildNumbers(d, 1, wid);
    forall i | 0 <= i < |Panes(s.root)|
      ensures SavedUuids(s.root)[i] == Uuids(s.root)[i]
    {
      SavedUuidAt(s.root, i);
    }
    LookupsByPosition(s.root, s.active, 0);
    LookupsByPosition(r.root, r.active, 0);
    forall id | id in Panes(r.root)
      ensures HasTerminal(r.root, id)
    {
      RebuiltTerminal(d, 1, wid, id);
    }
  }

  lemma {:induction false} RebuiltTerminal(d: NodeData, pane: nat, wid: nat, id: nat)
    requires id in Panes(Rebuild(d, pane, wid))
    ensures HasTerminal(Rebuild(d, pane, wid), id)
  {
    if d.SplitData? {
      var n := Rebuild(d, pane, wid);
      FindPaneIffListed(n.start, id);
      if id in Panes(n.start) {
        RebuiltTerminal(d.start, pane, wid, id);
      } else {
        RebuiltTerminal(d.end, pane + Leaves(d.start), wid + WidgetCount(d.start), id);
      }
    }
  }

  /** With distinct uuids, none of them nil, the active pane is found again exactly
      if it is a terminal or the first pane. */
  lemma FoundAgainUnlessPreview(s: State)
    requires Inv(s) && NoDup(Uuids(s.root)) && NIL !in Uuids(s.root)
    ensures FoundAgain(s) <==> HasTerminal(s.root, s.active) || Position(Panes(s.root), s.active) == 0
  {
    var at := Position(Panes(s.root), s.active);
    assert Uuids(s.root)[at] in Uuids(s.root);
    forall i | 0 <= i < |Panes(s.root)|
      ensures SavedUuids(s.root)[i] == Uuids(s.root)[at] <==> i == at && HasTerminal(s.root, s.active)
    {
      SavedUuidAt(s.root, i);
    }
  }

  lemma PreviewComesBackNil(n: Node, agents: map<nat, AgentSession>, env: Environment, pane: nat, wid: nat)
    requires n.Preview?
    ensures var d := ToData(n, agents, env);
            Rebuild(d, pane, wid) == Leaf(pane, wid, 0, NIL, false) && Leaves(d) == WidgetCount(d) == 1
  {
  }

  /** Two previews side by side are restored as two terminals under the nil uuid. */
  lemma PreviewsComeBackNil(n: Node, agents: map<nat, AgentSession>, env: Environment, pane: nat, wid: nat)
    requires n.Split? && n.start.Preview? && n.end.Preview?
    ensures Rebuild(ToData(n, agents, env), pane, wid)
            == Split(n.orientation, wid + 2, Leaf(pane, wid, 0, NIL, false), Leaf(pane + 1, wid + 1, 0, NIL, false))
  {
    LayoutRestored(n, agents, env, pane, wid);
    PreviewComesBackNil(n.start, agents, env, pane, wid);
    PreviewComesBackNil(n.end, agents, env, pane + 1, wid + 1);
  }

  /** A failing input: of two such terminals the second is active, and when they are
      saved and restored again the first is. */
  lemma NilUuidsLoseActive(agents: map<nat, AgentSession>, env: Environment)
    ensures var root := Split(Horizontal, 3, Leaf(1, 1, 0, NIL, false), Leaf(2, 2, 0, NIL, false));
            var s := State(root, 2, 3, None, None);
            && Inv(s) && !FoundAgain(s)
            && Restored(ToData(root, agents, env), UuidOf(root, 2), 1).active == 1
  {
    var root := Split(Horizontal, 3, Leaf(1, 1, 0, NIL, false), Leaf(2, 2, 0, NIL, false));
    var s := State(root, 2, 3, None, None);
    assert Panes(root) == [1, 2] && SavedUuids(root) == [NIL, NIL] == Uuids(root);
    PositionUnique(Panes(root), 1);
    assert SavedUuids(root)[0] == NIL;
    ActiveRestored(s, agents, env, 1);
  }

  /** A layout that n spawns have made can be restored exactly while n is at most 16. */
  lemma SpiralRestorableIff(pane: nat, area: nat, uuid: nat, ops: seq<Op>,
                            agents: map<nat, AgentSession>, env: Environment)
    requires forall op :: op in ops ==> SpawnOrLook(op)
    ensures var e := NewEngine(pane, area, uuid);
            Restorable(ToData(Run(e, ops).root, agents, env)) <==> |Spawned(e, ops)| <= 16
  {
    var e := NewEngine(pane, area, uuid);
    SpawnsFormSpine(e, ops);
    LayoutRestored(Run(e, ops).root, agents, env, 1, 1);
  }

  // ── Agents ─────────────────────────────────────────────────────────────────

  /** Registering touches only uuids of the data. */
  lemma {:induction false} RegisteredElsewhere(n: Node, agents: map<nat, AgentSession>, env: Environment,
                                               depth: nat, m: map<nat, AgentSession>, u: nat)
    requires u !in Uuids(n)
    ensures var r := Registered(ToData(n, agents, env), depth, m);
            (u in r <==> u in m) && (u in m ==> r[u] == m[u])
  {
    if n.Split? && depth <= MAX_DEPTH {
      RegisteredElsewhere(n.start, agents, env, depth + 1, m, u);
      RegisteredElsewhere(n.end, agents, env, depth + 1, Registered(ToData(n.start, agents, env), depth + 1, m), u);
    }
  }

  /** The leaves of saved data in order, each with its depth. */
  function LeavesAt(d: NodeData, depth: nat): (r: seq<(NodeData, nat)>)
    ensures forall leaf :: leaf in r ==> leaf.0.LeafData?
  {
    match d
    case LeafData(_, _, _, _, _, _) => [(d, depth)]
    case SplitData(_, s, e) => LeavesAt(s, depth + 1) + LeavesAt(e, depth + 1)
  }

  /** Register leaves in order, up to the first one beyond the bound. */
  function RegisterUntil(leaves: seq<(NodeData, nat)>, m: map<nat, AgentSession>): map<nat, AgentSession>
    requires forall leaf :: leaf in leaves ==> leaf.0.LeafData?
  {
    if leaves == [] || leaves[0].1 > MAX_DEPTH then m
    else RegisterUntil(leaves[1..], RegisterLeaf(leaves[0].0, m))
  }

  ghost predicate AllWithin(leaves: seq<(NodeData, nat)>) {
    forall leaf :: leaf in leaves ==> leaf.1 <= MAX_DEPTH
  }

  lemma {:induction false} RegisterUntilConcat(a: seq<(NodeData, nat)>, b: seq<(NodeData, nat)>,
                                               m: map<nat, AgentSession>)
    requires forall leaf :: leaf in a + b ==> leaf.0.LeafData?
    requires forall leaf :: leaf in a || leaf in b ==> leaf.0.LeafData?
    ensures RegisterUntil(a + b, m)
            == if AllWithin(a) then RegisterUntil(b, RegisterUntil(a, m)) else RegisterUntil(a, m)
  {
    if a == [] {
      assert a + b == b;
    } else {
      assert (a + b)[1..] == a[1..] + b && a == [a[0]] + a[1..];
      if a[0].1 <= MAX_DEPTH {
        RegisterUntilConcat(a[1..], b, RegisterLeaf(a[0].0, m));
      }
    }
  }

  lemma {:induction false} WithinIff(d: NodeData, depth: nat)
    ensures AllWithin(LeavesAt(d, depth)) <==> depth + DataHeight(d) <= MAX_DEPTH
    ensures LeavesAt(d, depth) != [] && (depth > MAX_DEPTH ==> LeavesAt(d, depth)[0].1 > MAX_DEPTH)
  {
    if d.SplitData? {
      var a, b := LeavesAt(d.start, depth + 1), LeavesAt(d.end, depth + 1);
      WithinIff(d.start, depth + 1);
      WithinIff(d.end, depth + 1);
      assert AllWithin(a + b) <==> AllWithin(a) && AllWithin(b) by {
        assert forall leaf :: leaf in a + b <==> leaf in a || leaf in b;
      }
    } else {
      assert LeavesAt(d, depth) == [(d, depth)] && (d, depth) in LeavesAt(d, depth);
    }
  }

  /** Whether or not the data is within the bound: exactly the leaves before the first
      one beyond it are registered, in order. */
  lemma {:induction false} RegisteredInTurn(d: NodeData, depth: nat, m: map<nat, AgentSession>)
    ensures Registered(d, depth, m) == RegisterUntil(LeavesAt(d, depth), m)
  {
    if depth > MAX_DEPTH {
      WithinIff(d, depth);
    } else if d.SplitData? {
      RegisteredInTurn(d.start, depth + 1, m);
      RegisteredInTurn(d.end, depth + 1, Registered(d.start, depth + 1, m));
      RegisteredPair(d, depth, m);
    } else {
      assert [(d, depth)][1..] == [];
    }
  }

  lemma RegisteredPair(d: NodeData, depth: nat, m: map<nat, AgentSession>)
    requires d.SplitData? && depth <= MAX_DEPTH
    requires Registered(d.start, depth + 1, m) == RegisterUntil(LeavesAt(d.start, depth + 1), m)
    requires var m1 := Registered(d.start, depth + 1, m);
             Registered(d.end, depth + 1, m1) == RegisterUntil(LeavesAt(d.end, depth + 1), m1)
    ensures Registered(d, depth, m) == RegisterUntil(LeavesAt(d, depth), m)
  {
    WithinIff(d.start, depth + 1);
    RegisterUntilConcat(LeavesAt(d.start, depth + 1), LeavesAt(d.end, depth + 1), m);
  }

  /** What a saved terminal is registered as when it comes back. */
  function Resumed(agent: AgentSession, env: Environment, surface: nat): AgentSession {
    var cwd := SavedCwd(Some(agent), env, surface);
    agent.(cwd := if cwd == "" then None else Some(cwd))
  }

  /** The surface of the last terminal under a uuid: the one saved last. */
  function LastSurface(n: Node, u: nat): Option<nat> {
    match n
    case Leaf(_, _, surface, uuid, _) => if uuid == u then Some(surface) else None
    case Preview(_, _, _) => None
    case Split(_, _, s, e) => if LastSurface(e, u).Some? then LastSurface(e, u) else LastSurface(s, u)
  }

  /** What the registry says about a uuid after a restore: an agent of a terminal is
      back with its provider and session, anything else is what it was. */
  ghost predicate AgentBack(u: nat, surface: Option<nat>, agents: map<nat, AgentSession>, env: Environment,
                            m: map<nat, AgentSession>, r: map<nat, AgentSession>)
  {
    if u in agents && surface.Some? then u in r && r[u] == Resumed(agents[u], env, surface.value)
    else (u in r <==> u in m) && (u in m ==> r[u] == m[u])
  }

  /** Within the bound, the children are registered one after the other. */
  lemma RegisteredInOrder(n: Node, agents: map<nat, AgentSession>, env: Environment,
                          depth: nat, m: map<nat, AgentSession>)
    requires n.Split? && depth + Height(n) <= MAX_DEPTH
    ensures Registered(ToData(n, agents, env), depth, m)
            == Registered(ToData(n.end, agents, env), depth + 1, Registered(ToData(n.start, agents, env), depth + 1, m))
  {
    LayoutRestored(n.start, agents, env, 1, 1);
  }

  lemma AgentLeafRestored(n: Node, agents: map<nat, AgentSession>, env: Environment,
                          depth: nat, m: map<nat, AgentSession>, u: nat)
    requires !n.Split? && depth <= MAX_DEPTH
    ensures AgentBack(u, LastSurface(n, u), agents, env, m, Registered(ToData(n, agents, env), depth, m))
  {
    if n.Leaf? && n.uuid in agents {
      NameRoundTrip(agents[n.uuid].provider);
    }
  }

  /** For every tree within the bound and every uuid, repeated ones included: an
      agent of a terminal is registered again, with the directory of the last
      terminal under its uuid if it has to be guessed, and no other entry changes. */
  lemma {:induction false} AgentsRestored(n: Node, agents: map<nat, AgentSession>, env: Environment,
                                          depth: nat, m: map<nat, AgentSession>, u: nat)
    requires depth + Height(n) <= MAX_DEPTH
    ensures AgentBack(u, LastSurface(n, u), agents, env, m, Registered(ToData(n, agents, env), depth, m))
  {
    if n.Split? {
      RegisteredInOrder(n, agents, env, depth, m);
      var m1 := Registered(ToData(n.start, agents, env), depth + 1, m);
      AgentsRestored(n.start, agents, env, depth + 1, m, u);
      AgentsRestored(n.end, agents, env, depth + 1, m1, u);
    } else {
      AgentLeafRestored(n, agents, env, depth, m, u);
    }
  }

  lemma {:induction false} TerminalHasLast(n: Node, id: nat)
    requires HasTerminal(n, id)
    ensures LastSurface(n, FindPane(n, id).value.uuid).Some?
  {
    if n.Split? {
      TerminalHasLast(if FindPane(n.start, id).Some? then n.start else n.end, id);
    }
  }

  lemma {:induction false} LastHasTerminal(n: Node, u: nat) returns (id: nat)
    requires Unique(n) && LastSurface(n, u).Some?
    ensures HasTerminal(n, id)
    ensures FindPane(n, id).value.uuid == u && Some(FindPane(n, id).value.surface) == LastSurface(n, u)
  {
    if n.Split? {
      var side := if LastSurface(n.end, u).Some? then n.end else n.start;
      id := LastHasTerminal(side, u);
      FindPaneIffListed(n.start, id);
      FindPaneIffListed(n.end, id);
      assert id in Elems(Panes(side));
    } else {
      id := n.pane;
    }
  }

  /** Every agent pane comes back with its provider and session, and whole if its
      directory was recorded; if its uuid is its own, a guessed directory is that of
      its own surface. */
  lemma AgentPaneRestored(n: Node, agents: map<nat, AgentSession>, env: Environment, m: map<nat, AgentSession>, id: nat)
    requires Unique(n) && Height(n) <= MAX_DEPTH && HasTerminal(n, id) && FindPane(n, id).value.uuid in agents
    ensures var leaf := FindPane(n, id).value;
            var agent := agents[leaf.uuid];
            var r := Registered(ToData(n, agents, env), 0, m);
            && leaf.uuid in r && r[leaf.uuid].provider == agent.provider && r[leaf.uuid].session == agent.session
            && (agent.cwd.Some? && agent.cwd.value != "" ==> r[leaf.uuid] == agent)
            && ((forall x :: HasTerminal(n, x) && FindPane(n, x).value.uuid == leaf.uuid ==> x == id) ==>
                  r[leaf.uuid] == Resumed(agent, env, leaf.surface))
  {
    var u := FindPane(n, id).value.uuid;
    AgentsRestored(n, agents, env, 0, m, u);
    TerminalHasLast(n, id);
    var last := LastHasTerminal(n, u);
    ResumedSameIff(agents[u], env, LastSurface(n, u).value);
  }

  /** The whole registration survives exactly when the launch directory was
      recorded, or was not and none could be guessed either. */
  lemma ResumedSameIff(agent: AgentSession, env: Environment, surface: nat)
    ensures Resumed(agent, env, surface).provider == agent.provider
    ensures Resumed(agent, env, surface).session == agent.session
    ensures Resumed(agent, env, surface) == agent
            <==> if agent.cwd.Some? then agent.cwd.value != "" else SurfaceCwd(env, surface) == ""
  {
  }

  /** Failing inputs: a directory that was recorded empty, or never, is replaced by
      the guess. */
  lemma DirectoryNotKept(env: Environment, surface: nat)
    requires SurfaceCwd(env, surface) == "/tmp"
    ensures Resumed(AgentSession(Claude, None, Some("")), env, surface).cwd == Some("/tmp")
    ensures Resumed(AgentSession(Claude, None, None), env, surface).cwd == Some("/tmp")
  {
    assert SavedCwd(Some(AgentSession(Claude, None, Some(""))), env, surface) == "/tmp";
    assert SavedCwd(Some(AgentSession(Claude, None, None)), env, surface) == "/tmp";
  }

  // ── Directories ────────────────────────────────────────────────────────────

  /** The i-th pane in order. */
  function PaneAt(n: Node, i: nat): (pane: Node)
    requires i < |Panes(n)|
    ensures !pane.Split?
  {
    if !n.Split? then n
    else if i < |Panes(n.start)| then PaneAt(n.start, i)
    else PaneAt(n.end, i - |Panes(n.start)|)
  }

  lemma {:induction false} PaneAtIs(n: Node, i: nat)
    requires i < |Panes(n)|
    ensures PaneAt(n, i).pane == Panes(n)[i] && PaneAt(n, i).uuid == Uuids(n)[i]
  {
    if n.Split? {
      var k := |Panes(n.start)|;
      PaneAtIs(if i < k then n.start else n.end, if i < k then i else i - k);
    }
  }

  /** Where a pane's shell should start again: an agent in its launch directory, any
      other terminal, and an agent without one, where its process was last seen. */
  ghost predicate StartsWhere(pane: Node, agents: map<nat, AgentSession>, env: Environment, dir: Option<string>) {
    match pane
    case Leaf(_, _, surface, uuid, _) =>
      if uuid in agents && agents[uuid].cwd.Some? && agents[uuid].cwd != Some("") then dir == agents[uuid].cwd
      else if surface != 0 && env.guess(surface) != "" then dir == Some(env.guess(surface))
      else dir == None
    case _ => dir == None
  }

  lemma {:induction false} StartDirsKeep(d: NodeData, wid: nat, dirs: map<nat, Option<string>>, a: nat)
    requires a < wid || wid + WidgetCount(d) <= a
    ensures var r := StartDirs(d, wid, dirs); (a in r <==> a in dirs) && (a in dirs ==> r[a] == dirs[a])
  {
    if d.SplitData? {
      StartDirsKeep(d.start, wid, dirs, a);
      StartDirsKeep(d.end, wid + WidgetCount(d.start), StartDirs(d.start, wid, dirs), a);
    }
  }

  lemma {:induction false} PaneAtDrawn(n: Node, i: nat)
    requires i < |Panes(n)|
    ensures PaneAt(n, i).Leaf? ==> PaneAt(n, i).area in Ids(Draw(n))
  {
    if n.Split? {
      var k := |Panes(n.start)|;
      PaneAtDrawn(if i < k then n.start else n.end, if i < k then i else i - k);
    }
  }

  /** The i-th pane of `r` is a terminal that starts where the i-th one of `n` was. */
  ghost predicate StartsAgain(n: Node, r: Node, i: nat, agents: map<nat, AgentSession>, env: Environment,
                              dirs: map<nat, Option<string>>)
    requires i < |Panes(n)|
  {
    && i < |Panes(r)| && PaneAt(r, i).Leaf? && PaneAt(r, i).area in dirs
    && StartsWhere(PaneAt(n, i), agents, env, dirs[PaneAt(r, i).area])
  }

  lemma LeafStartsAgain(n: Node, agents: map<nat, AgentSession>, env: Environment,
                        pane: nat, wid: nat, dirs: map<nat, Option<string>>)
    requires !n.Split?
    ensures var d := ToData(n, agents, env);
            StartsAgain(n, Rebuild(d, pane, wid), 0, agents, env, StartDirs(d, wid, dirs))
  {
  }

  lemma StartsAgainFirst(n: Node, r: Node, i: nat, agents: map<nat, AgentSession>, env: Environment,
                         dirs: map<nat, Option<string>>)
    requires n.Split? && r.Split? && |Panes(r.start)| == |Panes(n.start)|
    requires i < |Panes(n.start)| && StartsAgain(n.start, r.start, i, agents, env, dirs)
    ensures i < |Panes(n)| && StartsAgain(n, r, i, agents, env, dirs)
  {
    assert PaneAt(n, i) == PaneAt(n.start, i) && PaneAt(r, i) == PaneAt(r.start, i);
  }

  lemma StartsAgainSecond(n: Node, r: Node, i: nat, agents: map<nat, AgentSession>, env: Environment,
                          dirs: map<nat, Option<string>>)
    requires n.Split? && r.Split? && |Panes(r.start)| == |Panes(n.start)| <= i < |Panes(n)|
    requires StartsAgain(n.end, r.end, i - |Panes(n.start)|, agents, env, dirs)
    ensures StartsAgain(n, r, i, agents, env, dirs)
  {
    var k := i - |Panes(n.start)|;
    assert PaneAt(n, i) == PaneAt(n.end, k) && PaneAt(r, i) == PaneAt(r.end, k);
  }

  /** The directories of the other half do not touch those of the first one. */
  lemma StartsAgainStill(n: Node, d: NodeData, rest: NodeData, pane: nat, wid: nat, i: nat,
                         agents: map<nat, AgentSession>, env: Environment, dirs: map<nat, Option<string>>)
    requires i < |Panes(n)| && StartsAgain(n, Rebuild(d, pane, wid), i, agents, env, StartDirs(d, wid, dirs))
    ensures StartsAgain(n, Rebuild(d, pane, wid), i, agents, env,
                        StartDirs(rest, wid + WidgetCount(d), StartDirs(d, wid, dirs)))
  {
    var r := Rebuild(d, pane, wid);
    PaneAtDrawn(r, i);
    RebuildWidgets(d, pane, wid);
    StartDirsKeep(rest, wid + WidgetCount(d), StartDirs(d, wid, dirs), PaneAt(r, i).area);
  }

  /** After saving and restoring, the shell of the i-th pane starts where the i-th
      one was. */
  lemma {:induction false} DirectoriesRestored(n: Node, agents: map<nat, AgentSession>, env: Environment,
                                               pane: nat, wid: nat, dirs: map<nat, Option<string>>, i: nat)
    requires i < |Panes(n)|
    ensures var d := ToData(n, agents, env);
            StartsAgain(n, Rebuild(d, pane, wid), i, agents, env, StartDirs(d, wid, dirs))
  {
    if n.Split? {
      var ds, k := ToData(n.start, agents, env), |Panes(n.start)|;
      if i < k {
        DirectoriesRestored(n.start, agents, env, pane, wid, dirs, i);
        StartStartsAgain(n, agents, env, pane, wid, dirs, i);
      } else {
        DirectoriesRestored(n.end, agents, env, pane + Leaves(ds), wid + WidgetCount(ds),
                            StartDirs(ds, wid, dirs), i - k);
        EndStartsAgain(n, agents, env, pane, wid, dirs, i);
      }
    } else {
      LeafStartsAgain(n, agents, env, pane, wid, dirs);
    }
  }

  lemma StartStartsAgain(n: Node, agents: map<nat, AgentSession>, env: Environment,
                         pane: nat, wid: nat, dirs: map<nat, Option<string>>, i: nat)
    requires n.Split? && i < |Panes(n.start)|
    requires var ds := ToData(n.start, agents, env);
             StartsAgain(n.start, Rebuild(ds, pane, wid), i, agents, env, StartDirs(ds, wid, dirs))
    ensures var d := ToData(n, agents, env);
            StartsAgain(n, Rebuild(d, pane, wid), i, agents, env, StartDirs(d, wid, dirs))
  {
    var d := ToData(n, agents, env);
    AsManyPanes(n.start, agents, env, pane, wid);
    StartsAgainStill(n.start, d.start, d.end, pane, wid, i, agents, env, dirs);
    StartsAgainFirst(n, Rebuild(d, pane, wid), i, agents, env, StartDirs(d, wid, dirs));
  }

  lemma EndStartsAgain(n: Node, agents: map<nat, AgentSession>, env: Environment,
                       pane: nat, wid: nat, dirs: map<nat, Option<string>>, i: nat)
    requires n.Split? && |Panes(n.start)| <= i < |Panes(n)|
    requires var (ds, de) := (ToData(n.start, agents, env), ToData(n.end, agents, env));
             var mid := wid + WidgetCount(ds);
             StartsAgain(n.end, Rebuild(de, pane + Leaves(ds), mid), i - |Panes(n.start)|, agents, env,
                         StartDirs(de, mid, StartDirs(ds, wid, dirs)))
    ensures var d := ToData(n, agents, env);
            StartsAgain(n, Rebuild(d, pane, wid), i, agents, env, StartDirs(d, wid, dirs))
  {
    var d := ToData(n, agents, env);
    var r := Rebuild(d, pane, wid);
    AsManyPanes(n.start, agents, env, pane, wid);
    assert r.end == Rebuild(d.end, pane + Leaves(d.start), wid + WidgetCount(d.start));
    assert StartDirs(d, wid, dirs) == StartDirs(d.end, wid + WidgetCount(d.start), StartDirs(d.start, wid, dirs));
    StartsAgainSecond(n, r, i, agents, env, StartDirs(d, wid, dirs));
  }

  lemma AsManyPanes(n: Node, agents: map<nat, AgentSession>, env: Environment, pane: nat, wid: nat)
    ensures |Panes(Rebuild(ToData(n, agents, env), pane, wid))| == |Panes(n)|
  {
    LayoutRestored(n, agents, env, pane, wid);
    RebuildNumbers(ToData(n, agents, env), pane, wid);
  }

  /** The i-th leaf of saved data. */
  function DataAt(d: NodeData, i: nat): (leaf: NodeData)
    requires i < Leaves(d)
    ensures leaf.LeafData?
  {
    match d
    case LeafData(_, _, _, _, _, _) => d
    case SplitData(_, s, e) => if i < Leaves(s) then DataAt(s, i) else DataAt(e, i - Leaves(s))
  }

  /** The i-th leaf is saved for the i-th pane: a terminal with its id, uuid, shell and
      agent, a preview as an empty leaf under the nil uuid. */
  lemma {:induction false} PaneSaved(n: Node, agents: map<nat, AgentSession>, env: Environment, i: nat)
    requires i < |Panes(n)|
    ensures var d := ToData(n, agents, env);
            Leaves(d) == |Panes(n)| &&
            match (PaneAt(n, i), DataAt(d, i))
            case (Leaf(pane, _, _, uuid, _), LeafData(p, u, shell, _, provider, session)) =>
              && p == pane && u == uuid && shell == env.shell
              && (if uuid in agents then
                    provider == Some(AsStr(agents[uuid].provider)) && session == agents[uuid].session
                  else provider == None && session == None)
            case (_, leaf) => leaf == LeafData(0, NIL, "", "", None, None)
  {
    if n.Split? {
      var k := |Panes(n.start)|;
      LayoutRestored(n.start, agents, env, 1, 1);
      LayoutRestored(n.end, agents, env, 1, 1);
      PaneSaved(if i < k then n.start else n.end, agents, env, if i < k then i else i - k);
    }
  }

  // ── Running a restore ──────────────────────────────────────────────────────

  /** Nothing about surfaces has changed; some areas were created. */
  ghost predicate OnlyCreated(v: Life, v': Life) {
    && v' == v.(paneOf := v'.paneOf)
    && forall a :: a in v.paneOf ==> a in v'.paneOf && v'.paneOf[a] == v.paneOf[a]
  }

  lemma {:induction false} RebuildUnlinked(d: NodeData, pane: nat, wid: nat)
    ensures Synced(Rebuild(d, pane, wid), map[])
  {
    if d.SplitData? {
      RebuildUnlinked(d.start, pane, wid);
      RebuildUnlinked(d.end, pane + Leaves(d.start), wid + WidgetCount(d.start));
    }
  }

  lemma EnclosedPair(t: Trees, a: nat, wa: Widget, b: nat, wb: Widget, p: nat, top: Widget)
    requires a !in t && b !in t && a != b
    ensures (t[a := wa][b := wb] - {a, b})[p := top] == t[p := top]
  {
  }

  /** The leaf case of `node_from_data`: a new area in the saved directory, and
      its agent registered again. */
  method LeafFromData(gtk: Gtk, agents: AgentRegistry, d: NodeData, pane: nat) returns (n: Node)
    requires gtk.Valid() && d.LeafData?
    modifies gtk`trees, gtk`nextWid, gtk`startDirs, gtk.reg`paneOf, agents
    ensures gtk.Valid() && OnlyCreated(old(gtk.reg.View()), gtk.reg.View())
    ensures gtk.startDirs == StartDirs(d, old(gtk.nextWid), old(gtk.startDirs))
    ensures n == Leaf(pane, old(gtk.nextWid), 0, d.uuid, false) && gtk.nextWid == old(gtk.nextWid) + 1
    ensures gtk.trees == old(gtk.trees)[RootWidget(n) := Draw(n)] && RootWidget(n) != PAGE
    ensures Labelled(n, gtk.reg.paneOf)
    ensures agents.sessions == RegisterLeaf(d, old(agents.sessions))
  {
    assert gtk.nextWid !in gtk.reg.paneOf;
    var area := gtk.NewArea(pane, if d.cwd == "" then None else Some(d.cwd));
    if d.provider.Some? && FromStr(d.provider.value).Some? {
      agents.Register(d.uuid, FromStr(d.provider.value).value, d.session, if d.cwd == "" then None else Some(d.cwd));
    }
    n := Leaf(pane, area, 0, d.uuid, false);
  }

  /** The split case: children first, then a divider around them. */
  method SplitFromData(gtk: Gtk, agents: AgentRegistry, d: NodeData, pane: nat, depth: nat)
    returns (r: Option<Node>, next: nat)
    requires gtk.Valid() && d.SplitData? && depth <= MAX_DEPTH
    modifies gtk, gtk.reg, agents
    ensures gtk.Valid() && gtk.rejected == old(gtk.rejected) && gtk.pageName == old(gtk.pageName)
    ensures PAGE !in old(gtk.trees) ==> PAGE !in gtk.trees
    ensures OnlyCreated(old(gtk.reg.View()), gtk.reg.View())
    ensures agents.sessions == Registered(d, depth, old(agents.sessions))
    ensures r.Some? <==> depth + DataHeight(d) <= MAX_DEPTH
    ensures r.Some? ==> Built(d, pane, old(gtk.nextWid), old(gtk.trees), old(gtk.startDirs), r.value, next,
                             gtk.trees, gtk.nextWid, gtk.startDirs, gtk.reg.paneOf)
    decreases d, 1
  {
    ghost var t, q, dirs := gtk.trees, gtk.nextWid, gtk.startDirs;
    var start, next1 := NodeFromData(gtk, agents, d.start, pane, depth + 1);
    if start.None? {
      return None, next1;
    }
    r, next := SecondFromData(gtk, agents, d, pane, depth, start.value, next1, t, q, dirs);
  }

  /** The rest of it, when the first child has been rebuilt as `start`. */
  method SecondFromData(gtk: Gtk, agents: AgentRegistry, d: NodeData, ghost pane: nat, depth: nat, start: Node,
                        next1: nat, ghost t: Trees, ghost q: nat, ghost dirs: map<nat, Option<string>>)
    returns (r: Option<Node>, next: nat)
    requires gtk.Valid() && d.SplitData? && Forest(t, q) && 0 < q
    requires Built(d.start, pane, q, t, dirs, start, next1, gtk.trees, gtk.nextWid, gtk.startDirs, gtk.reg.paneOf)
    modifies gtk, gtk.reg, agents
    ensures gtk.Valid() && gtk.rejected == old(gtk.rejected) && gtk.pageName == old(gtk.pageName)
    ensures PAGE !in old(gtk.trees) ==> PAGE !in gtk.trees
    ensures OnlyCreated(old(gtk.reg.View()), gtk.reg.View())
    ensures agents.sessions == Registered(d.end, depth + 1, old(agents.sessions))
    ensures r.Some? <==> depth + 1 + DataHeight(d.end) <= MAX_DEPTH
    ensures r.Some? ==> Built(d, pane, q, t, dirs, r.value, next,
                             gtk.trees, gtk.nextWid, gtk.startDirs, gtk.reg.paneOf)
    decreases d, 0
  {
    ghost var labels := gtk.reg.paneOf;
    var end, next2 := NodeFromData(gtk, agents, d.end, next1, depth + 1);
    if end.None? {
      return None, next2;
    }
    var joined := JoinChildren(gtk, d, pane, start, end.value, t, q);
    JoinedBuilt(d, pane, q, t, dirs, joined, next2, gtk.trees, gtk.nextWid, gtk.startDirs, labels, gtk.reg.paneOf);
    return Some(joined), next2;
  }

  method JoinChildren(gtk: Gtk, d: NodeData, ghost pane: nat, start: Node, end: Node, ghost t: Trees, ghost q: nat)
    returns (n: Node)
    requires gtk.Valid() && Forest(t, q) && 0 < q && d.SplitData?
    requires start == Rebuild(d.start, pane, q)
    requires end == Rebuild(d.end, pane + Leaves(d.start), q + WidgetCount(d.start))
    requires gtk.trees == t[RootWidget(start) := Draw(start)][RootWidget(end) := Draw(end)]
    requires gtk.nextWid == q + WidgetCount(d) - 1
    modifies gtk`trees, gtk`nextWid, gtk`rejected, gtk.reg
    ensures gtk.Valid() && gtk.rejected == old(gtk.rejected) && gtk.reg.View() == old(gtk.reg.View())
    ensures n == Rebuild(d, pane, q) && n.Split? && n.start == start && n.end == end
    ensures n.paned != PAGE && gtk.trees == t[n.paned := Draw(n)] && gtk.nextWid == q + WidgetCount(d)
  {
    JoinedTrees(t, q, d, pane, start, end);
    var paned := gtk.Enclose(RootWidget(start), RootWidget(end), ParseOrientation(d.orientation));
    n := Split(ParseOrientation(d.orientation), paned, start, end);
  }

  /** `n` is the tree `d` describes and hangs, detached, beside the forest `t`. */
  ghost predicate Built(d: NodeData, pane: nat, wid: nat, t: Trees, dirs: map<nat, Option<string>>, n: Node, next: nat,
                        t': Trees, wid': nat, dirs': map<nat, Option<string>>, paneOf: map<nat, nat>)
  {
    && n == Rebuild(d, pane, wid) && next == pane + Leaves(d)
    && wid' == wid + WidgetCount(d) && dirs' == StartDirs(d, wid, dirs)
    && t' == t[RootWidget(n) := Draw(n)]
    && Labelled(n, paneOf)
  }

  lemma JoinedBuilt(d: NodeData, pane: nat, wid: nat, t: Trees, dirs: map<nat, Option<string>>, n: Node, next: nat,
                    t': Trees, wid': nat, dirs': map<nat, Option<string>>,
                    labels: map<nat, nat>, paneOf: map<nat, nat>)
    requires d.SplitData? && n == Rebuild(d, pane, wid) && n.Split?
    requires next == pane + Leaves(d.start) + Leaves(d.end) && wid' == wid + WidgetCount(d)
    requires t' == t[n.paned := Draw(n)]
    requires dirs' == StartDirs(d.end, wid + WidgetCount(d.start), StartDirs(d.start, wid, dirs))
    requires Labelled(n.start, labels) && forall a :: a in labels ==> a in paneOf && paneOf[a] == labels[a]
    requires Labelled(n.end, paneOf)
    ensures Built(d, pane, wid, t, dirs, n, next, t', wid', dirs', paneOf)
  {
    LabelledGrows(n.start, labels, paneOf);
  }

  /** `node_from_data`, with its pane counter as an in- and out-parameter. Nothing
      is on screen yet, so no surface is created. */
  method NodeFromData(gtk: Gtk, agents: AgentRegistry, d: NodeData, pane: nat, depth: nat)
    returns (r: Option<Node>, next: nat)
    requires gtk.Valid()
    modifies gtk, gtk.reg, agents
    ensures gtk.Valid() && gtk.rejected == old(gtk.rejected) && gtk.pageName == old(gtk.pageName)
    ensures PAGE !in old(gtk.trees) ==> PAGE !in gtk.trees
    ensures OnlyCreated(old(gtk.reg.View()), gtk.reg.View())
    ensures agents.sessions == Registered(d, depth, old(agents.sessions))
    ensures r.Some? <==> depth + DataHeight(d) <= MAX_DEPTH
    ensures r.Some? ==> Built(d, pane, old(gtk.nextWid), old(gtk.trees), old(gtk.startDirs), r.value, next,
                             gtk.trees, gtk.nextWid, gtk.startDirs, gtk.reg.paneOf)
    decreases d, 2
  {
    if depth > MAX_DEPTH {
      return None, pane;
    }
    match d
    case LeafData(_, _, _, _, _, _) =>
      var leaf := LeafFromData(gtk, agents, d, pane);
      return Some(leaf), pane + 1;
    case SplitData(_, _, _) =>
      r, next := SplitFromData(gtk, agents, d, pane, depth);
  }

  /** The two halves of a split hang under fresh, different numbers, and with them
      in a divider the forest is the one drawn for the whole split. */
  lemma JoinedTrees(t: Trees, q: nat, d: NodeData, pane: nat, start: Node, end: Node)
    requires Forest(t, q) && d.SplitData? && 0 < q
    requires start == Rebuild(d.start, pane, q)
    requires end == Rebuild(d.end, pane + Leaves(d.start), q + WidgetCount(d.start))
    ensures var a, b, p := RootWidget(start), RootWidget(end), q + WidgetCount(d) - 1;
            var trees := t[a := Draw(start)][b := Draw(end)];
            var n := Split(ParseOrientation(d.orientation), p, start, end);
            && trees[a] == Draw(start) && trees[b] == Draw(end) && a != b && a != PAGE && b != PAGE && p != PAGE
            && p == q + WidgetCount(d.start) + WidgetCount(d.end)
            && n == Rebuild(d, pane, q)
            && (trees - {a, b})[p := Paned(p, n.orientation, trees[a], trees[b])] == t[p := Draw(n)]
  {
    RebuildWidgets(d.start, pane, q);
    RebuildWidgets(d.end, pane + Leaves(d.start), q + WidgetCount(d.start));
    KeysBelow(t, q);
    var p := q + WidgetCount(d) - 1;
    EnclosedPair(t, RootWidget(start), Draw(start), RootWidget(end), Draw(end), p,
                 Draw(Split(ParseOrientation(d.orientation), p, start, end)));
  }

  /** `from_data` and the Stack page for its result: restoring succeeds exactly for
      restorable data, and then tree, widgets and surfaces agree from the start. */
  method RestoreEngine(gtk: Gtk, agents: AgentRegistry, d: NodeData, activeUuid: Option<nat>, name: string)
    returns (e: SplitEngine?)
    requires gtk.Valid() && !gtk.rejected && PAGE !in gtk.trees && gtk.reg.cells == map[] && gtk.reg.preserve == {}
    modifies gtk, gtk.reg, agents
    ensures e != null <==> Restorable(d)
    ensures e != null ==>
              e.gtk == gtk && e.Valid() && e.View() == Restored(d, activeUuid, old(gtk.nextWid)) && gtk.pageName == name
    ensures e == null ==> gtk.Valid() && !gtk.rejected && PAGE !in gtk.trees && gtk.reg.cells == map[]
    ensures e != null ==> gtk.reg.cells.Keys == Elems(Areas(Draw(e.root))) * old(gtk.reg.grants)
    ensures e != null ==> gtk.startDirs == StartDirs(d, old(gtk.nextWid), old(gtk.startDirs))
    ensures agents.sessions == Registered(d, 0, old(agents.sessions)) && gtk.reg.freed == old(gtk.reg.freed)
  {
    ghost var q := gtk.nextWid;
    var root, next := NodeFromData(gtk, agents, d, 1, 0);
    if root.None? {
      return null;
    }
    var found := if activeUuid.Some? then FindByUuid(root.value, activeUuid.value) else None;
    var active := if found.Some? then found.value else FirstPane(root.value);
    RestoredInv(d, activeUuid, q);
    RebuildUnlinked(d, 1, q);
    RebuildWidgets(d, 1, q);
    e := new SplitEngine.FromTree(gtk, root.value, active, next, name);
  }
}
