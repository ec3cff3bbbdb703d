// The workspaces of the application as values (src/app_state.rs): attention in a
// tree, what is saved and comes back, and what each command does to the fields of
// `AppState`, with the laws that hold over every run.
module Workspaces {
  import opened Prelude
  import opened Layout
  import E = Engine
  import opened Agents
  import opened Restore
  import opened SaveProtocol

  datatype Workspace = Workspace(id: nat, uuid: nat, name: string, group: Option<string>, hasAttention: bool)

  // ── Attention in a tree ────────────────────────────────────────────────────

  function AnyAttention(n: Node): bool {
    match n
    case Leaf(_, _, _, _, attention) => attention
    case Preview(_, _, _) => false
    case Split(_, _, s, e) => AnyAttention(s) || AnyAttention(e)
  }

  /** Set the flag of terminal `id`; the second result says whether there is one. */
  function SetAttention(n: Node, id: nat, value: bool): (Node, bool) {
    match n
    case Leaf(p, _, _, _, _) => if p == id then (n.(attention := value), true) else (n, false)
    case Preview(_, _, _) => (n, false)
    case Split(_, _, s, e) =>
      var (s', found) := SetAttention(s, id, value);
      if found then (n.(start := s'), true)
      else
        var (e', inEnd) := SetAttention(e, id, value);
        (n.(start := s', end := e'), inEnd)
  }

  function ClearAttention(n: Node): Node {
    match n
    case Leaf(_, _, _, _, _) => n.(attention := false)
    case Preview(_, _, _) => n
    case Split(_, _, s, e) => n.(start := ClearAttention(s), end := ClearAttention(e))
  }

  function PaneAttention(n: Node, id: nat): bool {
    match n
    case Leaf(p, _, _, _, attention) => p == id && attention
    case Preview(_, _, _) => false
    case Split(_, _, s, e) => PaneAttention(s, id) || PaneAttention(e, id)
  }

  /** The same panes in the same places. */
  ghost predicate SameTree(n: Node, n': Node) {
    && Panes(n') == Panes(n) && Terminals(n') == Terminals(n) && (Unique(n) ==> Unique(n')) && Uuids(n') == Uuids(n)
    && n'.Split? == n.Split? && E.RootWidget(n') == E.RootWidget(n)
    && (forall id :: FindParentPaned(n', id) == FindParentPaned(n, id))
  }

  /** The flag is set on exactly the terminal named, if there is one. */
  lemma {:induction false} SetAttentionFacts(n: Node, id: nat, value: bool)
    requires Unique(n)
    ensures var (n', found) := SetAttention(n, id, value);
            && SameTree(n, n') && (found <==> HasTerminal(n, id)) && (!found ==> n' == n)
            && (found ==> forall x :: PaneAttention(n', x) <==> if x == id then value else PaneAttention(n, x))
            && (found && value ==> AnyAttention(n'))
  {
    if n.Split? {
      SetAttentionFacts(n.start, id, value);
      SetAttentionFacts(n.end, id, value);
      FindPaneIffListed(n.start, id);
      FindPaneIffListed(n.end, id);
      NoneMarked(n.start, id);
      NoneMarked(n.end, id);
      assert id in Panes(n.start) ==> id in Elems(Panes(n.start)) && id !in Elems(Panes(n.end));
    }
  }

  lemma {:induction false} NoneMarked(n: Node, id: nat)
    ensures PaneAttention(n, id) ==> id in Panes(n)
  {
    if n.Split? {
      NoneMarked(n.start, id);
      NoneMarked(n.end, id);
    }
  }

  /** A tree wants attention exactly if a pane of it does: `id`, if there is one. */
  lemma {:induction false} AnyAttentionIff(n: Node, x: nat) returns (id: nat)
    ensures AnyAttention(n) ==> PaneAttention(n, id)
    ensures PaneAttention(n, x) ==> AnyAttention(n)
  {
    if n.Split? {
      var a := AnyAttentionIff(n.start, x);
      var b := AnyAttentionIff(n.end, x);
      id := if AnyAttention(n.start) then a else b;
    } else {
      id := n.pane;
    }
  }

  lemma {:induction false} ClearAttentionFacts(n: Node)
    ensures SameTree(n, ClearAttention(n)) && !AnyAttention(ClearAttention(n))
  {
    if n.Split? {
      ClearAttentionFacts(n.start);
      ClearAttentionFacts(n.end);
    }
  }

  lemma {:induction false} SplitLeafAttention(n: Node, id: nat, added: Node, o: Orientation, paned: nat)
    requires SplitLeaf(n, id, added, o, paned).Some? && !AnyAttention(added)
    ensures AnyAttention(SplitLeaf(n, id, added, o, paned).value) ==> AnyAttention(n)
  {
    if n.Split? {
      if SplitLeaf(n.start, id, added, o, paned).Some? {
        SplitLeafAttention(n.start, id, added, o, paned);
      } else {
        SplitLeafAttention(n.end, id, added, o, paned);
      }
    }
  }

  lemma {:induction false} RemovePaneAttention(n: Node, id: nat)
    requires RemovePane(n, id).Some?
    ensures AnyAttention(RemovePane(n, id).value.0) ==> AnyAttention(n)
  {
    if !IsPane(n.start, id) && !IsPane(n.end, id) {
      if RemovePane(n.start, id).Some? {
        RemovePaneAttention(n.start, id);
      } else {
        RemovePaneAttention(n.end, id);
      }
    }
  }

  lemma {:induction false} SyncAttention(n: Node, mapped: map<nat, nat>)
    ensures AnyAttention(SyncNode(n, mapped)) == AnyAttention(n)
  {
    if n.Split? {
      SyncAttention(n.start, mapped);
      SyncAttention(n.end, mapped);
    }
  }

  /** No layout operation makes attention appear. */
  lemma ExecAttention(e: E.State, op: E.Op)
    ensures AnyAttention(E.Exec(e, op).root) ==> AnyAttention(e.root)
  {
    match op
    case DoSplit(o, area, paned, uuid, armed) =>
      var added := Leaf(e.next, area, 0, uuid, false);
      if SplitLeaf(e.root, e.active, added, o, paned).Some? {
        SplitLeafAttention(e.root, e.active, added, o, paned);
      }
    case DoPreview(box, paned, uuid) =>
      var added := Preview(e.next, box, uuid);
      if SplitLeaf(e.root, e.active, added, Horizontal, paned).Some? {
        SplitLeafAttention(e.root, e.active, added, Horizontal, paned);
      }
    case DoSpiral(target, size, area, paned, uuid, armed) =>
      var goal := if target.Some? then target.value else E.SpiralTarget(e);
      var added := Leaf(e.next, area, 0, uuid, false);
      var o := E.SpiralOrientation(size);
      if SplitLeaf(e.root, goal, added, o, paned).Some? {
        SplitLeafAttention(e.root, goal, added, o, paned);
      }
    case DoClose =>
      if RemovePane(e.root, e.active).Some? {
        RemovePaneAttention(e.root, e.active);
      }
    case DoFocus(_) =>
    case DoFocusPane(_) =>
    case DoToggleZoom =>
    case DoSync(mapped) => SyncAttention(e.root, mapped);
  }

  lemma SameTreeInv(e: E.State, root: Node)
    requires E.Inv(e) && SameTree(e.root, root)
    ensures E.Inv(e.(root := root))
  {
  }

  lemma {:induction false} RebuildCalm(d: NodeData, pane: nat, wid: nat)
    ensures !AnyAttention(Rebuild(d, pane, wid))
  {
    if d.SplitData? {
      RebuildCalm(d.start, pane, wid);
      RebuildCalm(d.end, pane + Leaves(d.start), wid + WidgetCount(d.start));
    }
  }

  /** Clearing changes nothing where no attention is set. */
  lemma {:induction false} ClearCalm(n: Node)
    requires !AnyAttention(n)
    ensures ClearAttention(n) == n
  {
    if n.Split? {
      ClearCalm(n.start);
      ClearCalm(n.end);
    }
  }

  /** A saved workspace is back: its uuid and group, and the engine its tree describes. */
  ghost predicate Back(ws: WorkspaceSession, w: Workspace, e: E.State) {
    && w.uuid == ws.uuid && w.name == ws.name && w.group == ws.group
    && exists wid :: e == Restored(ws.layout, ws.activePane, wid)
  }

  /** Each saved workspace is there under its name and calm, with its tree back if
      trees are restored and it is within the bound. */
  ghost predicate SoFar(saved: seq<WorkspaceSession>, trees: bool, workspaces: seq<Workspace>, engines: seq<E.State>) {
    && |workspaces| == |engines| == |saved|
    && forall i :: 0 <= i < |saved| ==>
         && workspaces[i].name == saved[i].name && !AnyAttention(engines[i].root)
         && (if trees && Restorable(saved[i].layout) then Back(saved[i], workspaces[i], engines[i])
             else engines[i].root.Leaf?)
  }

  ghost predicate AllFit(saved: seq<WorkspaceSession>, trees: bool) {
    trees ==> forall ws :: ws in saved ==> Restorable(ws.layout)
  }

  lemma SoFarExtends(saved: seq<WorkspaceSession>, trees: bool, workspaces: seq<Workspace>, engines: seq<E.State>,
                     ws: WorkspaceSession, workspaces': seq<Workspace>, engines': seq<E.State>)
    requires SoFar(saved, trees, workspaces, engines)
    requires |workspaces'| == |engines'| == |saved| + 1
    requires workspaces'[..|saved|] == workspaces && engines'[..|saved|] == engines
    requires workspaces'[|saved|].name == ws.name && !AnyAttention(engines'[|saved|].root)
    requires if trees && Restorable(ws.layout) then Back(ws, workspaces'[|saved|], engines'[|saved|])
             else engines'[|saved|].root.Leaf?
    ensures SoFar(saved + [ws], trees, workspaces', engines')
    ensures AllFit(saved + [ws], trees) <==> AllFit(saved, trees) && (trees ==> Restorable(ws.layout))
  {
    assert forall i :: 0 <= i < |saved| ==> workspaces'[i] == workspaces[i] && engines'[i] == engines[i];
    assert ws in saved + [ws] && forall x :: x in saved ==> x in saved + [ws];
  }

  /** What is saved for one workspace. */
  function Saved(w: Workspace, e: E.State, agents: map<nat, AgentSession>, env: Environment): WorkspaceSession {
    WorkspaceSession(w.uuid, w.name, UuidOf(e.root, e.active), ToData(e.root, agents, env), w.group)
  }

  // ── The state ──────────────────────────────────────────────────────────────

  function Ids(workspaces: seq<Workspace>): seq<nat> {
    seq(|workspaces|, i requires 0 <= i < |workspaces| => workspaces[i].id)
  }

  function RemoveAt<T>(s: seq<T>, i: nat): seq<T>
    requires i < |s|
  {
    s[..i] + s[i + 1..]
  }

  /** The active index after the removal of another index, or of that one. */
  function ActiveAfter(active: nat, index: nat): nat {
    if index < active then active - 1 else if index == active && index > 0 then index - 1 else active
  }

  /** What was at the active index still is, unless it was removed. */
  lemma ActiveKept<T>(s: seq<T>, active: nat, index: nat)
    requires active < |s| && index < |s| && |s| > 1
    ensures ActiveAfter(active, index) < |RemoveAt(s, index)|
    ensures index != active ==> RemoveAt(s, index)[ActiveAfter(active, index)] == s[active]
  {
  }

  lemma PrevWraps(active: nat, count: nat)
    requires active < count
    ensures ((if active == 0 then count - 1 else active - 1) + 1) % count == active
  {
  }

  /** The workspaces and the engines after the attention of one is cleared. */
  function Seen(workspaces: seq<Workspace>, index: nat): seq<Workspace>
    requires index < |workspaces|
  {
    workspaces[index := workspaces[index].(hasAttention := false)]
  }

  function Calmed(engines: seq<E.State>, index: nat): seq<E.State>
    requires index < |engines|
  {
    engines[index := engines[index].(root := ClearAttention(engines[index].root))]
  }

  /** A workspace and its engine fit together. */
  ghost predicate Paired(w: Workspace, e: E.State) {
    E.Inv(e) && (AnyAttention(e.root) ==> w.hasAttention)
  }

  /** The first workspace with a terminal `pane`, or the number of workspaces. */
  function FirstWith(engines: seq<E.State>, pane: nat): (i: nat)
    ensures i <= |engines|
    ensures i < |engines| ==> HasTerminal(engines[i].root, pane)
    ensures forall j :: 0 <= j < i ==> !HasTerminal(engines[j].root, pane)
  {
    if engines == [] || HasTerminal(engines[0].root, pane) then 0
    else
      var i := 1 + FirstWith(engines[1..], pane);
      assert forall j :: 1 <= j < i ==> engines[j] == engines[1..][j - 1];
      i
  }

  /** The first workspace with a pane `pane`, or the number of workspaces. */
  function FirstHolding(engines: seq<E.State>, pane: nat): (i: nat)
    ensures i <= |engines|
    ensures i < |engines| ==> FindPane(engines[i].root, pane).Some?
    ensures forall j :: 0 <= j < i ==> FindPane(engines[j].root, pane).None?
  {
    if engines == [] || FindPane(engines[0].root, pane).Some? then 0
    else
      var i := 1 + FirstHolding(engines[1..], pane);
      assert forall j :: 1 <= j < i ==> engines[j] == engines[1..][j - 1];
      i
  }

  /** The engines after a bell of pane `pane`. */
  function Belled(engines: seq<E.State>, pane: nat): seq<E.State> {
    var k := FirstWith(engines, pane);
    if k == |engines| then engines
    else engines[k := engines[k].(root := SetAttention(engines[k].root, pane, true).0)]
  }

  /** The engines after keyboard focus has entered pane `pane`. */
  function Clicked(engines: seq<E.State>, pane: nat): seq<E.State> {
    var k := FirstHolding(engines, pane);
    if k == |engines| then engines else engines[k := E.FocusPane(engines[k], pane)]
  }

  /** Pane ids are unique in an engine only. A bell of a terminal reaches its own
      workspace exactly if no earlier workspace has a terminal of the same id. */
  lemma BellReachesIff(engines: seq<E.State>, k: nat, pane: nat)
    requires k < |engines| && E.Inv(engines[k])
    requires HasTerminal(engines[k].root, pane) && !PaneAttention(engines[k].root, pane)
    ensures PaneAttention(Belled(engines, pane)[k].root, pane)
            <==> forall j :: 0 <= j < k ==> !HasTerminal(engines[j].root, pane)
  {
    SetAttentionFacts(engines[k].root, pane, true);
  }

  /** A click into a pane makes it the active one of its own workspace exactly if no
      earlier workspace has a pane of the same id. */
  lemma ClickReachesIff(engines: seq<E.State>, k: nat, pane: nat)
    requires k < |engines| && FindPane(engines[k].root, pane).Some? && engines[k].active != pane
    ensures Clicked(engines, pane)[k].active == pane
            <==> forall j :: 0 <= j < k ==> FindPane(engines[j].root, pane).None?
  {
  }

  datatype Command =
    | Create(name: string, uuid: nat, paneUuid: nat)
    | Restore(ws: WorkspaceSession)
    | CloseAt(index: nat)
    | SwitchTo(index: nat)
    | Next
    | Prev
    | Bell(pane: nat)
    | Click(pane: nat)
    | Rename(name: string)
    | LayoutOp(op: E.Op)

  /** A restore, if it is one, is of a tree within the depth bound. */
  predicate Fits(c: Command) {
    c.Restore? ==> Restorable(c.ws.layout)
  }

  // ── What each command does to the fields ───────────────────────────────────

  datatype Fields = Fields(
    workspaces: seq<Workspace>,
    engines: seq<E.State>,
    activeIndex: nat,
    nextId: nat,
    nextWid: nat,
    rows: seq<nat>)

  function Show(f: Fields, index: nat): Fields {
    if index < |f.workspaces| == |f.engines| then
      f.(workspaces := Seen(f.workspaces, index), engines := Calmed(f.engines, index), activeIndex := index)
    else f
  }

  function Did(f: Fields, c: Command): Fields {
    match c
    case Create(name, uuid, paneUuid) =>
      Fields(f.workspaces + [Workspace(f.nextId, uuid, name, None, false)],
             f.engines + [E.NewEngine(f.nextId * 1000, f.nextWid, paneUuid)],
             |f.workspaces|, f.nextId + 1, f.nextWid + 1, f.rows + [f.nextId])
    case Restore(ws) =>
      if !Restorable(ws.layout) then f.(nextId := f.nextId + 1, rows := f.rows + [f.nextId])
      else
        Fields(f.workspaces + [Workspace(f.nextId, ws.uuid, ws.name, ws.group, false)],
               f.engines + [Restored(ws.layout, ws.activePane, f.nextWid)],
               if f.workspaces == [] then 0 else f.activeIndex,
               f.nextId + 1, f.nextWid + WidgetCount(ws.layout), f.rows + [f.nextId])
    case CloseAt(index) =>
      if |f.workspaces| <= 1 || !(index < |f.workspaces| == |f.engines|) then f
      else
        var rows := if index < |f.rows| then RemoveAt(f.rows, index) else f.rows;
        Show(f.(workspaces := RemoveAt(f.workspaces, index), engines := RemoveAt(f.engines, index), rows := rows),
             ActiveAfter(f.activeIndex, index))
    case SwitchTo(index) => Show(f, index)
    case Next => if f.workspaces == [] then f else Show(f, (f.activeIndex + 1) % |f.workspaces|)
    case Prev =>
      if f.workspaces == [] then f
      else Show(f, if f.activeIndex == 0 then |f.workspaces| - 1 else f.activeIndex - 1)
    case Bell(pane) =>
      var k := FirstWith(f.engines, pane);
      if k < |f.workspaces| == |f.engines| then
        f.(workspaces := f.workspaces[k := f.workspaces[k].(hasAttention := true)], engines := Belled(f.engines, pane))
      else f
    case Click(pane) => f.(engines := Clicked(f.engines, pane))
    case Rename(name) =>
      if f.activeIndex < |f.workspaces| then
        f.(workspaces := f.workspaces[f.activeIndex := f.workspaces[f.activeIndex].(name := name)])
      else f
    case LayoutOp(op) =>
      if f.activeIndex < |f.workspaces| == |f.engines| then
        f.(engines := f.engines[f.activeIndex := E.Exec(f.engines[f.activeIndex], op)])
      else f
  }

  function Ran(f: Fields, commands: seq<Command>): Fields {
    if commands == [] then f
    else Did(Ran(f, commands[..|commands| - 1]), commands[|commands| - 1])
  }

  lemma RanNext(f: Fields, commands: seq<Command>, i: nat)
    requires i < |commands|
    ensures Ran(f, commands[..i + 1]) == Did(Ran(f, commands[..i]), commands[i])
  {
    assert commands[..i + 1][..i] == commands[..i];
  }

  /** One engine for each workspace, one of them shown, in the order of their ids,
      which are never reused. */
  ghost predicate Sound(f: Fields) {
    && |f.workspaces| == |f.engines|
    && (f.workspaces != [] ==> f.activeIndex < |f.workspaces|)
    && (forall i, j :: 0 <= i < j < |f.workspaces| ==> f.workspaces[i].id < f.workspaces[j].id)
    && (forall i :: 0 <= i < |f.workspaces| ==> f.workspaces[i].id < f.nextId)
  }

  /** Every workspace of `f'` is new, or one of `f` with its uuid and group. */
  ghost predicate Descends(f: Fields, f': Fields) {
    && f.nextId <= f'.nextId
    && forall i :: 0 <= i < |f'.workspaces| ==> f'.workspaces[i].id >= f.nextId || Kin(f, f'.workspaces[i])
  }

  ghost predicate Kin(f: Fields, w': Workspace) {
    exists j :: 0 <= j < |f.workspaces| && SameWorkspace(f.workspaces[j], w')
  }

  predicate SameWorkspace(w: Workspace, w': Workspace) {
    w'.id == w.id && w'.uuid == w.uuid && w'.group == w.group
  }

  lemma DidSound(f: Fields, c: Command)
    requires Sound(f)
    ensures Sound(Did(f, c)) && Descends(f, Did(f, c))
    ensures f.workspaces != [] ==> Did(f, c).workspaces != []
  {
    if c.CloseAt? {
      CloseSound(f, c.index);
    } else if c.Create? || c.Restore? {
      AppendSound(f, c);
    } else {
      InPlaceSound(f, c);
    }
  }

  /** The same workspaces, up to names and attention, and perhaps another one shown. */
  ghost predicate Alike(f: Fields, f': Fields) {
    && |f'.workspaces| == |f.workspaces| && |f'.engines| == |f.engines| && f'.nextId == f.nextId
    && (f'.activeIndex == f.activeIndex || f'.activeIndex < |f.workspaces|)
    && forall i :: 0 <= i < |f.workspaces| ==> SameWorkspace(f.workspaces[i], f'.workspaces[i])
  }

  lemma AlikeSound(f: Fields, f': Fields)
    requires Sound(f) && Alike(f, f')
    ensures Sound(f') && Descends(f, f')
  {
    forall i | 0 <= i < |f'.workspaces|
      ensures Kin(f, f'.workspaces[i])
    {
      assert SameWorkspace(f.workspaces[i], f'.workspaces[i]);
    }
  }

  lemma ShowAlike(f: Fields, index: nat)
    requires Sound(f)
    ensures Alike(f, Show(f, index))
  {
  }

  lemma InPlaceSound(f: Fields, c: Command)
    requires Sound(f) && !c.CloseAt? && !c.Create? && !c.Restore?
    ensures Sound(Did(f, c)) && Descends(f, Did(f, c)) && |Did(f, c).workspaces| == |f.workspaces|
  {
    match c
    case SwitchTo(index) => ShowAlike(f, index); AlikeSound(f, Did(f, c));
    case Next =>
      if f.workspaces != [] {
        ShowAlike(f, (f.activeIndex + 1) % |f.workspaces|);
      }
      AlikeSound(f, Did(f, c));
    case Prev =>
      if f.workspaces != [] {
        ShowAlike(f, if f.activeIndex == 0 then |f.workspaces| - 1 else f.activeIndex - 1);
      }
      AlikeSound(f, Did(f, c));
    case Bell(pane) =>
      assert |Belled(f.engines, pane)| == |f.engines|;
      AlikeSound(f, Did(f, c));
    case Click(pane) =>
      assert |Clicked(f.engines, pane)| == |f.engines|;
      AlikeSound(f, Did(f, c));
    case Rename(_) => AlikeSound(f, Did(f, c));
    case LayoutOp(_) => AlikeSound(f, Did(f, c));
  }

  /** One more workspace, with an id that was not used before. */
  lemma GrownSound(f: Fields, f': Fields, w: Workspace)
    requires Sound(f) && f'.workspaces == f.workspaces + [w] && |f'.engines| == |f'.workspaces|
    requires w.id == f.nextId && f'.nextId == f.nextId + 1 && f'.activeIndex < |f'.workspaces|
    ensures Sound(f') && Descends(f, f')
  {
    forall i | 0 <= i < |f.workspaces|
      ensures f'.workspaces[i] == f.workspaces[i] && Kin(f, f'.workspaces[i])
    {
      assert SameWorkspace(f.workspaces[i], f'.workspaces[i]);
    }
  }

  lemma AppendSound(f: Fields, c: Command)
    requires Sound(f) && (c.Create? || c.Restore?)
    ensures Sound(Did(f, c)) && Descends(f, Did(f, c)) && |Did(f, c).workspaces| >= |f.workspaces|
  {
    var f' := Did(f, c);
    if f'.workspaces == f.workspaces {
      DescendsSelf(f);
    } else {
      GrownSound(f, f', f'.workspaces[|f.workspaces|]);
    }
  }

  lemma CloseSound(f: Fields, index: nat)
    requires Sound(f)
    ensures var f' := Did(f, CloseAt(index));
            Sound(f') && Descends(f, f') && (f.workspaces != [] ==> f'.workspaces != [])
  {
    if |f.workspaces| <= 1 || index >= |f.workspaces| {
      DescendsSelf(f);
    } else {
      var rows := if index < |f.rows| then RemoveAt(f.rows, index) else f.rows;
      var active := ActiveAfter(f.activeIndex, index);
      var g := f.(workspaces := RemoveAt(f.workspaces, index), engines := RemoveAt(f.engines, index), rows := rows);
      RemoveSound(f, index, g.(activeIndex := active));
      InPlaceSound(g.(activeIndex := active), SwitchTo(active));
      DescendsTwice(f, g.(activeIndex := active), Show(g, active));
    }
  }

  lemma RemoveSound(f: Fields, index: nat, g: Fields)
    requires Sound(f) && index < |f.workspaces| && |f.workspaces| > 1 && g.nextId == f.nextId
    requires g.workspaces == RemoveAt(f.workspaces, index) && g.engines == RemoveAt(f.engines, index)
    requires g.activeIndex < |g.workspaces|
    ensures Sound(g) && Descends(f, g)
  {
    forall i | 0 <= i < |g.workspaces|
      ensures var j := if i < index then i else i + 1; g.workspaces[i] == f.workspaces[j]
      ensures Kin(f, g.workspaces[i])
    {
      assert SameWorkspace(f.workspaces[if i < index then i else i + 1], g.workspaces[i]);
    }
  }

  lemma DescendsSelf(f: Fields)
    ensures Descends(f, f)
  {
    forall i | 0 <= i < |f.workspaces|
      ensures Kin(f, f.workspaces[i])
    {
      assert SameWorkspace(f.workspaces[i], f.workspaces[i]);
    }
  }

  /** Over every run: engines and workspaces stay paired, the shown one exists, the
      list stays in the order of creation and never becomes empty again, and a
      workspace that stays keeps its uuid and group. */
  lemma {:induction false} RanSound(f: Fields, commands: seq<Command>)
    requires Sound(f)
    ensures Sound(Ran(f, commands)) && Descends(f, Ran(f, commands))
    ensures f.workspaces != [] ==> Ran(f, commands).workspaces != []
  {
    if commands == [] {
      DescendsSelf(f);
    } else {
      var mid := Ran(f, commands[..|commands| - 1]);
      RanSound(f, commands[..|commands| - 1]);
      DidSound(mid, commands[|commands| - 1]);
      DescendsTwice(f, mid, Ran(f, commands));
    }
  }

  lemma DescendsTwice(f: Fields, mid: Fields, f': Fields)
    requires Descends(f, mid) && Descends(mid, f')
    ensures Descends(f, f')
  {
    forall i | 0 <= i < |f'.workspaces| && f'.workspaces[i].id < f.nextId
      ensures Kin(f, f'.workspaces[i])
    {
      var j :| 0 <= j < |mid.workspaces| && SameWorkspace(mid.workspaces[j], f'.workspaces[i]);
      assert Kin(f, mid.workspaces[j]);
      var k :| 0 <= k < |f.workspaces| && SameWorkspace(f.workspaces[k], mid.workspaces[j]);
      assert SameWorkspace(f.workspaces[k], f'.workspaces[i]);
    }
  }

  /** The command does not choose what is shown: no switch, no new workspace, and no
      close of the shown one. */
  predicate Elsewhere(f: Fields, c: Command) {
    c.Restore? || c.Bell? || c.Click? || c.Rename? || c.LayoutOp? || (c.CloseAt? && c.index != f.activeIndex)
  }

  /** The workspace that is shown in `f` is shown in `f'`. */
  ghost predicate StillShown(f: Fields, f': Fields) {
    && f.activeIndex < |f.workspaces| && f'.activeIndex < |f'.workspaces|
    && SameWorkspace(f.workspaces[f.activeIndex], f'.workspaces[f'.activeIndex])
  }

  lemma DidElsewhere(f: Fields, c: Command)
    requires Sound(f) && f.workspaces != [] && Elsewhere(f, c)
    ensures StillShown(f, Did(f, c))
  {
    if c.CloseAt? && |f.workspaces| > 1 && c.index < |f.workspaces| {
      ActiveKept(f.workspaces, f.activeIndex, c.index);
    }
  }

  lemma StillShownTwice(f: Fields, mid: Fields, f': Fields)
    requires StillShown(f, mid) && StillShown(mid, f')
    ensures StillShown(f, f')
  {
  }

  /** Each command of a run is elsewhere when its turn comes. */
  predicate AllElsewhere(f: Fields, commands: seq<Command>) {
    commands == []
    || (AllElsewhere(f, commands[..|commands| - 1])
        && Elsewhere(Ran(f, commands[..|commands| - 1]), commands[|commands| - 1]))
  }

  /** Over every run of commands elsewhere, other workspaces closed among them, the
      same workspace stays shown. */
  lemma {:induction false} ElsewhereKeepsShown(f: Fields, commands: seq<Command>)
    requires Sound(f) && f.workspaces != [] && AllElsewhere(f, commands)
    ensures StillShown(f, Ran(f, commands))
  {
    if commands != [] {
      var init := commands[..|commands| - 1];
      ElsewhereKeepsShown(f, init);
      RanSound(f, init);
      DidElsewhere(Ran(f, init), commands[|commands| - 1]);
      StillShownTwice(f, Ran(f, init), Ran(f, commands));
    }
  }

  lemma RePaired(workspaces: seq<Workspace>, engines: seq<E.State>, i: nat, w: Workspace, e: E.State)
    requires |workspaces| == |engines| && i < |engines| && Paired(w, e)
    requires forall j :: 0 <= j < |workspaces| ==> Paired(workspaces[j], engines[j])
    ensures var ws, es := workspaces[i := w], engines[i := e]; forall j :: 0 <= j < |ws| ==> Paired(ws[j], es[j])
  {
  }

  lemma AppendIds(workspaces: seq<Workspace>, w: Workspace)
    requires NoDup(Ids(workspaces)) && w.id !in Ids(workspaces)
    ensures Ids(workspaces + [w]) == Ids(workspaces) + [w.id] && NoDup(Ids(workspaces + [w]))
  {
  }

  lemma RemovePairs(workspaces: seq<Workspace>, engines: seq<E.State>, index: nat, nextId: nat)
    requires |workspaces| == |engines| && index < |workspaces|
    requires forall i :: 0 <= i < |workspaces| ==> Paired(workspaces[i], engines[i]) && workspaces[i].id < nextId
    ensures var ws, es := RemoveAt(workspaces, index), RemoveAt(engines, index);
            |ws| == |es| && forall i :: 0 <= i < |ws| ==> Paired(ws[i], es[i]) && ws[i].id < nextId
  {
  }

  lemma RemoveIds(workspaces: seq<Workspace>, index: nat)
    requires NoDup(Ids(workspaces)) && index < |workspaces|
    ensures Ids(RemoveAt(workspaces, index)) == RemoveAt(Ids(workspaces), index)
    ensures NoDup(Ids(RemoveAt(workspaces, index)))
  {
  }

  /** What comes back for a workspace that was saved and restored: the same uuid and
      group, the same layout in the same order, and when its active pane. */
  lemma WorkspaceRoundTrip(w: Workspace, e: E.State, agents: map<nat, AgentSession>, env: Environment,
                           w': Workspace, e': E.State)
    requires E.Inv(e) && Back(Saved(w, e, agents, env), w', e')
    ensures w'.uuid == w.uuid && w'.name == w.name && w'.group == w.group
    ensures SameLayout(e.root, e'.root) && |Panes(e'.root)| == |Panes(e.root)| && Uuids(e'.root) == SavedUuids(e.root)
    ensures Position(Panes(e'.root), e'.active) == Position(Panes(e.root), e.active) <==> FoundAgain(e)
  {
    var ws := Saved(w, e, agents, env);
    var wid :| e' == Restored(ws.layout, ws.activePane, wid);
    SaveThenRestore(e, agents, env, wid);
  }

  /** The snapshot that a save of the session takes. */
  function Snapshot(f: Fields, agents: map<nat, AgentSession>, env: Environment): SessionData
    requires |f.workspaces| == |f.engines|
  {
    SessionData(2, f.activeIndex,
                seq(|f.workspaces|, i requires 0 <= i < |f.workspaces| =>
                  Saved(f.workspaces[i], f.engines[i], agents, env)))
  }

  /** Workspace `w'` is `w` again: its whole tree if it is within the bound, else a
      single terminal under its name. */
  ghost predicate Again(w: Workspace, e: E.State, w': Workspace, e': E.State)
    requires E.Inv(e)
  {
    && w'.name == w.name
    && if Height(e.root) <= MAX_DEPTH then
         && w'.uuid == w.uuid && w'.group == w.group && SameLayout(e.root, e'.root)
         && Uuids(e'.root) == SavedUuids(e.root)
         && (Position(Panes(e'.root), e'.active) == Position(Panes(e.root), e.active) <==> FoundAgain(e))
       else e'.root.Leaf?
  }

  /** What a session restore makes of a session that was saved: as many workspaces, in
      the same order, the same one to be shown, and each of them is there again. */
  lemma SessionRoundTrip(f: Fields, agents: map<nat, AgentSession>, env: Environment,
                         workspaces: seq<Workspace>, engines: seq<E.State>)
    requires Sound(f) && (forall i :: 0 <= i < |f.engines| ==> E.Inv(f.engines[i]))
    requires forall i :: 0 <= i < |engines| ==> E.Inv(engines[i])
    requires SoFar(Snapshot(f, agents, env).workspaces, true, workspaces, engines)
    ensures Snapshot(f, agents, env).activeIndex == f.activeIndex && Snapshot(f, agents, env).version == 2
    ensures |workspaces| == |engines| == |f.workspaces|
    ensures forall i :: 0 <= i < |workspaces| ==> Again(f.workspaces[i], f.engines[i], workspaces[i], engines[i])
  {
    var saved := Snapshot(f, agents, env).workspaces;
    forall i | 0 <= i < |workspaces|
      ensures Again(f.workspaces[i], f.engines[i], workspaces[i], engines[i])
    {
      LayoutRestored(f.engines[i].root, agents, env, 1, 1);
      if Restorable(saved[i].layout) {
        WorkspaceRoundTrip(f.workspaces[i], f.engines[i], agents, env, workspaces[i], engines[i]);
      }
    }
  }

  lemma {:induction false} RestoredHasFirst(d: NodeData, pane: nat, wid: nat)
    ensures HasTerminal(Rebuild(d, pane, wid), pane)
  {
    if d.SplitData? {
      RestoredHasFirst(d.start, pane, wid);
    }
  }

  /** Restored workspaces all number their panes from 1, so a bell of the second one's
      first pane, or a click into it, goes to the first one. */
  lemma RestoredPanesCollide(d1: NodeData, d2: NodeData, u1: Option<nat>, u2: Option<nat>, w1: nat, w2: nat)
    ensures var engines := [Restored(d1, u1, w1), Restored(d2, u2, w2)];
            HasTerminal(engines[1].root, 1) && FirstWith(engines, 1) == FirstHolding(engines, 1) == 0
  {
    RestoredHasFirst(d1, 1, w1);
    RestoredHasFirst(d2, 1, w2);
  }
}
