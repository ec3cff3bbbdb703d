// What each operation of a workspace's layout engine does to its fields
// (`SplitEngine` in src/split_engine.rs), as functions on a record of those
// fields, and the laws that hold over every run of them. Inputs that come from
// outside the engine (new widget numbers and uuids, pane sizes, whether the
// target pane has a surface) are parameters.
module Engine {
  import opened Prelude
  import opened Layout

  datatype Zoom = Zoom(pane: nat, rootWidget: nat, parentPaned: nat, wasStart: bool)

  datatype State = State(
    root: Node,
    active: nat,
    next: nat,
    tail: Option<nat>,
    zoomed: Option<Zoom>)

  function RootWidget(n: Node): nat {
    match n
    case Leaf(_, area, _, _, _) => area
    case Preview(_, box, _) => box
    case Split(_, paned, _, _) => paned
  }

  function NewEngine(pane: nat, area: nat, uuid: nat): State {
    State(Leaf(pane, area, 0, uuid, false), pane, pane + 1, None, None)
  }

  /** How every split begins: a pane id is used up and a zoom is undone, even
      when the split then fails. */
  function TakeId(e: State): State {
    e.(next := e.next + 1, zoomed := None)
  }

  /** `armed`: the target pane has a surface to inherit from. */
  function SplitTaken(e: State, pane: nat, target: nat, o: Orientation, area: nat, paned: nat, uuid: nat, armed: bool)
    : (State, Option<nat>)
  {
    if !armed then (e, None)
    else
      match SplitLeaf(e.root, target, Leaf(pane, area, 0, uuid, false), o, paned)
      case None => (e, None)
      case Some(root) => (e.(root := root, active := pane), Some(pane))
  }

  function SplitPane(e: State, target: nat, o: Orientation, area: nat, paned: nat, uuid: nat, armed: bool)
    : (State, Option<nat>)
  {
    SplitTaken(TakeId(e), e.next, target, o, area, paned, uuid, armed)
  }

  function SplitActive(e: State, o: Orientation, area: nat, paned: nat, uuid: nat, armed: bool)
    : (State, Option<nat>)
  {
    SplitPane(e, e.active, o, area, paned, uuid, armed)
  }

  function PreviewTaken(e: State, pane: nat, box: nat, paned: nat, uuid: nat): (State, Option<nat>) {
    match SplitLeaf(e.root, e.active, Preview(pane, box, uuid), Horizontal, paned)
    case None => (e, None)
    case Some(root) => (e.(root := root), Some(pane))
  }

  /** The active terminal stays active; the preview goes to its right. */
  function SplitPreview(e: State, box: nat, paned: nat, uuid: nat): (State, Option<nat>) {
    PreviewTaken(TakeId(e), e.next, box, paned, uuid)
  }

  /** The spiral continues from its tail while that pane is still open. */
  function SpiralTarget(e: State): nat {
    if e.tail.Some? && FindPane(e.root, e.tail.value).Some? then e.tail.value else e.active
  }

  function SpiralOrientation(size: Option<(int, int)>): Orientation {
    if size.Some? && size.value.1 > size.value.0 then Vertical else Horizontal
  }

  function SpiralSplit(e: State, target: Option<nat>, size: Option<(int, int)>,
                       area: nat, paned: nat, uuid: nat, armed: bool): (State, Option<nat>)
  {
    var goal := if target.Some? then target.value else SpiralTarget(e);
    var (e1, made) := SplitPane(e, goal, SpiralOrientation(size), area, paned, uuid, armed);
    if made.Some? then (e1.(tail := made), made) else (e1, made)
  }

  /** None: nothing was closed, the caller closes the workspace instead. */
  function Close(e: State): (State, Option<nat>) {
    var e1 := e.(zoomed := None);
    if IsPane(e.root, e.active) then (e1, None)
    else if HasTerminal(e.root, e.active) && Terminals(e.root) <= 1 then (e1, None)
    else
      match RemovePane(e.root, e.active)
      case None => (e1, None)
      case Some((root, survivor)) => (e1.(root := root, active := survivor), Some(survivor))
  }

  function Focus(e: State, dir: Direction): (State, bool) {
    match Adjacent(e.root, e.active, dir)
    case None => (e, false)
    case Some(id) => (e.(active := id), true)
  }

  /** A click into a pane, or a command that names one: ignored unless it is in the tree. */
  function FocusPane(e: State, id: nat): State {
    if FindPane(e.root, id).Some? then e.(active := id) else e
  }

  function ToggleZoom(e: State): State {
    if e.zoomed.Some? then e.(zoomed := None)
    else if !e.root.Split? then e
    else
      match FindParentPaned(e.root, e.active)
      case None => e
      case Some((paned, isStart)) => e.(zoomed := Some(Zoom(e.active, e.root.paned, paned, isStart)))
  }

  // ── Runs ───────────────────────────────────────────────────────────────────

  datatype Op =
    | DoSplit(o: Orientation, area: nat, paned: nat, uuid: nat, armed: bool)
    | DoPreview(box: nat, paned: nat, uuid: nat)
    | DoSpiral(target: Option<nat>, size: Option<(int, int)>, area: nat, paned: nat, uuid: nat, armed: bool)
    | DoClose
    | DoFocus(dir: Direction)
    | DoFocusPane(id: nat)
    | DoToggleZoom
    | DoSync(mapped: map<nat, nat>)

  function Exec(e: State, op: Op): State {
    match op
    case DoSplit(o, area, paned, uuid, armed) => SplitActive(e, o, area, paned, uuid, armed).0
    case DoPreview(box, paned, uuid) => SplitPreview(e, box, paned, uuid).0
    case DoSpiral(target, size, area, paned, uuid, armed) =>
      SpiralSplit(e, target, size, area, paned, uuid, armed).0
    case DoClose => Close(e).0
    case DoFocus(dir) => Focus(e, dir).0
    case DoFocusPane(id) => FocusPane(e, id)
    case DoToggleZoom => ToggleZoom(e)
    case DoSync(mapped) => e.(root := SyncNode(e.root, mapped))
  }

  function Run(e: State, ops: seq<Op>): State
    decreases ops
  {
    if ops == [] then e else Run(Exec(e, ops[0]), ops[1..])
  }

  /** What holds in every reachable state. */
  ghost predicate Inv(e: State) {
    && Unique(e.root)
    && (forall id :: id in Panes(e.root) ==> id < e.next)
    && e.active in Panes(e.root)
    && Terminals(e.root) >= 1
    && (e.tail.Some? ==> e.tail.value < e.next)
    && (e.zoomed.Some? ==>
          && e.root.Split?
          && e.zoomed.value.rootWidget == e.root.paned
          && FindParentPaned(e.root, e.zoomed.value.pane)
             == Some((e.zoomed.value.parentPaned, e.zoomed.value.wasStart)))
  }

  lemma NewEngineInv(pane: nat, area: nat, uuid: nat)
    ensures Inv(NewEngine(pane, area, uuid))
  {
  }

  /** From one state to a later one: the invariant stays, ids only grow, a pane that
      was not there before carries an id that was still unused, and a pane that is
      still there is the same one, with the same widget and uuid. */
  ghost predicate Progress(e: State, e': State) {
    && Inv(e')
    && e.next <= e'.next
    && (forall id :: id in Panes(e'.root) ==> id in Panes(e.root) || id >= e.next)
    && (forall id :: PaneStays(e.root, e'.root, id))
  }

  lemma ProgressTwice(e: State, e1: State, e2: State)
    requires Inv(e) && Progress(e, e1) && Progress(e1, e2)
    ensures Progress(e, e2)
  {
    forall id
      ensures PaneStays(e.root, e2.root, id)
    {
      FindPaneIffListed(e.root, id);
      FindPaneIffListed(e1.root, id);
      FindPaneIffListed(e2.root, id);
      assert PaneStays(e.root, e1.root, id) && PaneStays(e1.root, e2.root, id);
    }
  }

  lemma InsertProgress(e: State, target: nat, added: Node, o: Orientation, paned: nat)
    requires Inv(e) && !added.Split? && added.pane == e.next
    requires SplitLeaf(e.root, target, added, o, paned).Some?
    ensures var r := SplitLeaf(e.root, target, added, o, paned).value;
            && target in Panes(e.root) && Unique(r) && Terminals(r) >= Terminals(e.root)
            && target in Panes(r) && e.next in Panes(r)
            && (forall id :: id in Panes(r) <==> id in Panes(e.root) || id == e.next)
            && forall id :: PaneStays(e.root, r, id)
  {
    SplitLeafInserts(e.root, target, added, o, paned);
    SplitLeafFacts(e.root, target, added, o, paned);
    FindPaneIffListed(e.root, target);
    var r := SplitLeaf(e.root, target, added, o, paned).value;
    forall id
      ensures id in Panes(r) <==> id in Panes(e.root) || id == e.next
      ensures PaneStays(e.root, r, id)
    {
      assert id in Panes(r) <==> id in Elems(Panes(r));
      FindPaneIffListed(e.root, id);
      if id != added.pane {
        SplitLeafKeepsPane(e.root, target, added, o, paned, id);
      }
    }
  }

  lemma SplitProgress(e: State, o: Orientation, area: nat, paned: nat, uuid: nat, armed: bool)
    requires Inv(e)
    ensures Progress(e, SplitActive(e, o, area, paned, uuid, armed).0)
  {
    var added := Leaf(e.next, area, 0, uuid, false);
    if armed && SplitLeaf(e.root, e.active, added, o, paned).Some? {
      InsertProgress(e, e.active, added, o, paned);
    }
  }

  lemma PreviewProgress(e: State, box: nat, paned: nat, uuid: nat)
    requires Inv(e)
    ensures Progress(e, SplitPreview(e, box, paned, uuid).0)
  {
    var added := Preview(e.next, box, uuid);
    if SplitLeaf(e.root, e.active, added, Horizontal, paned).Some? {
      InsertProgress(e, e.active, added, Horizontal, paned);
    }
  }

  lemma SpiralProgress(e: State, target: Option<nat>, size: Option<(int, int)>,
                       area: nat, paned: nat, uuid: nat, armed: bool)
    requires Inv(e)
    ensures Progress(e, SpiralSplit(e, target, size, area, paned, uuid, armed).0)
  {
    var goal := if target.Some? then target.value else SpiralTarget(e);
    var o := SpiralOrientation(size);
    var added := Leaf(e.next, area, 0, uuid, false);
    if armed && SplitLeaf(e.root, goal, added, o, paned).Some? {
      InsertProgress(e, goal, added, o, paned);
    }
  }

  lemma CloseProgress(e: State)
    requires Inv(e)
    ensures Progress(e, Close(e).0)
  {
    var r := RemovePane(e.root, e.active);
    if Close(e).1.Some? {
      RemovePaneElems(e.root, e.active);
      RemovePaneTerminals(e.root, e.active);
      forall id | id in Panes(r.value.0)
        ensures id in Panes(e.root)
      {
        assert id in Elems(Panes(r.value.0));
      }
      forall id
        ensures PaneStays(e.root, r.value.0, id)
      {
        FindPaneIffListed(r.value.0, id);
        assert id in Panes(r.value.0) ==> id in Elems(Panes(r.value.0));
        if id != e.active {
          RemovePaneKeepsPane(e.root, e.active, id);
        }
      }
    }
  }

  lemma ExecProgress(e: State, op: Op)
    requires Inv(e)
    ensures Progress(e, Exec(e, op))
  {
    match op
    case DoSplit(o, area, paned, uuid, armed) => SplitProgress(e, o, area, paned, uuid, armed);
    case DoPreview(box, paned, uuid) => PreviewProgress(e, box, paned, uuid);
    case DoSpiral(target, size, area, paned, uuid, armed) =>
      SpiralProgress(e, target, size, area, paned, uuid, armed);
    case DoClose => CloseProgress(e);
    case DoFocus(dir) =>
    case DoFocusPane(id) => FindPaneIffListed(e.root, id);
    case DoToggleZoom =>
    case DoSync(mapped) => SyncProgress(e, mapped);
  }

  lemma SyncProgress(e: State, mapped: map<nat, nat>)
    requires Inv(e)
    ensures Progress(e, e.(root := SyncNode(e.root, mapped)))
  {
    SyncKeepsTree(e.root, mapped);
    forall id
      ensures PaneStays(e.root, SyncNode(e.root, mapped), id)
    {
      SyncKeepsPane(e.root, mapped, id);
    }
    if e.zoomed.Some? {
      SyncKeepsPane(e.root, mapped, e.zoomed.value.pane);
    }
  }

  /** Every reachable state is sound, ids are never reused, and a pane keeps its
      widget and uuid as long as it is in the tree. */
  lemma {:induction false} RunProgress(e: State, ops: seq<Op>)
    requires Inv(e)
    ensures Progress(e, Run(e, ops))
    decreases ops
  {
    if ops != [] {
      ExecProgress(e, ops[0]);
      RunProgress(Exec(e, ops[0]), ops[1..]);
      ProgressTwice(e, Exec(e, ops[0]), Run(e, ops));
    }
  }

  /** Only a close takes a pane out of the tree. */
  lemma ExecKeepsPanes(e: State, op: Op)
    requires Inv(e) && !op.DoClose?
    ensures forall id :: id in Panes(e.root) ==> id in Panes(Exec(e, op).root)
  {
    match op
    case DoSplit(o, area, paned, uuid, armed) =>
      var added := Leaf(e.next, area, 0, uuid, false);
      if SplitLeaf(e.root, e.active, added, o, paned).Some? {
        InsertProgress(e, e.active, added, o, paned);
      }
    case DoPreview(box, paned, uuid) =>
      var added := Preview(e.next, box, uuid);
      if SplitLeaf(e.root, e.active, added, Horizontal, paned).Some? {
        InsertProgress(e, e.active, added, Horizontal, paned);
      }
    case DoSpiral(target, size, area, paned, uuid, armed) =>
      var goal := if target.Some? then target.value else SpiralTarget(e);
      var added := Leaf(e.next, area, 0, uuid, false);
      if SplitLeaf(e.root, goal, added, SpiralOrientation(size), paned).Some? {
        InsertProgress(e, goal, added, SpiralOrientation(size), paned);
      }
    case DoFocus(_) =>
    case DoFocusPane(_) =>
    case DoToggleZoom =>
    case DoSync(mapped) => SyncKeepsTree(e.root, mapped);
  }

  /** One more operation at the end of a run. */
  lemma {:induction false} RunPush(e: State, ops: seq<Op>, op: Op)
    ensures Run(e, ops + [op]) == Exec(Run(e, ops), op)
    decreases ops
  {
    if ops == [] {
      assert (ops + [op])[1..] == [];
    } else {
      assert (ops + [op])[1..] == ops[1..] + [op];
      RunPush(Exec(e, ops[0]), ops[1..], op);
    }
  }

  /** Whatever is done to a workspace that starts as one terminal: pane ids are
      distinct and below the next one, the active pane is in the tree, a terminal
      is left, and a zoomed pane sits below a split. */
  lemma ReachableStatesAreSound(pane: nat, area: nat, uuid: nat, ops: seq<Op>)
    ensures var e := Run(NewEngine(pane, area, uuid), ops);
            && NoDup(Panes(e.root))
            && (forall id :: id in Panes(e.root) ==> pane <= id < e.next)
            && e.active in Panes(e.root)
            && Terminals(e.root) >= 1
            && (e.zoomed.Some? ==> e.root.Split? && e.zoomed.value.pane in Panes(e.root))
  {
    NewEngineInv(pane, area, uuid);
    RunProgress(NewEngine(pane, area, uuid), ops);
    var e := Run(NewEngine(pane, area, uuid), ops);
    UniqueIsNoDup(e.root);
    if e.zoomed.Some? {
      ParentPanedExists(e.root, e.zoomed.value.pane);
    }
  }

  /** A pane that was closed never comes back under its id, so a spiral tail
      whose pane was closed never resolves to another pane: the spiral falls
      back to the active pane until it has made a new tail. */
  lemma ClosedTailNeverResolves(e: State, ops: seq<Op>)
    requires Inv(e) && e.tail.Some? && e.tail.value !in Panes(e.root)
    ensures var e' := Run(e, ops);
            && e.tail.value !in Panes(e'.root)
            && (e'.tail == e.tail ==> SpiralTarget(e') == e'.active)
  {
    RunProgress(e, ops);
    FindPaneIffListed(Run(e, ops).root, e.tail.value);
  }

  // ── Splitting ──────────────────────────────────────────────────────────────

  /** Pane `target` has been divided: where it stood there is a divider of direction
      `o` with the pane first and the new one second, and the new pane comes right
      behind it in order. */
  ghost predicate Divided(n: Node, n': Node, target: nat, o: Orientation, paned: nat, added: Node) {
    && HasTerminal(n, target) && !added.Split? && FindPane(n', added.pane) == Some(added)
    && Over(n', added.pane) == Some(Split(o, paned, FindPane(n, target).value, added))
    && Panes(n') == InsertAfter(Panes(n), target, [added.pane])
  }

  lemma DividedBy(n: Node, target: nat, added: Node, o: Orientation, paned: nat)
    requires Unique(n) && !added.Split? && added.pane !in Panes(n)
    ensures var r := SplitLeaf(n, target, added, o, paned);
            if HasTerminal(n, target) then r.Some? && Divided(n, r.value, target, o, paned, added)
            else r.None?
  {
    SplitLeafInserts(n, target, added, o, paned);
    if HasTerminal(n, target) {
      SplitLeafOver(n, target, added, o, paned);
    }
  }

  /** A split makes the next id the active pane, in a divider of the direction asked for,
      exactly if the pane to be split is a terminal with a surface; else it only uses
      up the id. A zoom is undone in any case, and the spiral does not move. */
  lemma SplitDoes(e: State, target: nat, o: Orientation, area: nat, paned: nat, uuid: nat, armed: bool)
    requires Inv(e)
    ensures var (e', made) := SplitPane(e, target, o, area, paned, uuid, armed);
            && e'.next == e.next + 1 && e'.zoomed.None? && e'.tail == e.tail
            && if armed && HasTerminal(e.root, target) then
                 && made == Some(e.next) && e'.active == e.next
                 && Divided(e.root, e'.root, target, o, paned, Leaf(e.next, area, 0, uuid, false))
               else made.None? && e'.root == e.root && e'.active == e.active
  {
    DividedBy(e.root, target, Leaf(e.next, area, 0, uuid, false), o, paned);
  }

  /** A preview goes to the right of the active terminal, which stays active. */
  lemma PreviewDoes(e: State, box: nat, paned: nat, uuid: nat)
    requires Inv(e)
    ensures var (e', made) := SplitPreview(e, box, paned, uuid);
            && e'.next == e.next + 1 && e'.zoomed.None? && e'.tail == e.tail && e'.active == e.active
            && if HasTerminal(e.root, e.active) then
                 && made == Some(e.next)
                 && Divided(e.root, e'.root, e.active, Horizontal, paned, Preview(e.next, box, uuid))
               else made.None? && e'.root == e.root
  {
    DividedBy(e.root, e.active, Preview(e.next, box, uuid), Horizontal, paned);
  }

  /** A spawn splits the pane named, else the spiral's tail while it is open, else the
      active pane: downwards exactly if that pane is known to be taller than wide. The
      new pane is the tail from then on. */
  lemma SpiralDoes(e: State, target: Option<nat>, size: Option<(int, int)>,
                   area: nat, paned: nat, uuid: nat, armed: bool)
    requires Inv(e)
    ensures var (e', made) := SpiralSplit(e, target, size, area, paned, uuid, armed);
            var goal := match target
                        case Some(id) => id
                        case None => if e.tail.Some? && e.tail.value in Panes(e.root) then e.tail.value else e.active;
            var o := match size
                     case Some((width, height)) => if width < height then Vertical else Horizontal
                     case None => Horizontal;
            && e'.next == e.next + 1 && e'.zoomed.None?
            && if armed && HasTerminal(e.root, goal) then
                 && made == Some(e.next) && e'.active == e.next && e'.tail == Some(e.next)
                 && Divided(e.root, e'.root, goal, o, paned, Leaf(e.next, area, 0, uuid, false))
               else made.None? && e'.root == e.root && e'.active == e.active && e'.tail == e.tail
  {
    if e.tail.Some? {
      FindPaneIffListed(e.root, e.tail.value);
    }
    var goal := if target.Some? then target.value else SpiralTarget(e);
    SplitDoes(e, goal, SpiralOrientation(size), area, paned, uuid, armed);
  }

  // ── Closing ────────────────────────────────────────────────────────────────

  /** A close is refused exactly when the active pane is the only terminal;
      otherwise it takes out exactly that pane and keeps the others in order. */
  lemma CloseRefusedIffLastTerminal(e: State)
    requires Inv(e)
    ensures Close(e).1.None? <==> HasTerminal(e.root, e.active) && Terminals(e.root) == 1
    ensures Close(e).1.None? ==> Close(e).0 == e.(zoomed := None)
    ensures Close(e).1.Some? ==>
              && Panes(Close(e).0.root) == Without(Panes(e.root), e.active)
              && Close(e).1 == Some(Close(e).0.active)
              && Close(e).0 == e.(root := Close(e).0.root, active := Close(e).0.active, zoomed := None)
  {
    RemovePaneDefined(e.root, e.active);
    FindPaneIffListed(e.root, e.active);
    if Close(e).1.Some? {
      RemovePaneKeepsOrder(e.root, e.active);
    }
    if HasTerminal(e.root, e.active) {
      TerminalCounted(e.root, e.active);
    }
  }

  /** The pane that takes over is the first pane of the closed pane's sibling. */
  lemma CloseActivatesSibling(e: State) returns (path: seq<Side>, side: Side)
    requires Inv(e) && Close(e).1.Some?
    ensures Subtree(e.root, path).Some? && Subtree(e.root, path).value.Split?
    ensures var split := Subtree(e.root, path).value;
            && IsPane(Child(split, side), e.active)
            && Close(e).0.root == PutAt(e.root, path, Child(split, Other(side)))
            && Close(e).0.active == Panes(Child(split, Other(side)))[0]
  {
    RemovePaneDefined(e.root, e.active);
    path, side := RemovePaneIsPrune(e.root, e.active);
  }

  /** Closing right after a split restores the tree and the active pane. */
  lemma CloseUndoesSplit(e: State, o: Orientation, area: nat, paned: nat, uuid: nat)
    requires Inv(e)
    ensures var (e1, made) := SplitActive(e, o, area, paned, uuid, true);
            made.Some? ==>
              && Close(e1).0.root == e.root
              && Close(e1) == (e.(next := e.next + 1, zoomed := None), Some(e.active))
  {
    var (e1, made) := SplitActive(e, o, area, paned, uuid, true);
    if made.Some? {
      var added := Leaf(e.next, area, 0, uuid, false);
      SplitLeafFacts(e.root, e.active, added, o, paned) by {
        SplitLeafInserts(e.root, e.active, added, o, paned);
      }
      RemoveUndoesSplit(e.root, e.active, added, o, paned);
    }
  }

  // ── Focus ──────────────────────────────────────────────────────────────────

  function Opposite(dir: Direction): Direction {
    match dir
    case Left => Right
    case Right => Left
    case Up => Down
    case Down => Up
  }

  /** A focus move that succeeds is undone by the opposite move. */
  lemma FocusThereAndBack(e: State, dir: Direction)
    requires Inv(e)
    ensures Focus(e, dir).1 ==> Focus(Focus(e, dir).0, Opposite(dir)) == (e, true)
  {
    var panes := Panes(e.root);
    UniqueIsNoDup(e.root);
    var at := Position(panes, e.active);
    if dir == Left || dir == Up {
      if at > 0 {
        PositionUnique(panes, at - 1);
      }
    } else if at + 1 < |panes| {
      PositionUnique(panes, at + 1);
    }
  }

  /** `k` moves to the right. */
  function Rights(k: nat): seq<Op> {
    if k == 0 then [] else [DoFocus(Right)] + Rights(k - 1)
  }

  /** One move from the i-th pane: to the left and up is one back in order, to the
      right and down one forth, and at the ends nothing moves. */
  lemma FocusByPosition(e: State, i: nat, dir: Direction)
    requires Inv(e) && i < |Panes(e.root)| && e.active == Panes(e.root)[i]
    ensures var to := if dir == Left || dir == Up then i - 1 else i + 1;
            Focus(e, dir) == if 0 <= to < |Panes(e.root)| then (e.(active := Panes(e.root)[to]), true) else (e, false)
  {
    UniqueIsNoDup(e.root);
    PositionUnique(Panes(e.root), i);
  }

  /** From the i-th pane, k moves to the right reach pane i + k and then stay on
      the last one: starting at the first pane they visit every pane once, in
      tree order, and stop. */
  lemma {:induction false} RightMovesVisitInOrder(e: State, i: nat, k: nat)
    requires Inv(e) && i < |Panes(e.root)| && e.active == Panes(e.root)[i]
    ensures var last := |Panes(e.root)| - 1;
            Run(e, Rights(k)) == e.(active := Panes(e.root)[if i + k < last then i + k else last])
    decreases k
  {
    FocusByPosition(e, i, Right);
    if k > 0 {
      assert Rights(k)[0] == DoFocus(Right) && Rights(k)[1..] == Rights(k - 1);
      ExecProgress(e, DoFocus(Right));
      RightMovesVisitInOrder(Focus(e, Right).0, if i + 1 < |Panes(e.root)| then i + 1 else i, k - 1);
    }
  }

  // ── The spiral ─────────────────────────────────────────────────────────────

  /** Every start child is a single terminal: p0,(p1,(...pn)). */
  predicate RightSpine(n: Node) {
    n.Leaf? || (n.Split? && n.start.Leaf? && RightSpine(n.end))
  }

  /** Spawns without an explicit target, focus moves, zoom toggles, synchronisations. */
  predicate SpawnOrLook(op: Op) {
    (op.DoSpiral? && op.target.None?) || op.DoFocus? || op.DoFocusPane? || op.DoToggleZoom? || op.DoSync?
  }

  lemma {:induction false} SyncKeepsSpine(n: Node, mapped: map<nat, nat>)
    requires RightSpine(n)
    ensures RightSpine(SyncNode(n, mapped))
  {
    if n.Split? {
      SyncKeepsSpine(n.end, mapped);
    }
  }

  /** The panes made by the successful spawns of a run, oldest first. */
  function Spawned(e: State, ops: seq<Op>): seq<nat>
    decreases ops
  {
    if ops == [] then []
    else
      var made := if ops[0].DoSpiral? && ops[0].armed then [e.next] else [];
      made + Spawned(Exec(e, ops[0]), ops[1..])
  }

  /** The spiral is at the bottom of a spine, or has not begun. */
  ghost predicate OnSpine(e: State) {
    && Inv(e)
    && RightSpine(e.root)
    && (e.root.Leaf? || e.tail == Some(Panes(e.root)[|Panes(e.root)| - 1]))
  }

  /** Splitting the last pane of a spine gives a spine one longer. */
  lemma {:induction false} SpineGrows(n: Node, added: Node, o: Orientation, paned: nat)
    requires RightSpine(n) && Unique(n) && added.Leaf?
    ensures var r := SplitLeaf(n, Panes(n)[|Panes(n)| - 1], added, o, paned);
            && r.Some? && RightSpine(r.value) && r.value.Split?
            && Panes(r.value) == Panes(n) + [added.pane]
            && Height(r.value) == Height(n) + 1
  {
    if n.Split? {
      SpineGrows(n.end, added, o, paned);
      var last := Panes(n.end)[|Panes(n.end)| - 1];
      assert Panes(n)[|Panes(n)| - 1] == last;
      assert last in Elems(Panes(n.end)) && n.start.pane in Elems(Panes(n.start));
      var r := SplitLeaf(n.end, last, added, o, paned).value;
      assert Panes(n.start) + (Panes(n.end) + [added.pane]) == Panes(n.start) + Panes(n.end) + [added.pane];
    }
  }

  /** A spawn at the end of a spine. */
  lemma SpawnGrowsSpine(e: State, op: Op)
    requires OnSpine(e) && op.DoSpiral? && op.target.None? && op.armed
    ensures var e' := Exec(e, op);
            && RightSpine(e'.root) && e'.root.Split? && e'.tail == Some(e.next)
            && Panes(e'.root) == Panes(e.root) + [e.next] && Height(e'.root) == Height(e.root) + 1
  {
    var last := Panes(e.root)[|Panes(e.root)| - 1];
    FindPaneIffListed(e.root, last);
    assert SpiralTarget(e) == last;
    var added := Leaf(e.next, op.area, 0, op.uuid, false);
    SpineGrows(e.root, added, SpiralOrientation(op.size), op.paned);
  }

  lemma SpawnKeepsSpine(e: State, op: Op)
    requires OnSpine(e) && SpawnOrLook(op)
    ensures OnSpine(Exec(e, op))
    ensures Panes(Exec(e, op).root) == Panes(e.root) + (if op.DoSpiral? && op.armed then [e.next] else [])
    ensures Height(Exec(e, op).root) == Height(e.root) + (if op.DoSpiral? && op.armed then 1 else 0)
  {
    ExecProgress(e, op);
    if op.DoSpiral? && op.armed {
      SpawnGrowsSpine(e, op);
    } else {
      if op.DoSync? {
        SyncKeepsTree(e.root, op.mapped);
        SyncKeepsSpine(e.root, op.mapped);
      }
      assert Panes(e.root) + [] == Panes(e.root);
    }
  }

  lemma Assoc<T>(a: seq<T>, b: seq<T>, c: seq<T>)
    ensures a + b + c == a + (b + c)
  {
  }

  /** Starting from one terminal, spawns always extend the same spine whatever
      was looked at in between: its panes are the first one and the spawned ones
      in order, and its height is their number. */
  lemma {:induction false} SpawnsFormSpine(e: State, ops: seq<Op>)
    requires OnSpine(e)
    requires forall op :: op in ops ==> SpawnOrLook(op)
    ensures var e' := Run(e, ops);
            && OnSpine(e')
            && Panes(e'.root) == Panes(e.root) + Spawned(e, ops)
            && Height(e'.root) == Height(e.root) + |Spawned(e, ops)|
    decreases ops
  {
    if ops != [] {
      var e1, rest := Exec(e, ops[0]), ops[1..];
      assert SpawnOrLook(ops[0]);
      SpawnKeepsSpine(e, ops[0]);
      SpawnsFormSpine(e1, rest);
      var made := if ops[0].DoSpiral? && ops[0].armed then [e.next] else [];
      assert Run(e, ops) == Run(e1, rest);
      Assoc(Panes(e.root), made, Spawned(e1, rest));
    } else {
      assert Panes(e.root) + [] == Panes(e.root);
    }
  }

  // ── Where closing goes wrong on screen ─────────────────────────────────────

  /** Two plain splits are enough to make the active pane's split a nested one,
      the case in which a close leaves the widgets behind
      (see SplitEngine.CloseActive). */
  lemma NestedCloseIsReachable()
    ensures var e := Run(NewEngine(1000, 1, 7),
                         [DoSplit(Horizontal, 2, 3, 8, true), DoSplit(Vertical, 4, 5, 9, true)]);
            && Panes(e.root) == [1000, 1001, 1002] && e.active == 1002
            && Close(e).1 == Some(1001) && !TopChild(e.root, e.active)
  {
    var e0 := NewEngine(1000, 1, 7);
    var op1, op2 := DoSplit(Horizontal, 2, 3, 8, true), DoSplit(Vertical, 4, 5, 9, true);
    var e1 := Exec(e0, op1);
    var e2 := Exec(e1, op2);
    assert [op1, op2][1..] == [op2] && [op2][1..] == [];
    assert Run(e0, [op1, op2]) == Run(e1, [op2]) == Run(e2, []) == e2;
  }
}
