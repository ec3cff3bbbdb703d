// The layout engine as it runs (`SplitEngine` in src/split_engine.rs): each
// operation rewrites the layout tree and moves widgets step by step, and the
// moves run the realize/unrealize handlers. `Valid` says that the three views
// of a layout agree: tree, widget forest and surfaces.
module SplitEngines {
  import opened Prelude
  import opened Layout
  import opened Engine
  import opened Widgets
  import opened Drawing
  import opened Surfaces
  import opened Toolkit
  import opened Agreement

  /** What a user, a socket command or the restore sweep asks of an engine. */
  datatype Command =
    | SplitCommand(o: Orientation, uuid: nat)
    | PreviewCommand(uuid: nat)
    | SpawnCommand(target: Option<nat>, size: Option<(int, int)>, uuid: nat)
    | CloseCommand
    | FocusCommand(dir: Direction)
    | ClickCommand(id: nat)
    | ZoomCommand
    | SyncCommand

  /** One moment in the life of an engine: its fields, the surfaces, and the number
      the next widget gets. */
  datatype Moment = Moment(s: State, v: Life, wid: nat)

  /** The operation a command is, given the next widget number, whether the pane to
      be split holds a surface, and the pointers that a synchronisation copies. */
  function OpOf(c: Command, wid: nat, armed: bool, mapped: map<nat, nat>): Op {
    match c
    case SplitCommand(o, uuid) => DoSplit(o, wid, wid + 1, uuid, armed)
    case PreviewCommand(uuid) => DoPreview(wid, wid + 1, uuid)
    case SpawnCommand(target, size, uuid) => DoSpiral(target, size, wid, wid + 1, uuid, armed)
    case CloseCommand => DoClose
    case FocusCommand(dir) => DoFocus(dir)
    case ClickCommand(id) => DoFocusPane(id)
    case ZoomCommand => DoToggleZoom
    case SyncCommand => DoSync(mapped)
  }

  /** The operations that focus moves are. */
  function MoveOps(moves: seq<Command>): (r: seq<Op>)
    ensures |r| == |moves|
  {
    seq(|moves|, i requires 0 <= i < |moves| => OpOf(moves[i], 0, false, map[]))
  }

  lemma MovesPush(e: State, moves: seq<Command>, i: nat)
    requires i < |moves|
    ensures Run(e, MoveOps(moves[..i + 1])) == Exec(Run(e, MoveOps(moves[..i])), OpOf(moves[i], 0, false, map[]))
  {
    assert MoveOps(moves[..i + 1]) == MoveOps(moves[..i]) + [OpOf(moves[i], 0, false, map[])];
    RunPush(e, MoveOps(moves[..i]), OpOf(moves[i], 0, false, map[]));
  }

  /** The pane that a splitting command splits. */
  function Goal(c: Command, s: State): nat {
    if c.SpawnCommand? then if c.target.Some? then c.target.value else SpiralTarget(s)
    else s.active
  }

  /** `armed` tells whether the pane to be split holds a surface once a zoom is undone. */
  ghost predicate Told(armed: bool, c: Command, m: Moment) {
    armed <==> CanSplit(m.s, Goal(c, m.s), m.v)
  }

  /** The pointers copied are those of areas that hold a surface: of all, when all
      are on screen. */
  ghost predicate Copied(mapped: map<nat, nat>, m: Moment) {
    && (forall a :: a in mapped ==> a in m.v.cells && mapped[a] == m.v.cells[a])
    && (m.s.zoomed.None? ==> m.v.cells.Keys <= mapped.Keys)
  }

  ghost predicate CarriedOutAs(c: Command, op: Op, m: Moment) {
    if op.DoSplit? || op.DoSpiral? then op == OpOf(c, m.wid, op.armed, map[]) && Told(op.armed, c, m)
    else if op.DoSync? then op == OpOf(c, m.wid, false, op.mapped) && Copied(op.mapped, m)
    else op == OpOf(c, m.wid, false, map[])
  }

  /** The areas that a command brings on screen. */
  function Shows(c: Command, op: Op, m: Moment): set<nat> {
    match c
    case PreviewCommand(_) => Woken(m.s) + AreaOf(m.s.root, m.s.active)
    case CloseCommand => if Closes(c, m) then Elems(Areas(Draw(Close(m.s).0.root))) else Woken(m.s)
    case ZoomCommand => ZoomShows(m.s)
    case SplitCommand(_, _) => Woken(m.s) + if op.DoSplit? && op.armed then {m.wid} else {}
    case SpawnCommand(_, _, _) => Woken(m.s) + if op.DoSpiral? && op.armed then {m.wid} else {}
    case _ => {}
  }

  predicate Closes(c: Command, m: Moment) {
    c.CloseCommand? && Close(m.s).1.Some?
  }

  /** The area whose surface a command frees. */
  function Drops(c: Command, m: Moment): set<nat> {
    if Closes(c, m) then AreaOf(m.s.root, m.s.active) else {}
  }

  /** Command `c`, carried out as `op`, leads from `m` to `m'`: the panes carry their
      surfaces along, and of the areas that come on screen exactly those hold one that
      did or are granted one. */
  ghost predicate Leads(c: Command, op: Op, m: Moment, m': Moment) {
    && CarriedOutAs(c, op, m)
    && m'.s == Exec(m.s, op) && m.wid <= m'.wid
    && Carries(m.s.root, m.v, m'.s.root, m'.v)
    && Emptied(m.v, m'.v, Drops(c, m), Shows(c, op, m))
  }

  /** Pane `target` is divided towards `o` if it can be split, and the new terminal is
      active and holds a surface exactly if it is granted one; else neither the tree nor
      the active pane changes. */
  ghost predicate SplitTo(m: Moment, m': Moment, target: nat, o: Orientation, uuid: nat) {
    if CanSplit(m.s, target, m.v) then
      && Divided(m.s.root, m'.s.root, target, o, m.wid + 1, Leaf(m.s.next, m.wid, 0, uuid, false))
      && m'.s.active == m.s.next
      && (Armed(m'.s.root, m.s.next, m'.v) <==> m.wid in m.v.grants)
    else m'.s.root == m.s.root && m'.s.active == m.s.active
  }

  /** What a command has done when it has led from one moment to the next. */
  lemma LeadsMeans(c: Command, op: Op, m: Moment, m': Moment)
    requires Inv(m.s) && Leads(c, op, m, m') && m.wid !in m.v.cells
    ensures match c
            case SplitCommand(o, uuid) => SplitTo(m, m', m.s.active, o, uuid) && m'.s.tail == m.s.tail
            case SpawnCommand(target, size, uuid) =>
              var goal := if target.Some? then target.value else SpiralTarget(m.s);
              && SplitTo(m, m', goal, SpiralOrientation(size), uuid)
              && m'.s.tail == if CanSplit(m.s, goal, m.v) then Some(m.s.next) else m.s.tail
            case PreviewCommand(uuid) =>
              && m'.s.active == m.s.active
              && if HasTerminal(m.s.root, m.s.active) then
                   Divided(m.s.root, m'.s.root, m.s.active, Horizontal, m.wid + 1, Preview(m.s.next, m.wid, uuid))
                 else m'.s.root == m.s.root
            case CloseCommand => m'.s == Close(m.s).0
            case FocusCommand(dir) => m'.s == Focus(m.s, dir).0
            case ClickCommand(id) => m'.s == if id in Panes(m.s.root) then m.s.(active := id) else m.s
            case ZoomCommand => m'.s == ToggleZoom(m.s)
            case SyncCommand => exists mapped :: Copied(mapped, m) && m'.s == m.s.(root := SyncNode(m.s.root, mapped))
  {
    match c
    case SplitCommand(o, uuid) => SplitDoes(m.s, m.s.active, o, m.wid, m.wid + 1, uuid, op.armed);
    case SpawnCommand(target, size, uuid) =>
      SpiralDoes(m.s, target, size, m.wid, m.wid + 1, uuid, op.armed);
      SpiralGoal(m.s, size);
    case PreviewCommand(uuid) => PreviewDoes(m.s, m.wid, m.wid + 1, uuid);
    case ClickCommand(id) => FindPaneIffListed(m.s.root, id);
    case SyncCommand => assert Copied(op.mapped, m);
    case _ =>
  }

  lemma SpiralGoal(s: State, size: Option<(int, int)>)
    ensures SpiralTarget(s) == if s.tail.Some? && s.tail.value in Panes(s.root) then s.tail.value else s.active
    ensures SpiralOrientation(size)
            == match size
               case Some((width, height)) => if width < height then Vertical else Horizontal
               case None => Horizontal
  {
    if s.tail.Some? {
      FindPaneIffListed(s.root, s.tail.value);
    }
  }

  /** The same moment with the environment granting the given areas. */
  function Granting(m: Moment, grants: set<nat>): Moment {
    m.(v := m.v.(grants := grants))
  }

  /** The first commands, one operation for each, and the moments before, between and
      after them; `grants` is what the environment grants during each. */
  ghost predicate Traced(commands: seq<Command>, grants: seq<set<nat>>, ops: seq<Op>, moments: seq<Moment>) {
    && |ops| <= |commands| == |grants| && |moments| == |ops| + 1
    && forall i :: 0 <= i < |ops| ==> Leads(commands[i], ops[i], Granting(moments[i], grants[i]), moments[i + 1])
  }

  lemma TraceGrows(commands: seq<Command>, grants: seq<set<nat>>, ops: seq<Op>, moments: seq<Moment>,
                   op: Op, m: Moment)
    requires Traced(commands, grants, ops, moments) && |ops| < |commands|
    requires Leads(commands[|ops|], op, Granting(moments[|ops|], grants[|ops|]), m)
    ensures Traced(commands, grants, ops + [op], moments + [m])
    ensures (moments + [m])[0] == moments[0] && (moments + [m])[|ops| + 1] == m
  {
  }

  class SplitEngine {
    const gtk: Gtk
    var root: Node
    var active: nat
    var next: nat
    var tail: Option<nat>
    var zoomed: Option<Zoom>

    function View(): State
      reads this
    {
      State(root, active, next, tail, zoomed)
    }

    ghost function Now(): Moment
      reads this, gtk, gtk.reg
    {
      Moment(View(), gtk.reg.View(), gtk.nextWid)
    }

    ghost predicate Valid()
      reads this, gtk, gtk.reg
    {
      && gtk.Valid()
      && !gtk.rejected
      && Agrees(View(), gtk.trees, gtk.reg.View())
    }

    /** The Stack page keeps its name and widget numbers are not handed out twice. */
    predicate Steady(name: string, wids: nat)
      reads gtk
    {
      gtk.pageName == name && wids <= gtk.nextWid
    }

    /** A fresh workspace: one terminal on its own Stack page. */
    constructor (gtk: Gtk, pane: nat, uuid: nat, name: string)
      requires gtk.Valid() && !gtk.rejected && PAGE !in gtk.trees
      requires gtk.reg.cells == map[] && gtk.reg.preserve == {}
      modifies gtk, gtk.reg
      ensures this.gtk == gtk && Valid() && gtk.pageName == name
      ensures View() == NewEngine(pane, old(gtk.nextWid), uuid)
      ensures gtk.reg.freed == old(gtk.reg.freed)
      ensures Filled(old(gtk.reg.View()), gtk.reg.View(), {old(gtk.nextWid)})
    {
      var area := gtk.NewArea(pane, None);
      this.gtk := gtk;
      root := Leaf(pane, area, 0, uuid, false);
      active, next, tail, zoomed := pane, pane + 1, None, None;
      new;
      gtk.StackAdd(area, name);
      FreshAgrees(pane, area, uuid, gtk.trees, gtk.reg.View());
    }

    /** A restored workspace: a rebuilt tree, all of it detached, goes on its page. */
    constructor FromTree(gtk: Gtk, tree: Node, active: nat, next: nat, name: string)
      requires gtk.Valid() && !gtk.rejected && PAGE !in gtk.trees
      requires gtk.reg.cells == map[] && gtk.reg.preserve == {}
      requires RootWidget(tree) in gtk.trees && gtk.trees[RootWidget(tree)] == Draw(tree)
      requires Labelled(tree, gtk.reg.paneOf) && Synced(tree, map[]) && Proper(Draw(tree))
      requires Inv(State(tree, active, next, None, None))
      modifies gtk, gtk.reg
      ensures this.gtk == gtk && Valid() && gtk.pageName == name
      ensures View() == State(tree, active, next, None, None)
      ensures gtk.reg.freed == old(gtk.reg.freed)
      ensures Filled(old(gtk.reg.View()), gtk.reg.View(), Elems(Areas(Draw(tree))))
      ensures gtk.startDirs == old(gtk.startDirs)
    {
      this.gtk := gtk;
      this.root, this.active, this.next, this.tail, this.zoomed := tree, active, next, None, None;
      new;
      gtk.StackAdd(RootWidget(tree), name);
      SyncedKept(tree, map[], gtk.reg.cells);
    }

    // ── Zooming ──────────────────────────────────────────────────────────────

    /** `mark_subtree_preserve_on_unrealize` */
    method MarkSubtree(n: Node)
      requires gtk.Valid()
      modifies gtk.reg`preserve
      ensures gtk.Valid()
      ensures gtk.reg.View() == old(gtk.reg.View()).(preserve := old(gtk.reg.preserve) + Elems(Areas(Draw(n))))
      decreases n
    {
      match n
      case Leaf(_, area, _, _, _) => gtk.MarkPreserve(area);
      case Preview(_, _, _) =>
      case Split(_, _, start, end) =>
        ElemsConcat(Areas(Draw(start)), Areas(Draw(end)));
        MarkSubtree(start);
        MarkSubtree(end);
    }

    /** Take the whole drawing off the page, every area marked, and show one pane. */
    method ShowAlone(pane: Node)
      requires gtk.Valid() && PAGE in gtk.trees && root.Split? && gtk.trees[PAGE] == Draw(root)
      requires RootWidget(pane) in Ids(Draw(root)) && RootWidget(pane) != root.paned
      requires At(Draw(root), RootWidget(pane)) == Draw(pane) && gtk.reg.preserve == {}
      modifies gtk, gtk.reg
      ensures gtk.Valid() && gtk.rejected == old(gtk.rejected)
      ensures gtk.pageName == old(gtk.pageName) && gtk.nextWid == old(gtk.nextWid)
      ensures gtk.trees == (old(gtk.trees) - {PAGE})
                [root.paned := Graft(Draw(root), RootWidget(pane), Empty)][PAGE := Draw(pane)]
      ensures Reshown(old(gtk.reg.View()).(preserve := Elems(Areas(Draw(root)))), gtk.reg.View(),
                      Elems(Areas(Draw(root))), Elems(Areas(Draw(pane))))
    {
      MarkSubtree(root);
      assert gtk.reg.View() == old(gtk.reg.View()).(preserve := Elems(Areas(Draw(root))));
      gtk.ReplaceChild(root.paned, RootWidget(pane), PAGE);
    }

    method ZoomActivePane()
      requires Valid() && zoomed.None?
      modifies `zoomed, gtk, gtk.reg
      ensures Valid() && View() == Engine.ToggleZoom(old(View()))
      ensures Kept(root, old(gtk.reg.View()), gtk.reg.View())
      ensures Filled(old(gtk.reg.View()), gtk.reg.View(), if root.Split? then AreaOf(root, active) else {})
      ensures gtk.pageName == old(gtk.pageName) && gtk.nextWid == old(gtk.nextWid)
      ensures root.Split? ==>
                && FindPane(root, active).Some?
                && var pane := FindPane(root, active).value;
                   gtk.trees == (old(gtk.trees) - {PAGE})
                     [root.paned := Graft(Draw(root), RootWidget(pane), Empty)][PAGE := Draw(pane)]
      ensures !root.Split? ==> gtk.trees == old(gtk.trees)
    {
      Open(View(), gtk.trees, gtk.reg.View());
      if !root.Split? {
        return;
      }
      ghost var s, t, v := View(), gtk.trees, gtk.reg.View();
      ZoomReady(s, t, gtk.nextWid);
      var pane, slot := FindPane(root, active).value, FindParentPaned(root, active).value;
      ShowAlone(pane);
      ZoomAgrees(s, t, gtk.trees, v, gtk.reg.View());
      zoomed := Some(Zoom(active, root.paned, slot.0, slot.1));
    }

    /** Take the page's pane off the page without losing its surface. */
    method LiftPane(pane: Node)
      requires gtk.Valid() && PAGE in gtk.trees && gtk.trees[PAGE] == Draw(pane) && !pane.Split?
      requires gtk.reg.preserve == {}
      modifies gtk`trees, gtk.reg
      ensures gtk.Valid() && gtk.reg.View() == old(gtk.reg.View())
      ensures gtk.trees == (old(gtk.trees) - {PAGE})[RootWidget(pane) := Draw(pane)]
    {
      if pane.Leaf? {
        gtk.MarkPreserve(pane.area);
      }
      gtk.RemoveFromParent(RootWidget(pane), PAGE);
      MarkedRelease(old(gtk.reg.View()), gtk.reg.View(), Elems(Areas(Draw(pane))));
    }

    /** Put a detached pane back into the slot it was cut from. */
    method Refit(z: Zoom, pane: Node)
      requires gtk.Valid() && z.rootWidget in gtk.trees && z.rootWidget != PAGE && z.rootWidget != RootWidget(pane)
      requires RootWidget(pane) in gtk.trees && RootWidget(pane) != PAGE && gtk.trees[RootWidget(pane)] == Draw(pane)
      requires var cut := gtk.trees[z.rootWidget];
               z.parentPaned in Ids(cut) && At(cut, z.parentPaned).Paned?
               && Slot(At(cut, z.parentPaned), if z.wasStart then Start else End) == Empty
      modifies gtk`trees, gtk`rejected, gtk.reg
      ensures gtk.Valid() && gtk.reg.View() == old(gtk.reg.View()) && gtk.rejected == old(gtk.rejected)
      ensures var cut := old(gtk.trees)[z.rootWidget];
              var side := if z.wasStart then Start else End;
              gtk.trees == (old(gtk.trees) - {RootWidget(pane)})
                [z.rootWidget := Graft(cut, z.parentPaned, WithSlot(At(cut, z.parentPaned), side, Draw(pane)))]
    {
      AtFacts(Draw(pane), RootWidget(pane));
      gtk.SetSlot(z.parentPaned, if z.wasStart then Start else End, RootWidget(pane), z.rootWidget, RootWidget(pane));
      gtk.RemoveFromParent(z.rootWidget, z.rootWidget);
    }

    /** Move the page's pane back into its slot, and the whole drawing onto the page. */
    method Rejoin(z: Zoom, pane: Node, ghost whole: Widget)
      requires gtk.Valid() && PAGE in gtk.trees && gtk.trees[PAGE] == Draw(pane) && !pane.Split?
      requires gtk.reg.preserve == {} && Refits(gtk.trees, z, pane, whole)
      modifies gtk, gtk.reg
      ensures gtk.Valid() && gtk.rejected == old(gtk.rejected)
      ensures gtk.pageName == old(gtk.pageName) && gtk.nextWid == old(gtk.nextWid)
      ensures gtk.trees == (old(gtk.trees) - {z.rootWidget})[PAGE := whole]
      ensures Acquired(old(gtk.reg.View()), gtk.reg.View(), Elems(Areas(whole)))
    {
      RejoinMaps(gtk.trees, z.rootWidget, RootWidget(pane), Draw(pane), whole);
      var name := gtk.pageName;
      PutInPlace(z, pane, whole);
      gtk.StackAdd(z.rootWidget, name);
    }

    method PutInPlace(z: Zoom, pane: Node, ghost whole: Widget)
      requires gtk.Valid() && PAGE in gtk.trees && gtk.trees[PAGE] == Draw(pane) && !pane.Split?
      requires gtk.reg.preserve == {} && Refits(gtk.trees, z, pane, whole)
      modifies gtk`trees, gtk`rejected, gtk.reg
      ensures gtk.Valid() && gtk.rejected == old(gtk.rejected) && gtk.reg.View() == old(gtk.reg.View())
      ensures gtk.trees == ((old(gtk.trees) - {PAGE})[RootWidget(pane) := Draw(pane)] - {RootWidget(pane)})
                [z.rootWidget := whole]
    {
      LiftPane(pane);
      Refit(z, pane);
    }

    /** None of the source's early returns after `zoomed.take()` can be reached: the
        pane is in the tree and its widget is the Stack's page. */
    method Unzoom()
      requires Valid() && zoomed.Some?
      modifies `zoomed, gtk, gtk.reg
      ensures Valid() && View() == old(View()).(zoomed := None)
      ensures Kept(root, old(gtk.reg.View()), gtk.reg.View())
      ensures Filled(old(gtk.reg.View()), gtk.reg.View(), Elems(Areas(Draw(root))))
      ensures gtk.pageName == old(gtk.pageName) && gtk.nextWid == old(gtk.nextWid)
      ensures root.Split? && gtk.trees == (old(gtk.trees) - {root.paned})[PAGE := Draw(root)]
    {
      Open(View(), gtk.trees, gtk.reg.View());
      ghost var s, t, v := View(), gtk.trees, gtk.reg.View();
      var z := zoomed.value;
      zoomed := None;
      UnzoomPlaces(s, t, gtk.nextWid);
      var pane := FindPane(root, z.pane).value;
      Rejoin(z, pane, Draw(root));
      UnzoomAgrees(s, t, gtk.trees, v, gtk.reg.View());
    }

    method UnzoomIfNeeded()
      requires Valid()
      modifies `zoomed, gtk, gtk.reg
      ensures Valid() && View() == old(View()).(zoomed := None)
      ensures Kept(root, old(gtk.reg.View()), gtk.reg.View())
      ensures Filled(old(gtk.reg.View()), gtk.reg.View(), Woken(old(View())))
      ensures gtk.pageName == old(gtk.pageName) && gtk.nextWid == old(gtk.nextWid)
      ensures old(zoomed).None? ==> gtk.reg.View() == old(gtk.reg.View())
    {
      if zoomed.Some? {
        Unzoom();
      }
    }

    method ToggleZoom() returns (now: bool)
      requires Valid()
      modifies `zoomed, gtk, gtk.reg
      ensures Valid() && View() == Engine.ToggleZoom(old(View())) && now == zoomed.Some?
      ensures Kept(root, old(gtk.reg.View()), gtk.reg.View())
      ensures Filled(old(gtk.reg.View()), gtk.reg.View(), ZoomShows(old(View())))
      ensures gtk.pageName == old(gtk.pageName) && gtk.nextWid == old(gtk.nextWid)
      ensures old(zoomed).None? && !root.Split? ==> gtk.trees == old(gtk.trees)
      ensures old(zoomed).None? && root.Split? ==>
                && FindPane(root, active).Some?
                && var pane := FindPane(root, active).value;
                   gtk.trees == (old(gtk.trees) - {PAGE})
                     [root.paned := Graft(Draw(root), RootWidget(pane), Empty)][PAGE := Draw(pane)]
      ensures old(zoomed).Some? ==>
                root.Split? && gtk.trees == (old(gtk.trees) - {root.paned})[PAGE := Draw(root)]
    {
      if zoomed.Some? {
        Unzoom();
      } else {
        ZoomActivePane();
      }
      now := zoomed.Some?;
    }

    // ── Splitting ────────────────────────────────────────────────────────────

    /** In the tree and on screen, pane `target` and the new one share a divider of
        direction `o`, the new one second. */
    ghost predicate Beside(n: Node, target: nat, o: Orientation, paned: nat, added: Node)
      reads this, gtk
    {
      && Divided(n, root, target, o, paned, added)
      && PAGE in gtk.trees
      && At(gtk.trees[PAGE], paned) == Paned(paned, o, Area(FindPane(n, target).value.area), DrawnAlone(added))
    }

    /** The replacer of a split: the old pane keeps its surface while it moves
        into a new divider next to the added pane. */
    method WrapLeaf(node: Node, added: Node, o: Orientation) returns (r: Node)
      requires gtk.Valid() && gtk.reg.preserve == {} && node.Leaf? && OnPage(gtk.trees, node)
      requires !added.Split? && RootWidget(added) in gtk.trees && RootWidget(added) != PAGE
      requires gtk.trees[RootWidget(added)] == Draw(added)
      modifies gtk`trees, gtk`nextWid, gtk`rejected, gtk.reg
      ensures gtk.Valid() && gtk.reg.View() == old(gtk.reg.View()) && gtk.rejected == old(gtk.rejected)
      ensures r == Split(o, old(gtk.nextWid), node, added) && gtk.nextWid == old(gtk.nextWid) + 1
      ensures Replaced(old(gtk.trees), gtk.trees, node, r, RootWidget(added))
    {
      ghost var t, w, q := gtk.trees, node.area, gtk.nextWid;
      NotAKey(t, q, w);
      KeysBelow(t, q);
      WrappedRoot(t, w, RootWidget(added), Area(w), q, Draw(Split(o, q, node, added)));
      WrappedNested(t, w, RootWidget(added), Graft(t[PAGE], w, Empty), Area(w), q, Draw(Split(o, q, node, added)));
      TakeOut(node);
      var paned := gtk.Enclose(node.area, RootWidget(added), o);
      r := Split(o, paned, node, added);
    }

    /** A terminal leaves its place with its surface kept. */
    method TakeOut(node: Node)
      requires gtk.Valid() && gtk.reg.preserve == {} && node.Leaf? && OnPage(gtk.trees, node)
      modifies gtk`trees, gtk.reg
      ensures gtk.Valid() && gtk.reg.View() == old(gtk.reg.View())
      ensures var t, w := old(gtk.trees), node.area;
              gtk.trees == if Holds(t[PAGE], w) then (t - {PAGE})[w := Area(w)]
                           else t[PAGE := Graft(t[PAGE], w, Empty)][w := Area(w)]
    {
      gtk.MarkPreserve(node.area);
      gtk.RemoveFromParent(node.area, PAGE);
      MarkedRelease(old(gtk.reg.View()), gtk.reg.View(), {node.area});
    }

    /** Going back up after a split further down, the divider's slot is set to the
        child's root widget: a child that kept its root is in it already. */
    method PutBackSame(node: Node, side: Side, child: Node, ghost w: Widget)
      requires gtk.Valid() && PAGE in gtk.trees && node.Split? && child.Split?
      requires Proper(w) && node.paned in Ids(w) && At(w, node.paned) == Draw(node)
      requires RootWidget(child) == RootWidget(Child(node, side))
      requires gtk.trees[PAGE] == Graft(w, RootWidget(child), Draw(child))
      modifies gtk`trees, gtk`rejected, gtk.reg
      ensures gtk.Valid() && gtk.rejected == old(gtk.rejected) && gtk.reg.View() == old(gtk.reg.View())
      ensures gtk.trees == old(gtk.trees)
      ensures gtk.trees[PAGE] == Graft(w, node.paned, Draw(WithChild(node, side, child)))
    {
      SameSlot(w, node, side, child);
      ChildBelow(w, node, side);
      AtGraftSelf(w, child.paned, Draw(child));
      gtk.SetSlot(node.paned, side, RootWidget(child), PAGE, PAGE);
    }

    /** Going back up after a split further down, a child that is a new divider fills
        the slot the split pane was taken from. */
    method PutBackNew(node: Node, side: Side, child: Node, ghost w: Widget)
      requires gtk.Valid() && PAGE in gtk.trees && node.Split? && child.Split?
      requires Proper(w) && node.paned in Ids(w) && At(w, node.paned) == Draw(node)
      requires gtk.trees[PAGE] == Graft(w, RootWidget(Child(node, side)), Empty)
      requires child.paned in gtk.trees && child.paned != PAGE && gtk.trees[child.paned] == Draw(child)
      modifies gtk`trees, gtk`rejected, gtk.reg
      ensures gtk.Valid() && gtk.rejected == old(gtk.rejected)
      ensures gtk.trees == (old(gtk.trees) - {child.paned})
                [PAGE := Graft(w, node.paned, Draw(WithChild(node, side, child)))]
      ensures Acquired(old(gtk.reg.View()), gtk.reg.View(), Elems(Areas(Draw(child))))
    {
      RefillSlot(w, node, side, child);
      assert !Holds(Slot(At(gtk.trees[PAGE], node.paned), side), child.paned);
      gtk.SetSlot(node.paned, side, RootWidget(child), PAGE, child.paned);
    }

    method PutBack(node: Node, side: Side, child: Node, ghost t: Trees, ghost q: nat,
                   ghost target: nat, ghost added: Node, ghost o: Orientation)
      requires gtk.Valid() && node.Split?
      requires Forest(t, q) && 0 < q && OnPage(t, node) && RootWidget(added) in t && RootWidget(added) != PAGE
      requires SplitLeaf(Child(node, side), target, added, o, q) == Some(child)
      requires Replaced(t, gtk.trees, Child(node, side), child, RootWidget(added))
      modifies gtk`trees, gtk`rejected, gtk.reg
      ensures gtk.Valid() && gtk.rejected == old(gtk.rejected)
      ensures Replaced(t, gtk.trees, node, WithChild(node, side, child), RootWidget(added))
      ensures if Child(node, side).Split? then gtk.reg.View() == old(gtk.reg.View())
              else Acquired(old(gtk.reg.View()), gtk.reg.View(), Elems(Areas(Draw(child))))
    {
      assert Rooted(PAGE, t[PAGE], q);
      ChildOnPage(t, q, node, side);
      ReplacedReady(t, gtk.trees, q, Child(node, side), child, target, added, o);
      if Child(node, side).Split? {
        PutBackSame(node, side, child, t[PAGE]);
      } else {
        PutBackNew(node, side, child, t[PAGE]);
      }
      ReplacedUp(t, old(gtk.trees), gtk.trees, node, side, child, RootWidget(added));
    }

    /** One step of `replace_in_tree` below a divider: try one child and, if the
        terminal was there, set the divider's slot again. */
    method ReplaceInChild(node: Node, side: Side, target: nat, added: Node, o: Orientation) returns (r: Option<Node>)
      requires gtk.Valid() && gtk.reg.preserve == {} && OnPage(gtk.trees, node) && node.Split? && Unique(node)
      requires !added.Split? && RootWidget(added) in gtk.trees && RootWidget(added) != PAGE
      requires gtk.trees[RootWidget(added)] == Draw(added)
      modifies gtk`trees, gtk`nextWid, gtk`rejected, gtk.reg
      ensures gtk.Valid() && gtk.rejected == old(gtk.rejected)
      ensures r == SplitLeaf(Child(node, side), target, added, o, old(gtk.nextWid))
      ensures r.None? ==>
                gtk.trees == old(gtk.trees) && gtk.nextWid == old(gtk.nextWid) && gtk.reg.View() == old(gtk.reg.View())
      ensures r.Some? ==>
                && gtk.nextWid == old(gtk.nextWid) + 1
                && Replaced(old(gtk.trees), gtk.trees, node, WithChild(node, side, r.value), RootWidget(added))
                && BroughtBack(old(gtk.reg.View()), gtk.reg.View(), node, target, added)
      decreases node, 0
    {
      ghost var t, q, v := gtk.trees, gtk.nextWid, gtk.reg.View();
      ChildOnPage(t, q, node, side);
      r := ReplaceInTree(Child(node, side), target, added, o);
      if r.Some? {
        ghost var mid := gtk.reg.View();
        PutBack(node, side, r.value, t, q, target, added, o);
        AcquiredUp(v, mid, gtk.reg.View(), node, side, r.value, target, added, o, q);
      }
    }

    /** `replace_in_tree`: replaces a terminal by a split, rebuilding the slots on
        the way back up. */
    method ReplaceInTree(node: Node, target: nat, added: Node, o: Orientation) returns (r: Option<Node>)
      requires gtk.Valid() && gtk.reg.preserve == {} && OnPage(gtk.trees, node) && Unique(node)
      requires !added.Split? && RootWidget(added) in gtk.trees && RootWidget(added) != PAGE
      requires gtk.trees[RootWidget(added)] == Draw(added)
      modifies gtk`trees, gtk`nextWid, gtk`rejected, gtk.reg
      ensures gtk.Valid() && gtk.rejected == old(gtk.rejected)
      ensures r == SplitLeaf(node, target, added, o, old(gtk.nextWid))
      ensures r.None? ==>
                gtk.trees == old(gtk.trees) && gtk.nextWid == old(gtk.nextWid) && gtk.reg.View() == old(gtk.reg.View())
      ensures r.Some? ==>
                && gtk.nextWid == old(gtk.nextWid) + 1
                && Replaced(old(gtk.trees), gtk.trees, node, r.value, RootWidget(added))
                && BroughtBack(old(gtk.reg.View()), gtk.reg.View(), node, target, added)
      decreases node, 1
    {
      match node
      case Leaf(pane, _, _, _, _) =>
        if pane != target {
          return None;
        }
        var wrapped := WrapLeaf(node, added, o);
        return Some(wrapped);
      case Preview(_, _, _) =>
        return None;
      case Split(_, _, _, _) =>
        var child := ReplaceInChild(node, Start, target, added, o);
        if child.Some? {
          return Some(node.(start := child.value));
        }
        child := ReplaceInChild(node, End, target, added, o);
        if child.Some? {
          return Some(node.(end := child.value));
        }
        return None;
    }

    /** The surface pointer cached in the tree, or the one registered for the pane. */
    method FindSurface(pane: nat) returns (r: Option<nat>)
      requires Valid()
      ensures r.Some? <==> HasTerminal(root, pane) && FindPane(root, pane).value.area in gtk.reg.cells
      ensures r.Some? ==> r.value == gtk.reg.cells[FindPane(root, pane).value.area] && r.value !in gtk.reg.freed
    {
      Open(View(), gtk.trees, gtk.reg.View());
      OpenLedger(gtk.Realized(), gtk.reg.Contents());
      SurfaceOfPane(root, pane, gtk.reg);
      var found := FindPane(root, pane);
      if found.Some? && found.value.Leaf? && found.value.surface != 0 {
        return Some(found.value.surface);
      }
      if s :| s in gtk.reg.surfaceRegistry && gtk.reg.surfaceRegistry[s] == pane {
        return Some(s);
      }
      return None;
    }

    /** Put a new pane beside terminal `target` and, when the root was a single
        pane, the new root on the Stack page. */
    method InsertBeside(target: nat, added: Node, o: Orientation) returns (done: bool)
      requires gtk.Valid() && gtk.reg.preserve == {} && PAGE in gtk.trees && gtk.trees[PAGE] == Draw(root)
      requires !added.Split? && RootWidget(added) in gtk.trees && RootWidget(added) != PAGE && Unique(root)
      requires gtk.trees[RootWidget(added)] == Draw(added)
      modifies `root, gtk, gtk.reg
      ensures gtk.Valid() && gtk.rejected == old(gtk.rejected) && Steady(old(gtk.pageName), old(gtk.nextWid))
      ensures done <==> SplitLeaf(old(root), target, added, o, old(gtk.nextWid)).Some?
      ensures !done ==>
                root == old(root) && gtk.trees == old(gtk.trees) && gtk.nextWid == old(gtk.nextWid)
                && gtk.reg.View() == old(gtk.reg.View())
      ensures done ==>
                && root == SplitLeaf(old(root), target, added, o, old(gtk.nextWid)).value
                && PAGE in gtk.trees && gtk.trees[PAGE] == Draw(root)
                && Acquired(old(gtk.reg.View()), gtk.reg.View(), Moved(old(root), target, added))
    {
      var stackSlot := if root.Split? then None else Some(gtk.pageName);
      ghost var was, t := root, gtk.trees;
      assert RootWidget(root) in Ids(Draw(root)) && Rooted(PAGE, gtk.trees[PAGE], gtk.nextWid);
      var replaced := ReplaceInTree(root, target, added, o);
      if replaced.None? {
        return false;
      }
      root := replaced.value;
      ReplacedRoot(t, gtk.trees, was, root, RootWidget(added));
      if stackSlot.Some? {
        DividerAreas(was, added, o, root.paned);
        gtk.StackAdd(RootWidget(root), stackSlot.value);
      }
      return true;
    }

    /** From a new pane's widget on: put it beside terminal `target`. */
    method Insert(target: nat, added: Node, o: Orientation) returns (done: bool)
      requires Valid() && zoomed.None? && Ready(View(), gtk.trees, gtk.reg.View(), added)
      modifies `root, `active, gtk, gtk.reg
      ensures Valid() && Steady(old(gtk.pageName), old(gtk.nextWid))
      ensures done <==> SplitLeaf(old(root), target, added, o, old(gtk.nextWid)).Some?
      ensures View() == if !done then old(View()) else old(View()).(
                          root := SplitLeaf(old(root), target, added, o, old(gtk.nextWid)).value,
                          active := if added.Leaf? then added.pane else old(active))
      ensures Kept(old(root), old(gtk.reg.View()), gtk.reg.View())
      ensures Filled(old(gtk.reg.View()), gtk.reg.View(), if done then Moved(old(root), target, added) else {})
    {
      Open(View(), gtk.trees, gtk.reg.View());
      ghost var s, t, v, q := View(), gtk.trees, gtk.reg.View(), gtk.nextWid;
      PageIdsBelow(t, q, RootWidget(added));
      done := InsertBeside(target, added, o);
      if done {
        if added.Leaf? {
          active := added.pane;
        }
        SplitAgrees(s, View(), t, gtk.trees, v, gtk.reg.View(), target, added, o, q);
      }
    }

    /** How both kinds of split begin: undo a zoom and use up a pane id. */
    method TakeId() returns (pane: nat)
      requires Valid()
      modifies `zoomed, `next, gtk, gtk.reg
      ensures Valid() && gtk.pageName == old(gtk.pageName) && gtk.nextWid == old(gtk.nextWid)
      ensures pane == old(next) && View() == Engine.TakeId(old(View())) && pane !in Panes(root)
      ensures Kept(root, old(gtk.reg.View()), gtk.reg.View())
      ensures Filled(old(gtk.reg.View()), gtk.reg.View(), Woken(old(View())))
      ensures forall id :: Armed(root, id, gtk.reg.View()) <==> old(CanSplit(View(), id, gtk.reg.View()))
    {
      Open(View(), gtk.trees, gtk.reg.View());
      UnzoomIfNeeded();
      pane := next;
      IdTaken(View(), gtk.trees, gtk.reg.View());
      next := next + 1;
      ArmedOnceWoken(old(View()), old(gtk.reg.View()), gtk.reg.View());
    }

    /** Make a terminal and put it beside terminal `target`. */
    method InsertTerminal(target: nat, pane: nat, o: Orientation, uuid: nat)
      requires Valid() && zoomed.None? && pane + 1 == next && pane !in Panes(root)
      requires Armed(root, target, gtk.reg.View())
      modifies this, gtk, gtk.reg
      ensures Valid() && Steady(old(gtk.pageName), old(gtk.nextWid))
      ensures (View(), Some(pane))
              == SplitTaken(old(View()), pane, target, o, old(gtk.nextWid), old(gtk.nextWid) + 1, uuid, true)
      ensures Kept(old(root), old(gtk.reg.View()), gtk.reg.View())
      ensures Filled(old(gtk.reg.View()), gtk.reg.View(), {old(gtk.nextWid)})
      ensures Beside(old(root), target, o, old(gtk.nextWid) + 1, Leaf(pane, old(gtk.nextWid), 0, uuid, false))
      ensures Targeted()
    {
      ghost var s := View();
      InsertDefined(s, gtk.trees, gtk.reg.View(), pane, target, o, gtk.nextWid, uuid);
      var added := NewTerminal(pane, uuid);
      ghost var n, v := root, gtk.reg.View();
      var done := Insert(target, added, o);
      OneMoved(n, target, added, v, gtk.reg.View());
      SplitShown(n, View(), gtk.trees, gtk.reg.View(), target, o, added.area + 1, added);
      gtk.GrabFocus(added.area);
    }

    /** The part of a split after the zoom is undone and the id is taken. */
    method SplitUnzoomed(target: nat, pane: nat, o: Orientation, uuid: nat) returns (made: Option<nat>)
      requires Valid() && zoomed.None? && pane + 1 == next && pane !in Panes(root)
      modifies this, gtk, gtk.reg
      ensures Valid() && Steady(old(gtk.pageName), old(gtk.nextWid))
      ensures made.Some? <==> old(Armed(root, target, gtk.reg.View()))
      ensures (View(), made)
              == SplitTaken(old(View()), pane, target, o, old(gtk.nextWid), old(gtk.nextWid) + 1, uuid, made.Some?)
      ensures Kept(old(root), old(gtk.reg.View()), gtk.reg.View())
      ensures Filled(old(gtk.reg.View()), gtk.reg.View(), if made.Some? then {old(gtk.nextWid)} else {})
      ensures made.Some? ==>
                && made.value == pane == active && Targeted()
                && Beside(old(root), target, o, old(gtk.nextWid) + 1, Leaf(pane, old(gtk.nextWid), 0, uuid, false))
    {
      var inherited := FindSurface(target);
      if inherited.None? {
        return None;
      }
      InsertTerminal(target, pane, o, uuid);
      return Some(pane);
    }

    /** Split terminal `target`, which need not exist. */
    method SplitPane(target: nat, o: Orientation, uuid: nat) returns (made: Option<nat>)
      requires Valid()
      modifies this, gtk, gtk.reg
      ensures Valid() && Steady(old(gtk.pageName), old(gtk.nextWid))
      ensures (View(), made)
              == Engine.SplitPane(old(View()), target, o, old(gtk.nextWid), old(gtk.nextWid) + 1, uuid, made.Some?)
      ensures made.Some? <==> old(CanSplit(View(), target, gtk.reg.View()))
      ensures made.Some? ==>
                && active == made.value && Targeted()
                && Beside(old(root), target, o, old(gtk.nextWid) + 1,
                          Leaf(made.value, old(gtk.nextWid), 0, uuid, false))
      ensures Kept(old(root), old(gtk.reg.View()), gtk.reg.View())
      ensures Filled(old(gtk.reg.View()), gtk.reg.View(),
                     Woken(old(View())) + if made.Some? then {old(gtk.nextWid)} else {})
    {
      ghost var n, s, v0, w := root, View(), gtk.reg.View(), gtk.nextWid;
      var pane := TakeId();
      ghost var v := gtk.reg.View();
      assert root == n && gtk.nextWid == w && View() == Engine.TakeId(s);
      made := SplitUnzoomed(target, pane, o, uuid);
      FilledTwice(n, v0, v, gtk.reg.View(), Woken(s), if made.Some? then {w} else {});
    }

    /** Split the active terminal. The pane id is used up, and a zoom is undone,
        even if there is no surface to inherit from. */
    method SplitActive(o: Orientation, uuid: nat) returns (made: Option<nat>)
      requires Valid()
      modifies this, gtk, gtk.reg
      ensures Valid() && Steady(old(gtk.pageName), old(gtk.nextWid))
      ensures (View(), made)
              == Engine.SplitActive(old(View()), o, old(gtk.nextWid), old(gtk.nextWid) + 1, uuid, made.Some?)
      ensures made.Some? <==> old(CanSplit(View(), active, gtk.reg.View()))
      ensures made.Some? ==>
                && active == made.value && Targeted()
                && Beside(old(root), old(active), o, old(gtk.nextWid) + 1,
                          Leaf(made.value, old(gtk.nextWid), 0, uuid, false))
      ensures Kept(old(root), old(gtk.reg.View()), gtk.reg.View())
      ensures Filled(old(gtk.reg.View()), gtk.reg.View(),
                     Woken(old(View())) + if made.Some? then {old(gtk.nextWid)} else {})
    {
      made := SplitPane(active, o, uuid);
    }

    /** Continue the spiral, or split the pane named by `target`. The source keeps
        the goal in `active_pane_id` for the duration of the call and restores it
        when the split fails. `size` is the goal's size on screen. */
    method SpiralSplit(target: Option<nat>, size: Option<(int, int)>, uuid: nat) returns (made: Option<nat>)
      requires Valid()
      modifies this, gtk, gtk.reg
      ensures Valid() && Steady(old(gtk.pageName), old(gtk.nextWid))
      ensures (View(), made) == Engine.SpiralSplit(
                old(View()), target, size, old(gtk.nextWid), old(gtk.nextWid) + 1, uuid, made.Some?)
      ensures var goal := if target.Some? then target.value else SpiralTarget(old(View()));
              && (made.Some? <==> old(CanSplit(View(), goal, gtk.reg.View())))
              && (made.Some? ==> Beside(old(root), goal, SpiralOrientation(size), old(gtk.nextWid) + 1,
                                        Leaf(made.value, old(gtk.nextWid), 0, uuid, false)) && active == made.value
                                 && Targeted())
      ensures Kept(old(root), old(gtk.reg.View()), gtk.reg.View())
      ensures Filled(old(gtk.reg.View()), gtk.reg.View(),
                     Woken(old(View())) + if made.Some? then {old(gtk.nextWid)} else {})
    {
      var goal := if target.Some? then target.value else SpiralTarget(View());
      made := SplitPane(goal, SpiralOrientation(size), uuid);
      if made.Some? {
        TailSet(View(), gtk.trees, gtk.reg.View(), made);
        tail := made;
      }
    }

    /** Split the active terminal with a preview pane on its right. */
    method SplitPreview(uuid: nat) returns (made: Option<nat>)
      requires Valid()
      modifies this, gtk, gtk.reg
      ensures Valid() && Steady(old(gtk.pageName), old(gtk.nextWid))
      ensures (View(), made) == Engine.SplitPreview(old(View()), old(gtk.nextWid), old(gtk.nextWid) + 1, uuid)
      ensures made.Some? <==> HasTerminal(old(root), old(active))
      ensures made.Some? ==> Beside(old(root), old(active), Horizontal, old(gtk.nextWid) + 1,
                                    Preview(made.value, old(gtk.nextWid), uuid)) && active == old(active)
      ensures Kept(old(root), old(gtk.reg.View()), gtk.reg.View())
      ensures Filled(old(gtk.reg.View()), gtk.reg.View(), Woken(old(View())) + AreaOf(old(root), old(active)))
    {
      ghost var n, s, v0, w := root, View(), gtk.reg.View(), gtk.nextWid;
      var pane := TakeId();
      ghost var v := gtk.reg.View();
      assert root == n && gtk.nextWid == w && View() == Engine.TakeId(s);
      made := PreviewUnzoomed(pane, uuid);
      FilledTwice(n, v0, v, gtk.reg.View(), Woken(s), AreaOf(n, s.active));
    }

    method PreviewUnzoomed(pane: nat, uuid: nat) returns (made: Option<nat>)
      requires Valid() && zoomed.None? && pane + 1 == next && pane !in Panes(root)
      modifies this, gtk, gtk.reg
      ensures Valid() && Steady(old(gtk.pageName), old(gtk.nextWid))
      ensures (View(), made) == PreviewTaken(old(View()), pane, old(gtk.nextWid), old(gtk.nextWid) + 1, uuid)
      ensures made.Some? <==> HasTerminal(old(root), old(active))
      ensures Kept(old(root), old(gtk.reg.View()), gtk.reg.View())
      ensures Filled(old(gtk.reg.View()), gtk.reg.View(), AreaOf(old(root), old(active)))
      ensures made.Some? ==>
                Beside(old(root), active, Horizontal, old(gtk.nextWid) + 1, Preview(pane, old(gtk.nextWid), uuid))
    {
      ghost var n, added := root, Preview(pane, gtk.nextWid, uuid);
      PreviewDefined(View(), gtk.trees, gtk.reg.View(), added, gtk.nextWid + 1);
      var box := NewPreviewBox(pane);
      var done := Insert(active, Preview(pane, box, uuid), Horizontal);
      made := if done then Some(pane) else None;
      if done {
        SplitShown(n, View(), gtk.trees, gtk.reg.View(), active, Horizontal, box + 1, added);
      }
    }

    /** The container of a preview pane that is not in the tree yet. */
    method NewPreviewBox(pane: nat) returns (box: nat)
      requires Valid() && zoomed.None? && pane + 1 == next && pane !in Panes(root)
      modifies gtk`trees, gtk`nextWid
      ensures Valid() && box == old(gtk.nextWid) && gtk.nextWid == box + 1
      ensures forall uuid :: Ready(View(), gtk.trees, gtk.reg.View(), Preview(pane, box, uuid))
    {
      Open(View(), gtk.trees, gtk.reg.View());
      PageIdsBelow(gtk.trees, gtk.nextWid, gtk.nextWid);
      KeysBelow(gtk.trees, gtk.nextWid);
      box := gtk.NewBox();
    }

    /** The GLArea of a pane that is not in the tree yet. */
    method NewTerminal(pane: nat, uuid: nat) returns (added: Node)
      requires Valid() && zoomed.None? && pane + 1 == next && pane !in Panes(root)
      modifies gtk`trees, gtk`nextWid, gtk`startDirs, gtk.reg`paneOf
      ensures Valid() && added == Leaf(pane, old(gtk.nextWid), 0, uuid, false) && gtk.nextWid == added.area + 1
      ensures Ready(View(), gtk.trees, gtk.reg.View(), added)
      ensures gtk.reg.View() == old(gtk.reg.View()).(paneOf := gtk.reg.paneOf)
    {
      Open(View(), gtk.trees, gtk.reg.View());
      PageIdsBelow(gtk.trees, gtk.nextWid, gtk.nextWid);
      KeysBelow(gtk.trees, gtk.nextWid);
      var area := gtk.NewArea(pane, None);
      added := Leaf(pane, area, 0, uuid, false);
      LabelledGrows(root, old(gtk.reg.paneOf), gtk.reg.paneOf);
    }

    // ── Focus ────────────────────────────────────────────────────────────────

    /** The clipboard goes to the active pane's surface, if it has one and is on screen. */
    ghost predicate Targeted()
      reads this, gtk, gtk.reg
    {
      Armed(root, active, gtk.reg.View()) && FindPane(root, active).value.area in gtk.Realized() ==>
        gtk.reg.surfacePtr == gtk.reg.cells[FindPane(root, active).value.area]
    }

    /** Keyboard focus goes to a pane's area, when it is a terminal. */
    method GrabPane(id: nat)
      modifies gtk.reg`surfacePtr
      ensures old(gtk.Valid()) ==> gtk.Valid()
      ensures gtk.reg.View() == old(gtk.reg.View())
      ensures HasTerminal(root, id) && FindPane(root, id).value.area in gtk.Realized()
                && FindPane(root, id).value.area in gtk.reg.cells ==>
                gtk.reg.surfacePtr == gtk.reg.cells[FindPane(root, id).value.area]
    {
      var found := FindPane(root, id);
      if found.Some? && found.value.Leaf? {
        gtk.GrabFocus(found.value.area);
      }
    }

    /** Move the focus to the neighbour in tree order; the clipboard target
        follows when that pane is on screen. */
    method FocusNext(dir: Direction) returns (moved: bool)
      requires Valid()
      modifies `active, gtk.reg`surfacePtr
      ensures Valid() && (View(), moved) == Engine.Focus(old(View()), dir)
      ensures gtk.reg.View() == old(gtk.reg.View())
      ensures moved ==> Targeted()
    {
      Open(View(), gtk.trees, gtk.reg.View());
      match Adjacent(root, active, dir)
      case None =>
        return false;
      case Some(id) =>
        active := id;
        GrabPane(id);
        return true;
    }

    /** A click into a pane, or a command naming one: ignored for other ids. */
    method FocusPane(id: nat)
      requires Valid()
      modifies `active, gtk.reg`surfacePtr
      ensures Valid() && View() == Engine.FocusPane(old(View()), id)
      ensures gtk.reg.View() == old(gtk.reg.View())
      ensures id in Panes(root) ==> active == id && Targeted()
      ensures id !in Panes(root) ==> View() == old(View()) && gtk.reg.surfacePtr == old(gtk.reg.surfacePtr)
    {
      Open(View(), gtk.trees, gtk.reg.View());
      FindPaneIffListed(root, id);
      if FindPane(root, id).Some? {
        active := id;
        GrabPane(id);
      }
    }

    // ── Closing ──────────────────────────────────────────────────────────────

    /** The base case of `remove_leaf_from_tree`: the sibling, marked, takes the
        place of the divider. That works on the Stack page; in a divider slot the
        sibling still has a parent and the setter refuses it. */
    method RaiseSibling(node: Node, side: Side)
      requires gtk.Valid() && OnPage(gtk.trees, node) && node.Split?
      modifies gtk, gtk.reg
      ensures var rest := Child(node, side);
              var marked := old(gtk.reg.View()).(preserve := old(gtk.reg.preserve) + Elems(Areas(Draw(rest))));
              && gtk.Valid() && gtk.pageName == old(gtk.pageName) && gtk.nextWid == old(gtk.nextWid)
              && (Holds(old(gtk.trees)[PAGE], node.paned) ==>
                    && gtk.rejected == old(gtk.rejected)
                    && PAGE in gtk.trees && gtk.trees[PAGE] == Draw(rest)
                    && Reshown(marked, gtk.reg.View(), Elems(Areas(Draw(node))), Elems(Areas(Draw(rest)))))
              && (!Holds(old(gtk.trees)[PAGE], node.paned) ==>
                    gtk.rejected && gtk.trees == old(gtk.trees) && gtk.reg.View() == marked)
    {
      assert Rooted(PAGE, gtk.trees[PAGE], gtk.nextWid);
      ChildBelow(gtk.trees[PAGE], node, side);
      MarkSubtree(Child(node, side));
      gtk.ReplaceChild(node.paned, RootWidget(Child(node, side)), PAGE);
    }

    /** A close further down: the slot the recursion came through is set to what
        is below it now, which changes nothing. */
    method PutBackRefused(node: Node, side: Side, child: Node)
      requires gtk.Valid() && gtk.rejected && OnPage(gtk.trees, node) && node.Split?
      requires RootWidget(child) in Ids(Draw(Child(node, side)))
      modifies gtk, gtk.reg
      ensures gtk.Valid() && gtk.rejected && gtk.trees == old(gtk.trees) && gtk.reg.View() == old(gtk.reg.View())
      ensures gtk.pageName == old(gtk.pageName) && gtk.nextWid == old(gtk.nextWid)
    {
      assert Rooted(PAGE, gtk.trees[PAGE], gtk.nextWid);
      AtFacts(gtk.trees[PAGE], node.paned);
      BelowIsParented(gtk.trees[PAGE], node.paned, RootWidget(child));
      gtk.SetSlot(node.paned, side, RootWidget(child), PAGE, PAGE);
    }

    /** One side of `remove_leaf_from_tree`'s recursion. */
    method RemoveBelow(node: Node, side: Side, target: nat) returns (r: Option<(Node, nat)>)
      requires gtk.Valid() && OnPage(gtk.trees, node) && node.Split? && !TopChild(node, target)
      modifies gtk, gtk.reg
      ensures gtk.Valid() && r == RemovePane(Child(node, side), target)
      ensures gtk.pageName == old(gtk.pageName) && gtk.nextWid == old(gtk.nextWid) && gtk.trees == old(gtk.trees)
      ensures r.None? ==> gtk.rejected == old(gtk.rejected) && gtk.reg.View() == old(gtk.reg.View())
      ensures r.Some? ==>
                && gtk.rejected && Sibling(Child(node, side), target).Some?
                && var rest := Elems(Areas(Draw(Sibling(Child(node, side), target).value)));
                   gtk.reg.View() == old(gtk.reg.View()).(preserve := old(gtk.reg.preserve) + rest)
      decreases node, 0
    {
      ChildOnPage(gtk.trees, gtk.nextWid, node, side);
      r := RemoveLeafFromTree(Child(node, side), target);
      if r.Some? {
        RemovedRootDrawn(Child(node, side), target);
        PutBackRefused(node, side, r.value.0);
      }
    }

    /** `remove_leaf_from_tree`: the tree is pruned wherever the pane is; the
        widgets follow only if its divider is the Stack page. */
    method RemoveLeafFromTree(node: Node, target: nat) returns (r: Option<(Node, nat)>)
      requires gtk.Valid() && OnPage(gtk.trees, node)
      modifies gtk, gtk.reg
      ensures gtk.Valid() && r == RemovePane(node, target)
      ensures gtk.pageName == old(gtk.pageName) && gtk.nextWid == old(gtk.nextWid)
      ensures r.None? ==>
                && gtk.trees == old(gtk.trees) && gtk.rejected == old(gtk.rejected)
                && gtk.reg.View() == old(gtk.reg.View())
      ensures r.Some? ==> Pruned(node, target, old(gtk.trees), old(gtk.reg.View()), old(gtk.rejected),
                                 gtk.trees, gtk.reg.View(), gtk.rejected)
      decreases node, 1
    {
      SiblingDefined(node, target);
      match node
      case Leaf(_, _, _, _, _) =>
        return None;
      case Preview(_, _, _) =>
        return None;
      case Split(_, _, start, end) =>
        if IsPane(start, target) {
          RaiseSibling(node, End);
          return Some((end, FirstPane(end)));
        }
        if IsPane(end, target) {
          RaiseSibling(node, Start);
          return Some((start, FirstPane(start)));
        }
        SiblingDefined(start, target);
        r := RemoveBelow(node, Start, target);
        if r.Some? {
          return Some((node.(start := r.value.0), r.value.1));
        }
        r := RemoveBelow(node, End, target);
        if r.Some? {
          return Some((node.(end := r.value.0), r.value.1));
        }
        return None;
    }

    /** What a close of a child of the Stack page leaves behind: all three views in
        agreement and exactly the closed pane's surface freed. */
    ghost predicate CloseSeen(n: Node, id: nat, v: Life)
      reads this, gtk, gtk.reg
    {
      && Valid()
      && gtk.reg.freed == v.freed + SurfaceOf(n, id, v)
      && v.last <= gtk.reg.lastSurface
      && Emptied(v, gtk.reg.View(), AreaOf(n, id), Elems(Areas(Draw(root))))
      && forall a :: a in v.cells && a in Areas(Draw(root)) ==> a in gtk.reg.cells && gtk.reg.cells[a] == v.cells[a]
    }

    /** What a close further down leaves behind: the closed pane is still on screen,
        its surface is alive, and the marks of its sibling are pending. The area
        registries then miss a realized area exactly if the pane held a surface. */
    ghost predicate CloseUnseen(n: Node, id: nat, v: Life)
      reads this, gtk, gtk.reg
    {
      Unmoved(n, id, v) && (gtk.Valid() <==> !Armed(n, id, v))
    }

    ghost predicate Unmoved(n: Node, id: nat, v: Life)
      reads this, gtk, gtk.reg
    {
      && gtk.rejected
      && PAGE in gtk.trees && gtk.trees[PAGE] == Draw(n) && gtk.trees[PAGE] != Draw(root)
      && Sibling(n, id).Some?
      && gtk.reg.View() == v.(preserve := Elems(Areas(Draw(Sibling(n, id).value))))
    }

    /** Take the active pane out of the tree, and out of the forest where that works. */
    method Prune() returns (survivor: nat)
      requires Valid() && zoomed.None? && Engine.Close(View()).1.Some?
      modifies this, gtk, gtk.reg
      ensures (View(), Some(survivor)) == Engine.Close(old(View())) && Steady(old(gtk.pageName), old(gtk.nextWid))
      ensures if TopChild(old(root), old(active)) then
                && CloseSeen(old(root), old(active), old(gtk.reg.View()))
                && (HasTerminal(old(root), old(active)) ==>
                      FindPane(old(root), old(active)).value.area !in Elems(Areas(gtk.Shown())))
              else gtk.Valid() && Unmoved(old(root), old(active), old(gtk.reg.View()))
    {
      ghost var s, t, v := View(), gtk.trees, gtk.reg.View();
      CloseDefined(s, t, v);
      LiveNotFreed(gtk.reg, gtk.Realized());
      var removed := RemoveLeafFromTree(root, active);
      CloseOnScreen(s, t, v, gtk.trees, gtk.reg.View(), gtk.rejected);
      root, survivor := removed.value.0, removed.value.1;
      active := survivor;
    }

    method CloseUnzoomed() returns (survivor: nat)
      requires Valid() && zoomed.None? && Engine.Close(View()).1.Some?
      modifies this, gtk, gtk.reg
      ensures (View(), Some(survivor)) == Engine.Close(old(View())) && Steady(old(gtk.pageName), old(gtk.nextWid))
      ensures Targeted()
      ensures TopChild(old(root), old(active)) ==> CloseSeen(old(root), old(active), old(gtk.reg.View()))
      ensures !TopChild(old(root), old(active)) ==> CloseUnseen(old(root), old(active), old(gtk.reg.View()))
    {
      var closed := FindPane(root, active);
      ghost var s, v := View(), gtk.reg.View();
      Open(s, gtk.trees, v);
      survivor := Prune();
      LetGo(closed, survivor);
      if HasTerminal(s.root, s.active) && gtk.Valid() {
        TerminalHasArea(s.root, v.paneOf, s.active);
        OpenLedger(gtk.Realized(), gtk.reg.Contents());
      }
    }

    /** Drop the closed pane's area from the registries and focus the survivor. */
    method LetGo(closed: Option<Node>, survivor: nat)
      modifies gtk.reg`areaRegistry, gtk.reg`glToSurface, gtk.reg`surfacePtr
      ensures old(gtk.Valid()) && !(closed.Some? && closed.value.Leaf?
                                    && closed.value.area in gtk.Realized() && closed.value.area in gtk.reg.cells) ==>
                gtk.Valid()
      ensures closed.Some? && closed.value.Leaf? ==> closed.value.area !in gtk.reg.areaRegistry
      ensures survivor == active ==> Targeted()
      ensures gtk.reg.View() == old(gtk.reg.View())
    {
      if closed.Some? && closed.value.Leaf? {
        gtk.Forget(closed.value.area);
      }
      GrabPane(survivor);
    }

    /** Close the active pane. Refused (None) when it is the only terminal. The
        views agree afterwards if and only if the pane was a child of the root split. */
    method CloseActive() returns (survivor: Option<nat>)
      requires Valid()
      modifies this, gtk, gtk.reg
      ensures (View(), survivor) == Engine.Close(old(View())) && Steady(old(gtk.pageName), old(gtk.nextWid))
      ensures survivor.None? ==>
                && Valid() && Kept(old(root), old(gtk.reg.View()), gtk.reg.View())
                && Filled(old(gtk.reg.View()), gtk.reg.View(), Woken(old(View())))
      ensures survivor.Some? ==> (Valid() <==> TopChild(old(root), old(active))) && Targeted()
      ensures survivor.Some? ==>
                exists v :: Kept(old(root), old(gtk.reg.View()), v)
                         && Filled(old(gtk.reg.View()), v, Woken(old(View())))
                         && (old(zoomed).None? ==> v == old(gtk.reg.View()))
                         && (if TopChild(old(root), old(active)) then CloseSeen(old(root), old(active), v)
                             else CloseUnseen(old(root), old(active), v))
    {
      UnzoomIfNeeded();
      Open(View(), gtk.trees, gtk.reg.View());
      if IsPane(root, active) {
        return None;
      }
      if HasTerminal(root, active) && Terminals(root) <= 1 {
        return None;
      }
      RemovePaneDefined(root, active);
      ghost var v := gtk.reg.View();
      var id := CloseUnzoomed();
      return Some(id);
    }

    /** What closing its workspace does to an engine: the page leaves the Stack, and
        a zoom is not undone first. Every surface is freed exactly if no pane with a
        surface is hidden by a zoom; the hidden ones keep theirs. */
    method LeaveStack()
      requires Valid()
      modifies gtk`trees, gtk.reg
      ensures gtk.Valid() && PAGE !in gtk.trees
      ensures forall id :: Armed(root, id, gtk.reg.View()) <==>
                old(Armed(root, id, gtk.reg.View())) && zoomed.Some? && id != zoomed.value.pane
      ensures gtk.reg.cells == map[] <==>
                zoomed.None? || forall id :: old(Armed(root, id, gtk.reg.View())) ==> id == zoomed.value.pane
      ensures forall a :: a in old(gtk.reg.cells) ==>
                if a in gtk.reg.cells then gtk.reg.cells[a] == old(gtk.reg.cells)[a]
                else old(gtk.reg.cells)[a] in gtk.reg.freed
    {
      ghost var s, t, v := View(), gtk.trees, gtk.reg.View();
      Open(s, t, v);
      assert Rooted(PAGE, t[PAGE], gtk.nextWid) && t[PAGE].wid in Ids(t[PAGE]);
      gtk.StackRemove();
      PageLeft(s, t, v, gtk.reg.View());
    }

    // ── Restore and whole runs ───────────────────────────────────────────────

    /** Cache the registered surface pointers in the tree; with every pane on
        screen none is missed. */
    method SyncSurfaces()
      requires Valid()
      modifies `root
      ensures Valid() && View() == old(View()).(root := SyncNode(old(root), gtk.reg.glToSurface))
      ensures zoomed.None? ==> Cached(root, gtk.reg.cells)
      ensures Copied(gtk.reg.glToSurface, old(Now()))
    {
      Open(View(), gtk.trees, gtk.reg.View());
      OpenLedger(gtk.Realized(), gtk.reg.Contents());
      SyncAgrees(View(), gtk.trees, gtk.reg.View(), gtk.reg.glToSurface);
      root := SyncNode(root, gtk.reg.glToSurface);
    }

    /** Zooming and unzooming, with any focus moves in between, by direction or by
        click, puts every widget back where it was and keeps every surface; only the
        moves have an effect. */
    method ZoomThereAndBack(moves: seq<Command>)
      requires Valid() && zoomed.None? && root.Split?
      requires forall c :: c in moves ==> c.FocusCommand? || c.ClickCommand?
      modifies `active, `zoomed, gtk, gtk.reg
      ensures Valid() && zoomed.None? && root == old(root)
      ensures View() == Engine.ToggleZoom(Run(Engine.ToggleZoom(old(View())), MoveOps(moves)))
      ensures gtk.trees == old(gtk.trees) && gtk.pageName == old(gtk.pageName)
      ensures Kept(root, old(gtk.reg.View()), gtk.reg.View())
    {
      Open(View(), gtk.trees, gtk.reg.View());
      NotAKey(gtk.trees, gtk.nextWid, root.paned);
      ZoomReady(View(), gtk.trees, gtk.nextWid);
      ghost var t, pane := gtk.trees, Draw(FindPane(root, active).value);
      ghost var cut := Graft(Draw(root), pane.wid, Empty);
      ZoomTwiceMaps(t, root.paned, cut, pane, Draw(root));
      var on := ToggleZoom();
      ghost var mid := gtk.reg.View();
      MoveFocus(moves);
      var off := ToggleZoom();
      KeptTwice(root, old(gtk.reg.View()), mid, gtk.reg.View());
    }

    /** Focus moves one after the other change the active pane and the clipboard target. */
    method MoveFocus(moves: seq<Command>)
      requires Valid() && forall c :: c in moves ==> c.FocusCommand? || c.ClickCommand?
      modifies `active, gtk.reg`surfacePtr
      ensures Valid() && View() == Run(old(View()), MoveOps(moves)) && View() == old(View()).(active := active)
      ensures gtk.reg.View() == old(gtk.reg.View())
    {
      for i := 0 to |moves|
        invariant Valid() && View() == Run(old(View()), MoveOps(moves[..i]))
        invariant gtk.reg.View() == old(gtk.reg.View())
      {
        MovesPush(old(View()), moves, i);
        assert moves[i] in moves;
        if moves[i].FocusCommand? {
          var moved := FocusNext(moves[i].dir);
        } else {
          FocusPane(moves[i].id);
        }
      }
      assert moves[..|moves|] == moves;
    }

    // ── Commands ─────────────────────────────────────────────────────────────

    method PerformSplit(c: Command) returns (ghost op: Op)
      requires Valid() && (c.SplitCommand? || c.SpawnCommand?)
      modifies this, gtk, gtk.reg
      ensures Valid() && Steady(old(gtk.pageName), old(gtk.nextWid)) && Leads(c, op, old(Now()), Now())
    {
      ghost var m := Now();
      Open(m.s, gtk.trees, m.v);
      var made: Option<nat>;
      if c.SplitCommand? {
        made := SplitActive(c.o, c.uuid);
      } else {
        made := SpiralSplit(c.target, c.size, c.uuid);
      }
      op := OpOf(c, m.wid, made.Some?, map[]);
      InPlaceLeads(c, op, m, Now());
    }

    method PerformPreview(c: Command) returns (ghost op: Op)
      requires Valid() && c.PreviewCommand?
      modifies this, gtk, gtk.reg
      ensures Valid() && Steady(old(gtk.pageName), old(gtk.nextWid)) && Leads(c, op, old(Now()), Now())
    {
      ghost var m := Now();
      Open(m.s, gtk.trees, m.v);
      var made := SplitPreview(c.uuid);
      op := OpOf(c, m.wid, false, map[]);
      InPlaceLeads(c, op, m, Now());
    }

    method PerformClose() returns (ghost op: Op)
      requires Valid() && (Engine.Close(View()).1.Some? ==> TopChild(root, active))
      modifies this, gtk, gtk.reg
      ensures Valid() && Steady(old(gtk.pageName), old(gtk.nextWid)) && Leads(CloseCommand, op, old(Now()), Now())
    {
      ghost var m := Now();
      Open(m.s, gtk.trees, m.v);
      var survivor := CloseActive();
      op := DoClose;
      Open(View(), gtk.trees, gtk.reg.View());
      if survivor.Some? {
        ghost var v1 :| Kept(m.s.root, m.v, v1) && Filled(m.v, v1, Woken(m.s))
                        && CloseSeen(m.s.root, m.s.active, v1);
        CloseLeads(m, v1, Now());
      } else {
        RefusedLeads(m, Now());
      }
    }

    method PerformInPlace(c: Command) returns (ghost op: Op)
      requires Valid() && (c.FocusCommand? || c.ClickCommand? || c.ZoomCommand?)
      modifies this, gtk, gtk.reg
      ensures Valid() && Steady(old(gtk.pageName), old(gtk.nextWid)) && Leads(c, op, old(Now()), Now())
    {
      ghost var m := Now();
      Open(m.s, gtk.trees, m.v);
      op := OpOf(c, m.wid, false, map[]);
      match c {
        case FocusCommand(dir) =>
          var moved := FocusNext(dir);
        case ClickCommand(id) =>
          FocusPane(id);
        case ZoomCommand =>
          var on := ToggleZoom();
      }
      InPlaceLeads(c, op, m, Now());
    }

    method PerformSync() returns (ghost op: Op)
      requires Valid()
      modifies `root
      ensures Valid() && Leads(SyncCommand, op, old(Now()), Now())
    {
      ghost var m := Now();
      Open(m.s, gtk.trees, m.v);
      op := DoSync(gtk.reg.glToSurface);
      SyncSurfaces();
      InPlaceLeads(SyncCommand, op, m, Now());
    }

    /** One command, other than a close below a nested split. */
    method Perform(c: Command) returns (ghost op: Op)
      requires Valid()
      requires c.CloseCommand? && Engine.Close(View()).1.Some? ==> TopChild(root, active)
      modifies this, gtk, gtk.reg
      ensures Valid() && Steady(old(gtk.pageName), old(gtk.nextWid)) && Leads(c, op, old(Now()), Now())
    {
      match c
      case SplitCommand(_, _) => op := PerformSplit(c);
      case PreviewCommand(_) => op := PerformPreview(c);
      case SpawnCommand(_, _, _) => op := PerformSplit(c);
      case CloseCommand => op := PerformClose();
      case FocusCommand(_) => op := PerformInPlace(c);
      case ClickCommand(_) => op := PerformInPlace(c);
      case ZoomCommand => op := PerformInPlace(c);
      case SyncCommand => op := PerformSync();
    }

    /** One command while the environment grants the given areas. */
    method PerformGranted(c: Command, grants: set<nat>) returns (ghost op: Op)
      requires Valid()
      requires c.CloseCommand? && Engine.Close(View()).1.Some? ==> TopChild(root, active)
      modifies this, gtk, gtk.reg
      ensures Valid() && Steady(old(gtk.pageName), old(gtk.nextWid))
      ensures Leads(c, op, Granting(old(Now()), grants), Now())
      ensures Carries(old(root), old(gtk.reg.View()), root, gtk.reg.View())
    {
      AgreesGranted(View(), gtk.trees, gtk.reg.View(), grants);
      gtk.reg.Grant(grants);
      assert Now() == Granting(old(Now()), grants);
      op := Perform(c);
    }

    /** Any run of commands, up to the first close below a nested split: the views
        agree all along, each command takes its step, and over the whole run the
        fields are those of the pure engine, every terminal still in the tree keeps
        its area and surface, and the surface of every one that was closed is freed,
        once. */
    method RunCommands(commands: seq<Command>, grants: seq<set<nat>>)
      returns (done: nat, ghost ops: seq<Op>, ghost moments: seq<Moment>)
      requires Valid() && |grants| == |commands|
      modifies this, gtk, gtk.reg
      ensures Valid() && Steady(old(gtk.pageName), old(gtk.nextWid)) && done <= |commands|
      ensures done < |commands| ==>
                commands[done].CloseCommand? && Engine.Close(View()).1.Some? && !TopChild(root, active)
      ensures |ops| == done && Traced(commands, grants, ops, moments)
      ensures moments[0] == old(Now()) && moments[done] == Now()
      ensures View() == Run(old(View()), ops) && Progress(old(View()), View())
      ensures Carries(old(root), old(gtk.reg.View()), root, gtk.reg.View())
      ensures NoDup(gtk.reg.freed) && gtk.reg.preserve == {}
    {
      ghost var s, v := View(), gtk.reg.View();
      Open(s, gtk.trees, v);
      StayingCarries(s, v, s, v);
      done, ops, moments := 0, [], [Now()];
      while done < |commands|
        invariant Valid() && Steady(old(gtk.pageName), old(gtk.nextWid)) && done <= |commands|
        invariant |ops| == done && Traced(commands, grants, ops, moments)
        invariant moments[0] == old(Now()) && moments[done] == Now()
        invariant View() == Run(s, ops) && Progress(s, View())
        invariant Carries(s.root, v, root, gtk.reg.View())
      {
        ghost var s1, v1 := View(), gtk.reg.View();
        if commands[done].CloseCommand? && Engine.Close(View()).1.Some? && !TopChild(root, active) {
          break;
        }
        ghost var op := PerformGranted(commands[done], grants[done]);
        RunStep(s, v, s1, v1, op, ops, gtk.reg.View());
        TraceGrows(commands, grants, ops, moments, op, Now());
        ops, moments := ops + [op], moments + [Now()];
        done := done + 1;
      }
      Open(View(), gtk.trees, gtk.reg.View());
      OpenLedger(gtk.Realized(), gtk.reg.Contents());
    }
  }

  /** Where no pane leaves, a step carries the surfaces. */
  lemma InPlaceLeads(c: Command, op: Op, m: Moment, m': Moment)
    requires Inv(m.s) && Labelled(m.s.root, m.v.paneOf) && !c.CloseCommand? && CarriedOutAs(c, op, m)
    requires m'.s == Exec(m.s, op) && m.wid <= m'.wid
    requires Kept(m.s.root, m.v, m'.v) && Filled(m.v, m'.v, Shows(c, op, m))
    ensures Leads(c, op, m, m')
  {
    ExecProgress(m.s, op);
    ExecKeepsPanes(m.s, op);
    StayingCarries(m.s, m.v, m'.s, m'.v);
  }

  /** A close that was refused. */
  lemma RefusedLeads(m: Moment, m': Moment)
    requires Inv(m.s) && Labelled(m.s.root, m.v.paneOf) && Close(m.s).1.None?
    requires m'.s == Close(m.s).0 && m.wid <= m'.wid
    requires Kept(m.s.root, m.v, m'.v) && Filled(m.v, m'.v, Woken(m.s))
    ensures Leads(CloseCommand, DoClose, m, m')
  {
    CloseProgress(m.s);
    StayingCarries(m.s, m.v, m'.s, m'.v);
  }

  /** A close right below the page, with the moment `v1` after a zoom was undone. */
  lemma CloseLeads(m: Moment, v1: Life, m': Moment)
    requires Inv(m.s) && Proper(Draw(m.s.root)) && TopChild(m.s.root, m.s.active) && Close(m.s).1.Some?
    requires Labelled(m.s.root, m.v.paneOf) && m.v.cells.Keys <= Elems(Areas(Draw(m.s.root)))
    requires m'.s == Close(m.s).0 && m.wid <= m'.wid && Labelled(m'.s.root, m'.v.paneOf)
    requires Kept(m.s.root, m.v, v1) && Filled(m.v, v1, Woken(m.s))
    requires m'.v.freed == v1.freed + SurfaceOf(m.s.root, m.s.active, v1)
    requires Emptied(v1, m'.v, AreaOf(m.s.root, m.s.active), Elems(Areas(Draw(m'.s.root))))
    requires forall a :: a in v1.cells && a in Areas(Draw(m'.s.root)) ==>
               a in m'.v.cells && m'.v.cells[a] == v1.cells[a]
    ensures Leads(CloseCommand, DoClose, m, m')
  {
    CloseCarries(m.s, m.v, v1, m'.v);
    ClosedArea(m.s.root, m.s.active);
  }

  lemma RunStep(s: State, v: Life, s1: State, v1: Life, op: Op, ops: seq<Op>, v2: Life)
    requires Inv(s) && s1 == Run(s, ops) && Progress(s, s1) && Carries(s.root, v, s1.root, v1)
    requires Inv(s1) && Carries(s1.root, v1, Exec(s1, op).root, v2)
    ensures Run(s, ops + [op]) == Exec(s1, op) && Progress(s, Exec(s1, op))
    ensures Carries(s.root, v, Exec(s1, op).root, v2)
  {
    RunPush(s, ops, op);
    ExecProgress(s1, op);
    ProgressTwice(s, s1, Exec(s1, op));
    CarriesTwice(s, v, s1, v1, Exec(s1, op), v2);
  }
}
