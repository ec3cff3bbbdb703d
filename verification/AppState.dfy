// The list of workspaces (`AppState` in src/app_state.rs) and the restore of a
// whole session at startup (src/main.rs). Each workspace's layout engine is the
// record of its fields; widgets and surfaces are the business of SplitEngines.
module AppState {
  import opened Prelude
  import opened Layout
  import E = Engine
  import opened Restore
  import opened SaveProtocol
  import opened Workspaces

  class App {
    var workspaces: seq<Workspace>
    var engines: seq<E.State>
    var activeIndex: nat
    var nextId: nat
    var nextWid: nat      // the toolkit's next widget number
    var rows: seq<nat>    // the sidebar's rows, each with its workspace's id

    constructor ()
      ensures Valid() && workspaces == [] && rows == []
    {
      workspaces, engines, activeIndex, nextId, nextWid, rows := [], [], 0, 1, 1, [];
    }

    function Now(): Fields
      reads this
    {
      Fields(workspaces, engines, activeIndex, nextId, nextWid, rows)
    }

    ghost predicate Valid()
      reads this
    {
      && |workspaces| == |engines|
      && (workspaces != [] ==> activeIndex < |workspaces|)
      && (forall i :: 0 <= i < |workspaces| ==> Paired(workspaces[i], engines[i]))
      && (forall i :: 0 <= i < |workspaces| ==> workspaces[i].id < nextId)
      && NoDup(Ids(workspaces))
    }

    /** Row i of the sidebar is workspace i. */
    predicate RowsAligned()
      reads this
    {
      rows == Ids(workspaces)
    }

    method ClearWorkspaceAttention(index: nat)
      requires Valid() && index < |workspaces|
      modifies `workspaces, `engines
      ensures Valid() && Ids(workspaces) == Ids(old(workspaces)) && |workspaces| == |old(workspaces)|
      ensures !workspaces[index].hasAttention && !AnyAttention(engines[index].root)
      ensures workspaces == Seen(old(workspaces), index) && engines == Calmed(old(engines), index)
    {
      ClearAttentionFacts(engines[index].root);
      SameTreeInv(engines[index], ClearAttention(engines[index].root));
      engines := engines[index := engines[index].(root := ClearAttention(engines[index].root))];
      workspaces := workspaces[index := workspaces[index].(hasAttention := false)];
      assert Ids(workspaces) == Ids(old(workspaces));
    }

    /** Show workspace `index`; an index out of range is ignored. */
    method SwitchToIndex(index: nat)
      requires Valid()
      modifies `workspaces, `engines, `activeIndex
      ensures Valid() && Ids(workspaces) == Ids(old(workspaces)) && |workspaces| == |old(workspaces)|
      ensures Now() == Did(old(Now()), SwitchTo(index))
      ensures index >= |workspaces| ==>
                workspaces == old(workspaces) && engines == old(engines) && activeIndex == old(activeIndex)
      ensures index < |workspaces| ==>
                && activeIndex == index && !workspaces[index].hasAttention && !AnyAttention(engines[index].root)
                && workspaces == Seen(old(workspaces), index) && engines == Calmed(old(engines), index)
    {
      if index >= |workspaces| {
        return;
      }
      ClearWorkspaceAttention(index);
      activeIndex := index;
    }

    /** The next workspace, around the end; n steps visit all n workspaces. */
    method SwitchNext()
      requires Valid()
      modifies `workspaces, `engines, `activeIndex
      ensures Valid() && Ids(workspaces) == Ids(old(workspaces))
      ensures Now() == Did(old(Now()), Next)
      ensures workspaces != [] ==>
                && activeIndex == (old(activeIndex) + 1) % |workspaces|
                && workspaces == Seen(old(workspaces), activeIndex) && engines == Calmed(old(engines), activeIndex)
    {
      if workspaces != [] {
        SwitchToIndex((activeIndex + 1) % |workspaces|);
      }
    }

    method SwitchPrev()
      requires Valid()
      modifies `workspaces, `engines, `activeIndex
      ensures Valid() && Ids(workspaces) == Ids(old(workspaces))
      ensures Now() == Did(old(Now()), Prev)
      ensures workspaces != [] ==>
                && (activeIndex + 1) % |workspaces| == old(activeIndex)
                && workspaces == Seen(old(workspaces), activeIndex) && engines == Calmed(old(engines), activeIndex)
    {
      if workspaces != [] {
        PrevWraps(activeIndex, |workspaces|);
        SwitchToIndex(if activeIndex == 0 then |workspaces| - 1 else activeIndex - 1);
      }
    }

    /** Append a workspace with its engine. */
    method Append(w: Workspace, e: E.State)
      requires Valid() && Paired(w, e) && w.id + 1 == nextId && w.id !in Ids(workspaces)
      modifies `workspaces, `engines, `activeIndex
      ensures Valid() && workspaces == old(workspaces) + [w] && engines == old(engines) + [e]
      ensures Ids(workspaces) == Ids(old(workspaces)) + [w.id]
      ensures activeIndex == if old(workspaces) == [] then 0 else old(activeIndex)
    {
      if workspaces == [] {
        activeIndex := 0;
      }
      AppendIds(workspaces, w);
      workspaces := workspaces + [w];
      engines := engines + [e];
    }

    /** Hand out a workspace id and append its sidebar row. */
    method TakeRow() returns (id: nat)
      requires Valid()
      modifies `nextId, `rows
      ensures Valid() && id == old(nextId) && nextId == id + 1 && rows == old(rows) + [id]
      ensures id !in Ids(workspaces)
    {
      id := nextId;
      nextId := nextId + 1;
      rows := rows + [id];
    }

    /** A new workspace with one terminal, shown at once. */
    method CreateWorkspace(name: string, uuid: nat, paneUuid: nat) returns (id: nat)
      requires Valid()
      modifies this
      ensures Valid() && id == old(nextId) && activeIndex == |old(workspaces)|
      ensures workspaces == old(workspaces) + [Workspace(id, uuid, name, None, false)]
      ensures engines == old(engines) + [E.NewEngine(id * 1000, old(nextWid), paneUuid)]
      ensures rows == old(rows) + [id] && Now() == Did(old(Now()), Create(name, uuid, paneUuid))
      ensures old(RowsAligned()) ==> RowsAligned()
    {
      id := TakeRow();
      var e := E.NewEngine(id * 1000, nextWid, paneUuid);
      nextWid := nextWid + 1;
      E.NewEngineInv(id * 1000, nextWid - 1, paneUuid);
      Append(Workspace(id, uuid, name, None, false), e);
      SwitchToIndex(|workspaces| - 1);
      assert engines[|engines| - 1] == e;
    }

    /** A saved workspace, not shown yet. Its sidebar row is appended before the
        tree is looked at, so a tree beyond the depth bound leaves a row behind. */
    method RestoreWorkspace(ws: WorkspaceSession) returns (id: Option<nat>)
      requires Valid()
      modifies this
      ensures Valid() && (id.Some? <==> Restorable(ws.layout)) && nextId == old(nextId) + 1
      ensures rows == old(rows) + [old(nextId)] && Now() == Did(old(Now()), Restore(ws))
      ensures id.None? ==> workspaces == old(workspaces) && engines == old(engines) && activeIndex == old(activeIndex)
      ensures id.Some? ==>
                && id.value == old(nextId)
                && workspaces == old(workspaces) + [Workspace(id.value, ws.uuid, ws.name, ws.group, false)]
                && engines == old(engines) + [Restored(ws.layout, ws.activePane, old(nextWid))]
                && (old(workspaces) != [] ==> activeIndex == old(activeIndex))
      ensures old(RowsAligned()) ==> (RowsAligned() <==> id.Some?)
    {
      ghost var was := rows;
      var taken := TakeRow();
      if DataHeight(ws.layout) > MAX_DEPTH {
        assert |rows| == |was| + 1;
        return None;
      }
      var e := Restored(ws.layout, ws.activePane, nextWid);
      nextWid := nextWid + WidgetCount(ws.layout);
      RestoredInv(ws.layout, ws.activePane, nextWid - WidgetCount(ws.layout));
      RebuildCalm(ws.layout, 1, nextWid - WidgetCount(ws.layout));
      Append(Workspace(taken, ws.uuid, ws.name, ws.group, false), e);
      return Some(taken);
    }

    /** Take workspace `index` and its row out and adjust the active index. */
    method Drop(index: nat)
      requires Valid() && |workspaces| > 1 && index < |workspaces|
      modifies `workspaces, `engines, `activeIndex, `rows
      ensures Valid() && workspaces == RemoveAt(old(workspaces), index) && engines == RemoveAt(old(engines), index)
      ensures Ids(workspaces) == RemoveAt(Ids(old(workspaces)), index)
      ensures activeIndex == ActiveAfter(old(activeIndex), index)
      ensures rows == if index < |old(rows)| then RemoveAt(old(rows), index) else old(rows)
    {
      RemoveIds(workspaces, index);
      RemovePairs(workspaces, engines, index, nextId);
      engines := RemoveAt(engines, index);
      workspaces := RemoveAt(workspaces, index);
      if index < |rows| {
        rows := RemoveAt(rows, index);
      }
      if activeIndex >= |workspaces| {
        activeIndex := |workspaces| - 1;
      } else if index <= activeIndex && activeIndex > 0 {
        activeIndex := activeIndex - 1;
      }
    }

    /** Close workspace `index`, unless it is the last one. Closing another
        workspace leaves the shown one shown. */
    method CloseWorkspace(index: nat) returns (closed: bool)
      requires Valid() && (|workspaces| > 1 ==> index < |workspaces|)
      modifies this
      ensures Valid() && (closed <==> |old(workspaces)| > 1)
      ensures Now() == Did(old(Now()), CloseAt(index))
      ensures !closed ==> workspaces == old(workspaces) && engines == old(engines) && activeIndex == old(activeIndex)
      ensures closed ==>
                && activeIndex < |old(workspaces)| - 1
                && workspaces == Seen(RemoveAt(old(workspaces), index), activeIndex)
                && engines == Calmed(RemoveAt(old(engines), index), activeIndex)
                && Ids(workspaces) == RemoveAt(Ids(old(workspaces)), index)
                && (index != old(activeIndex) ==>
                      Ids(workspaces)[activeIndex] == Ids(old(workspaces))[old(activeIndex)])
                && (index == old(activeIndex) ==> activeIndex == if index == 0 then 0 else index - 1)
      ensures old(RowsAligned()) ==> RowsAligned()
    {
      if |workspaces| <= 1 {
        return false;
      }
      ActiveKept(Ids(workspaces), activeIndex, index);
      Drop(index);
      SwitchToIndex(activeIndex);
      return true;
    }

    /** A bell: the first workspace with a terminal of that id is marked, pane and
        workspace, and nothing else changes. */
    method SetPaneAttention(pane: nat)
      requires Valid()
      modifies `workspaces, `engines
      ensures Valid() && Ids(workspaces) == Ids(old(workspaces))
      ensures Now() == Did(old(Now()), Bell(pane))
      ensures engines == Belled(old(engines), pane)
      ensures var k := FirstWith(old(engines), pane);
              if k == |old(engines)| then workspaces == old(workspaces)
              else
                && workspaces == old(workspaces)[k := old(workspaces)[k].(hasAttention := true)]
                && PaneAttention(engines[k].root, pane)
    {
      var i := 0;
      while i < |engines|
        invariant i <= FirstWith(engines, pane)
        modifies {}
      {
        SetAttentionFacts(engines[i].root, pane, true);
        if SetAttention(engines[i].root, pane, true).1 {
          break;
        }
        i := i + 1;
      }
      if i < |engines| {
        MarkPane(i, pane);
      }
    }

    /** Mark a terminal of workspace `i`, and the workspace. */
    method MarkPane(i: nat, pane: nat)
      requires Valid() && i < |engines| && HasTerminal(engines[i].root, pane)
      modifies `workspaces, `engines
      ensures Valid() && Ids(workspaces) == Ids(old(workspaces))
      ensures engines == old(engines)[i := old(engines)[i].(root := SetAttention(old(engines)[i].root, pane, true).0)]
      ensures workspaces == old(workspaces)[i := old(workspaces)[i].(hasAttention := true)]
      ensures PaneAttention(engines[i].root, pane)
    {
      SetAttentionFacts(engines[i].root, pane, true);
      var root := SetAttention(engines[i].root, pane, true).0;
      SameTreeInv(engines[i], root);
      RePaired(workspaces, engines, i, workspaces[i].(hasAttention := true), engines[i].(root := root));
      engines := engines[i := engines[i].(root := root)];
      workspaces := workspaces[i := workspaces[i].(hasAttention := AnyAttention(root))];
      assert Ids(workspaces) == Ids(old(workspaces));
    }

    /** Keyboard focus has entered a pane: the first workspace with a pane of that id
        makes it the active one. */
    method EnterPane(pane: nat)
      requires Valid()
      modifies `engines
      ensures Valid() && engines == Clicked(old(engines), pane) && Now() == Did(old(Now()), Click(pane))
    {
      var i := 0;
      while i < |engines| && FindPane(engines[i].root, pane).None?
        invariant i <= FirstHolding(engines, pane)
        modifies {}
      {
        i := i + 1;
      }
      if i < |engines| {
        E.ExecProgress(engines[i], E.DoFocusPane(pane));
        RePaired(workspaces, engines, i, workspaces[i], engines[i].(active := pane));
        engines := engines[i := engines[i].(active := pane)];
      }
    }

    method RenameActive(name: string)
      requires Valid()
      modifies `workspaces
      ensures Valid() && Ids(workspaces) == Ids(old(workspaces))
      ensures Now() == Did(old(Now()), Command.Rename(name))
      ensures workspaces == if old(workspaces) == [] then [] else
                              old(workspaces)[activeIndex := old(workspaces)[activeIndex].(name := name)]
    {
      if activeIndex < |workspaces| {
        workspaces := workspaces[activeIndex := workspaces[activeIndex].(name := name)];
        assert Ids(workspaces) == Ids(old(workspaces));
      }
    }

    /** One workspace of a saved session: restored, or replaced by a fresh one of
        the same name when its tree is beyond the bound (or the session predates trees). */
    method RestoreOne(ws: WorkspaceSession, trees: bool)
      requires Valid()
      modifies this
      ensures Valid() && |workspaces| == |old(workspaces)| + 1 && workspaces[..|old(workspaces)|] == old(workspaces)
      ensures |engines| == |old(engines)| + 1 && engines[..|old(engines)|] == old(engines)
      ensures workspaces[|old(workspaces)|].name == ws.name
      ensures trees && Restorable(ws.layout) ==>
                && engines[|old(engines)|] == Restored(ws.layout, ws.activePane, old(nextWid))
                && workspaces[|old(workspaces)|].uuid == ws.uuid && workspaces[|old(workspaces)|].group == ws.group
      ensures !trees || !Restorable(ws.layout) ==> engines[|old(engines)|].root.Leaf?
      ensures !AnyAttention(engines[|old(engines)|].root)
      ensures |rows| == |old(rows)| + if trees && !Restorable(ws.layout) then 2 else 1
      ensures old(RowsAligned()) && (!trees || Restorable(ws.layout)) ==> RowsAligned()
    {
      var done := false;
      RebuildCalm(ws.layout, 1, nextWid);
      if trees {
        var id := RestoreWorkspace(ws);
        done := id.Some?;
      }
      if !done {
        var uuid: nat, paneUuid: nat := *, *;
        var id := CreateWorkspace("", uuid, paneUuid);
        RenameActive(ws.name);
      }
    }

    /** Restore a whole session at startup: one workspace for each saved one, in
        order and under its name, trees rebuilt where they are within the bound,
        and the saved one shown. The sidebar lines up exactly if every tree was. */
    method RestoreSession(session: SessionData)
      requires Valid() && workspaces == [] && rows == [] && session.workspaces != []
      modifies this
      ensures Valid() && |workspaces| == |session.workspaces|
      ensures SoFar(session.workspaces, session.version >= 2, workspaces, engines)
      ensures activeIndex == if session.activeIndex < |workspaces| then session.activeIndex else |workspaces| - 1
      ensures RowsAligned() <==> session.version < 2 || forall ws :: ws in session.workspaces ==> Restorable(ws.layout)
    {
      RestoreAll(session.workspaces, session.version >= 2);
      var active := if session.activeIndex < |workspaces| then session.activeIndex else |workspaces| - 1;
      ClearCalm(engines[active].root);
      SwitchToIndex(active);
    }

    /** One workspace for each saved one, in order. */
    method RestoreAll(saved: seq<WorkspaceSession>, trees: bool)
      requires Valid() && workspaces == [] && rows == []
      modifies this
      ensures Valid() && SoFar(saved, trees, workspaces, engines)
      ensures RowsAligned() <==> AllFit(saved, trees)
    {
      for n := 0 to |saved|
        invariant Valid() && |workspaces| == n
        invariant SoFar(saved[..n], trees, workspaces, engines)
        invariant if AllFit(saved[..n], trees) then RowsAligned() else |rows| > |workspaces|
      {
        ghost var ws0, es0 := workspaces, engines;
        RestoreOne(saved[n], trees);
        assert saved[..n + 1] == saved[..n] + [saved[n]];
        SoFarExtends(saved[..n], trees, ws0, es0, saved[n], workspaces, engines);
      }
      assert saved[..|saved|] == saved;
    }

    /** A layout operation in the shown workspace. */
    method Layout(op: E.Op)
      requires Valid() && workspaces != []
      modifies `engines
      ensures Valid() && engines == old(engines)[activeIndex := E.Exec(old(engines)[activeIndex], op)]
      ensures Now() == Did(old(Now()), LayoutOp(op))
    {
      E.ExecProgress(engines[activeIndex], op);
      ExecAttention(engines[activeIndex], op);
      engines := engines[activeIndex := E.Exec(engines[activeIndex], op)];
    }

    // ── Whole runs ───────────────────────────────────────────────────────────

    method Perform(c: Command)
      requires Valid() && InRange(c)
      modifies this
      ensures Valid() && Now() == Did(old(Now()), c)
      ensures old(RowsAligned()) && Fits(c) ==> RowsAligned()
    {
      match c
      case Create(name, uuid, paneUuid) => var id := CreateWorkspace(name, uuid, paneUuid);
      case Restore(ws) => var id := RestoreWorkspace(ws);
      case CloseAt(index) => var closed := CloseWorkspace(index);
      case SwitchTo(index) => SwitchToIndex(index);
      case Next => SwitchNext();
      case Prev => SwitchPrev();
      case Bell(pane) => SetPaneAttention(pane);
      case Click(pane) => EnterPane(pane);
      case Rename(name) => RenameActive(name);
      case LayoutOp(op) =>
        if workspaces != [] {
          Layout(op);
        }
    }

    /** The index of a close is in range. */
    predicate InRange(c: Command)
      reads this
    {
      c.CloseAt? && |workspaces| > 1 ==> c.index < |workspaces|
    }

    /** Any run of commands, up to the first close of an index out of range, does what
        the commands do one after the other. All along, engines and workspaces stay
        paired, the active index stays in range and attention on a pane shows on its
        workspace. The sidebar stays aligned if no restored tree is beyond the bound. */
    method RunCommands(commands: seq<Command>) returns (done: nat)
      requires Valid()
      modifies this
      ensures Valid() && done <= |commands| && Now() == Ran(old(Now()), commands[..done])
      ensures done < |commands| ==> !InRange(commands[done])
      ensures old(RowsAligned()) && (forall i :: 0 <= i < done ==> Fits(commands[i])) ==> RowsAligned()
    {
      done := 0;
      while done < |commands|
        invariant Valid() && done <= |commands| && Now() == Ran(old(Now()), commands[..done])
        invariant old(RowsAligned()) && (forall i :: 0 <= i < done ==> Fits(commands[i])) ==> RowsAligned()
      {
        if !InRange(commands[done]) {
          break;
        }
        RanNext(old(Now()), commands, done);
        Perform(commands[done]);
        done := done + 1;
      }
    }
  }
}
