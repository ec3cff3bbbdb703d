// What the widget forest looks like for a given layout tree, and how lookups in
// the layout tree find their widgets.
module Drawing {
  import opened Prelude
  import opened Layout
  import opened Engine
  import opened Widgets

  /** The widget tree a layout tree describes. */
  function Draw(n: Node): (w: Widget)
    ensures w != Empty && w.wid == RootWidget(n)
  {
    match n
    case Leaf(_, area, _, _, _) => Area(area)
    case Preview(_, box, _) => Box(box)
    case Split(o, paned, s, e) => Paned(paned, o, Draw(s), Draw(e))
  }

  /** Each terminal's area was created for that terminal's pane id. */
  ghost predicate Labelled(n: Node, paneOf: map<nat, nat>) {
    match n
    case Leaf(p, area, _, _, _) => area in paneOf && paneOf[area] == p
    case Preview(_, _, _) => true
    case Split(_, _, s, e) => Labelled(s, paneOf) && Labelled(e, paneOf)
  }

  /** A surface pointer cached in the tree is the one in the area's cell. */
  ghost predicate Synced(n: Node, cells: map<nat, nat>) {
    match n
    case Leaf(_, area, surface, _, _) => surface != 0 ==> area in cells && cells[area] == surface
    case Preview(_, _, _) => true
    case Split(_, _, s, e) => Synced(s, cells) && Synced(e, cells)
  }

  lemma {:induction false} LabelledGrows(n: Node, m: map<nat, nat>, m': map<nat, nat>)
    requires Labelled(n, m) && forall a :: a in m ==> a in m' && m'[a] == m[a]
    ensures Labelled(n, m')
  {
    if n.Split? {
      LabelledGrows(n.start, m, m');
      LabelledGrows(n.end, m, m');
    }
  }

  lemma {:induction false} SyncedKept(n: Node, c: map<nat, nat>, c': map<nat, nat>)
    requires Synced(n, c)
    requires forall a :: a in c && a in Areas(Draw(n)) ==> a in c' && c'[a] == c[a]
    ensures Synced(n, c')
  {
    if n.Split? {
      SyncedKept(n.start, c, c');
      SyncedKept(n.end, c, c');
    }
  }

  /** The widget of a pane of the tree is where the tree says. */
  lemma {:induction false} PaneWidget(n: Node, id: nat)
    requires Proper(Draw(n)) && FindPane(n, id).Some?
    ensures var pane := FindPane(n, id).value;
            RootWidget(pane) in Ids(Draw(n)) && At(Draw(n), RootWidget(pane)) == Draw(pane)
  {
    FindPaneIffListed(n, id);
    if n.Split? {
      if FindPane(n.start, id).Some? {
        PaneWidget(n.start, id);
      } else {
        PaneWidget(n.end, id);
      }
    }
  }

  /** The divider above a pane is drawn where the tree says. */
  lemma {:induction false} OverDrawn(n: Node, id: nat)
    requires Proper(Draw(n)) && Over(n, id).Some?
    ensures var split := Over(n, id).value;
            split.Split? && split.paned in Ids(Draw(n)) && At(Draw(n), split.paned) == Draw(split)
  {
    if !IsPane(n.start, id) && !IsPane(n.end, id) {
      if Over(n.start, id).Some? {
        OverDrawn(n.start, id);
      } else {
        OverDrawn(n.end, id);
      }
    }
  }

  /** The divider found for a pane holds that pane's widget in that slot. */
  lemma {:induction false} ParentPanedHolds(n: Node, id: nat)
    requires Proper(Draw(n)) && Unique(n) && FindParentPaned(n, id).Some?
    ensures var (p, isStart) := FindParentPaned(n, id).value;
            && FindPane(n, id).Some? && p in Ids(Draw(n)) && At(Draw(n), p).Paned?
            && Slot(At(Draw(n), p), if isStart then Start else End) == Draw(FindPane(n, id).value)
  {
    FindPaneIffListed(n.start, id);
    FindPaneIffListed(n.end, id);
    if IsPane(n.start, id) {
    } else if IsPane(n.end, id) {
      assert id in Elems(Panes(n.end));
    } else {
      if FindParentPaned(n.start, id).Some? {
        ParentPanedHolds(n.start, id);
      } else {
        ParentPanedHolds(n.end, id);
        FindPaneIffListed(n.end, id);
        assert id in Elems(Panes(n.end));
      }
    }
  }

  /** Every area of the drawing belongs to the terminal it was created for. */
  lemma {:induction false} AreaHasTerminal(n: Node, paneOf: map<nat, nat>, area: nat)
    requires Unique(n) && Labelled(n, paneOf) && area in Areas(Draw(n))
    ensures area in paneOf && HasTerminal(n, paneOf[area]) && FindPane(n, paneOf[area]).value.area == area
  {
    if n.Split? {
      if area in Areas(Draw(n.start)) {
        AreaHasTerminal(n.start, paneOf, area);
      } else {
        AreaHasTerminal(n.end, paneOf, area);
        FindPaneIffListed(n.end, paneOf[area]);
        FindPaneIffListed(n.start, paneOf[area]);
        assert paneOf[area] in Elems(Panes(n.end));
      }
    }
  }

  lemma {:induction false} TerminalHasArea(n: Node, paneOf: map<nat, nat>, id: nat)
    requires Labelled(n, paneOf) && HasTerminal(n, id)
    ensures var area := FindPane(n, id).value.area;
            area in Areas(Draw(n)) && area in paneOf && paneOf[area] == id
  {
    FindPaneIffListed(n, id);
    if n.Split? {
      if FindPane(n.start, id).Some? {
        TerminalHasArea(n.start, paneOf, id);
      } else {
        TerminalHasArea(n.end, paneOf, id);
      }
    }
  }

  /** A split adds the new pane's widgets and its divider to the drawing. */
  lemma {:induction false} SplitLeafDrawn(n: Node, id: nat, added: Node, o: Orientation, paned: nat)
    requires Proper(Draw(n)) && !added.Split? && SplitLeaf(n, id, added, o, paned).Some?
    requires RootWidget(added) !in Ids(Draw(n)) && paned !in Ids(Draw(n)) && paned != RootWidget(added)
    ensures var r := SplitLeaf(n, id, added, o, paned).value;
            && Proper(Draw(r))
            && Ids(Draw(r)) == Ids(Draw(n)) + {paned, RootWidget(added)}
            && Elems(Areas(Draw(r))) == Elems(Areas(Draw(n))) + Elems(Areas(Draw(added)))
            && (n.Split? ==> RootWidget(r) == RootWidget(n))
            && (n.Leaf? ==> RootWidget(r) == paned)
  {
    var r := SplitLeaf(n, id, added, o, paned).value;
    ElemsConcat(Areas(Draw(r.start)), Areas(Draw(r.end)));
    if n.Split? {
      ElemsConcat(Areas(Draw(n.start)), Areas(Draw(n.end)));
      if SplitLeaf(n.start, id, added, o, paned).Some? {
        SplitLeafDrawn(n.start, id, added, o, paned);
      } else {
        SplitLeafDrawn(n.end, id, added, o, paned);
      }
    }
  }

  lemma {:induction false} SplitLeafCarries(n: Node, id: nat, added: Node, o: Orientation, paned: nat,
                                            paneOf: map<nat, nat>, cells: map<nat, nat>)
    requires SplitLeaf(n, id, added, o, paned).Some?
    requires Labelled(n, paneOf) && Labelled(added, paneOf) && Synced(n, cells) && Synced(added, cells)
    ensures var r := SplitLeaf(n, id, added, o, paned).value;
            Labelled(r, paneOf) && Synced(r, cells)
  {
    if n.Split? {
      if SplitLeaf(n.start, id, added, o, paned).Some? {
        SplitLeafCarries(n.start, id, added, o, paned, paneOf, cells);
      } else {
        SplitLeafCarries(n.end, id, added, o, paned, paneOf, cells);
      }
    }
  }

  /** The drawing after a close has no place for the closed pane's widget. */
  lemma {:induction false} RemovePaneDrawn(n: Node, id: nat)
    requires Proper(Draw(n)) && Unique(n) && RemovePane(n, id).Some?
    ensures FindPane(n, id).Some?
    ensures var r := RemovePane(n, id).value.0;
            && RootWidget(r) in Ids(Draw(n)) && Ids(Draw(r)) <= Ids(Draw(n))
            && RootWidget(FindPane(n, id).value) in Ids(Draw(n))
            && RootWidget(FindPane(n, id).value) !in Ids(Draw(r))
  {
    RemovePaneDefined(n, id);
    FindPaneIffListed(n, id);
    FindPaneIffListed(n.start, id);
    FindPaneIffListed(n.end, id);
    assert id in Panes(n.start) ==> id in Elems(Panes(n.start)) && id !in Elems(Panes(n.end));
    if !IsPane(n.start, id) && !IsPane(n.end, id) {
      RemovePaneDefined(n.start, id);
      if RemovePane(n.start, id).Some? {
        RemovePaneDrawn(n.start, id);
      } else {
        RemovePaneDrawn(n.end, id);
      }
    }
  }

  /** Every terminal that holds a surface has its pointer cached. */
  ghost predicate Cached(n: Node, cells: map<nat, nat>) {
    match n
    case Leaf(_, area, surface, _, _) => area in cells ==> surface == cells[area]
    case Preview(_, _, _) => true
    case Split(_, _, s, e) => Cached(s, cells) && Cached(e, cells)
  }

  lemma {:induction false} SyncDrawn(n: Node, mapped: map<nat, nat>)
    ensures Draw(SyncNode(n, mapped)) == Draw(n)
  {
    if n.Split? {
      SyncDrawn(n.start, mapped);
      SyncDrawn(n.end, mapped);
    }
  }

  lemma {:induction false} SyncCaches(n: Node, mapped: map<nat, nat>, cells: map<nat, nat>, paneOf: map<nat, nat>)
    requires Synced(n, cells) && Labelled(n, paneOf)
    requires forall a :: a in mapped ==> a in cells && mapped[a] == cells[a]
    ensures Synced(SyncNode(n, mapped), cells) && Labelled(SyncNode(n, mapped), paneOf)
    ensures (forall a :: a in cells && a in Areas(Draw(n)) ==> a in mapped) ==> Cached(SyncNode(n, mapped), cells)
  {
    if n.Split? {
      SyncCaches(n.start, mapped, cells, paneOf);
      SyncCaches(n.end, mapped, cells, paneOf);
    }
  }
}
