// What it means that the three views of a layout agree (tree, widget forest and
// surfaces), and what each operation does to that agreement: lemmas on values,
// used by the methods of SplitEngines.
module Agreement {
  import opened Prelude
  import opened Layout
  import opened Engine
  import opened Widgets
  import opened Drawing
  import opened Surfaces
  import opened Toolkit

  /** The forest is the drawing of the tree; while a pane is zoomed, that drawing
      with the pane cut from its slot, and the pane alone on the page. */
  ghost predicate Shaped(s: State, trees: Trees) {
    && PAGE in trees
    && match s.zoomed
       case None => trees[PAGE] == Draw(s.root)
       case Some(z) =>
         && FindPane(s.root, z.pane).Some?
         && var pane := FindPane(s.root, z.pane).value;
         && trees[PAGE] == Draw(pane)
         && z.rootWidget in trees
         && trees[z.rootWidget] == Graft(Draw(s.root), RootWidget(pane), Empty)
  }

  /** The agreement of the three views, one aspect at a time: a proof opens the
      aspects it uses. */
  datatype Aspect = TreeSound | ForestDrawn | SurfacesHeld

  ghost predicate Aligned(aspect: Aspect, s: State, trees: Trees, v: Life) {
    match aspect
    case TreeSound => Inv(s)
    case ForestDrawn => Proper(Draw(s.root)) && Shaped(s, trees)
    case SurfacesHeld =>
      && Labelled(s.root, v.paneOf)
      && Synced(s.root, v.cells)
      && v.cells.Keys <= Elems(Areas(Draw(s.root)))
      && v.preserve == {}
  }

  /** Tree, forest and surfaces agree, and no preserve mark is pending. */
  ghost predicate Agrees(s: State, trees: Trees, v: Life) {
    forall aspect {:trigger Aligned(aspect, s, trees, v)} :: Aligned(aspect, s, trees, v)
  }

  lemma Open(s: State, trees: Trees, v: Life)
    requires Agrees(s, trees, v)
    ensures Inv(s) && Proper(Draw(s.root)) && Shaped(s, trees)
    ensures Labelled(s.root, v.paneOf) && Synced(s.root, v.cells)
    ensures v.cells.Keys <= Elems(Areas(Draw(s.root))) && v.preserve == {}
  {
    assert Aligned(TreeSound, s, trees, v) && Aligned(ForestDrawn, s, trees, v) && Aligned(SurfacesHeld, s, trees, v);
  }

  /** Every surface of a pane of `n` stays where it is, and nothing is freed. */
  ghost predicate Kept(n: Node, v: Life, v': Life) {
    && v'.freed == v.freed && v'.grants == v.grants
    && v.last <= v'.last
    && forall a :: a in v.cells && a in Areas(Draw(n)) ==> a in v'.cells && v'.cells[a] == v.cells[a]
  }

  /** Beside the areas that held a surface, exactly the granted ones of `shown` do now. */
  ghost predicate Filled(v: Life, v': Life, shown: set<nat>) {
    v'.cells.Keys == v.cells.Keys + shown * v.grants && v'.grants == v.grants
  }

  /** The area of pane `id`, if it is a terminal. */
  function AreaOf(n: Node, id: nat): set<nat> {
    if HasTerminal(n, id) then {FindPane(n, id).value.area} else {}
  }

  lemma PaneAreas(n: Node, id: nat)
    requires FindPane(n, id).Some?
    ensures Elems(Areas(Draw(FindPane(n, id).value))) == AreaOf(n, id)
  {
    FindPaneIffListed(n, id);
  }

  /** The areas that come on screen when a zoom, if there is one, is undone. */
  function Woken(s: State): set<nat> {
    if s.zoomed.Some? then Elems(Areas(Draw(s.root))) else {}
  }

  /** The areas that come on screen when the zoom is toggled: the whole drawing, or
      the active pane alone. */
  function ZoomShows(s: State): set<nat> {
    if s.zoomed.Some? then Elems(Areas(Draw(s.root)))
    else if s.root.Split? then AreaOf(s.root, s.active)
    else {}
  }

  lemma FilledTwice(n: Node, v0: Life, v1: Life, v2: Life, first: set<nat>, second: set<nat>)
    requires Kept(n, v0, v1) && Filled(v0, v1, first) && Kept(n, v1, v2) && Filled(v1, v2, second)
    ensures Kept(n, v0, v2) && Filled(v0, v2, first + second)
  {
  }

  /** Which areas are granted a surface is no part of the agreement. */
  lemma AgreesGranted(s: State, t: Trees, v: Life, grants: set<nat>)
    requires Agrees(s, t, v)
    ensures Agrees(s, t, v.(grants := grants))
  {
    Open(s, t, v);
  }

  /** A new terminal alone on the page. */
  lemma FreshAgrees(pane: nat, area: nat, uuid: nat, t: Trees, v: Life)
    requires PAGE in t && t[PAGE] == Area(area) && area in v.paneOf && v.paneOf[area] == pane
    requires v.cells.Keys <= {area} && v.preserve == {}
    ensures Agrees(NewEngine(pane, area, uuid), t, v)
  {
    assert Elems(Areas(Area(area))) == {area};
  }

  // ── Splitting, on values ───────────────────────────────────────────────────

  lemma MarkedRelease(v: Life, v': Life, areas: set<nat>)
    requires v.preserve == {} && Released(v.(preserve := areas), v', areas)
    ensures v' == v
  {
    assert Doomed(v.(preserve := areas), areas) == {};
    assert v.cells - {} == v.cells;
  }

  /** The child of a split, seen from the tree the split is drawn in. */
  lemma ChildBelow(w: Widget, n: Node, side: Side)
    requires Proper(w) && n.Split? && n.paned in Ids(w) && At(w, n.paned) == Draw(n)
    ensures var c := RootWidget(Child(n, side));
            && At(w, c) == Draw(Child(n, side)) && c in Ids(w) && c != n.paned && w.wid != c
            && c in Ids(At(w, n.paned))
  {
    var c := RootWidget(Child(n, side));
    GraftSlot(w, n.paned, side, c, Empty);
    BelowIsParented(w, n.paned, c);
  }

  function WithChild(n: Node, side: Side, c: Node): Node
    requires n.Split?
  {
    if side == Start then n.(start := c) else n.(end := c)
  }

  /** Refilling the slot a child was cut from. */
  lemma RefillSlot(w: Widget, n: Node, side: Side, c: Node)
    requires Proper(w) && n.Split? && n.paned in Ids(w) && At(w, n.paned) == Draw(n)
    ensures var cut := Graft(w, RootWidget(Child(n, side)), Empty);
            && At(cut, n.paned) == WithSlot(Draw(n), side, Empty)
            && n.paned in Ids(cut)
            && Graft(cut, n.paned, WithSlot(At(cut, n.paned), side, Draw(c)))
               == Graft(w, n.paned, Draw(WithChild(n, side, c)))
  {
    var id := RootWidget(Child(n, side));
    ChildBelow(w, n, side);
    AtFacts(w, n.paned);
    GraftSlotHere(Draw(n), side, id, Empty);
    AtGraft(w, n.paned, id, Empty);
    AtRootOfGraft(w, n.paned, id, Empty);
    GraftOver(w, n.paned, id, Empty, Draw(WithChild(n, side, c)));
  }

  /** A child exchanged in place under its own root widget is the same edit one
      level up, and its slot already holds it. */
  lemma SameSlot(w: Widget, n: Node, side: Side, c: Node)
    requires Proper(w) && n.Split? && n.paned in Ids(w) && At(w, n.paned) == Draw(n)
    requires RootWidget(c) == RootWidget(Child(n, side))
    ensures var now := Graft(w, RootWidget(c), Draw(c));
            && now == Graft(w, n.paned, Draw(WithChild(n, side, c)))
            && n.paned in Ids(now) && At(now, n.paned) == Draw(WithChild(n, side, c))
  {
    GraftSlot(w, n.paned, side, RootWidget(c), Draw(c));
    AtGraftSelf(w, n.paned, Draw(WithChild(n, side, c)));
  }

  /** The forest after node `n` below the page has become `n'`, taking in the
      detached widget `a`. A new divider in place of a single pane is still
      detached: the caller puts it in the slot or on the page. */
  ghost predicate Replaced(t: Trees, t': Trees, n: Node, n': Node, a: nat)
    requires PAGE in t
  {
    var id := RootWidget(n);
    if n.Split? then
      t' == (t - {a})[PAGE := Graft(t[PAGE], id, Draw(n'))]
    else if Holds(t[PAGE], id) then
      t' == (t - {PAGE, a})[RootWidget(n') := Draw(n')]
    else
      t' == (t - {a})[PAGE := Graft(t[PAGE], id, Empty)][RootWidget(n') := Draw(n')]
  }

  /** `n` is drawn somewhere on the page. */
  ghost predicate OnPage(t: Trees, n: Node) {
    && PAGE in t
    && RootWidget(n) in Ids(t[PAGE])
    && At(t[PAGE], RootWidget(n)) == Draw(n)
  }

  lemma NotAKey(t: Trees, next: nat, id: nat)
    requires Forest(t, next) && PAGE in t && id in Ids(t[PAGE])
    ensures id !in t && id != PAGE
  {
    assert Rooted(PAGE, t[PAGE], next);
    KeysBelow(t, next);
  }

  lemma WrappedRoot(t: Trees, w: nat, a: nat, sub: Widget, q: nat, wrapped: Widget)
    requires w !in t
    ensures ((t - {PAGE})[w := sub] - {w, a})[q := wrapped] == (t - {PAGE, a})[q := wrapped]
  {
  }

  lemma WrappedNested(t: Trees, w: nat, a: nat, rest: Widget, sub: Widget, q: nat, wrapped: Widget)
    requires w !in t && w != PAGE && a != PAGE
    ensures (t[PAGE := rest][w := sub] - {w, a})[q := wrapped] == (t - {a})[PAGE := rest][q := wrapped]
  {
  }

  lemma ChildOnPage(t: Trees, next: nat, n: Node, side: Side)
    requires Forest(t, next) && OnPage(t, n) && n.Split?
    ensures OnPage(t, Child(n, side)) && t[PAGE].wid != RootWidget(Child(n, side))
  {
    assert Rooted(PAGE, t[PAGE], next);
    ChildBelow(t[PAGE], n, side);
  }

  lemma KeptTwice(n: Node, v0: Life, v1: Life, v2: Life)
    requires Kept(n, v0, v1) && Kept(n, v1, v2)
    ensures Kept(n, v0, v2)
  {
  }

  /** Pane `id` is a terminal that holds a surface. */
  predicate Armed(n: Node, id: nat, v: Life) {
    HasTerminal(n, id) && FindPane(n, id).value.area in v.cells
  }

  /** Pane `id` holds a surface once a zoom is undone: it does so now, or it is granted
      one when the whole drawing comes on screen again. */
  predicate CanSplit(s: State, id: nat, v: Life) {
    && HasTerminal(s.root, id)
    && var area := FindPane(s.root, id).value.area;
       area in v.cells || (s.zoomed.Some? && area in v.grants)
  }

  lemma ArmedOnceWoken(s: State, v: Life, v': Life)
    requires Filled(v, v', Woken(s)) && Labelled(s.root, v.paneOf)
    ensures forall id :: Armed(s.root, id, v') <==> CanSplit(s, id, v)
  {
    forall id | HasTerminal(s.root, id)
      ensures FindPane(s.root, id).value.area in Elems(Areas(Draw(s.root)))
    {
      TerminalHasArea(s.root, v.paneOf, id);
    }
  }

  /** The terminal that is split holds its surface already, so only the new one can get one. */
  lemma OneMoved(n: Node, id: nat, added: Node, v: Life, v': Life)
    requires added.Leaf? && Armed(n, id, v) && Filled(v, v', Moved(n, id, added))
    ensures Filled(v, v', {added.area})
  {
    assert Elems(Areas(Draw(added))) == {added.area};
  }

  lemma IdTaken(s: State, t: Trees, v: Life)
    requires Agrees(s, t, v)
    ensures Agrees(s.(next := s.next + 1), t, v)
  {
    Open(s, t, v);
  }

  lemma TailSet(s: State, t: Trees, v: Life, made: Option<nat>)
    requires Agrees(s, t, v) && (made.Some? ==> made.value < s.next)
    ensures Agrees(s.(tail := made), t, v)
  {
    Open(s, t, v);
  }

  /** A pane and its widget, made for the id that `s` handed out last. */
  ghost predicate Ready(s: State, t: Trees, v: Life, added: Node) {
    && !added.Split? && added.pane + 1 == s.next && added.pane !in Panes(s.root)
    && RootWidget(added) in t && RootWidget(added) != PAGE && t[RootWidget(added)] == Draw(added)
    && RootWidget(added) !in Ids(Draw(s.root))
    && Labelled(added, v.paneOf) && (added.Leaf? ==> added.surface == 0)
  }

  /** Splitting beside a terminal of the tree always succeeds. */
  lemma InsertDefined(s: State, t: Trees, v: Life, pane: nat, target: nat, o: Orientation, area: nat, uuid: nat)
    requires Agrees(s, t, v) && HasTerminal(s.root, target) && pane !in Panes(s.root)
    ensures var root := SplitLeaf(s.root, target, Leaf(pane, area, 0, uuid, false), o, area + 1);
            && root.Some?
            && Divided(s.root, root.value, target, o, area + 1, Leaf(pane, area, 0, uuid, false))
            && SplitTaken(s, pane, target, o, area, area + 1, uuid, true)
               == (s.(root := root.value, active := pane), Some(pane))
  {
    Open(s, t, v);
    DividedBy(s.root, target, Leaf(pane, area, 0, uuid, false), o, area + 1);
  }

  /** A preview goes beside the active pane exactly if that is a terminal. */
  lemma PreviewDefined(s: State, t: Trees, v: Life, added: Node, paned: nat)
    requires Agrees(s, t, v) && added.Preview? && added.pane !in Panes(s.root)
    ensures var r := SplitLeaf(s.root, s.active, added, Horizontal, paned);
            if HasTerminal(s.root, s.active) then
              r.Some? && Divided(s.root, r.value, s.active, Horizontal, paned, added)
            else r.None?
    ensures Moved(s.root, s.active, added) == AreaOf(s.root, s.active)
  {
    Open(s, t, v);
    DividedBy(s.root, s.active, added, Horizontal, paned);
  }

  /** The areas that come on screen when terminal `id` is split: its own again, and
      the new pane's. */
  function Moved(n: Node, id: nat, added: Node): set<nat> {
    AreaOf(n, id) + Elems(Areas(Draw(added)))
  }

  /** The three views agree again after a split. */
  lemma SplitAgrees(s: State, s': State, t: Trees, t': Trees, v: Life, v': Life,
                    target: nat, added: Node, o: Orientation, paned: nat)
    requires Agrees(s, t, v) && s.zoomed.None? && Ready(s, t, v, added)
    requires paned !in Ids(Draw(s.root)) && paned != RootWidget(added)
    requires SplitLeaf(s.root, target, added, o, paned).Some?
    requires s' == s.(root := SplitLeaf(s.root, target, added, o, paned).value,
                      active := if added.Leaf? then added.pane else s.active)
    requires PAGE in t' && t'[PAGE] == Draw(s'.root)
    requires Acquired(v, v', Moved(s.root, target, added))
    ensures Agrees(s', t', v') && Kept(s.root, v, v') && Filled(v, v', Moved(s.root, target, added))
  {
    Open(s, t, v);
    assert Inv(s') by {
      SplitLeafInserts(s.root, target, added, o, paned);
      SplitLeafFacts(s.root, target, added, o, paned);
      FindPaneIffListed(s.root, target);
      forall id | id in Panes(s'.root)
        ensures id in Panes(s.root) || id == added.pane
      {
        assert id in Elems(Panes(s'.root));
      }
      assert added.pane in Elems(Panes(s'.root)) && s.active in Elems(Panes(s.root));
    }
    SplitLeafDrawn(s.root, target, added, o, paned);
    SplitLeafInserts(s.root, target, added, o, paned);
    TerminalHasArea(s.root, v.paneOf, target);
    SplitLeafCarries(s.root, target, added, o, paned, v'.paneOf, v.cells);
    SyncedKept(s'.root, v.cells, v'.cells);
  }

  /** A split is seen on screen: a divider of its direction around the two widgets. */
  lemma SplitShown(n: Node, s: State, t: Trees, v: Life, target: nat, o: Orientation, paned: nat, added: Node)
    requires Agrees(s, t, v) && s.zoomed.None? && Divided(n, s.root, target, o, paned, added)
    ensures PAGE in t && At(t[PAGE], paned)
                         == Paned(paned, o, Area(FindPane(n, target).value.area), DrawnAlone(added))
  {
    Open(s, t, v);
    OverDrawn(s.root, added.pane);
  }

  function DrawnAlone(pane: Node): Widget
    requires !pane.Split?
  {
    if pane.Leaf? then Area(pane.area) else Box(pane.box)
  }

  // ── Zooming, on values ─────────────────────────────────────────────────────

  /** With every area of the drawing marked, going off screen costs no surface. */
  lemma AllMarked(v: Life, v': Life, areas: set<nat>, back: set<nat>)
    requires v.preserve == {} && v.cells.Keys <= areas
    requires Reshown(v.(preserve := areas), v', areas, back)
    ensures v'.preserve == {} && v'.freed == v.freed && v'.paneOf == v.paneOf && v.last <= v'.last
    ensures forall a :: a in v.cells ==> a in v'.cells && v'.cells[a] == v.cells[a]
    ensures Filled(v, v', back)
  {
    assert Doomed(v.(preserve := areas), areas) == {};
  }

  /** Zooming the active pane of a split finds everything it looks for. */
  lemma ZoomReady(s: State, t: Trees, next: nat)
    requires Forest(t, next) && Inv(s) && Proper(Draw(s.root)) && Shaped(s, t) && s.zoomed.None? && s.root.Split?
    ensures FindPane(s.root, s.active).Some? && FindParentPaned(s.root, s.active).Some?
    ensures var pane := FindPane(s.root, s.active).value;
            && RootWidget(pane) in Ids(Draw(s.root)) && RootWidget(pane) != s.root.paned
            && At(Draw(s.root), RootWidget(pane)) == Draw(pane)
    ensures s.root.paned != PAGE
  {
    FindPaneIffListed(s.root, s.active);
    ParentPanedExists(s.root, s.active);
    UnzoomRedraws(s.root, s.active);
    PaneWidget(s.root, s.active);
    NotAKey(t, next, s.root.paned);
  }

  lemma ZoomHolds(s: State, v: Life, v': Life, pane: Node)
    requires Proper(Draw(s.root)) && Labelled(s.root, v.paneOf) && Synced(s.root, v.cells)
    requires v.cells.Keys <= Elems(Areas(Draw(s.root))) && v.preserve == {}
    requires RootWidget(pane) in Ids(Draw(s.root)) && At(Draw(s.root), RootWidget(pane)) == Draw(pane)
    requires Reshown(v.(preserve := Elems(Areas(Draw(s.root)))), v',
                     Elems(Areas(Draw(s.root))), Elems(Areas(Draw(pane))))
    ensures Labelled(s.root, v'.paneOf) && Synced(s.root, v'.cells)
    ensures v'.cells.Keys <= Elems(Areas(Draw(s.root))) && v'.preserve == {}
    ensures Kept(s.root, v, v') && Filled(v, v', Elems(Areas(Draw(pane))))
  {
    AllMarked(v, v', Elems(Areas(Draw(s.root))), Elems(Areas(Draw(pane))));
    AtAreas(Draw(s.root), RootWidget(pane));
    SyncedKept(s.root, v.cells, v'.cells);
  }

  lemma ZoomAgrees(s: State, t: Trees, t': Trees, v: Life, v': Life)
    requires Agrees(s, t, v) && s.zoomed.None? && s.root.Split?
    requires var pane := FindPane(s.root, s.active);
             && pane.Some?
             && t' == (t - {PAGE})[s.root.paned := Graft(Draw(s.root), RootWidget(pane.value), Empty)]
                                  [PAGE := Draw(pane.value)]
             && Reshown(v.(preserve := Elems(Areas(Draw(s.root)))), v',
                        Elems(Areas(Draw(s.root))), Elems(Areas(Draw(pane.value))))
    requires s.root.paned != PAGE
    ensures Agrees(ToggleZoom(s), t', v') && Kept(s.root, v, v') && Filled(v, v', AreaOf(s.root, s.active))
  {
    Open(s, t, v);
    PaneWidget(s.root, s.active);
    PaneAreas(s.root, s.active);
    ZoomHolds(s, v, v', FindPane(s.root, s.active).value);
    ZoomShapes(s, t, t');
    ExecProgress(s, DoToggleZoom);
  }

  lemma ZoomShapes(s: State, t: Trees, t': Trees)
    requires Inv(s) && s.zoomed.None? && s.root.Split? && s.root.paned != PAGE && FindPane(s.root, s.active).Some?
    requires var pane := FindPane(s.root, s.active).value;
             t' == (t - {PAGE})[s.root.paned := Graft(Draw(s.root), RootWidget(pane), Empty)][PAGE := Draw(pane)]
    ensures ToggleZoom(s).root == s.root && Shaped(ToggleZoom(s), t')
  {
    ParentPanedExists(s.root, s.active);
  }

  /** Putting the zoomed pane back into the slot it was cut from. */
  lemma UnzoomRedraws(n: Node, id: nat)
    requires Proper(Draw(n)) && Unique(n) && FindParentPaned(n, id).Some?
    ensures FindPane(n, id).Some?
    ensures var (p, isStart) := FindParentPaned(n, id).value;
            var pane := FindPane(n, id).value;
            var side := if isStart then Start else End;
            var cut := Graft(Draw(n), RootWidget(pane), Empty);
            && p in Ids(cut) && At(cut, p).Paned? && Slot(At(cut, p), side) == Empty
            && Graft(cut, p, WithSlot(At(cut, p), side, Draw(pane))) == Draw(n)
            && RootWidget(pane) != RootWidget(n)
  {
    ParentPanedHolds(n, id);
    var (p, isStart) := FindParentPaned(n, id).value;
    var pane := FindPane(n, id).value;
    var side := if isStart then Start else End;
    var w := Draw(n);
    var emptied := WithSlot(At(w, p), side, Empty);
    GraftSlot(w, p, side, RootWidget(pane), Empty);
    BelowIsParented(w, p, RootWidget(pane));
    AtFacts(w, p);
    AtGraftSelf(w, p, emptied);
    GraftOver(w, p, RootWidget(pane), Empty, At(w, p));
    GraftSelf(w, p);
  }

  lemma UnzoomAgrees(s: State, t: Trees, t': Trees, v: Life, v': Life)
    requires Agrees(s, t, v) && s.zoomed.Some?
    requires t' == (t - {s.zoomed.value.rootWidget})[PAGE := Draw(s.root)]
    requires Acquired(v, v', Elems(Areas(Draw(s.root))))
    ensures Agrees(s.(zoomed := None), t', v') && Kept(s.root, v, v') && Filled(v, v', Woken(s))
  {
    Open(s, t, v);
    SyncedKept(s.root, v.cells, v'.cells);
  }

  lemma RejoinMaps(t: Trees, r: nat, w: nat, part: Widget, whole: Widget)
    requires w !in t && w != r && w != PAGE && r != PAGE
    ensures (((t - {PAGE})[w := part] - {w})[r := whole] - {r})[PAGE := whole] == (t - {r})[PAGE := whole]
  {
    assert (t - {PAGE})[w := part] - {w} == t - {PAGE};
  }

  /** The page's pane fits into the slot it was cut from and makes the drawing whole. */
  ghost predicate Refits(t: Trees, z: Zoom, pane: Node, whole: Widget) {
    var w, r := RootWidget(pane), z.rootWidget;
    && w !in t && w != r && w != PAGE && r in t && r != PAGE
    && var side := if z.wasStart then Start else End;
       && z.parentPaned in Ids(t[r]) && At(t[r], z.parentPaned).Paned?
       && Slot(At(t[r], z.parentPaned), side) == Empty
       && Graft(t[r], z.parentPaned, WithSlot(At(t[r], z.parentPaned), side, Draw(pane))) == whole
  }

  /** Where the widgets are while a pane is zoomed. */
  lemma UnzoomPlaces(s: State, t: Trees, next: nat)
    requires Forest(t, next) && Inv(s) && Proper(Draw(s.root)) && Shaped(s, t) && s.zoomed.Some?
    ensures FindPane(s.root, s.zoomed.value.pane).Some?
    ensures var pane := FindPane(s.root, s.zoomed.value.pane).value;
            !pane.Split? && Refits(t, s.zoomed.value, pane, Draw(s.root))
  {
    var r := s.zoomed.value.rootWidget;
    var pane := FindPane(s.root, s.zoomed.value.pane).value;
    FindPaneIffListed(s.root, s.zoomed.value.pane);
    UnzoomRedraws(s.root, s.zoomed.value.pane);
    NotAKey(t, next, RootWidget(pane));
    PaneWidget(s.root, s.zoomed.value.pane);
    assert Rooted(r, t[r], next);
  }

  // ── Closing, on values ─────────────────────────────────────────────────────

  /** One more entry, and a given new one among them: it is the last. */
  lemma OneMore(old': seq<nat>, now: seq<nat>, x: nat)
    requires old' <= now && |now| == |old'| + 1 && x in now && x !in old'
    ensures now == old' + [x]
  {
    assert now == old' + [now[|old'|]];
  }

  /** The areas `gone` hold no surface any more; of the others those do that did, and
      the granted ones of `shown`. */
  ghost predicate Emptied(v: Life, v': Life, gone: set<nat>, shown: set<nat>) {
    v'.cells.Keys == v.cells.Keys - gone + shown * v.grants && v'.grants == v.grants
  }

  /** Unrealizing a whole drawing with every area but `area` marked frees
      exactly that area's surface. */
  lemma OneDoomed(v: Life, v': Life, all: set<nat>, kept: set<nat>, area: nat)
    requires v.preserve == {} && v.cells.Keys <= all && all == kept + {area} && area !in kept
    requires Reshown(v.(preserve := kept), v', all, kept)
    requires forall a :: a in v.cells ==> v.cells[a] !in v.freed
    ensures v'.freed == v.freed + (if area in v.cells then [v.cells[area]] else [])
    ensures v'.preserve == {} && v'.cells.Keys <= kept && v'.paneOf == v.paneOf && v.last <= v'.last
    ensures Emptied(v, v', {area}, kept)
    ensures forall a :: a in v.cells && a in kept ==> a in v'.cells && v'.cells[a] == v.cells[a]
  {
    var doomed := Doomed(v.(preserve := kept), all);
    assert doomed == if area in v.cells then {area} else {};
    if area in v.cells {
      OneMore(v.freed, v'.freed, v.cells[area]);
    }
  }

  /** The same with every area marked: the closed pane was a preview. */
  lemma NoneDoomed(v: Life, v': Life, all: set<nat>)
    requires v.preserve == {} && v.cells.Keys <= all
    requires Reshown(v.(preserve := all), v', all, all)
    ensures v'.freed == v.freed
    ensures v'.preserve == {} && v'.cells.Keys <= all && v'.paneOf == v.paneOf && v.last <= v'.last
    ensures Emptied(v, v', {}, all)
    ensures forall a :: a in v.cells ==> a in v'.cells && v'.cells[a] == v.cells[a]
  {
    AllMarked(v, v', all, all);
  }

  /** The surface that goes with a closed pane, if it held one. */
  function SurfaceOf(n: Node, id: nat, v: Life): seq<nat> {
    if Armed(n, id, v) then [v.cells[FindPane(n, id).value.area]] else []
  }

  /** The three views agree again after a close right below the page. */
  lemma CloseAgrees(s: State, t: Trees, t': Trees, v: Life, v': Life)
    requires Agrees(s, t, v) && s.zoomed.None? && TopChild(s.root, s.active) && Close(s).1.Some?
    requires var rest := Sibling(s.root, s.active).value;
             && PAGE in t' && t'[PAGE] == Draw(rest)
             && Reshown(v.(preserve := Elems(Areas(Draw(rest)))), v',
                        Elems(Areas(Draw(s.root))), Elems(Areas(Draw(rest))))
    requires forall a :: a in v.cells ==> v.cells[a] !in v.freed
    ensures Agrees(Close(s).0, t', v')
    ensures v'.freed == v.freed + SurfaceOf(s.root, s.active, v)
    ensures forall a :: a in v.cells && a in Areas(Draw(Close(s).0.root)) ==> a in v'.cells && v'.cells[a] == v.cells[a]
    ensures v.last <= v'.last && Emptied(v, v', AreaOf(s.root, s.active), Elems(Areas(Draw(Close(s).0.root))))
  {
    Open(s, t, v);
    var rest := Sibling(s.root, s.active).value;
    CloseProgress(s);
    ClosedArea(s.root, s.active);
    var all, kept := Elems(Areas(Draw(s.root))), Elems(Areas(Draw(rest)));
    if HasTerminal(s.root, s.active) {
      OneDoomed(v, v', all, kept, FindPane(s.root, s.active).value.area);
    } else {
      NoneDoomed(v, v', all);
    }
    CloseLabelled(s.root, s.active, v, v');
  }

  lemma CloseLabelled(n: Node, id: nat, v: Life, v': Life)
    requires TopChild(n, id) && Labelled(n, v.paneOf) && Synced(n, v.cells) && v'.paneOf == v.paneOf
    requires forall a :: a in v.cells && a in Areas(Draw(Sibling(n, id).value)) ==>
               a in v'.cells && v'.cells[a] == v.cells[a]
    ensures Labelled(Sibling(n, id).value, v'.paneOf) && Synced(Sibling(n, id).value, v'.cells)
  {
    SyncedKept(Sibling(n, id).value, v.cells, v'.cells);
  }

  /** Right below the root split, the areas are the sibling's and the pane's own. */
  lemma ClosedArea(n: Node, id: nat)
    requires TopChild(n, id) && Unique(n) && Proper(Draw(n))
    ensures RemovePane(n, id).Some? && RemovePane(n, id).value.0 == Sibling(n, id).value && FindPane(n, id).Some?
    ensures Proper(Draw(Sibling(n, id).value))
    ensures var all, kept := Elems(Areas(Draw(n))), Elems(Areas(Draw(Sibling(n, id).value)));
            if HasTerminal(n, id) then
              all == kept + {FindPane(n, id).value.area} && FindPane(n, id).value.area !in kept
            else all == kept
  {
    var gone, rest := if IsPane(n.start, id) then n.start else n.end, Sibling(n, id).value;
    FindPaneIffListed(n.start, id);
    assert id in Panes(n.end) ==> id in Elems(Panes(n.end)) && id !in Elems(Panes(n.start));
    assert FindPane(n, id) == Some(gone);
    ElemsConcat(Areas(Draw(n.start)), Areas(Draw(n.end)));
    AreasAreIds(Draw(rest));
    assert gone.Leaf? ==> Areas(Draw(gone)) == [gone.area] && gone.area in Ids(Draw(gone));
  }

  // ── Whole runs, on values ──────────────────────────────────────────────────

  lemma SyncAgrees(s: State, t: Trees, v: Life, mapped: map<nat, nat>)
    requires Agrees(s, t, v)
    requires forall a :: a in mapped ==> a in v.cells && mapped[a] == v.cells[a]
    ensures Agrees(s.(root := SyncNode(s.root, mapped)), t, v)
    ensures (forall a :: a in v.cells && a in Areas(Draw(s.root)) ==> a in mapped) ==>
              Cached(SyncNode(s.root, mapped), v.cells)
  {
    Open(s, t, v);
    SyncProgress(s, mapped);
    SyncDrawn(s.root, mapped);
    if s.zoomed.Some? {
      SyncKeepsPane(s.root, mapped, s.zoomed.value.pane);
      SyncDrawn(FindPane(s.root, s.zoomed.value.pane).value, mapped);
    }
    SyncCaches(s.root, mapped, v.cells, v.paneOf);
  }

  lemma ZoomTwiceMaps(t: Trees, r: nat, cut: Widget, pane: Widget, whole: Widget)
    requires PAGE in t && t[PAGE] == whole && r !in t && r != PAGE
    ensures ((t - {PAGE})[r := cut][PAGE := pane] - {r})[PAGE := whole] == t
  {
  }

  // ── Closing a workspace, on values ─────────────────────────────────────────

  /** Of the panes that hold a surface, those that are not on the page keep it. */
  lemma PageLeft(s: State, t: Trees, v: Life, v': Life)
    requires Agrees(s, t, v) && PAGE in t && Released(v, v', Elems(Areas(t[PAGE])))
    ensures forall id :: Armed(s.root, id, v') <==>
              Armed(s.root, id, v) && s.zoomed.Some? && id != s.zoomed.value.pane
    ensures v'.cells == map[] <==> s.zoomed.None? || forall id :: Armed(s.root, id, v) ==> id == s.zoomed.value.pane
    ensures forall a :: a in v.cells ==>
              if a in v'.cells then v'.cells[a] == v.cells[a] else v.cells[a] in v'.freed
  {
    Open(s, t, v);
    forall id
      ensures Armed(s.root, id, v') <==> Armed(s.root, id, v) && s.zoomed.Some? && id != s.zoomed.value.pane
    {
      PaneLeft(s, t, v, v', id);
    }
    if v'.cells != map[] {
      var a :| a in v'.cells;
      AreaHasTerminal(s.root, v.paneOf, a);
      assert Armed(s.root, v.paneOf[a], v');
    }
  }

  // A failing input for closing a workspace: two panes with a surface each, the
  // second one zoomed.

  const PAIR := Split(Horizontal, 3, Leaf(1, 1, 0, 5, false), Leaf(2, 2, 0, 6, false))
  const PAIR_ZOOMED := State(PAIR, 2, 3, None, Some(Zoom(2, 3, 3, false)))
  const PAIR_PLACES: Trees := map[PAGE := Area(2), 3 := Paned(3, Horizontal, Area(1), Empty)]
  const PAIR_LIFE := Life(map[1 := 1, 2 := 2], map[1 := 1, 2 := 2], {}, 2, [], {1, 2})

  lemma PairDrawn()
    ensures Panes(PAIR) == [1, 2] && Draw(PAIR) == Paned(3, Horizontal, Area(1), Area(2)) && Areas(Draw(PAIR)) == [1, 2]
    ensures Unique(PAIR) && Proper(Draw(PAIR)) && Graft(Draw(PAIR), 2, Empty) == PAIR_PLACES[3]
  {
  }

  lemma PairPlaced()
    ensures Forest(PAIR_PLACES, 4)
  {
    assert Ids(PAIR_PLACES[PAGE]) == {2} && Ids(PAIR_PLACES[3]) == {1, 3};
  }

  lemma PairAgrees()
    ensures Agrees(PAIR_ZOOMED, PAIR_PLACES, PAIR_LIFE)
  {
    PairDrawn();
    assert FindPane(PAIR, 2) == Some(PAIR.end) && FindParentPaned(PAIR, 2) == Some((3, false));
    assert Elems([1, 2]) == {1, 2} == PAIR_LIFE.cells.Keys;
    forall aspect
      ensures Aligned(aspect, PAIR_ZOOMED, PAIR_PLACES, PAIR_LIFE)
    {
    }
  }

  /** When the page goes, the surface of the pane that is not on it stays. */
  lemma ZoomedCloseLeavesSurface(v': Life)
    requires Released(PAIR_LIFE, v', Elems(Areas(PAIR_PLACES[PAGE])))
    ensures Forest(PAIR_PLACES, 4) && Agrees(PAIR_ZOOMED, PAIR_PLACES, PAIR_LIFE)
    ensures v'.cells == map[1 := 1]
  {
    PairPlaced();
    PairAgrees();
    assert Areas(PAIR_PLACES[PAGE]) == [2];
    assert Doomed(PAIR_LIFE, {2}) == {2} && PAIR_LIFE.cells - {2} == map[1 := 1];
  }

  lemma PaneLeft(s: State, t: Trees, v: Life, v': Life, id: nat)
    requires Agrees(s, t, v) && PAGE in t && Released(v, v', Elems(Areas(t[PAGE])))
    ensures Armed(s.root, id, v') <==> Armed(s.root, id, v) && s.zoomed.Some? && id != s.zoomed.value.pane
  {
    Open(s, t, v);
    if HasTerminal(s.root, id) {
      TerminalHasArea(s.root, v.paneOf, id);
    }
    if s.zoomed.Some? && HasTerminal(s.root, s.zoomed.value.pane) {
      TerminalHasArea(s.root, v.paneOf, s.zoomed.value.pane);
    }
    if s.zoomed.Some? {
      FindPaneIffListed(s.root, s.zoomed.value.pane);
    }
  }

  /** From one moment to a later one, pane by pane: a terminal that held a surface
      and is still in the tree is in the same area with the same surface, and the
      surface of one that left is freed. Nothing freed comes back. */
  ghost predicate Carries(n: Node, v: Life, n': Node, v': Life) {
    && v.freed <= v'.freed
    && forall id :: Armed(n, id, v) ==> Carried(FindPane(n, id).value.area, v, n', v', id)
  }

  ghost predicate Carried(area: nat, v: Life, n': Node, v': Life, id: nat)
    requires area in v.cells
  {
    if FindPane(n', id).Some? then
      Armed(n', id, v') && FindPane(n', id).value.area == area && v'.cells[area] == v.cells[area]
    else v.cells[area] in v'.freed
  }

  lemma CarriesTwice(s: State, v: Life, s1: State, v1: Life, s2: State, v2: Life)
    requires Inv(s) && Progress(s, s1) && Progress(s1, s2)
    requires Carries(s.root, v, s1.root, v1) && Carries(s1.root, v1, s2.root, v2)
    ensures Carries(s.root, v, s2.root, v2)
  {
    forall id | Armed(s.root, id, v)
      ensures Carried(FindPane(s.root, id).value.area, v, s2.root, v2, id)
    {
      assert Carried(FindPane(s.root, id).value.area, v, s1.root, v1, id);
      FindPaneIffListed(s.root, id);
      FindPaneIffListed(s1.root, id);
      FindPaneIffListed(s2.root, id);
    }
  }

  /** Where no pane leaves, keeping the surfaces in their areas carries them. */
  lemma StayingCarries(s: State, v: Life, s': State, v': Life)
    requires Kept(s.root, v, v') && Labelled(s.root, v.paneOf) && Progress(s, s')
    requires forall id :: id in Panes(s.root) ==> id in Panes(s'.root)
    ensures Carries(s.root, v, s'.root, v')
  {
    forall id | Armed(s.root, id, v)
      ensures Carried(FindPane(s.root, id).value.area, v, s'.root, v', id)
    {
      TerminalHasArea(s.root, v.paneOf, id);
      FindPaneIffListed(s.root, id);
      FindPaneIffListed(s'.root, id);
      assert PaneStays(s.root, s'.root, id);
    }
  }

  lemma CloseCarries(s: State, v: Life, v1: Life, v': Life)
    requires Inv(s) && Close(s).1.Some? && Labelled(s.root, v.paneOf) && Labelled(Close(s).0.root, v'.paneOf)
    requires Kept(s.root, v, v1) && v'.freed == v1.freed + SurfaceOf(s.root, s.active, v1)
    requires forall a :: a in v1.cells && a in Areas(Draw(Close(s).0.root)) ==>
               a in v'.cells && v'.cells[a] == v1.cells[a]
    ensures Carries(s.root, v, Close(s).0.root, v')
  {
    var n' := Close(s).0.root;
    RemovePaneElems(s.root, s.active);
    forall id | Armed(s.root, id, v)
      ensures Carried(FindPane(s.root, id).value.area, v, n', v', id)
    {
      TerminalHasArea(s.root, v.paneOf, id);
      if id == s.active {
        FindPaneIffListed(n', id);
        assert id in Panes(n') ==> id in Elems(Panes(n'));
      } else {
        RemovePaneKeepsPane(s.root, s.active, id);
        TerminalHasArea(n', v'.paneOf, id);
      }
    }
  }

  /** A surface in a cell has not been freed. */
  lemma LiveNotFreed(reg: Registries, realized: set<nat>)
    requires reg.Inv(realized)
    ensures forall a :: a in reg.cells ==> reg.cells[a] !in reg.freed
  {
    OpenLedger(realized, reg.Contents());
  }

  /** What `remove_leaf_from_tree` does on screen: the sibling, marked, takes the
      divider's place when that is the page; otherwise the setter refuses it and
      nothing moves. */
  ghost predicate Pruned(n: Node, id: nat, t: Trees, v: Life, rejected: bool, t': Trees, v': Life, rejected': bool)
    requires PAGE in t
  {
    && n.Split? && Sibling(n, id).Some?
    && var rest := Sibling(n, id).value;
       var marked := v.(preserve := v.preserve + Elems(Areas(Draw(rest))));
       if Holds(t[PAGE], n.paned) && TopChild(n, id) then
         && rejected' == rejected
         && PAGE in t' && t'[PAGE] == Draw(rest)
         && Reshown(marked, v', Elems(Areas(Draw(n))), Elems(Areas(Draw(rest))))
       else
         rejected' && t' == t && v' == marked
  }

  lemma CloseDefined(s: State, t: Trees, v: Life)
    requires Agrees(s, t, v) && s.zoomed.None? && Close(s).1.Some?
    ensures OnPage(t, s.root) && t[PAGE] == Draw(s.root) && v.preserve == {}
    ensures RemovePane(s.root, s.active).Some? && s.root.Split? && Holds(t[PAGE], s.root.paned)
    ensures var r := RemovePane(s.root, s.active).value; Close(s) == (s.(root := r.0, active := r.1), Some(r.1))
  {
    Open(s, t, v);
  }

  /** The two outcomes of a close, on values. */
  lemma CloseOnScreen(s: State, t: Trees, v: Life, t': Trees, v': Life, rejected: bool)
    requires Agrees(s, t, v) && s.zoomed.None? && Close(s).1.Some?
    requires forall a :: a in v.cells ==> v.cells[a] !in v.freed
    requires PAGE in t && Pruned(s.root, s.active, t, v, false, t', v', rejected)
    ensures rejected <==> !TopChild(s.root, s.active)
    ensures rejected ==>
              && Sibling(s.root, s.active).Some? && PAGE in t' && t'[PAGE] == Draw(s.root)
              && v' == v.(preserve := Elems(Areas(Draw(Sibling(s.root, s.active).value))))
    ensures TopChild(s.root, s.active) ==>
              && Agrees(Close(s).0, t', v')
              && v'.freed == v.freed + SurfaceOf(s.root, s.active, v)
              && (forall a :: a in v.cells && a in Areas(Draw(Close(s).0.root)) ==>
                    a in v'.cells && v'.cells[a] == v.cells[a])
              && v.last <= v'.last && Emptied(v, v', AreaOf(s.root, s.active), Elems(Areas(Draw(Close(s).0.root))))
              && (HasTerminal(s.root, s.active) ==> FindPane(s.root, s.active).value.area !in Elems(Areas(t'[PAGE])))
    ensures Draw(s.root) != Draw(Close(s).0.root)
  {
    Open(s, t, v);
    RemovePaneDrawn(s.root, s.active);
    var kept := Elems(Areas(Draw(Sibling(s.root, s.active).value)));
    assert {} + kept == kept;
    if TopChild(s.root, s.active) {
      CloseAgrees(s, t, t', v, v');
      ClosedArea(s.root, s.active);
    }
  }

  lemma {:induction false} RemovedRootDrawn(n: Node, id: nat)
    requires RemovePane(n, id).Some?
    ensures RootWidget(RemovePane(n, id).value.0) in Ids(Draw(n))
  {
  }

  /** A widget number not handed out yet, or the key of a tree, is not on the page. */
  lemma PageIdsBelow(t: Trees, next: nat, id: nat)
    requires Forest(t, next) && PAGE in t
    requires id >= next || (id in t && id != PAGE)
    ensures id !in Ids(t[PAGE])
    ensures next !in Ids(t[PAGE]) && (id in t && id != PAGE ==> id < next)
  {
    assert Rooted(PAGE, t[PAGE], next);
    if id in t && id != PAGE {
      assert Rooted(id, t[id], next) && id in Ids(t[id]);
    }
  }

  /** A pane's surface can be found through the registry exactly when its area holds one. */
  lemma SurfaceOfPane(n: Node, pane: nat, reg: Registries)
    requires Unique(n) && Labelled(n, reg.paneOf) && Synced(n, reg.cells)
    requires Owned(reg.cells, reg.paneOf, reg.surfaceRegistry, reg.owner)
    requires Alive(reg.surfaceRegistry, reg.lastSurface, reg.freed)
    requires reg.cells.Keys <= Elems(Areas(Draw(n)))
    ensures forall s :: s in reg.surfaceRegistry && reg.surfaceRegistry[s] == pane ==>
              && HasTerminal(n, pane) && FindPane(n, pane).value.area in reg.cells
              && s == reg.cells[FindPane(n, pane).value.area] && s !in reg.freed
    ensures HasTerminal(n, pane) && FindPane(n, pane).value.area in reg.cells ==>
              var s := reg.cells[FindPane(n, pane).value.area];
              s in reg.surfaceRegistry && reg.surfaceRegistry[s] == pane && s !in reg.freed
    ensures HasTerminal(n, pane) ==>
              var leaf := FindPane(n, pane).value;
              leaf.surface != 0 ==> leaf.area in reg.cells && reg.cells[leaf.area] == leaf.surface
  {
    forall s | s in reg.surfaceRegistry && reg.surfaceRegistry[s] == pane
      ensures HasTerminal(n, pane) && FindPane(n, pane).value.area == reg.owner[s]
    {
      AreaHasTerminal(n, reg.paneOf, reg.owner[s]);
    }
    if HasTerminal(n, pane) {
      TerminalHasArea(n, reg.paneOf, pane);
      SyncedLeaf(n, reg.cells, pane);
    }
  }

  lemma {:induction false} SyncedLeaf(n: Node, cells: map<nat, nat>, pane: nat)
    requires Synced(n, cells) && HasTerminal(n, pane)
    ensures var leaf := FindPane(n, pane).value;
            leaf.surface != 0 ==> leaf.area in cells && cells[leaf.area] == leaf.surface
  {
    if n.Split? {
      if FindPane(n.start, pane).Some? {
        SyncedLeaf(n.start, cells, pane);
      } else {
        SyncedLeaf(n.end, cells, pane);
      }
    }
  }

  lemma ReplacedReady(t: Trees, t': Trees, q: nat, n: Node, n': Node, target: nat, added: Node, o: Orientation)
    requires Forest(t, q) && 0 < q && PAGE in t && !Holds(t[PAGE], RootWidget(n)) && RootWidget(n) in Ids(t[PAGE])
    requires SplitLeaf(n, target, added, o, q) == Some(n')
    requires RootWidget(added) in t && RootWidget(added) != PAGE
    requires Replaced(t, t', n, n', RootWidget(added))
    ensures n'.Split? && PAGE in t' && n'.paned != PAGE
    ensures n.Split? ==> n'.paned == n.paned && t'[PAGE] == Graft(t[PAGE], n'.paned, Draw(n'))
    ensures !n.Split? ==> n'.paned !in t && n'.paned in t' && t'[n'.paned] == Draw(n')
                          && t'[PAGE] == Graft(t[PAGE], RootWidget(n), Empty)
  {
    KeysBelow(t, q);
    NotAKey(t, q, RootWidget(n));
  }

  /** The same for the root of the tree, which is the page. */
  lemma ReplacedRoot(t: Trees, t': Trees, n: Node, n': Node, a: nat)
    requires PAGE in t && t[PAGE] == Draw(n) && Replaced(t, t', n, n', a) && RootWidget(n') != PAGE
    ensures if n.Split? then PAGE in t' && t'[PAGE] == Draw(n')
            else PAGE !in t' && RootWidget(n') in t' && t'[RootWidget(n')] == Draw(n')
  {
  }

  lemma ReplacedUp(t: Trees, t1: Trees, t2: Trees, n: Node, side: Side, child: Node, a: nat)
    requires PAGE in t && n.Split? && a != PAGE && child.Split?
    requires Replaced(t, t1, Child(n, side), child, a)
    requires PAGE in t1 && !Holds(t[PAGE], RootWidget(Child(n, side)))
    requires var top := Graft(t[PAGE], n.paned, Draw(WithChild(n, side, child)));
             if Child(n, side).Split? then t2 == t1 && t2[PAGE] == top
             else child.paned !in t && child.paned != PAGE && t2 == (t1 - {child.paned})[PAGE := top]
    ensures Replaced(t, t2, n, WithChild(n, side, child), a)
  {
    var top := Graft(t[PAGE], n.paned, Draw(WithChild(n, side, child)));
    assert t2.Keys == ((t - {a})[PAGE := top]).Keys;
    assert t2 == (t - {a})[PAGE := top];
  }

  /** What a split that went up one level has brought on screen: nothing but what was
      moved at the bottom, when the new divider was put in its slot. */
  lemma AcquiredUp(v: Life, mid: Life, v': Life, n: Node, side: Side, child: Node,
                   id: nat, added: Node, o: Orientation, paned: nat)
    requires n.Split? && Unique(n) && SplitLeaf(Child(n, side), id, added, o, paned) == Some(child)
    requires BroughtBack(v, mid, Child(n, side), id, added)
    requires if Child(n, side).Split? then v' == mid else Acquired(mid, v', Elems(Areas(Draw(child))))
    ensures BroughtBack(v, v', n, id, added)
  {
    SplitSpot(n, side, id, added, o, paned);
    if !Child(n, side).Split? {
      DividerAreas(Child(n, side), added, o, paned);
    }
  }

  lemma DividerAreas(leaf: Node, added: Node, o: Orientation, paned: nat)
    requires leaf.Leaf?
    ensures Elems(Areas(Draw(Split(o, paned, leaf, added)))) == {leaf.area} + Elems(Areas(Draw(added)))
  {
    ElemsConcat(Areas(Draw(leaf)), Areas(Draw(added)));
  }

  /** Below a divider of the page, exactly the areas that a split moves have come on
      screen; a single pane's new divider is still detached. */
  ghost predicate BroughtBack(v: Life, v': Life, n: Node, id: nat, added: Node) {
    if n.Split? then Acquired(v, v', Moved(n, id, added)) else v' == v
  }
}
