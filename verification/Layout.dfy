// The pane layout tree of one workspace and the operations that look it up or
// rewrite it (`SplitNode` and the free functions at the end of
// src/split_engine.rs). Widgets are named by numbers: `area`, `box` and
// `paned` are the GLArea, preview container and divider a node owns.
module Layout {
  import opened Prelude

  datatype Orientation = Horizontal | Vertical
  datatype Side = Start | End
  datatype Direction = Left | Right | Up | Down

  // `surface` is the pointer cached in the tree; 0 is the null placeholder.
  datatype Node =
    | Leaf(pane: nat, area: nat, surface: nat, uuid: nat, attention: bool)
    | Preview(pane: nat, box: nat, uuid: nat)
    | Split(orientation: Orientation, paned: nat, start: Node, end: Node)

  function Other(side: Side): Side {
    if side == Start then End else Start
  }

  function Child(n: Node, side: Side): Node
    requires n.Split?
  {
    if side == Start then n.start else n.end
  }

  predicate IsPane(n: Node, id: nat) {
    !n.Split? && n.pane == id
  }

  /** The panes of a subtree from left/top to right/bottom. */
  function Panes(n: Node): (panes: seq<nat>)
    ensures panes != []
  {
    match n
    case Leaf(p, _, _, _, _) => [p]
    case Preview(p, _, _) => [p]
    case Split(_, _, s, e) => Panes(s) + Panes(e)
  }

  /** No pane id occurs twice. */
  ghost predicate Unique(n: Node) {
    n.Split? ==>
      && Unique(n.start) && Unique(n.end)
      && Elems(Panes(n.start)) !! Elems(Panes(n.end))
  }

  function Terminals(n: Node): nat {
    match n
    case Leaf(_, _, _, _, _) => 1
    case Preview(_, _, _) => 0
    case Split(_, _, s, e) => Terminals(s) + Terminals(e)
  }

  function Height(n: Node): nat {
    match n
    case Leaf(_, _, _, _, _) => 0
    case Preview(_, _, _) => 0
    case Split(_, _, s, e) => 1 + if Height(s) < Height(e) then Height(e) else Height(s)
  }

  function FirstPane(n: Node): nat {
    if n.Split? then FirstPane(n.start) else n.pane
  }

  function FindPane(n: Node, id: nat): Option<Node> {
    match n
    case Leaf(p, _, _, _, _) => if p == id then Some(n) else None
    case Preview(p, _, _) => if p == id then Some(n) else None
    case Split(_, _, s, e) =>
      var found := FindPane(s, id);
      if found.Some? then found else FindPane(e, id)
  }

  predicate HasTerminal(n: Node, id: nat) {
    FindPane(n, id).Some? && FindPane(n, id).value.Leaf?
  }

  /** Replace terminal `id` by a split holding it and `added`. */
  function SplitLeaf(n: Node, id: nat, added: Node, o: Orientation, paned: nat): Option<Node> {
    match n
    case Leaf(p, _, _, _, _) => if p == id then Some(Split(o, paned, n, added)) else None
    case Preview(_, _, _) => None
    case Split(po, pp, s, e) =>
      match SplitLeaf(s, id, added, o, paned)
      case Some(s') => Some(Split(po, pp, s', e))
      case None =>
        match SplitLeaf(e, id, added, o, paned)
        case Some(e') => Some(Split(po, pp, s, e'))
        case None => None
  }

  /** Remove pane `id`; also names the pane that takes over. */
  function RemovePane(n: Node, id: nat): Option<(Node, nat)> {
    if !n.Split? then None
    else if IsPane(n.start, id) then Some((n.end, FirstPane(n.end)))
    else if IsPane(n.end, id) then Some((n.start, FirstPane(n.start)))
    else
      match RemovePane(n.start, id)
      case Some(r) => Some((n.(start := r.0), r.1))
      case None =>
        match RemovePane(n.end, id)
        case Some(r) => Some((n.(end := r.0), r.1))
        case None => None
  }

  /** The other child of the split directly above pane `id`. */
  function Sibling(n: Node, id: nat): Option<Node> {
    if !n.Split? then None
    else if IsPane(n.start, id) then Some(n.end)
    else if IsPane(n.end, id) then Some(n.start)
    else
      var found := Sibling(n.start, id);
      if found.Some? then found else Sibling(n.end, id)
  }

  /** The divider directly above pane `id`, and whether the pane is its start child. */
  function FindParentPaned(n: Node, id: nat): Option<(nat, bool)> {
    if !n.Split? then None
    else if IsPane(n.start, id) then Some((n.paned, true))
    else if IsPane(n.end, id) then Some((n.paned, false))
    else
      var found := FindParentPaned(n.start, id);
      if found.Some? then found else FindParentPaned(n.end, id)
  }

  /** The split directly above pane `id`. */
  function Over(n: Node, id: nat): Option<Node> {
    if !n.Split? then None
    else if IsPane(n.start, id) || IsPane(n.end, id) then Some(n)
    else if Over(n.start, id).Some? then Over(n.start, id)
    else Over(n.end, id)
  }

  /** The root split is the divider directly above pane `id`. */
  predicate TopChild(n: Node, id: nat) {
    n.Split? && (IsPane(n.start, id) || IsPane(n.end, id))
  }

  /** First position of `x`, or |s| when it does not occur. */
  function Position(s: seq<nat>, x: nat): (i: nat)
    ensures i <= |s|
    ensures i < |s| ==> s[i] == x
    ensures x !in s[..i]
    ensures x in s ==> i < |s|
  {
    if s == [] then 0
    else if s[0] == x then 0
    else
      var i := 1 + Position(s[1..], x);
      assert s[..i] == [s[0]] + s[1..][..i - 1];
      i
  }

  /** Copy registered surface pointers into the terminals that have none cached. */
  function SyncNode(n: Node, mapped: map<nat, nat>): Node {
    match n
    case Leaf(_, area, surface, _, _) => if surface == 0 && area in mapped then n.(surface := mapped[area]) else n
    case Preview(_, _, _) => n
    case Split(_, _, s, e) => n.(start := SyncNode(s, mapped), end := SyncNode(e, mapped))
  }

  /** Left and Up are the previous pane in order, Right and Down the next. */
  function Adjacent(n: Node, id: nat, dir: Direction): Option<nat> {
    var panes := Panes(n);
    var at := Position(panes, id);
    if at == |panes| then None
    else if dir == Left || dir == Up then
      if at > 0 then Some(panes[at - 1]) else None
    else
      if at + 1 < |panes| then Some(panes[at + 1]) else None
  }

  // ── Addresses ──────────────────────────────────────────────────────────────

  /** The subtree reached from `n` by `path`, if there is one. */
  function Subtree(n: Node, path: seq<Side>): Option<Node> {
    if path == [] then Some(n)
    else if n.Split? then Subtree(Child(n, path[0]), path[1..])
    else None
  }

  /** `n` with the subtree at `path` exchanged for `sub`. */
  function PutAt(n: Node, path: seq<Side>, sub: Node): Node
    requires Subtree(n, path).Some?
  {
    if path == [] then sub
    else if path[0] == Start then n.(start := PutAt(n.start, path[1..], sub))
    else n.(end := PutAt(n.end, path[1..], sub))
  }

  // ── Lookups ────────────────────────────────────────────────────────────────

  lemma {:induction false} FirstPaneLeads(n: Node)
    ensures FirstPane(n) == Panes(n)[0]
  {
    if n.Split? {
      FirstPaneLeads(n.start);
    }
  }

  lemma {:induction false} UniqueIsNoDup(n: Node)
    ensures Unique(n) <==> NoDup(Panes(n))
  {
    if n.Split? {
      UniqueIsNoDup(n.start);
      UniqueIsNoDup(n.end);
      var a, b := Panes(n.start), Panes(n.end);
      if Unique(n) {
        NoDupConcat(a, b);
      }
      if NoDup(a + b) {
        NoDupParts(a, b);
      }
    }
  }

  lemma {:induction false} FindPaneIffListed(n: Node, id: nat)
    ensures FindPane(n, id).Some? <==> id in Panes(n)
    ensures FindPane(n, id).Some? ==> IsPane(FindPane(n, id).value, id)
  {
    if n.Split? {
      FindPaneIffListed(n.start, id);
      FindPaneIffListed(n.end, id);
    }
  }

  /** A terminal that can be found makes the terminal count positive, and it is
      the only one exactly when taking it out leaves none. */
  lemma {:induction false} TerminalCounted(n: Node, id: nat)
    requires HasTerminal(n, id)
    ensures Terminals(n) >= 1
  {
    if n.Split? {
      if FindPane(n.start, id).Some? {
        TerminalCounted(n.start, id);
      } else {
        TerminalCounted(n.end, id);
      }
    }
  }

  /** The divider reported for a pane exists exactly for the panes below a split. */
  lemma {:induction false} ParentPanedExists(n: Node, id: nat)
    requires n.Split?
    ensures FindParentPaned(n, id).Some? <==> id in Panes(n)
  {
    if n.start.Split? {
      ParentPanedExists(n.start, id);
    }
    if n.end.Split? {
      ParentPanedExists(n.end, id);
    }
  }

  // ── Splitting ──────────────────────────────────────────────────────────────

  /** A split succeeds exactly on a terminal of the tree, puts the new pane
      right behind it in order and changes no other position. */
  lemma {:induction false} SplitLeafInserts(n: Node, id: nat, added: Node, o: Orientation, paned: nat)
    requires Unique(n)
    ensures SplitLeaf(n, id, added, o, paned).Some? <==> HasTerminal(n, id)
    ensures HasTerminal(n, id) ==>
              Panes(SplitLeaf(n, id, added, o, paned).value) == InsertAfter(Panes(n), id, Panes(added))
  {
    if n.Split? {
      SplitLeafInserts(n.start, id, added, o, paned);
      SplitLeafInserts(n.end, id, added, o, paned);
      FindPaneIffListed(n.start, id);
      FindPaneIffListed(n.end, id);
      InsertAfterConcat(Panes(n.start), Panes(n.end), id, Panes(added));
      assert id in Panes(n.start) ==> id in Elems(Panes(n.start)) && id !in Elems(Panes(n.end));
    }
  }

  lemma {:induction false} SplitLeafFacts(n: Node, id: nat, added: Node, o: Orientation, paned: nat)
    requires Unique(n) && HasTerminal(n, id)
    requires !added.Split? && added.pane !in Panes(n)
    ensures SplitLeaf(n, id, added, o, paned).Some?
    ensures var r := SplitLeaf(n, id, added, o, paned).value;
            && r.Split? && Unique(r)
            && Elems(Panes(r)) == Elems(Panes(n)) + {added.pane}
            && Terminals(r) == Terminals(n) + Terminals(added)
  {
    SplitLeafInserts(n, id, added, o, paned);
    if n.Split? {
      FindPaneIffListed(n.start, id);
      if HasTerminal(n.start, id) {
        SplitLeafFacts(n.start, id, added, o, paned);
      } else {
        SplitLeafInserts(n.start, id, added, o, paned);
        SplitLeafFacts(n.end, id, added, o, paned);
      }
    }
  }

  /** A split exchanges the pane, where it stands, for a divider of the direction asked
      for with the pane first and the new one second, and changes nothing else. */
  lemma {:induction false} SplitLeafIsPut(n: Node, id: nat, added: Node, o: Orientation, paned: nat)
    returns (path: seq<Side>)
    requires Unique(n) && SplitLeaf(n, id, added, o, paned).Some?
    ensures Subtree(n, path).Some? && Subtree(n, path) == FindPane(n, id)
    ensures SplitLeaf(n, id, added, o, paned) == Some(PutAt(n, path, Split(o, paned, FindPane(n, id).value, added)))
  {
    if n.Leaf? {
      path := [];
    } else {
      var side := if SplitLeaf(n.start, id, added, o, paned).Some? then Start else End;
      var p := SplitLeafIsPut(Child(n, side), id, added, o, paned);
      path := [side] + p;
      assert path[1..] == p;
      FindPaneIffListed(n.start, id);
      FindPaneIffListed(n.end, id);
      assert id in Panes(n.start) ==> id in Elems(Panes(n.start)) && id !in Elems(Panes(n.end));
    }
  }

  /** The pane that is split is the same one seen from the child it is below. */
  lemma SplitSpot(n: Node, side: Side, id: nat, added: Node, o: Orientation, paned: nat)
    requires n.Split? && Unique(n) && SplitLeaf(Child(n, side), id, added, o, paned).Some?
    ensures HasTerminal(Child(n, side), id) && FindPane(n, id) == FindPane(Child(n, side), id)
  {
    SplitLeafInserts(Child(n, side), id, added, o, paned);
    FindPaneIffListed(n.start, id);
    FindPaneIffListed(n.end, id);
    assert id in Panes(n.start) ==> id in Elems(Panes(n.start)) && id !in Elems(Panes(n.end));
  }

  /** The divider above the new pane. */
  lemma {:induction false} SplitLeafOver(n: Node, id: nat, added: Node, o: Orientation, paned: nat)
    requires Unique(n) && SplitLeaf(n, id, added, o, paned).Some? && !added.Split? && added.pane !in Panes(n)
    ensures FindPane(n, id).Some?
    ensures var r := SplitLeaf(n, id, added, o, paned).value;
            && FindPane(r, added.pane) == Some(added)
            && Over(r, added.pane) == Some(Split(o, paned, FindPane(n, id).value, added))
  {
    if n.Split? {
      SplitLeafInserts(n.start, id, added, o, paned);
      FindPaneIffListed(n.start, id);
      FindPaneIffListed(n.end, id);
      assert id in Panes(n.start) ==> id in Elems(Panes(n.start)) && id !in Elems(Panes(n.end));
      if SplitLeaf(n.start, id, added, o, paned).Some? {
        SplitLeafOver(n.start, id, added, o, paned);
      } else {
        SplitLeafOver(n.end, id, added, o, paned);
        NothingOver(n.start, added.pane);
      }
    }
  }

  lemma {:induction false} NothingOver(n: Node, id: nat)
    requires id !in Panes(n)
    ensures Over(n, id).None? && FindPane(n, id).None?
  {
    if n.Split? {
      NothingOver(n.start, id);
      NothingOver(n.end, id);
    }
  }

  // ── Closing ────────────────────────────────────────────────────────────────

  /** Closing is possible for every pane below a split. */
  lemma {:induction false} RemovePaneDefined(n: Node, id: nat)
    ensures RemovePane(n, id).Some? <==> n.Split? && id in Panes(n)
  {
    if n.Split? {
      RemovePaneDefined(n.start, id);
      RemovePaneDefined(n.end, id);
    }
  }

  lemma {:induction false} SiblingDefined(n: Node, id: nat)
    ensures Sibling(n, id).Some? <==> RemovePane(n, id).Some?
    ensures Sibling(n, id).Some? ==> RemovePane(n, id).value.1 == FirstPane(Sibling(n, id).value)
  {
    if n.Split? {
      SiblingDefined(n.start, id);
      SiblingDefined(n.end, id);
    }
  }

  /** Closing prunes: the split above the pane is exchanged for the pane's
      sibling, whose first pane takes over; nothing else moves. */
  lemma {:induction false} RemovePaneIsPrune(n: Node, id: nat) returns (path: seq<Side>, side: Side)
    requires n.Split? && Unique(n) && id in Panes(n)
    ensures Subtree(n, path).Some? && Subtree(n, path).value.Split?
    ensures IsPane(Child(Subtree(n, path).value, side), id)
    ensures var sibling := Child(Subtree(n, path).value, Other(side));
            RemovePane(n, id) == Some((PutAt(n, path, sibling), Panes(sibling)[0]))
  {
    RemovePaneDefined(n, id);
    if IsPane(n.start, id) {
      FirstPaneLeads(n.end);
      path, side := [], Start;
    } else if IsPane(n.end, id) {
      FirstPaneLeads(n.start);
      path, side := [], End;
    } else if RemovePane(n.start, id).Some? {
      RemovePaneDefined(n.start, id);
      var p, s := RemovePaneIsPrune(n.start, id);
      path, side := [Start] + p, s;
      assert path[1..] == p;
    } else {
      RemovePaneDefined(n.start, id);
      RemovePaneDefined(n.end, id);
      var p, s := RemovePaneIsPrune(n.end, id);
      path, side := [End] + p, s;
      assert path[1..] == p;
    }
  }

  lemma {:induction false} RemovePaneElems(n: Node, id: nat)
    requires Unique(n) && RemovePane(n, id).Some?
    ensures var (r, next) := RemovePane(n, id).value;
            Unique(r) && next in Panes(r) && Elems(Panes(r)) == Elems(Panes(n)) - {id}
  {
    FirstPaneLeads(n.start);
    FirstPaneLeads(n.end);
    RemovePaneDefined(n, id);
    ElemsConcat(Panes(n.start), Panes(n.end));
    if !IsPane(n.start, id) && !IsPane(n.end, id) {
      RemovePaneDefined(n.start, id);
      RemovePaneDefined(n.end, id);
      if RemovePane(n.start, id).Some? {
        RemovePaneElems(n.start, id);
        ElemsConcat(Panes(RemovePane(n.start, id).value.0), Panes(n.end));
        assert id in Elems(Panes(n.start));
      } else {
        RemovePaneElems(n.end, id);
        ElemsConcat(Panes(n.start), Panes(RemovePane(n.end, id).value.0));
        assert id in Elems(Panes(n.end));
      }
    }
  }

  /** Closing takes exactly that pane out of the order and leaves the rest as it was. */
  lemma {:induction false} RemovePaneKeepsOrder(n: Node, id: nat)
    requires Unique(n) && RemovePane(n, id).Some?
    ensures Panes(RemovePane(n, id).value.0) == Without(Panes(n), id)
  {
    var a, b := Panes(n.start), Panes(n.end);
    WithoutConcat(a, b, id);
    RemovePaneDefined(n, id);
    RemovePaneDefined(n.start, id);
    if IsPane(n.start, id) || RemovePane(n.start, id).Some? {
      assert id in Elems(a);
      WithoutAbsent(b, id);
      if !IsPane(n.start, id) && !IsPane(n.end, id) {
        RemovePaneKeepsOrder(n.start, id);
      }
    } else {
      RemovePaneDefined(n.end, id);
      assert id in Elems(b);
      WithoutAbsent(a, id);
      if !IsPane(n.end, id) {
        RemovePaneKeepsOrder(n.end, id);
      }
    }
  }

  /** A close removes one terminal if the pane was one and none otherwise. */
  lemma {:induction false} RemovePaneTerminals(n: Node, id: nat)
    requires Unique(n) && RemovePane(n, id).Some?
    ensures Terminals(RemovePane(n, id).value.0) + (if HasTerminal(n, id) then 1 else 0) == Terminals(n)
  {
    RemovePaneDefined(n, id);
    RemovePaneDefined(n.start, id);
    FindPaneIffListed(n.start, id);
    FindPaneIffListed(n.end, id);
    assert id in Panes(n.start) ==> id in Elems(Panes(n.start)) && id !in Elems(Panes(n.end));
    if !IsPane(n.start, id) && !IsPane(n.end, id) {
      if RemovePane(n.start, id).Some? {
        RemovePaneTerminals(n.start, id);
      } else {
        RemovePaneTerminals(n.end, id);
      }
    }
  }

  /** Closing the pane a split has just made gives back the very same tree and
      hands over to the pane that was split. */
  lemma {:induction false} RemoveUndoesSplit(n: Node, id: nat, added: Node, o: Orientation, paned: nat)
    requires Unique(n) && !added.Split? && added.pane !in Panes(n)
    requires SplitLeaf(n, id, added, o, paned).Some?
    ensures RemovePane(SplitLeaf(n, id, added, o, paned).value, added.pane) == Some((n, id))
  {
    if n.Split? {
      var viaStart := SplitLeaf(n.start, id, added, o, paned);
      RemovePaneDefined(n.start, added.pane);
      if viaStart.Some? {
        RemoveUndoesSplit(n.start, id, added, o, paned);
      } else {
        RemoveUndoesSplit(n.end, id, added, o, paned);
      }
    } else {
      assert n.pane in Panes(n);
    }
  }

  // ── Panes that stay ────────────────────────────────────────────────────────

  /** The same pane, up to the surface pointer cached for it. */
  predicate SamePane(p: Node, p': Node) {
    p' == p || (p.Leaf? && p'.Leaf? && p' == p.(surface := p'.surface))
  }

  /** If pane `id` is in both trees, it is the same pane: same widget, same uuid. */
  predicate PaneStays(n: Node, n': Node, id: nat) {
    FindPane(n, id).Some? && FindPane(n', id).Some? ==> SamePane(FindPane(n, id).value, FindPane(n', id).value)
  }

  lemma {:induction false} SplitLeafKeepsPane(n: Node, id: nat, added: Node, o: Orientation, paned: nat, x: nat)
    requires SplitLeaf(n, id, added, o, paned).Some? && !added.Split? && x != added.pane
    ensures FindPane(SplitLeaf(n, id, added, o, paned).value, x) == FindPane(n, x)
  {
    if n.Split? {
      if SplitLeaf(n.start, id, added, o, paned).Some? {
        SplitLeafKeepsPane(n.start, id, added, o, paned, x);
      } else {
        SplitLeafKeepsPane(n.end, id, added, o, paned, x);
      }
    }
  }

  lemma {:induction false} RemovePaneKeepsPane(n: Node, id: nat, x: nat)
    requires RemovePane(n, id).Some? && x != id
    ensures FindPane(RemovePane(n, id).value.0, x) == FindPane(n, x)
  {
    if !IsPane(n.start, id) && !IsPane(n.end, id) {
      if RemovePane(n.start, id).Some? {
        RemovePaneKeepsPane(n.start, id, x);
      } else {
        RemovePaneKeepsPane(n.end, id, x);
      }
    }
  }

  lemma {:induction false} SyncKeepsTree(n: Node, mapped: map<nat, nat>)
    ensures var n' := SyncNode(n, mapped);
            && Panes(n') == Panes(n) && Terminals(n') == Terminals(n) && Height(n') == Height(n)
            && (Unique(n) ==> Unique(n')) && n'.Split? == n.Split?
  {
    if n.Split? {
      SyncKeepsTree(n.start, mapped);
      SyncKeepsTree(n.end, mapped);
    }
  }

  lemma {:induction false} SyncKeepsPane(n: Node, mapped: map<nat, nat>, id: nat)
    ensures var n' := SyncNode(n, mapped);
            && FindParentPaned(n', id) == FindParentPaned(n, id) && IsPane(n', id) == IsPane(n, id)
            && FindPane(n', id).Some? == FindPane(n, id).Some?
            && (FindPane(n, id).Some? ==> FindPane(n', id).value == SyncNode(FindPane(n, id).value, mapped))
            && PaneStays(n, n', id)
    ensures HasTerminal(n, id) ==>
              var leaf := FindPane(n, id).value;
              var fill := leaf.surface == 0 && leaf.area in mapped;
              FindPane(SyncNode(n, mapped), id) == Some(if fill then leaf.(surface := mapped[leaf.area]) else leaf)
  {
    FindPaneIffListed(n, id);
    if n.Split? {
      SyncKeepsPane(n.start, mapped, id);
      SyncKeepsPane(n.end, mapped, id);
    }
  }

  // ── Focus order ────────────────────────────────────────────────────────────

  lemma PositionUnique(s: seq<nat>, i: nat)
    requires NoDup(s) && i < |s|
    ensures Position(s, s[i]) == i
  {
    var at := Position(s, s[i]);
  }

  lemma {:induction false} PositionConcat(a: seq<nat>, b: seq<nat>, x: nat)
    ensures Position(a + b, x) == if x in a then Position(a, x) else |a| + Position(b, x)
  {
    if a == [] {
      assert a + b == b;
    } else {
      assert (a + b)[1..] == a[1..] + b;
      PositionConcat(a[1..], b, x);
    }
  }

  /** The uuids of the panes, in pane order. */
  function Uuids(n: Node): (r: seq<nat>)
    ensures |r| == |Panes(n)|
  {
    if n.Split? then Uuids(n.start) + Uuids(n.end) else [n.uuid]
  }

  function UuidOf(n: Node, id: nat): Option<nat> {
    if n.Split? then
      var found := UuidOf(n.start, id);
      if found.Some? then found else UuidOf(n.end, id)
    else if n.pane == id then Some(n.uuid)
    else None
  }

  function FindByUuid(n: Node, uuid: nat): Option<nat> {
    if n.Split? then
      var found := FindByUuid(n.start, uuid);
      if found.Some? then found else FindByUuid(n.end, uuid)
    else if n.uuid == uuid then Some(n.pane)
    else None
  }

  /** Both lookups go by position. */
  lemma {:induction false} LookupsByPosition(n: Node, id: nat, uuid: nat)
    ensures UuidOf(n, id) == if id in Panes(n) then Some(Uuids(n)[Position(Panes(n), id)]) else None
    ensures FindByUuid(n, uuid) == if uuid in Uuids(n) then Some(Panes(n)[Position(Uuids(n), uuid)]) else None
  {
    if n.Split? {
      LookupsByPosition(n.start, id, uuid);
      LookupsByPosition(n.end, id, uuid);
      PositionConcat(Panes(n.start), Panes(n.end), id);
      PositionConcat(Uuids(n.start), Uuids(n.end), uuid);
    }
  }
}
