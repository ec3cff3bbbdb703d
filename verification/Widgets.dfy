// GTK widget trees: GLAreas, preview boxes and dividers with two slots. A tree
// is either shown on the Stack page or detached. `Graft` is the one structural
// edit: exchange the subtree rooted at a widget.
module Widgets {
  import opened Prelude
  import opened Layout

  // Empty is a slot without a child.
  datatype Widget =
    | Empty
    | Area(wid: nat)
    | Box(wid: nat)
    | Paned(wid: nat, orientation: Orientation, start: Widget, end: Widget)

  function Ids(w: Widget): set<nat> {
    match w
    case Empty => {}
    case Area(id) => {id}
    case Box(id) => {id}
    case Paned(id, _, s, e) => {id} + Ids(s) + Ids(e)
  }

  /** The GLAreas of a tree in the order GTK visits them. */
  function Areas(w: Widget): seq<nat> {
    match w
    case Empty => []
    case Area(id) => [id]
    case Box(_) => []
    case Paned(_, _, s, e) => Areas(s) + Areas(e)
  }

  /** No widget occurs twice. */
  ghost predicate Proper(w: Widget) {
    w.Paned? ==>
      && Proper(w.start) && Proper(w.end)
      && w.wid !in Ids(w.start) && w.wid !in Ids(w.end)
      && Ids(w.start) !! Ids(w.end)
  }

  /** The subtree rooted at `id`, Empty if there is none. */
  function At(w: Widget, id: nat): Widget {
    if w.Empty? then Empty
    else if w.wid == id then w
    else if w.Paned? then (if id in Ids(w.start) then At(w.start, id) else At(w.end, id))
    else Empty
  }

  function Graft(w: Widget, id: nat, sub: Widget): Widget {
    if w.Empty? then Empty
    else if w.wid == id then sub
    else if w.Paned? then w.(start := Graft(w.start, id, sub), end := Graft(w.end, id, sub))
    else w
  }

  function Slot(p: Widget, side: Side): Widget
    requires p.Paned?
  {
    if side == Start then p.start else p.end
  }

  function WithSlot(p: Widget, side: Side, child: Widget): Widget
    requires p.Paned?
  {
    if side == Start then p.(start := child) else p.(end := child)
  }

  predicate Holds(w: Widget, id: nat) {
    !w.Empty? && w.wid == id
  }

  /** The divider and slot that `id` sits in, if it is below a divider of `w`. */
  function ParentIn(w: Widget, id: nat): Option<(nat, Side)> {
    if !w.Paned? then None
    else if Holds(w.start, id) then Some((w.wid, Start))
    else if Holds(w.end, id) then Some((w.wid, End))
    else
      var found := ParentIn(w.start, id);
      if found.Some? then found else ParentIn(w.end, id)
  }

  // ── Laws ───────────────────────────────────────────────────────────────────

  lemma {:induction false} AtFacts(w: Widget, id: nat)
    requires Proper(w)
    ensures Proper(At(w, id)) && Ids(At(w, id)) <= Ids(w)
    ensures At(w, id) != Empty <==> id in Ids(w)
    ensures id in Ids(w) ==> At(w, id).wid == id && id in Ids(At(w, id))
  {
    if w.Paned? && w.wid != id {
      AtFacts(w.start, id);
      AtFacts(w.end, id);
    }
  }

  lemma {:induction false} GraftAbsent(w: Widget, id: nat, sub: Widget)
    requires id !in Ids(w)
    ensures Graft(w, id, sub) == w
  {
    if w.Paned? {
      GraftAbsent(w.start, id, sub);
      GraftAbsent(w.end, id, sub);
    }
  }

  /** What a graft does to the set of widgets. */
  lemma {:induction false} GraftIds(w: Widget, id: nat, sub: Widget)
    requires Proper(w) && id in Ids(w)
    requires Ids(sub) !! (Ids(w) - Ids(At(w, id))) && Proper(sub)
    ensures Ids(Graft(w, id, sub)) == Ids(w) - Ids(At(w, id)) + Ids(sub)
    ensures Proper(Graft(w, id, sub))
  {
    if w.Paned? && w.wid != id {
      if id in Ids(w.start) {
        AtFacts(w.start, id);
        GraftIds(w.start, id, sub);
        GraftAbsent(w.end, id, sub);
      } else {
        AtFacts(w.end, id);
        GraftIds(w.end, id, sub);
        GraftAbsent(w.start, id, sub);
      }
    }
  }

  lemma {:induction false} AreasAreIds(w: Widget)
    ensures Elems(Areas(w)) <= Ids(w)
    ensures Proper(w) ==> NoDup(Areas(w))
  {
    if w.Paned? {
      AreasAreIds(w.start);
      AreasAreIds(w.end);
      ElemsConcat(Areas(w.start), Areas(w.end));
      if Proper(w) {
        NoDupConcat(Areas(w.start), Areas(w.end));
      }
    }
  }

  /** What a graft does to the set of GLAreas. */
  lemma {:induction false} GraftAreas(w: Widget, id: nat, sub: Widget)
    requires Proper(w) && id in Ids(w)
    ensures Elems(Areas(Graft(w, id, sub))) == Elems(Areas(w)) - Elems(Areas(At(w, id))) + Elems(Areas(sub))
  {
    if w.Paned? && w.wid != id {
      AreasAreIds(w.start);
      AreasAreIds(w.end);
      ElemsConcat(Areas(w.start), Areas(w.end));
      ElemsConcat(Areas(Graft(w.start, id, sub)), Areas(Graft(w.end, id, sub)));
      if id in Ids(w.start) {
        AtFacts(w.start, id);
        AreasAreIds(At(w.start, id));
        GraftAreas(w.start, id, sub);
        GraftAbsent(w.end, id, sub);
      } else {
        AtFacts(w.end, id);
        AreasAreIds(At(w.end, id));
        GraftAreas(w.end, id, sub);
        GraftAbsent(w.start, id, sub);
      }
    }
  }

  lemma {:induction false} AtAreas(w: Widget, id: nat)
    requires Proper(w)
    ensures Elems(Areas(At(w, id))) <= Elems(Areas(w))
  {
    if w.Paned? && w.wid != id {
      ElemsConcat(Areas(w.start), Areas(w.end));
      AtAreas(w.start, id);
      AtAreas(w.end, id);
    }
  }

  /** Subtrees of subtrees. */
  lemma {:induction false} AtAt(w: Widget, p: nat, id: nat)
    requires Proper(w) && id in Ids(At(w, p))
    ensures At(w, id) == At(At(w, p), id)
  {
    if w.Paned? && w.wid != p {
      AtFacts(w.start, p);
      AtFacts(w.end, p);
      if p in Ids(w.start) {
        AtAt(w.start, p, id);
      } else {
        AtAt(w.end, p, id);
      }
    }
  }

  /** Grafting below `p` and then looking at `p`. */
  lemma {:induction false} AtGraft(w: Widget, p: nat, id: nat, sub: Widget)
    requires Proper(w) && id in Ids(At(w, p)) && id != p
    requires Ids(sub) !! (Ids(w) - Ids(At(w, id)))
    ensures At(Graft(w, id, sub), p) == Graft(At(w, p), id, sub)
  {
    if w.Paned? && w.wid != p {
      AtFacts(w.start, p);
      AtFacts(w.end, p);
      if p in Ids(w.start) {
        AtAt(w.start, p, id);
        AtGraft(w.start, p, id, sub);
        GraftAbsent(w.end, id, sub);
        AtRootOfGraft(w.start, p, id, sub);
      } else {
        AtAt(w.end, p, id);
        AtGraft(w.end, p, id, sub);
        GraftAbsent(w.start, id, sub);
      }
    }
  }

  lemma {:induction false} AtRootOfGraft(w: Widget, p: nat, id: nat, sub: Widget)
    requires Proper(w) && id in Ids(At(w, p)) && id != p
    ensures p in Ids(Graft(w, id, sub))
  {
    if w.Paned? && w.wid != p {
      AtFacts(w.start, p);
      AtFacts(w.end, p);
      if p in Ids(w.start) {
        AtRootOfGraft(w.start, p, id, sub);
      } else {
        AtRootOfGraft(w.end, p, id, sub);
      }
    }
  }

  /** A graft at `p` overrides an earlier one below `p`. */
  lemma {:induction false} GraftOver(w: Widget, p: nat, id: nat, sub: Widget, top: Widget)
    requires Proper(w) && id in Ids(At(w, p)) && id != p
    requires p !in Ids(sub)
    ensures Graft(Graft(w, id, sub), p, top) == Graft(w, p, top)
  {
    if w.Paned? && w.wid != p {
      AtFacts(w.start, p);
      AtFacts(w.end, p);
      if p in Ids(w.start) {
        GraftOver(w.start, p, id, sub, top);
        GraftAbsent(w.end, id, sub);
      } else {
        GraftOver(w.end, p, id, sub, top);
        GraftAbsent(w.start, id, sub);
      }
    }
  }

  /** Exchanging the child in a slot is a graft at that child. */
  lemma {:induction false} GraftSlot(w: Widget, p: nat, side: Side, id: nat, sub: Widget)
    requires Proper(w) && At(w, p).Paned? && Holds(Slot(At(w, p), side), id)
    ensures id in Ids(At(w, p)) && id != p && id in Ids(w)
    ensures At(w, id) == Slot(At(w, p), side)
    ensures Graft(w, id, sub) == Graft(w, p, WithSlot(At(w, p), side, sub))
  {
    AtFacts(w, p);
    AtAt(w, p, id);
    if w.wid == p {
      GraftAbsent(Slot(w, Other(side)), id, sub);
    } else {
      AtFacts(w.start, p);
      AtFacts(w.end, p);
      if p in Ids(w.start) {
        GraftSlot(w.start, p, side, id, sub);
        GraftAbsent(w.end, id, sub);
        GraftAbsent(w.end, p, WithSlot(At(w, p), side, sub));
      } else {
        GraftSlot(w.end, p, side, id, sub);
        GraftAbsent(w.start, id, sub);
        GraftAbsent(w.start, p, WithSlot(At(w, p), side, sub));
      }
    }
  }

  /** Every widget below the root has a parent slot, and it is in it. */
  lemma {:induction false} ParentInFacts(w: Widget, id: nat)
    requires Proper(w)
    ensures ParentIn(w, id).Some? <==> id in Ids(w) && w.wid != id
    ensures ParentIn(w, id).Some? ==>
              var (p, side) := ParentIn(w, id).value;
              p in Ids(w) && At(w, p).Paned? && Holds(Slot(At(w, p), side), id)
  {
    if w.Paned? {
      ParentInFacts(w.start, id);
      ParentInFacts(w.end, id);
      AtFacts(w.start, id);
      AtFacts(w.end, id);
    }
  }

  /** A slot determines the parent of the widget in it. */
  lemma {:induction false} ParentInUnique(w: Widget, p: nat, side: Side, id: nat)
    requires Proper(w) && At(w, p).Paned? && Holds(Slot(At(w, p), side), id)
    ensures ParentIn(w, id) == Some((p, side))
  {
    AtFacts(w, p);
    if w.wid != p {
      AtFacts(w.start, p);
      AtFacts(w.end, p);
      GraftSlot(w, p, side, id, Empty);
      ParentInFacts(w.start, id);
      ParentInFacts(w.end, id);
      if p in Ids(w.start) {
        ParentInUnique(w.start, p, side, id);
      } else {
        ParentInUnique(w.end, p, side, id);
      }
    }
  }

  /** Putting back what is there changes nothing. */
  lemma {:induction false} GraftSelf(w: Widget, p: nat)
    requires Proper(w) && p in Ids(w)
    ensures Graft(w, p, At(w, p)) == w
  {
    if w.Paned? && w.wid != p {
      if p in Ids(w.start) {
        GraftSelf(w.start, p);
        GraftAbsent(w.end, p, At(w, p));
      } else {
        GraftSelf(w.end, p);
        GraftAbsent(w.start, p, At(w, p));
      }
    }
  }

  lemma {:induction false} AtGraftSelf(w: Widget, p: nat, top: Widget)
    requires Proper(w) && p in Ids(w) && Holds(top, p)
    ensures At(Graft(w, p, top), p) == top && p in Ids(Graft(w, p, top))
  {
    if w.Paned? && w.wid != p {
      if p in Ids(w.start) {
        AtGraftSelf(w.start, p, top);
      } else {
        AtGraftSelf(w.end, p, top);
        GraftAbsent(w.start, p, top);
      }
    }
  }
}
