// The part of GTK the layout engine drives: which widget sits where, and the
// realize/unrealize handlers that a change of place runs. An area is realized
// exactly while its tree is the workspace's Stack page.
module Toolkit {
  import opened Prelude
  import opened Layout
  import opened Widgets
  import opened Surfaces

  // The tree shown on the Stack page is kept under this key, every detached
  // tree under the number of its root widget.
  const PAGE: nat := 0

  datatype Parent = NoParent | OnStack | InPaned(paned: nat, side: Side)

  type Trees = map<nat, Widget>

  ghost predicate Rooted(k: nat, w: Widget, next: nat) {
    && w != Empty && Proper(w)
    && (k != PAGE ==> w.wid == k)
    && (forall id :: id in Ids(w) ==> 0 < id < next)
  }

  /** Every widget is in at most one place. */
  ghost predicate Forest(trees: Trees, next: nat) {
    && (forall k :: k in trees ==> Rooted(k, trees[k], next))
    && (forall j, k :: j in trees && k in trees && j != k ==> Ids(trees[j]) !! Ids(trees[k]))
  }

  /** Every area in the forest has been created for a pane. */
  ghost predicate Known(trees: Trees, paneOf: map<nat, nat>) {
    forall k :: k in trees ==> Elems(Areas(trees[k])) <= paneOf.Keys
  }

  function ShownIn(trees: Trees): Widget {
    if PAGE in trees then trees[PAGE] else Empty
  }

  lemma KeysBelow(trees: Trees, next: nat)
    requires Forest(trees, next)
    ensures forall k :: k in trees && k != PAGE ==> k in Ids(trees[k]) && k < next
    ensures 0 < next ==> next !in trees
  {
    assert forall k :: k in trees && k != PAGE ==> Rooted(k, trees[k], next) && k in Ids(trees[k]);
  }

  // ── Edits of the forest ────────────────────────────────────────────────────

  /** Take widget `id` with everything below it out of tree `h`. */
  function Detached(trees: Trees, h: nat, id: nat): Trees
    requires h in trees
  {
    trees[h := Graft(trees[h], id, Empty)][id := At(trees[h], id)]
  }

  /** Put the detached tree `c` into a slot of divider `p` in tree `h`. */
  function Attached(trees: Trees, h: nat, p: nat, side: Side, c: nat): Trees
    requires h in trees && c in trees && At(trees[h], p).Paned?
  {
    (trees - {c})[h := Graft(trees[h], p, WithSlot(At(trees[h], p), side, trees[c]))]
  }

  lemma GraftEmptyRoot(w: Widget, id: nat, sub: Widget)
    requires w != Empty && w.wid != id
    ensures Graft(w, id, sub) != Empty && Graft(w, id, sub).wid == w.wid
  {
  }

  lemma NewForest(trees: Trees, next: nat, w: Widget)
    requires Forest(trees, next) && 0 < next && Holds(w, next) && Ids(w) == {next} && Proper(w)
    ensures Forest(trees[next := w], next + 1)
  {
    var t := trees[next := w];
    forall k | k in t
      ensures Rooted(k, t[k], next + 1)
    {
      assert k != next ==> Rooted(k, trees[k], next);
    }
    KeysBelow(trees, next);
  }

  /** Moving a whole tree between the page and its own key. */
  lemma MovedForest(trees: Trees, next: nat, from: nat, to: nat)
    requires Forest(trees, next) && from in trees && (to == PAGE || to == trees[from].wid) && to !in trees - {from}
    ensures Forest((trees - {from})[to := trees[from]], next)
  {
    assert Rooted(from, trees[from], next);
  }

  /** Putting a smaller tree in the place of `h`. */
  lemma ShrinkForest(trees: Trees, next: nat, h: nat, rest: Widget)
    requires Forest(trees, next) && h in trees && Rooted(h, rest, next) && Ids(rest) <= Ids(trees[h])
    ensures Forest(trees[h := rest], next)
  {
  }

  /** Adding a tree apart from all others. */
  lemma GrowForest(trees: Trees, next: nat, id: nat, part: Widget)
    requires Forest(trees, next) && id !in trees && Rooted(id, part, next)
    requires forall k :: k in trees ==> Ids(trees[k]) !! Ids(part)
    ensures Forest(trees[id := part], next)
  {
  }

  /** Cutting a tree in two. */
  lemma CutForest(trees: Trees, next: nat, h: nat, rest: Widget, id: nat, part: Widget)
    requires Forest(trees, next) && h in trees
    requires Rooted(h, rest, next) && Rooted(id, part, next) && id != PAGE
    requires Ids(rest) !! Ids(part) && Ids(rest) + Ids(part) <= Ids(trees[h])
    ensures Forest(trees[h := rest][id := part], next)
  {
    ShrinkForest(trees, next, h, rest);
    var trees1 := trees[h := rest];
    assert id in Ids(part);
    forall k | k in trees1
      ensures Ids(trees1[k]) !! Ids(part) && k != id
    {
      assert k != h ==> Ids(trees[k]) !! Ids(trees[h]);
      assert Rooted(k, trees1[k], next);
    }
    GrowForest(trees1, next, id, part);
  }

  /** A widget below a root is not the key of a tree. */
  lemma ForestKey(trees: Trees, next: nat, h: nat, id: nat)
    requires Forest(trees, next) && h in trees && id in Ids(trees[h]) && trees[h].wid != id
    ensures id !in trees && id != PAGE
  {
    assert Rooted(h, trees[h], next);
    KeysBelow(trees, next);
  }

  lemma DetachedForest(trees: Trees, next: nat, h: nat, id: nat)
    requires Forest(trees, next) && h in trees && id in Ids(trees[h]) && trees[h].wid != id
    ensures Forest(Detached(trees, h, id), next)
  {
    var w := trees[h];
    assert Rooted(h, w, next);
    AtFacts(w, id);
    GraftIds(w, id, Empty);
    GraftEmptyRoot(w, id, Empty);
    CutForest(trees, next, h, Graft(w, id, Empty), id, At(w, id));
  }

  lemma DetachedKnown(trees: Trees, next: nat, paneOf: map<nat, nat>, h: nat, id: nat)
    requires Forest(trees, next) && h in trees && id in Ids(trees[h]) && Known(trees, paneOf)
    ensures Known(Detached(trees, h, id), paneOf)
    ensures Elems(Areas(Graft(trees[h], id, Empty))) == Elems(Areas(trees[h])) - Elems(Areas(At(trees[h], id)))
    ensures Elems(Areas(At(trees[h], id))) <= Elems(Areas(trees[h])) && NoDup(Areas(At(trees[h], id)))
  {
    AtAreas(trees[h], id);
    AtFacts(trees[h], id);
    AreasAreIds(At(trees[h], id));
    GraftAreas(trees[h], id, Empty);
  }

  lemma SlotSwap(w: Widget, p: nat, side: Side, sub: Widget)
    requires Proper(w) && At(w, p).Paned? && Slot(At(w, p), side) == Empty
    requires Ids(sub) !! Ids(w) && Proper(sub)
    ensures Ids(Graft(w, p, WithSlot(At(w, p), side, sub))) == Ids(w) + Ids(sub)
    ensures Proper(Graft(w, p, WithSlot(At(w, p), side, sub)))
    ensures Graft(w, p, WithSlot(At(w, p), side, sub)) != Empty
    ensures Graft(w, p, WithSlot(At(w, p), side, sub)).wid == w.wid
  {
    AtFacts(w, p);
    GraftIds(w, p, WithSlot(At(w, p), side, sub));
  }

  lemma AttachedForest(trees: Trees, next: nat, h: nat, p: nat, side: Side, c: nat)
    requires Forest(trees, next) && h in trees && c in trees && c != h && c != PAGE
    requires At(trees[h], p).Paned? && Slot(At(trees[h], p), side) == Empty
    ensures Forest(Attached(trees, h, p, side, c), next)
  {
    assert Rooted(h, trees[h], next) && Rooted(c, trees[c], next);
    SlotSwap(trees[h], p, side, trees[c]);
  }

  lemma AttachedKnown(trees: Trees, next: nat, paneOf: map<nat, nat>, h: nat, p: nat, side: Side, c: nat)
    requires Forest(trees, next) && h in trees && c in trees && c != h && Known(trees, paneOf)
    requires At(trees[h], p).Paned? && Slot(At(trees[h], p), side) == Empty
    ensures Known(Attached(trees, h, p, side, c), paneOf)
    ensures Elems(Areas(Attached(trees, h, p, side, c)[h])) == Elems(Areas(trees[h])) + Elems(Areas(trees[c]))
    ensures Elems(Areas(trees[c])) !! Elems(Areas(trees[h])) && NoDup(Areas(trees[c]))
  {
    var w, at, sub := trees[h], At(trees[h], p), trees[c];
    AtFacts(w, p);
    AtAreas(w, p);
    GraftAreas(w, p, WithSlot(at, side, sub));
    ElemsConcat(Areas(at.start), Areas(at.end));
    ElemsConcat(Areas(WithSlot(at, side, sub).start), Areas(WithSlot(at, side, sub).end));
    AreasAreIds(w);
    AreasAreIds(sub);
  }

  lemma FillRoot(trees: Trees, p: nat, side: Side, c: nat)
    requires p in trees && c in trees && trees[p].Paned? && trees[p].wid == p
    ensures Attached(trees, p, p, side, c) == (trees - {c})[p := WithSlot(trees[p], side, trees[c])]
  {
  }

  lemma LiftMaps(t: Trees, was: nat, w: Widget, now: nat)
    requires now != was
    ensures Detached((t - {PAGE})[was := w], was, now) == (t - {PAGE})[was := Graft(w, now, Empty)][now := At(w, now)]
  {
  }

  lemma RestackMaps(t: Trees, was: nat, now: nat, rest: Widget, part: Widget)
    requires now !in t && now != was
    ensures ((t - {PAGE})[was := rest][now := part] - {now})[PAGE := part] == (t - {PAGE})[was := rest][PAGE := part]
  {
  }

  lemma EncloseMaps(t: Trees, p: nat, o: Orientation, a: nat, b: nat)
    requires p !in t && a in t && b in t && a != b
    ensures var t1 := t[p := Paned(p, o, Empty, Empty)];
            var t2 := (t1 - {a})[p := WithSlot(t1[p], Start, t1[a])];
            (t2 - {b})[p := WithSlot(t2[p], End, t2[b])] == (t - {a, b})[p := Paned(p, o, t[a], t[b])]
  {
  }

  class Gtk {
    const reg: Registries
    var trees: Trees
    var pageName: string   // the Stack page's name, meaningful while there is a page
    var nextWid: nat
    var startDirs: map<nat, Option<string>>   // the directory an area's shell is told to start in
    var rejected: bool     // some slot setter was called against its precondition

    constructor (reg: Registries)
      requires reg.Inv({}) && reg.View() == Life(map[], map[], {}, 0, [], reg.grants)
      ensures this.reg == reg && Valid() && trees == map[] && nextWid == 1 && !rejected
      ensures startDirs == map[]
    {
      this.reg := reg;
      trees, pageName, nextWid, startDirs, rejected := map[], "", 1, map[], false;
      new;
      assert Realized() == {};
    }

    function Shown(): Widget
      reads this
    {
      ShownIn(trees)
    }

    function Realized(): set<nat>
      reads this
    {
      Elems(Areas(Shown()))
    }

    ghost predicate Valid()
      reads this, reg
    {
      && 0 < nextWid
      && Forest(trees, nextWid)
      && Known(trees, reg.paneOf)
      && reg.Inv(Realized())
      && (forall a :: a in reg.paneOf ==> a < nextWid)
    }

    // ── New widgets ──────────────────────────────────────────────────────────

    method NewArea(pane: nat, startDir: Option<string>) returns (w: nat)
      requires Valid()
      modifies this`trees, this`nextWid, this`startDirs, reg`paneOf
      ensures Valid() && startDirs == old(startDirs)[w := startDir]
      ensures w == old(nextWid) && nextWid == w + 1 && trees == old(trees)[w := Area(w)]
      ensures reg.View() == old(reg.View()).(paneOf := old(reg.paneOf)[w := pane])
    {
      w := nextWid;
      NewForest(trees, w, Area(w));
      OpenLedger(Realized(), reg.Contents());
      reg.Create(w, pane, Realized());
      trees := trees[w := Area(w)];
      nextWid := nextWid + 1;
      startDirs := startDirs[w := startDir];
      assert Areas(Area(w)) == [w];
    }

    method NewBox() returns (w: nat)
      requires Valid()
      modifies this`trees, this`nextWid
      ensures Valid()
      ensures w == old(nextWid) && nextWid == w + 1 && trees == old(trees)[w := Box(w)]
    {
      w := nextWid;
      NewForest(trees, w, Box(w));
      trees := trees[w := Box(w)];
      nextWid := nextWid + 1;
    }

    method NewPaned(o: Orientation) returns (w: nat)
      requires Valid()
      modifies this`trees, this`nextWid
      ensures Valid()
      ensures w == old(nextWid) && nextWid == w + 1 && trees == old(trees)[w := Paned(w, o, Empty, Empty)]
    {
      w := nextWid;
      NewForest(trees, w, Paned(w, o, Empty, Empty));
      trees := trees[w := Paned(w, o, Empty, Empty)];
      nextWid := nextWid + 1;
    }

    // ── Lookups ──────────────────────────────────────────────────────────────

    ghost predicate In(h: nat, w: nat)
      reads this
    {
      h in trees && w in Ids(trees[h])
    }

    /** The tree that holds widget `w`; `h` is a witness that there is one. */
    method HostOf(w: nat, ghost h: nat) returns (r: nat)
      requires Valid() && In(h, w)
      ensures r == h
    {
      r :| r in trees && w in Ids(trees[r]);
    }

    method ParentOf(w: nat, ghost h: nat) returns (r: Parent)
      requires Valid() && In(h, w)
      ensures r == OnStack <==> h == PAGE && trees[h].wid == w
      ensures r == NoParent <==> h != PAGE && trees[h].wid == w
      ensures r.InPaned? ==> ParentIn(trees[h], w) == Some((r.paned, r.side))
    {
      var k := HostOf(w, h);
      ParentInFacts(trees[k], w);
      if trees[k].wid == w {
        r := if k == PAGE then OnStack else NoParent;
      } else {
        var (p, side) := ParentIn(trees[k], w).value;
        r := InPaned(p, side);
      }
    }

    // ── The Stack page ───────────────────────────────────────────────────────

    /** Stack.remove of the page's child: everything on it unrealizes. */
    method StackRemove()
      requires Valid() && PAGE in trees
      modifies this`trees, reg
      ensures Valid()
      ensures trees == (old(trees) - {PAGE})[old(Shown()).wid := old(Shown())]
      ensures Released(old(reg.View()), reg.View(), old(Realized()))
    {
      var w := trees[PAGE];
      AreasAreIds(w);
      MovedForest(trees, nextWid, PAGE, w.wid);
      reg.UnrealizeAll(Areas(w), Realized());
      assert Realized() - Realized() == {};
      trees := (trees - {PAGE})[w.wid := w];
      assert w.wid in Ids(w) && Realized() == {};
    }

    /** Stack.add_named and set_visible_child_name: everything below realizes. */
    method StackAdd(c: nat, name: string)
      requires Valid() && PAGE !in trees && c in trees
      modifies this`trees, this`pageName, reg
      ensures Valid() && pageName == name
      ensures trees == (old(trees) - {c})[PAGE := old(trees)[c]]
      ensures Acquired(old(reg.View()), reg.View(), Elems(Areas(old(trees)[c])))
    {
      var w := trees[c];
      AreasAreIds(w);
      MovedForest(trees, nextWid, c, PAGE);
      reg.RealizeAll(Areas(w), Realized());
      assert Realized() + Elems(Areas(w)) == Elems(Areas(w));
      trees := (trees - {c})[PAGE := w];
      pageName := name;
    }

    // ── Slots ────────────────────────────────────────────────────────────────

    method Detach(id: nat, ghost h: nat)
      requires Valid() && In(h, id) && trees[h].wid != id
      modifies this`trees, reg
      ensures Valid() && trees == Detached(old(trees), h, id)
      ensures h == PAGE ==> Released(old(reg.View()), reg.View(), Elems(Areas(At(old(trees)[h], id))))
      ensures h != PAGE ==> reg.View() == old(reg.View())
    {
      var k := HostOf(id, h);
      DetachedForest(trees, nextWid, k, id);
      DetachedKnown(trees, nextWid, reg.paneOf, k, id);
      if k == PAGE {
        reg.UnrealizeAll(Areas(At(trees[k], id)), Realized());
      }
      trees := Detached(trees, k, id);
    }

    method Attach(p: nat, side: Side, c: nat, ghost h: nat)
      requires Valid() && In(h, p) && c in trees && c != PAGE && c != h
      requires At(trees[h], p).Paned? && Slot(At(trees[h], p), side) == Empty
      modifies this`trees, reg
      ensures Valid() && trees == Attached(old(trees), h, p, side, c)
      ensures h == PAGE ==> Acquired(old(reg.View()), reg.View(), Elems(Areas(old(trees)[c])))
      ensures h != PAGE ==> reg.View() == old(reg.View())
    {
      var k := HostOf(p, h);
      AttachedForest(trees, nextWid, k, p, side, c);
      AttachedKnown(trees, nextWid, reg.paneOf, k, p, side, c);
      if k == PAGE {
        reg.RealizeAll(Areas(trees[c]), Realized());
      }
      trees := Attached(trees, k, p, side, c);
    }

    /** Paned.set_start_child(None) / set_end_child(None). */
    method ClearSlot(p: nat, side: Side, ghost h: nat)
      requires Valid() && In(h, p) && At(trees[h], p).Paned?
      modifies this`trees, reg
      ensures Valid()
      ensures var was := Slot(At(old(trees)[h], p), side);
              if was == Empty then trees == old(trees) && reg.View() == old(reg.View())
              else
                && trees == Detached(old(trees), h, was.wid)
                && (h == PAGE ==> Released(old(reg.View()), reg.View(), Elems(Areas(was))))
                && (h != PAGE ==> reg.View() == old(reg.View()))
    {
      var k := HostOf(p, h);
      var was := Slot(At(trees[k], p), side);
      if was != Empty {
        GraftSlot(trees[k], p, side, was.wid, Empty);
        AtFacts(trees[k], p);
        ParentInUnique(trees[k], p, side, was.wid);
        ParentInFacts(trees[k], was.wid);
        Detach(was.wid, h);
      }
    }

    /** Paned.set_start_child(Some(c)) / set_end_child(Some(c)). The child must
        have no parent, or be that slot's child already: anything else is
        refused without effect. */
    method SetSlot(p: nat, side: Side, c: nat, ghost h: nat, ghost hc: nat)
      requires Valid() && In(h, p) && In(hc, c) && At(trees[h], p).Paned?
      requires c != h
      modifies this`trees, this`rejected, reg
      ensures var was := Slot(At(old(trees)[h], p), side);
              if Holds(was, c) then
                trees == old(trees) && reg.View() == old(reg.View()) && rejected == old(rejected) && Valid()
              else if hc == PAGE || old(trees)[hc].wid != c then
                trees == old(trees) && reg.View() == old(reg.View()) && rejected && Valid()
              else
                && Valid() && rejected == old(rejected)
                && (was == Empty ==>
                    && trees == Attached(old(trees), h, p, side, c)
                    && (h == PAGE ==> Acquired(old(reg.View()), reg.View(), Elems(Areas(old(trees)[c]))))
                    && (h != PAGE ==> reg.View() == old(reg.View())))
                && (was != Empty ==>
                    && At(Detached(old(trees), h, was.wid)[h], p).Paned? && c in Detached(old(trees), h, was.wid)
                    && trees == Attached(Detached(old(trees), h, was.wid), h, p, side, c)
                    && (h == PAGE ==>
                          Reshown(old(reg.View()), reg.View(), Elems(Areas(was)), Elems(Areas(old(trees)[c]))))
                    && (h != PAGE ==> reg.View() == old(reg.View())))
    {
      var k := HostOf(p, h);
      var was := Slot(At(trees[k], p), side);
      if Holds(was, c) {
        return;
      }
      var parent := ParentOf(c, hc);
      if parent != NoParent {
        rejected := true;
        return;
      }
      if was != Empty {
        SwapSlot(p, side, c, h);
      } else {
        Attach(p, side, c, h);
      }
    }

    /** A detached child takes the place of another one. */
    method SwapSlot(p: nat, side: Side, c: nat, ghost h: nat)
      requires Valid() && In(h, p) && c in trees && c != PAGE && c != h && trees[c].wid == c
      requires At(trees[h], p).Paned? && Slot(At(trees[h], p), side) != Empty
      modifies this`trees, reg
      ensures Valid()
      ensures var was := Slot(At(old(trees)[h], p), side);
              && At(Detached(old(trees), h, was.wid)[h], p).Paned? && c in Detached(old(trees), h, was.wid)
              && trees == Attached(Detached(old(trees), h, was.wid), h, p, side, c)
              && (h == PAGE ==> Reshown(old(reg.View()), reg.View(), Elems(Areas(was)), Elems(Areas(old(trees)[c]))))
              && (h != PAGE ==> reg.View() == old(reg.View()))
    {
      ghost var was := Slot(At(trees[h], p), side);
      SlotFreed(trees, nextWid, h, p, side, c);
      ClearSlot(p, side, h);
      ghost var mid := reg.View();
      Attach(p, side, c, h);
      if h == PAGE {
        ReleasedThenAcquired(old(reg.View()), mid, reg.View(), Elems(Areas(was)), Elems(Areas(old(trees)[c])));
      }
    }

    // ── Compound moves ───────────────────────────────────────────────────────

    method MarkPreserve(area: nat)
      requires Valid()
      modifies reg`preserve
      ensures Valid() && reg.View() == old(reg.View()).(preserve := old(reg.preserve) + {area})
    {
      reg.Mark(area, Realized());
    }

    /** The keyboard focus moves to `area`; its enter handler runs if it is on screen. */
    method GrabFocus(area: nat)
      modifies reg`surfacePtr
      ensures old(Valid()) ==> Valid()
      ensures reg.View() == old(reg.View())
      ensures reg.surfacePtr
              == if area in Areas(Shown()) && area in reg.cells then reg.cells[area] else old(reg.surfacePtr)
    {
      if area in Areas(Shown()) {
        reg.OnFocusEnter(area);
      }
    }

    method Forget(area: nat)
      modifies reg`areaRegistry, reg`glToSurface
      ensures old(Valid()) && !(area in Realized() && area in reg.cells) ==> Valid()
      ensures reg.View() == old(reg.View())
      ensures area !in reg.areaRegistry && area !in reg.glToSurface
    {
      WithoutElems(reg.areaRegistry, area);
      reg.Forget(area);
    }

    /** Take a widget out of the slot or page it is in, if any. */
    method RemoveFromParent(w: nat, ghost h: nat)
      requires Valid() && In(h, w)
      modifies this`trees, reg
      ensures Valid()
      ensures old(trees)[h].wid != w ==>
                && trees == Detached(old(trees), h, w)
                && (h == PAGE ==> Released(old(reg.View()), reg.View(), Elems(Areas(At(old(trees)[h], w)))))
                && (h != PAGE ==> reg.View() == old(reg.View()))
      ensures old(trees)[h].wid == w && h == PAGE ==>
                && trees == (old(trees) - {PAGE})[w := old(trees)[h]]
                && Released(old(reg.View()), reg.View(), Elems(Areas(old(trees)[h])))
      ensures old(trees)[h].wid == w && h != PAGE ==>
                trees == old(trees) && reg.View() == old(reg.View())
    {
      ParentInFacts(trees[h], w);
      var parent := ParentOf(w, h);
      match parent
      case NoParent =>
      case OnStack => StackRemove();
      case InPaned(p, side) =>
        GraftSlot(trees[h], p, side, w, Empty);
        ClearSlot(p, side, h);
    }

    /** A new divider of the given direction around two detached trees. */
    method Enclose(a: nat, b: nat, o: Orientation) returns (paned: nat)
      requires Valid() && a in trees && b in trees && a != b && a != PAGE && b != PAGE
      modifies this`trees, this`nextWid, this`rejected, reg
      ensures Valid() && paned == old(nextWid) && nextWid == paned + 1
      ensures trees == (old(trees) - {a, b})[paned := Paned(paned, o, old(trees)[a], old(trees)[b])]
      ensures reg.View() == old(reg.View()) && rejected == old(rejected)
    {
      KeysBelow(trees, nextWid);
      EncloseMaps(trees, nextWid, o, a, b);
      paned := NewPaned(o);
      FillSlot(paned, Start, a);
      FillSlot(paned, End, b);
    }

    /** set_start_child / set_end_child between two detached trees. */
    method FillSlot(p: nat, side: Side, c: nat)
      requires Valid() && p in trees && c in trees && p != c && p != PAGE && c != PAGE
      requires trees[p].Paned? && Slot(trees[p], side) == Empty
      modifies this`trees, this`rejected, reg
      ensures Valid() && reg.View() == old(reg.View()) && rejected == old(rejected)
      ensures trees == (old(trees) - {c})[p := WithSlot(old(trees)[p], side, old(trees)[c])]
    {
      assert Rooted(p, trees[p], nextWid) && Rooted(c, trees[c], nextWid);
      AtFacts(trees[c], c);
      FillRoot(trees, p, side, c);
      SetSlot(p, side, c, p, c);
    }

    /** Exchange `was` for `now`, a widget below it. On the Stack the new child is
        unparented first; in a divider slot it is not, and the setter refuses it. */
    method ReplaceChild(was: nat, now: nat, ghost h: nat)
      requires Valid() && In(h, was) && now in Ids(At(trees[h], was)) && now != was
      requires h == PAGE || trees[h].wid != was
      modifies this`trees, this`rejected, this`pageName, reg
      ensures pageName == old(pageName)
      ensures h == PAGE && old(trees)[h].wid == was ==>
                var w := old(trees)[h];
                && Valid() && rejected == old(rejected)
                && trees == (old(trees) - {PAGE})[was := Graft(w, now, Empty)][PAGE := At(w, now)]
                && Reshown(old(reg.View()), reg.View(), Elems(Areas(w)), Elems(Areas(At(w, now))))
      ensures old(trees)[h].wid != was ==>
                && Valid() && rejected
                && trees == old(trees) && reg.View() == old(reg.View())
    {
      assert Rooted(h, trees[h], nextWid);
      ReplaceFinds(trees[h], was, now);
      var parent := ParentOf(was, h);
      match parent
      case NoParent => assert false;
      case OnStack => RestackChild(was, now);
      case InPaned(p, side) => RefuseChild(p, side, was, now, h);
    }

    /** The setter refuses a widget that is still below the child it should replace. */
    method RefuseChild(p: nat, side: Side, was: nat, now: nat, ghost h: nat)
      requires Valid() && In(h, p) && In(h, was) && now in Ids(At(trees[h], was)) && now != was
      requires At(trees[h], p).Paned? && Holds(Slot(At(trees[h], p), side), was)
      modifies this`trees, this`rejected, reg
      ensures Valid() && rejected && trees == old(trees) && reg.View() == old(reg.View())
    {
      assert Rooted(h, trees[h], nextWid);
      GraftSlot(trees[h], p, side, was, Empty);
      BelowIsParented(trees[h], was, now);
      SetSlot(p, side, now, h, h);
    }

    method RestackChild(was: nat, now: nat)
      requires Valid() && PAGE in trees && trees[PAGE].wid == was
      requires now in Ids(trees[PAGE]) && now != was
      modifies this`trees, this`pageName, reg
      ensures pageName == old(pageName) && Valid()
      ensures var w := old(trees)[PAGE];
              && trees == (old(trees) - {PAGE})[was := Graft(w, now, Empty)][PAGE := At(w, now)]
              && Reshown(old(reg.View()), reg.View(), Elems(Areas(w)), Elems(Areas(At(w, now))))
    {
      ghost var w := trees[PAGE];
      var name := pageName;
      ForestKey(trees, nextWid, PAGE, now);
      RestackMaps(trees, was, now, Graft(w, now, Empty), At(w, now));
      LiftOut(was, now);
      ghost var mid := reg.View();
      StackAdd(now, name);
      ReleasedThenAcquired(old(reg.View()), mid, reg.View(), Elems(Areas(w)), Elems(Areas(At(w, now))));
    }

    method LiftOut(was: nat, now: nat)
      requires Valid() && PAGE in trees && trees[PAGE].wid == was
      requires now in Ids(trees[PAGE]) && now != was
      modifies this`trees, reg
      ensures Valid() && now !in old(trees)
      ensures var w := old(trees)[PAGE];
              && trees == (old(trees) - {PAGE})[was := Graft(w, now, Empty)][now := At(w, now)]
              && Released(old(reg.View()), reg.View(), Elems(Areas(w)))
    {
      ghost var w := trees[PAGE];
      ForestKey(trees, nextWid, PAGE, now);
      LiftMaps(trees, was, w, now);
      StackRemove();
      RemoveFromParent(now, was);
    }
  }

  /** What an exchange of `was` for `now` looks up. */
  lemma ReplaceFinds(w: Widget, was: nat, now: nat)
    requires Proper(w) && now in Ids(At(w, was))
    ensures was in Ids(w) && now in Ids(w)
    ensures ParentIn(w, was).Some? ==>
              var (p, side) := ParentIn(w, was).value;
              p in Ids(w) && At(w, p).Paned? && Holds(Slot(At(w, p), side), was)
  {
    ParentInFacts(w, was);
    AtFacts(w, was);
  }

  /** A widget properly below another one in a tree is not the root of that tree. */
  lemma BelowIsParented(w: Widget, was: nat, now: nat)
    requires Proper(w) && now in Ids(At(w, was)) && now != was
    ensures w.Paned? && w.wid != now && now in Ids(w)
    ensures forall p, side :: At(w, p).Paned? && Slot(At(w, p), side) == At(w, was) ==>
              !Holds(Slot(At(w, p), side), now)
  {
    AtFacts(w, was);
    if w.wid != was {
      AtFacts(w.start, was);
      AtFacts(w.end, was);
    }
  }

  /** Emptying a slot leaves its divider in place with an empty slot. */
  lemma Cleared(trees: Trees, h: nat, p: nat, side: Side, id: nat)
    requires h in trees && Proper(trees[h]) && At(trees[h], p).Paned? && Holds(Slot(At(trees[h], p), side), id)
    requires id != h
    ensures var w := Detached(trees, h, id)[h];
            At(w, p) == WithSlot(At(trees[h], p), side, Empty) && p in Ids(w)
  {
    var w := trees[h];
    GraftSlot(w, p, side, id, Empty);
    AtGraft(w, p, id, Empty);
    AtRootOfGraft(w, p, id, Empty);
    AtFacts(w, p);
    GraftSlotHere(At(w, p), side, id, Empty);
  }

  /** What emptying a slot leaves in place for the child that comes next. */
  lemma SlotFreed(trees: Trees, next: nat, h: nat, p: nat, side: Side, c: nat)
    requires Forest(trees, next) && h in trees && c in trees && c != PAGE && c != h
    requires At(trees[h], p).Paned? && Slot(At(trees[h], p), side) != Empty
    ensures var was := Slot(At(trees[h], p), side).wid;
            var t := Detached(trees, h, was);
            && was != c && c in t && t[c] == trees[c]
            && h in t && p in Ids(t[h]) && At(t[h], p).Paned? && Slot(At(t[h], p), side) == Empty
  {
    var was := Slot(At(trees[h], p), side);
    assert Rooted(h, trees[h], next) && Rooted(c, trees[c], next);
    GraftSlot(trees[h], p, side, was.wid, Empty);
    AtFacts(trees[h], p);
    ForestKey(trees, next, h, was.wid);
    Cleared(trees, h, p, side, was.wid);
  }

  lemma GraftSlotHere(w: Widget, side: Side, id: nat, sub: Widget)
    requires Proper(w) && w.Paned? && Holds(Slot(w, side), id)
    ensures Graft(w, id, sub) == WithSlot(w, side, sub)
  {
    GraftSlot(w, w.wid, side, id, sub);
  }
}
