// The surface lifecycle of GLAreas: the realize, unrealize and focus-enter
// handlers of src/ghostty/surface.rs over the global registries of
// src/ghostty/callbacks.rs. A surface is named by the number of its
// allocation; 0 is the null pointer.
module Surfaces {
  import opened Prelude

  /** The part of the registries that decides which processes are alive, and the
      areas for which the environment grants a surface now. */
  datatype Life = Life(
    cells: map<nat, nat>,
    paneOf: map<nat, nat>,
    preserve: set<nat>,
    last: nat,
    freed: seq<nat>,
    grants: set<nat>)

  /** The areas whose surface an unrealize of `areas` frees. */
  function Doomed(v: Life, areas: set<nat>): set<nat> {
    set a | a in v.cells && a in areas && a !in v.preserve
  }

  /** Unrealizing `areas`: a marked area uses up its mark and keeps its surface,
      an unmarked one loses its surface, which is freed. */
  ghost predicate Released(v: Life, v': Life, areas: set<nat>) {
    && v'.paneOf == v.paneOf && v'.grants == v.grants
    && v'.last == v.last
    && v'.preserve == v.preserve - areas
    && v'.cells == v.cells - Doomed(v, areas)
    && v.freed <= v'.freed
    && |v'.freed| == |v.freed| + |Doomed(v, areas)|
    && forall a :: a in Doomed(v, areas) ==> v.cells[a] in v'.freed
  }

  /** Realizing `areas`: surfaces that exist stay in their cells, and an area
      without one gets one, never handed out before, exactly if it is granted. */
  ghost predicate Acquired(v: Life, v': Life, areas: set<nat>) {
    && v'.paneOf == v.paneOf && v'.grants == v.grants
    && v'.preserve == v.preserve
    && v'.freed == v.freed
    && v.last <= v'.last
    && v'.cells.Keys == v.cells.Keys + areas * v.grants
    && (forall a :: a in v.cells ==> v'.cells[a] == v.cells[a])
    && (forall a :: a in v'.cells && a !in v.cells ==> v.last < v'.cells[a] <= v'.last)
  }

  /** Unrealizing `gone` and then realizing `back`. */
  ghost predicate Reshown(v: Life, v': Life, gone: set<nat>, back: set<nat>) {
    && v'.paneOf == v.paneOf && v'.grants == v.grants
    && v'.preserve == v.preserve - gone
    && v.last <= v'.last
    && v'.cells.Keys == v.cells.Keys - Doomed(v, gone) + back * v.grants
    && (forall a :: a in v.cells && a !in Doomed(v, gone) ==> v'.cells[a] == v.cells[a])
    && (forall a :: a in v'.cells && (a !in v.cells || a in Doomed(v, gone)) ==> v.last < v'.cells[a] <= v'.last)
    && v.freed <= v'.freed
    && |v'.freed| == |v.freed| + |Doomed(v, gone)|
    && forall a :: a in Doomed(v, gone) ==> v.cells[a] in v'.freed
  }

  lemma ReleasedThenAcquired(v: Life, mid: Life, v': Life, gone: set<nat>, back: set<nat>)
    requires Released(v, mid, gone) && Acquired(mid, v', back)
    ensures Reshown(v, v', gone, back)
  {
  }

  /** The area registry lists the realized areas that hold a surface, once each. */
  ghost predicate Listed(realized: set<nat>, cells: map<nat, nat>, listed: seq<nat>) {
    NoDup(listed) && forall a :: a in listed <==> a in realized && a in cells
  }

  /** The area-to-surface map agrees with those areas' cells. */
  ghost predicate Mapped(realized: set<nat>, cells: map<nat, nat>, mapped: map<nat, nat>) {
    && (forall a :: a in mapped <==> a in realized && a in cells)
    && (forall a :: a in mapped ==> mapped[a] == cells[a])
  }

  /** Cells own distinct surfaces, and exactly those are registered, each under
      the pane its area was created for. */
  ghost predicate Owned(cells: map<nat, nat>, paneOf: map<nat, nat>, registered: map<nat, nat>, owner: map<nat, nat>) {
    && owner.Keys == registered.Keys
    && (forall a :: a in cells ==>
          && a in paneOf
          && cells[a] in registered && registered[cells[a]] == paneOf[a]
          && owner[cells[a]] == a)
    && (forall s :: s in owner ==> owner[s] in cells && cells[owner[s]] == s)
  }

  /** The registered surfaces are exactly the live ones, allocated and not freed;
      no surface is freed twice. */
  ghost predicate Alive(registered: map<nat, nat>, last: nat, freed: seq<nat>) {
    && NoDup(freed)
    && (forall s :: s in registered <==> 1 <= s <= last && s !in freed)
    && (forall s :: s in freed ==> 1 <= s <= last)
  }

  /** The contents of all registries. */
  datatype Ledger = Ledger(
    cells: map<nat, nat>,
    paneOf: map<nat, nat>,
    listed: seq<nat>,
    mapped: map<nat, nat>,
    registered: map<nat, nat>,
    owner: map<nat, nat>,
    last: nat,
    freed: seq<nat>,
    ptr: nat)

  datatype Entry = Listing | Mapping | Ownership | Lives

  ghost predicate Correct(entry: Entry, realized: set<nat>, l: Ledger) {
    match entry
    case Listing => Listed(realized, l.cells, l.listed)
    case Mapping => Mapped(realized, l.cells, l.mapped)
    case Ownership => Owned(l.cells, l.paneOf, l.registered, l.owner)
    case Lives => Alive(l.registered, l.last, l.freed) && (l.ptr != 0 ==> l.ptr in l.registered)
  }

  /** The registries agree with the set of realized areas; a proof opens the ledger
      where it needs what is in it. */
  ghost predicate Balanced(realized: set<nat>, l: Ledger) {
    forall entry {:trigger Correct(entry, realized, l)} :: Correct(entry, realized, l)
  }

  lemma OpenLedger(realized: set<nat>, l: Ledger)
    requires Balanced(realized, l)
    ensures Listed(realized, l.cells, l.listed) && Mapped(realized, l.cells, l.mapped)
    ensures Owned(l.cells, l.paneOf, l.registered, l.owner) && Alive(l.registered, l.last, l.freed)
    ensures l.ptr != 0 ==> l.ptr in l.registered
  {
    assert Correct(Listing, realized, l) && Correct(Mapping, realized, l);
    assert Correct(Ownership, realized, l) && Correct(Lives, realized, l);
  }

  // ── What each registry update keeps ────────────────────────────────────────

  lemma Created(realized: set<nat>, l: Ledger, area: nat, pane: nat)
    requires Balanced(realized, l) && area !in l.cells
    ensures Balanced(realized, l.(paneOf := l.paneOf[area := pane]))
  {
    OpenLedger(realized, l);
  }

  lemma Enlisted(realized: set<nat>, l: Ledger, area: nat)
    requires Balanced(realized, l) && area !in realized && area in l.cells
    ensures area !in l.listed
    ensures Balanced(realized + {area}, l.(listed := l.listed + [area], mapped := l.mapped[area := l.cells[area]]))
  {
    OpenLedger(realized, l);
  }

  /** An area without a surface may come on screen unnoticed. */
  lemma StaysBlank(realized: set<nat>, l: Ledger, area: nat)
    requires Balanced(realized, l) && area !in realized && area !in l.cells
    ensures Balanced(realized + {area}, l)
  {
    OpenLedger(realized, l);
  }

  lemma Unlisted(realized: set<nat>, l: Ledger, area: nat)
    requires Balanced(realized, l)
    ensures Balanced(realized - {area}, l.(listed := Without(l.listed, area), mapped := l.mapped - {area}))
  {
    OpenLedger(realized, l);
    WithoutElems(l.listed, area);
  }

  lemma AdoptOwned(cells: map<nat, nat>, paneOf: map<nat, nat>, registered: map<nat, nat>, owner: map<nat, nat>,
                   area: nat, surface: nat)
    requires Owned(cells, paneOf, registered, owner)
    requires area !in cells && area in paneOf && surface !in registered
    ensures Owned(cells[area := surface], paneOf, registered[surface := paneOf[area]], owner[surface := area])
  {
  }

  lemma AliveNew(registered: map<nat, nat>, last: nat, freed: seq<nat>, pane: nat)
    requires Alive(registered, last, freed)
    ensures last + 1 !in registered && Alive(registered[last + 1 := pane], last + 1, freed)
  {
  }

  lemma Adopted(realized: set<nat>, l: Ledger, area: nat, surface: nat)
    requires Balanced(realized, l) && area !in realized && area !in l.cells && area in l.paneOf
    requires surface == l.last + 1
    ensures Balanced(realized, l.(cells := l.cells[area := surface], owner := l.owner[surface := area],
                                  registered := l.registered[surface := l.paneOf[area]],
                                  last := surface, ptr := surface))
  {
    OpenLedger(realized, l);
    AliveNew(l.registered, l.last, l.freed, l.paneOf[area]);
    AdoptOwned(l.cells, l.paneOf, l.registered, l.owner, area, surface);
  }

  lemma DisownOwned(cells: map<nat, nat>, paneOf: map<nat, nat>, registered: map<nat, nat>, owner: map<nat, nat>,
                    area: nat)
    requires Owned(cells, paneOf, registered, owner) && area in cells
    ensures Owned(cells - {area}, paneOf, registered - {cells[area]}, owner - {cells[area]})
  {
  }

  lemma AliveFree(registered: map<nat, nat>, last: nat, freed: seq<nat>, surface: nat)
    requires Alive(registered, last, freed) && surface in registered
    ensures Alive(registered - {surface}, last, freed + [surface])
  {
  }

  lemma Disowned(realized: set<nat>, l: Ledger, area: nat, surface: nat)
    requires Balanced(realized, l) && area !in realized && area in l.cells && surface == l.cells[area]
    ensures Balanced(realized, l.(cells := l.cells - {area}, owner := l.owner - {surface},
                                  registered := l.registered - {surface}, freed := l.freed + [surface],
                                  ptr := if l.ptr == surface then 0 else l.ptr))
  {
    OpenLedger(realized, l);
    DisownOwned(l.cells, l.paneOf, l.registered, l.owner, area);
    AliveFree(l.registered, l.last, l.freed, surface);
  }

  lemma Entered(realized: set<nat>, l: Ledger, area: nat)
    requires Balanced(realized, l) && area in l.cells
    ensures Balanced(realized, l.(ptr := l.cells[area]))
  {
    OpenLedger(realized, l);
  }

  class Registries {
    var cells: map<nat, nat>            // each GLArea's surface cell, when filled
    var paneOf: map<nat, nat>           // the pane id a GLArea was created for
    var areaRegistry: seq<nat>          // GL_AREA_REGISTRY
    var glToSurface: map<nat, nat>      // GL_TO_SURFACE
    var surfaceRegistry: map<nat, nat>  // SURFACE_REGISTRY
    var preserve: set<nat>              // PRESERVE_ON_UNREALIZE
    var surfacePtr: nat                 // SURFACE_PTR
    var lastSurface: nat                // surfaces allocated so far
    ghost var owner: map<nat, nat>      // the area whose cell holds a live surface
    var freed: seq<nat>                 // every ghostty_surface_free, oldest first
    var grants: set<nat>                // the areas for which ghostty_surface_new would succeed now

    function View(): Life
      reads this
    {
      Life(cells, paneOf, preserve, lastSurface, freed, grants)
    }

    ghost function Contents(): Ledger
      reads this
    {
      Ledger(cells, paneOf, areaRegistry, glToSurface, surfaceRegistry, owner, lastSurface, freed, surfacePtr)
    }

    /** The registries agree with the set of realized areas. */
    ghost predicate Inv(realized: set<nat>)
      reads this
    {
      Balanced(realized, Contents())
    }

    constructor (grants: set<nat>)
      ensures Inv({}) && View() == Life(map[], map[], {}, 0, [], grants)
    {
      this.grants := grants;
      cells, paneOf, areaRegistry, glToSurface := map[], map[], [], map[];
      owner := map[];
      surfaceRegistry, preserve, surfacePtr, lastSurface, freed := map[], {}, 0, 0, [];
    }

    /** The environment changes its mind about which areas it grants a surface. */
    method Grant(areas: set<nat>)
      modifies `grants
      ensures grants == areas
      ensures forall realized {:trigger Inv(realized)} :: old(Inv(realized)) ==> Inv(realized)
    {
      grants := areas;
    }

    method Create(area: nat, pane: nat, ghost realized: set<nat>)
      requires Inv(realized) && area !in cells
      modifies `paneOf
      ensures Inv(realized) && View() == old(View()).(paneOf := old(paneOf)[area := pane])
    {
      Created(realized, Contents(), area, pane);
      paneOf := paneOf[area := pane];
    }

    method Mark(area: nat, ghost realized: set<nat>)
      requires Inv(realized)
      modifies `preserve
      ensures Inv(realized) && View() == old(View()).(preserve := old(preserve) + {area})
    {
      preserve := preserve + {area};
    }

    /** Put a realized area that holds a surface on the wakeup and lookup registries. */
    method Enlist(area: nat, ghost realized: set<nat>)
      requires Inv(realized) && area !in realized && area in cells
      modifies `areaRegistry, `glToSurface
      ensures Inv(realized + {area})
    {
      Enlisted(realized, Contents(), area);
      if area !in areaRegistry {
        areaRegistry := areaRegistry + [area];
      }
      glToSurface := glToSurface[area := cells[area]];
    }

    /** ghostty_surface_new succeeded for `area`. */
    method Adopt(area: nat, ghost realized: set<nat>)
      requires Inv(realized) && area !in realized && area !in cells && area in paneOf
      modifies `cells, `owner, `surfaceRegistry, `surfacePtr, `lastSurface
      ensures Inv(realized) && area in cells
      ensures View() == old(View()).(cells := old(cells)[area := lastSurface], last := lastSurface)
      ensures surfacePtr == lastSurface == old(lastSurface) + 1
    {
      var surface := lastSurface + 1;
      Adopted(realized, Contents(), area, surface);
      lastSurface := surface;
      surfaceRegistry := surfaceRegistry[surface := paneOf[area]];
      cells, owner := cells[area := surface], owner[surface := area];
      surfacePtr := surface;
    }

    /** An area without a surface holds one afterwards exactly if it is granted: a
        surface never handed out before, which becomes the clipboard target. */
    method OnRealize(area: nat, ghost realized: set<nat>)
      requires Inv(realized) && area !in realized && area in paneOf
      modifies this
      ensures Inv(realized + {area}) && Acquired(old(View()), View(), {area})
      ensures area in cells <==> area in old(cells) || area in old(grants)
      ensures area !in old(cells) && area in cells ==>
                cells[area] !in old(surfaceRegistry) && cells[area] !in old(freed) && surfacePtr == cells[area]
      ensures area in old(cells) || area !in cells ==> surfacePtr == old(surfacePtr)
    {
      if area in cells {
        Enlist(area, realized);
      } else if area in grants {
        OpenLedger(realized, Contents());
        Adopt(area, realized);
        Enlist(area, realized);
      } else {
        // ghostty_surface_new returned null: the pane stays blank
        StaysBlank(realized, Contents(), area);
      }
    }

    /** Free the surface of an area that has just been unrealized without a mark. */
    method FreeSurface(area: nat, ghost realized: set<nat>)
      requires Inv(realized) && area in cells && area !in realized
      modifies `cells, `owner, `surfaceRegistry, `surfacePtr, `freed
      ensures Inv(realized)
      ensures View() == old(View()).(cells := old(cells) - {area}, freed := old(freed) + [old(cells)[area]])
    {
      var surface := cells[area];
      Disowned(realized, Contents(), area, surface);
      cells, owner := cells - {area}, owner - {surface};
      surfaceRegistry := surfaceRegistry - {surface};
      if surfacePtr == surface {
        surfacePtr := 0;
      }
      freed := freed + [surface];
    }

    method OnUnrealize(area: nat, ghost realized: set<nat>)
      requires Inv(realized) && area in realized
      modifies this
      ensures Inv(realized - {area}) && Released(old(View()), View(), {area})
    {
      Unlisted(realized, Contents(), area);
      areaRegistry := Without(areaRegistry, area);
      glToSurface := glToSurface - {area};
      if area in preserve {
        assert Doomed(View(), {area}) == {};
        preserve := preserve - {area};
      } else if area in cells {
        assert Doomed(View(), {area}) == {area};
        FreeSurface(area, realized - {area});
      } else {
        assert Doomed(View(), {area}) == {};
      }
    }

    method OnFocusEnter(area: nat)
      modifies `surfacePtr
      ensures surfacePtr == if area in cells then cells[area] else old(surfacePtr)
      ensures forall realized {:trigger Inv(realized)} :: old(Inv(realized)) ==> Inv(realized)
    {
      if area in cells {
        forall realized | Inv(realized)
          ensures Balanced(realized, Contents().(ptr := cells[area]))
        {
          Entered(realized, Contents(), area);
        }
        surfacePtr := cells[area];
      }
    }

    /** What a close does before it lets go of a GLArea: drop it from the two
        registries that hold its address. */
    method Forget(area: nat)
      modifies `areaRegistry, `glToSurface
      ensures areaRegistry == Without(old(areaRegistry), area) && glToSurface == old(glToSurface) - {area}
      ensures forall realized {:trigger Inv(realized)} ::
                !(area in realized && area in cells) && old(Inv(realized)) ==> Inv(realized)
    {
      forall realized | !(area in realized && area in cells) && Inv(realized)
        ensures Without(areaRegistry, area) == areaRegistry && glToSurface - {area} == glToSurface
      {
        OpenLedger(realized, Contents());
        WithoutAbsent(areaRegistry, area);
      }
      areaRegistry := Without(areaRegistry, area);
      glToSurface := glToSurface - {area};
    }

    /** A widget tree becomes part of the shown one: its areas realize in order. An
        area holds a surface then exactly if it did before or is granted one. */
    method RealizeAll(areas: seq<nat>, ghost realized: set<nat>)
      requires Inv(realized) && NoDup(areas) && Elems(areas) !! realized
      requires forall a :: a in areas ==> a in paneOf
      modifies this
      ensures Inv(realized + Elems(areas)) && Acquired(old(View()), View(), Elems(areas))
      ensures forall a :: a in areas ==> (a in cells <==> a in old(cells) || a in old(grants))
    {
      assert realized + Elems(areas[..0]) == realized;
      for i := 0 to |areas|
        invariant Inv(realized + Elems(areas[..i]))
        invariant Acquired(old(View()), View(), Elems(areas[..i]))
      {
        ghost var before := realized + Elems(areas[..i]);
        PrefixGrows(areas, i);
        OnRealize(areas[i], before);
        assert before + {areas[i]} == realized + Elems(areas[..i + 1]);
      }
      assert areas[..|areas|] == areas;
    }

    /** A shown widget tree is detached: its areas unrealize in order. */
    method UnrealizeAll(areas: seq<nat>, ghost realized: set<nat>)
      requires Inv(realized) && NoDup(areas) && Elems(areas) <= realized
      modifies this
      ensures Inv(realized - Elems(areas)) && Released(old(View()), View(), Elems(areas))
    {
      assert realized - Elems(areas[..0]) == realized;
      ReleasedNone(View());
      for i := 0 to |areas|
        invariant Inv(realized - Elems(areas[..i]))
        invariant Released(old(View()), View(), Elems(areas[..i]))
      {
        ghost var before, was := realized - Elems(areas[..i]), View();
        PrefixGrows(areas, i);
        OnUnrealize(areas[i], before);
        ReleasedTogether(old(View()), was, View(), Elems(areas[..i]), {areas[i]});
        assert before - {areas[i]} == realized - Elems(areas[..i + 1]);
      }
      assert areas[..|areas|] == areas;
    }
  }

  lemma ReleasedNone(v: Life)
    ensures Released(v, v, {})
  {
    assert Doomed(v, {}) == {};
  }

  /** Two disjoint batches of unrealizes are one. */
  lemma ReleasedTogether(v0: Life, v1: Life, v2: Life, first: set<nat>, second: set<nat>)
    requires Released(v0, v1, first) && Released(v1, v2, second) && first !! second
    ensures Released(v0, v2, first + second)
  {
    assert Doomed(v0, first + second) == Doomed(v0, first) + Doomed(v1, second);
    assert Doomed(v0, first) !! Doomed(v1, second);
    assert forall s :: s in v1.freed ==> s in v2.freed;
  }
}
