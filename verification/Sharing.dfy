// Several workspaces on the one set of surface registries
// (src/ghostty/callbacks.rs). Each engine's proofs speak of registries of its own;
// these lemmas say that its part of the shared ones behaves like them.
module Sharing {
  import opened Prelude
  import opened Layout
  import opened Engine
  import opened Drawing
  import opened Surfaces
  import opened Toolkit
  import opened Agreement

  /** What the registries hold for some of the areas, those of one workspace. */
  function Part(v: Life, areas: set<nat>): Life {
    Life(map a | a in v.cells && a in areas :: v.cells[a], map a | a in v.paneOf && a in areas :: v.paneOf[a],
         v.preserve * areas, v.last, v.freed, v.grants)
  }

  /** A change that touches areas of `mine` only. */
  ghost predicate Within(v: Life, v': Life, mine: set<nat>) {
    && (forall a :: a !in mine ==> (a in v.cells <==> a in v'.cells) && (a in v.cells ==> v'.cells[a] == v.cells[a]))
    && (forall a :: a !in mine ==>
          (a in v.paneOf <==> a in v'.paneOf) && (a in v.paneOf ==> v'.paneOf[a] == v.paneOf[a]))
    && (forall a :: a !in mine ==> (a in v.preserve <==> a in v'.preserve))
  }

  /** Unrealizing areas of one workspace does to its part of the registries what it
      would do to registries of its own, and to the other parts nothing. */
  lemma SharedRelease(v: Life, v': Life, areas: set<nat>, mine: set<nat>)
    requires areas <= mine
    ensures Released(v, v', areas) <==> Released(Part(v, mine), Part(v', mine), areas) && Within(v, v', mine)
  {
    assert Doomed(Part(v, mine), areas) == Doomed(v, areas);
    if Released(Part(v, mine), Part(v', mine), areas) && Within(v, v', mine) {
      forall a
        ensures a in v'.cells <==> a in v.cells - Doomed(v, areas)
        ensures a in v'.cells ==> v'.cells[a] == v.cells[a]
        ensures a in v'.paneOf <==> a in v.paneOf
        ensures a in v'.paneOf ==> v'.paneOf[a] == v.paneOf[a]
        ensures a in v'.preserve <==> a in v.preserve - areas
      {
        SamePart(v, v', mine, areas, a);
      }
      assert v'.cells == v.cells - Doomed(v, areas) && v'.paneOf == v.paneOf && v'.preserve == v.preserve - areas;
    }
  }

  lemma SamePart(v: Life, v': Life, mine: set<nat>, areas: set<nat>, a: nat)
    requires areas <= mine && Within(v, v', mine) && Released(Part(v, mine), Part(v', mine), areas)
    ensures a in v'.cells <==> a in v.cells - Doomed(v, areas)
    ensures a in v'.cells ==> v'.cells[a] == v.cells[a]
    ensures a in v'.paneOf <==> a in v.paneOf
    ensures a in v'.paneOf ==> v'.paneOf[a] == v.paneOf[a]
    ensures a in v'.preserve <==> a in v.preserve - areas
  {
    assert Doomed(Part(v, mine), areas) == Doomed(v, areas);
    assert a in mine ==> (a in v'.cells <==> a in Part(v', mine).cells) && (a in v.cells <==> a in Part(v, mine).cells);
    assert a in mine ==>
        (a in v'.paneOf <==> a in Part(v', mine).paneOf) && (a in v.paneOf <==> a in Part(v, mine).paneOf);
    assert a in mine ==> (a in v'.preserve <==> a in Part(v', mine).preserve);
  }

  lemma SharedAcquire(v: Life, v': Life, areas: set<nat>, mine: set<nat>)
    requires areas <= mine && Acquired(v, v', areas)
    ensures Acquired(Part(v, mine), Part(v', mine), areas) && Within(v, v', mine)
  {
  }

  /** One batch of what happens to the registries: areas are marked, leave the screen,
      or come on screen, or the environment grants other areas than before. */
  ghost predicate Handled(v: Life, v': Life, areas: set<nat>) {
    || v' == v.(preserve := v.preserve + areas)
    || v' == v.(grants := v'.grants)
    || Released(v, v', areas) || Acquired(v, v', areas)
  }

  lemma SharedStep(v: Life, v': Life, areas: set<nat>, mine: set<nat>)
    requires areas <= mine && Handled(v, v', areas)
    ensures Handled(Part(v, mine), Part(v', mine), areas) && Within(v, v', mine)
  {
    if v' == v.(preserve := v.preserve + areas) {
      assert Part(v', mine) == Part(v, mine).(preserve := Part(v, mine).preserve + areas);
    } else if v' == v.(grants := v'.grants) {
      assert Part(v', mine) == Part(v, mine).(grants := v'.grants);
    } else if Released(v, v', areas) {
      SharedRelease(v, v', areas, mine);
    } else {
      SharedAcquire(v, v', areas, mine);
    }
  }

  /** The same surfaces in the same areas, with the same marks. */
  predicate SameHold(v: Life, v': Life) {
    v'.cells == v.cells && v'.paneOf == v.paneOf && v'.preserve == v.preserve
  }

  /** What touches areas of one workspace only keeps the views of another in agreement. */
  lemma OthersAgree(s: State, t: Trees, v: Life, v': Life, mine: set<nat>, theirs: set<nat>)
    requires Within(v, v', mine) && mine !! theirs && Agrees(s, t, Part(v, theirs))
    ensures Agrees(s, t, Part(v', theirs)) && SameHold(Part(v, theirs), Part(v', theirs))
  {
    Open(s, t, Part(v, theirs));
    assert Part(v', theirs).cells == Part(v, theirs).cells;
    assert Part(v', theirs).paneOf == Part(v, theirs).paneOf;
    assert Part(v', theirs).preserve == Part(v, theirs).preserve;
  }

  /** An operation of one workspace is a sequence of such batches on its own areas.
      Its part of the shared registries goes through the same sequence, as registries
      of its own would, and every other workspace's views stay in agreement. */
  lemma {:induction false} SharedRun(lives: seq<Life>, batches: seq<set<nat>>, mine: set<nat>,
                                     theirs: set<nat>, s: State, t: Trees)
    requires |lives| == |batches| + 1 && mine !! theirs && Agrees(s, t, Part(lives[0], theirs))
    requires forall i :: 0 <= i < |batches| ==> batches[i] <= mine && Handled(lives[i], lives[i + 1], batches[i])
    ensures forall i :: 0 <= i < |batches| ==> Handled(Part(lives[i], mine), Part(lives[i + 1], mine), batches[i])
    ensures Agrees(s, t, Part(lives[|batches|], theirs))
  {
    if batches != [] {
      var n := |batches| - 1;
      SharedRun(lives[..n + 1], batches[..n], mine, theirs, s, t);
      forall i | 0 <= i < n
        ensures Handled(Part(lives[i], mine), Part(lives[i + 1], mine), batches[i])
      {
        assert lives[..n + 1][i] == lives[i] && lives[..n + 1][i + 1] == lives[i + 1] && batches[..n][i] == batches[i];
      }
      SharedStep(lives[n], lives[n + 1], batches[n], mine);
      OthersAgree(s, t, lives[n], lives[n + 1], mine, theirs);
    }
  }

  // ── The invariant of the registries, in part ───────────────────────────────

  function Only(s: seq<nat>, areas: set<nat>): seq<nat> {
    if s == [] then []
    else (if s[0] in areas then [s[0]] else []) + Only(s[1..], areas)
  }

  lemma {:induction false} OnlyElems(s: seq<nat>, areas: set<nat>)
    ensures forall a :: a in Only(s, areas) <==> a in s && a in areas
    ensures NoDup(s) ==> NoDup(Only(s, areas))
  {
    if s != [] {
      OnlyElems(s[1..], areas);
      assert s == [s[0]] + s[1..];
      assert NoDup(s) ==> s[0] !in s[1..];
    }
  }

  /** The live surfaces of all other workspaces, each once. */
  ghost predicate Hides(l: Ledger, areas: set<nat>, hidden: seq<nat>) {
    NoDup(hidden) && forall s :: s in hidden <==> s in l.owner && l.owner[s] !in areas
  }

  /** One workspace's part of the ledger: its areas and their surfaces. A surface of
      another workspace is no concern of it, like one that has been freed. */
  function PartOf(l: Ledger, areas: set<nat>, hidden: seq<nat>): Ledger {
    var registered := map s | s in l.registered && s !in hidden :: l.registered[s];
    Ledger(map a | a in l.cells && a in areas :: l.cells[a], map a | a in l.paneOf && a in areas :: l.paneOf[a],
           Only(l.listed, areas), map a | a in l.mapped && a in areas :: l.mapped[a],
           registered, map s | s in l.owner && s !in hidden :: l.owner[s],
           l.last, l.freed + hidden, if l.ptr in registered then l.ptr else 0)
  }

  /** When the shared registries agree with all realized areas, the part of each
      workspace agrees with its own: the invariant its operations start from. */
  lemma PartBalanced(realized: set<nat>, l: Ledger, areas: set<nat>, hidden: seq<nat>)
    requires Balanced(realized, l) && Hides(l, areas, hidden)
    ensures Balanced(realized * areas, PartOf(l, areas, hidden))
  {
    OpenLedger(realized, l);
    var p := PartOf(l, areas, hidden);
    OnlyElems(l.listed, areas);
    PartOwned(l, areas, hidden);
    PartAlive(l, areas, hidden);
    forall entry
      ensures Correct(entry, realized * areas, p)
    {
    }
  }

  lemma PartOwned(l: Ledger, areas: set<nat>, hidden: seq<nat>)
    requires Owned(l.cells, l.paneOf, l.registered, l.owner) && Hides(l, areas, hidden)
    ensures var p := PartOf(l, areas, hidden); Owned(p.cells, p.paneOf, p.registered, p.owner)
  {
  }

  lemma PartAlive(l: Ledger, areas: set<nat>, hidden: seq<nat>)
    requires Owned(l.cells, l.paneOf, l.registered, l.owner) && Alive(l.registered, l.last, l.freed)
    requires Hides(l, areas, hidden)
    ensures var p := PartOf(l, areas, hidden); Alive(p.registered, p.last, p.freed)
  {
    forall s
      ensures s in l.freed ==> s !in hidden
      ensures s in l.freed + hidden <==> s in l.freed || s in hidden
    {
    }
    NoDupConcat(l.freed, hidden);
  }

  /** What a lookup by pane id can find: the cached pointer, or any surface that is
      registered under the id. */
  predicate MayFind(n: Node, pane: nat, registered: map<nat, nat>, s: nat) {
    if HasTerminal(n, pane) && FindPane(n, pane).value.surface != 0 then s == FindPane(n, pane).value.surface
    else s in registered && registered[s] == pane
  }

  /** On shared registries, the lookup finds nothing but the pane's own surface
      exactly if the pointer is cached or no other area holds a surface for a pane
      of the same id. */
  lemma FoundIsOwnIff(n: Node, pane: nat, reg: Registries, realized: set<nat>)
    requires reg.Inv(realized) && Labelled(n, reg.paneOf) && Synced(n, reg.cells) && HasTerminal(n, pane)
    ensures var leaf := FindPane(n, pane).value;
            (forall s :: MayFind(n, pane, reg.surfaceRegistry, s) ==>
               leaf.area in reg.cells && s == reg.cells[leaf.area])
            <==> leaf.surface != 0
                 || forall a :: a in reg.cells && a in reg.paneOf && reg.paneOf[a] == pane ==> a == leaf.area
  {
    OpenLedger(realized, reg.Contents());
    SyncedLeaf(n, reg.cells, pane);
    var leaf := FindPane(n, pane).value;
    if a :| a in reg.cells && reg.paneOf[a] == pane && a != leaf.area && leaf.surface == 0 {
      assert MayFind(n, pane, reg.surfaceRegistry, reg.cells[a]);
    }
  }
}
