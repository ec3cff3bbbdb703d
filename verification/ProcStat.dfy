// Process trees and pane matching (src/procstat.rs) over one fixed snapshot of
// /proc: a list of (pid, parent pid) pairs and what reading each pid returns.
module ProcStat {
  import opened Prelude

  type Links = seq<(nat, nat)>

  // ── Reachability ───────────────────────────────────────────────────────────

  /** `path` leads from its first pid to its last, parent to child. */
  ghost predicate IsPath(links: Links, path: seq<nat>) {
    path != [] && forall i :: 0 <= i < |path| - 1 ==> (path[i + 1], path[i]) in links
  }

  ghost predicate Leads(links: Links, path: seq<nat>, from: nat, to: nat) {
    IsPath(links, path) && path[0] == from && path[|path| - 1] == to
  }

  ghost predicate Reaches(links: Links, from: nat, to: nat) {
    exists path :: Leads(links, path, from, to)
  }

  lemma ReachesSelf(links: Links, root: nat)
    ensures Reaches(links, root, root)
  {
    assert Leads(links, [root], root, root);
  }

  lemma ReachesChild(links: Links, root: nat, parent: nat, child: nat)
    requires Reaches(links, root, parent) && (child, parent) in links
    ensures Reaches(links, root, child)
  {
    var path :| Leads(links, path, root, parent);
    assert Leads(links, path + [child], root, child);
  }

  lemma ReachesOnward(links: Links, a: nat, b: nat, c: nat)
    requires Reaches(links, a, b) && Reaches(links, b, c)
    ensures Reaches(links, a, c)
  {
    var p :| Leads(links, p, a, b);
    var q :| Leads(links, q, b, c);
    assert Leads(links, p + q[1..], a, c);
  }

  ghost predicate Closed(links: Links, s: set<nat>) {
    forall i :: 0 <= i < |links| && links[i].1 in s ==> links[i].0 in s
  }

  /** A set closed under children holds all that a member reaches. */
  lemma {:induction false} ClosedHoldsPath(links: Links, s: set<nat>, path: seq<nat>, k: nat)
    requires Closed(links, s) && IsPath(links, path) && path[0] in s && k < |path|
    ensures path[k] in s
    decreases k
  {
    if k > 0 {
      ClosedHoldsPath(links, s, path, k - 1);
      assert (path[k - 1 + 1], path[k - 1]) in links;
      var i :| 0 <= i < |links| && links[i] == (path[k], path[k - 1]);
    }
  }

  function Pids(links: Links): set<nat> {
    set i | 0 <= i < |links| :: links[i].0
  }

  /** The children of `parent` that the first `i` links add to `out`, in order. */
  function Found(links: Links, parent: nat, out: seq<nat>, i: nat): seq<nat>
    requires i <= |links|
  {
    if i == 0 then []
    else
      var found := Found(links, parent, out, i - 1);
      var (pid, ppid) := links[i - 1];
      if ppid == parent && pid !in out + found then found + [pid] else found
  }

  lemma {:induction false} FoundFacts(links: Links, parent: nat, out: seq<nat>, i: nat)
    requires i <= |links|
    ensures var found := Found(links, parent, out, i);
            && (NoDup(out) ==> NoDup(out + found))
            && (forall x :: x in found ==> (x, parent) in links && x in Pids(links) && x !in out)
            && (forall j :: 0 <= j < i && links[j].1 == parent ==> links[j].0 in out + found)
  {
    if i > 0 {
      FoundFacts(links, parent, out, i - 1);
      var found := Found(links, parent, out, i - 1);
      var (pid, ppid) := links[i - 1];
      if ppid == parent && pid !in out + found {
        assert links[i - 1] == (pid, parent);
        assert out + (found + [pid]) == out + found + [pid];
      }
    }
  }

  /** The pids in the order they are discovered. The search stops on every list,
      cyclic ones included: a pass discovers a pid or shortens the frontier. */
  function Discovery(links: Links, out: seq<nat>, frontier: seq<nat>): seq<nat>
    decreases Pids(links) - Elems(out), |frontier|
  {
    if frontier == [] then out
    else
      var rest := frontier[..|frontier| - 1];
      var found := Found(links, frontier[|frontier| - 1], out, |links|);
      FoundFacts(links, frontier[|frontier| - 1], out, |links|);
      assert found != [] ==> found[0] in Pids(links) - Elems(out) && found[0] in Elems(out + found);
      assert Elems(out) <= Elems(out + found) && (found == [] ==> out + found == out);
      Discovery(links, out + found, rest + found)
  }

  function Discovered(links: Links, root: nat): seq<nat> {
    Discovery(links, [root], [root])
  }

  /** What a search has established: every pid is below the root, once, and only
      the frontier may have children outside. */
  ghost predicate Searching(links: Links, root: nat, out: seq<nat>, frontier: seq<nat>) {
    && NoDup(out) && out != [] && out[0] == root
    && (forall x :: x in frontier ==> x in out)
    && (forall x :: x in out ==> Reaches(links, root, x))
    && (forall j :: 0 <= j < |links| && links[j].1 in out && links[j].1 !in frontier ==> links[j].0 in out)
  }

  lemma PassKeeps(links: Links, root: nat, out: seq<nat>, frontier: seq<nat>)
    requires Searching(links, root, out, frontier) && frontier != []
    ensures var found := Found(links, frontier[|frontier| - 1], out, |links|);
            Searching(links, root, out + found, frontier[..|frontier| - 1] + found)
  {
    var parent, rest := frontier[|frontier| - 1], frontier[..|frontier| - 1];
    var found := Found(links, parent, out, |links|);
    FoundFacts(links, parent, out, |links|);
    assert frontier == rest + [parent];
    forall x | x in found
      ensures Reaches(links, root, x)
    {
      assert parent in frontier;
      ReachesChild(links, root, parent, x);
    }
  }

  /** What was found last is searched to its end before anything found earlier. */
  lemma {:induction false} LastFoundFirst(links: Links, out: seq<nat>, earlier: seq<nat>, later: seq<nat>)
    ensures Discovery(links, out, earlier + later) == Discovery(links, Discovery(links, out, later), earlier)
    decreases Pids(links) - Elems(out), |later|
  {
    if later == [] {
      assert earlier + later == earlier;
    } else {
      var frontier := earlier + later;
      var parent, rest := later[|later| - 1], later[..|later| - 1];
      var found := Found(links, parent, out, |links|);
      assert frontier[|frontier| - 1] == parent && frontier[..|frontier| - 1] + found == earlier + (rest + found);
      FoundFacts(links, parent, out, |links|);
      assert found != [] ==> found[0] in Pids(links) - Elems(out) && found[0] in Elems(out + found);
      assert Elems(out) <= Elems(out + found) && (found == [] ==> out + found == out);
      LastFoundFirst(links, out + found, earlier, rest + found);
    }
  }

  lemma SearchEnds(links: Links, root: nat, out: seq<nat>)
    requires Searching(links, root, out, [])
    ensures forall x :: x in out <==> Reaches(links, root, x)
  {
    assert Closed(links, Elems(out));
    forall x | Reaches(links, root, x)
      ensures x in out
    {
      var path :| Leads(links, path, root, x);
      assert path[0] in Elems(out);
      ClosedHoldsPath(links, Elems(out), path, |path| - 1);
    }
  }

  /** `descendants`: the root and everything below it, each pid once, in the order
      of discovery. */
  method Descendants(root: nat, links: Links) returns (out: seq<nat>)
    ensures NoDup(out)
    ensures forall x :: x in out <==> Reaches(links, root, x)
    ensures out != [] && out[0] == root && out == Discovered(links, root)
  {
    out := [root];
    var frontier := [root];
    ReachesSelf(links, root);
    while frontier != []
      invariant Searching(links, root, out, frontier)
      invariant Discovery(links, out, frontier) == Discovered(links, root)
      decreases Pids(links) - Elems(out), |frontier|
    {
      var parent := frontier[|frontier| - 1];
      ghost var out0, rest := out, frontier[..|frontier| - 1];
      PassKeeps(links, root, out, frontier);
      FoundFacts(links, parent, out, |links|);
      frontier := frontier[..|frontier| - 1];
      for i := 0 to |links|
        invariant out == out0 + Found(links, parent, out0, i) && frontier == rest + Found(links, parent, out0, i)
      {
        var (pid, ppid) := links[i];
        if ppid == parent && pid !in out {
          out := out + [pid];
          frontier := frontier + [pid];
        }
      }
      ghost var found := Found(links, parent, out0, |links|);
      assert found != [] ==> found[0] in Pids(links) - Elems(out0) && found[0] in Elems(out);
      assert Elems(out0) <= Elems(out) && (found == [] ==> out == out0);
    }
    SearchEnds(links, root, out);
  }

  // ── Sums ───────────────────────────────────────────────────────────────────

  ghost function SumOver(f: nat -> nat, s: set<nat>): nat {
    if s == {} then 0
    else
      var x :| x in s;
      f(x) + SumOver(f, s - {x})
  }

  /** Any member may be counted first. */
  lemma {:induction false} SumOverTake(f: nat -> nat, s: set<nat>, y: nat)
    requires y in s
    ensures SumOver(f, s) == f(y) + SumOver(f, s - {y})
    decreases s
  {
    var x :| x in s && SumOver(f, s) == f(x) + SumOver(f, s - {x});
    if x != y {
      SumOverTake(f, s - {x}, y);
      SumOverTake(f, s - {y}, x);
      assert s - {x} - {y} == s - {y} - {x};
    }
  }

  lemma SumOverAdd(f: nat -> nat, s: set<nat>, y: nat)
    requires y !in s
    ensures SumOver(f, s + {y}) == SumOver(f, s) + f(y)
  {
    SumOverTake(f, s + {y}, y);
    assert s + {y} - {y} == s;
  }

  lemma SumOverNext(f: nat -> nat, s: seq<nat>, i: nat)
    requires i < |s| && NoDup(s)
    ensures SumOver(f, Elems(s[..i + 1])) == SumOver(f, Elems(s[..i])) + f(s[i])
  {
    PrefixGrows(s, i);
    SumOverAdd(f, Elems(s[..i]), s[i]);
  }

  lemma {:induction false} SumOverDisjoint(f: nat -> nat, a: set<nat>, b: set<nat>)
    requires a !! b
    ensures SumOver(f, a + b) == SumOver(f, a) + SumOver(f, b)
    decreases b
  {
    if b == {} {
      assert a + b == a;
    } else {
      var y :| y in b;
      SumOverDisjoint(f, a, b - {y});
      SumOverAdd(f, a + (b - {y}), y);
      SumOverAdd(f, b - {y}, y);
      assert a + (b - {y}) + {y} == a + b && b - {y} + {y} == b;
    }
  }

  // ── Each process counted once ──────────────────────────────────────────────

  /** One snapshot: a pid is listed once, so it has one parent, and `me` is not
      its own ancestor. */
  ghost predicate Tree(links: Links, me: nat) {
    && (forall i, j :: 0 <= i < |links| && 0 <= j < |links| && links[i].0 == links[j].0 ==> i == j)
    && (forall i :: 0 <= i < |links| && links[i].1 == me ==> !Reaches(links, links[i].0, me))
  }

  /** Walking up from one pid, two paths agree as long as both last. */
  lemma {:induction false} SameAncestors(links: Links, p: seq<nat>, q: seq<nat>, k: nat)
    requires forall i, j :: 0 <= i < |links| && 0 <= j < |links| && links[i].0 == links[j].0 ==> i == j
    requires IsPath(links, p) && IsPath(links, q) && p[|p| - 1] == q[|q| - 1]
    requires k < |p| && k < |q|
    ensures p[|p| - 1 - k] == q[|q| - 1 - k]
  {
    if k > 0 {
      SameAncestors(links, p, q, k - 1);
      var a, b := |p| - 1 - k, |q| - 1 - k;
      assert (p[a + 1], p[a]) in links && (q[b + 1], q[b]) in links;
    }
  }

  /** No process is below two children of `me`. */
  lemma ChildrenApart(links: Links, me: nat, c: nat, d: nat, x: nat)
    requires Tree(links, me) && (c, me) in links && (d, me) in links
    requires Reaches(links, c, x) && Reaches(links, d, x)
    ensures c == d
  {
    var p :| Leads(links, p, c, x);
    var q :| Leads(links, q, d, x);
    if |p| <= |q| {
      ChildrenApartOrdered(links, me, p, q);
    } else {
      ChildrenApartOrdered(links, me, q, p);
    }
  }

  lemma ChildrenApartOrdered(links: Links, me: nat, p: seq<nat>, q: seq<nat>)
    requires Tree(links, me) && IsPath(links, p) && IsPath(links, q) && |p| <= |q|
    requires p[|p| - 1] == q[|q| - 1] && (p[0], me) in links && (q[0], me) in links
    ensures p[0] == q[0]
  {
    SameAncestors(links, p, q, |p| - 1);
    var k := |q| - |p|;
    if k > 0 {
      PassesParent(links, me, q, k);
      assert false;
    }
  }

  /** A path that reaches a child of `me` further on has passed through `me`. */
  lemma PassesParent(links: Links, me: nat, q: seq<nat>, k: nat)
    requires forall i, j :: 0 <= i < |links| && 0 <= j < |links| && links[i].0 == links[j].0 ==> i == j
    requires IsPath(links, q) && 0 < k < |q| && (q[k], me) in links
    ensures Reaches(links, q[0], me)
  {
    assert (q[k - 1 + 1], q[k - 1]) in links;
    assert q[k - 1] == me;
    assert Leads(links, q[..k], q[0], me);
  }

  /** Everything strictly below `me` is below one of its children. */
  lemma BelowAChild(links: Links, me: nat, x: nat)
    requires Tree(links, me)
    ensures Reaches(links, me, x) && x != me
            <==> exists i :: 0 <= i < |links| && links[i].1 == me && Reaches(links, links[i].0, x)
  {
    if Reaches(links, me, x) && x != me {
      var path :| Leads(links, path, me, x);
      assert (path[0 + 1], path[0]) in links;
      assert Leads(links, path[1..], path[1], x);
      var i :| 0 <= i < |links| && links[i] == (path[1], me);
    }
    if i :| 0 <= i < |links| && links[i].1 == me && Reaches(links, links[i].0, x) {
      ReachesSelf(links, me);
      ReachesChild(links, me, me, links[i].0);
      ReachesOnward(links, me, links[i].0, x);
    }
  }

  // ── Stats of the direct children ───────────────────────────────────────────

  // The number of a process's terminal, -1 for none: the minor number of a pts
  // device, twenty bits of the 32 that /proc gives.
  type Pts = x: int | -1 <= x <= 0xf_ffff witness -1

  datatype Stat = Stat(pts: Pts, jiffies: nat)

  // What reading each pid returns; a pid that is gone is not in the maps.
  datatype Readings = Readings(
    stat: map<nat, Stat>, rss: map<nat, nat>, cmdline: map<nat, string>, pane: map<nat, string>)

  datatype ProcEntry = ProcEntry(pid: nat, pts: Pts, jiffies: nat, rss: nat, cmdline: string, pane: Option<string>)

  function JiffiesOf(r: Readings): nat -> nat {
    x => if x in r.stat then r.stat[x].jiffies else 0
  }

  function RssOf(r: Readings): nat -> nat {
    x => if x in r.rss then r.rss[x] else 0
  }

  const NO_TTY_KEY := 0x7fff_ffff

  function SortKey(e: ProcEntry): int {
    if e.pts < 0 then NO_TTY_KEY else e.pts
  }

  function InsertEntry(e: ProcEntry, s: seq<ProcEntry>): seq<ProcEntry> {
    if s == [] || SortKey(e) <= SortKey(s[0]) then [e] + s else [s[0]] + InsertEntry(e, s[1..])
  }

  /** The stable sort by key: pts order, processes without a terminal last. */
  function SortEntries(s: seq<ProcEntry>): seq<ProcEntry> {
    if s == [] then [] else InsertEntry(s[0], SortEntries(s[1..]))
  }

  /** A process without a terminal comes after those that have one, and of two that
      do the smaller number comes first. */
  predicate InOrder(a: ProcEntry, b: ProcEntry) {
    b.pts == -1 || 0 <= a.pts <= b.pts
  }

  ghost predicate SortedEntries(s: seq<ProcEntry>) {
    forall i, j :: 0 <= i < j < |s| ==> InOrder(s[i], s[j])
  }

  /** The entries with terminal `pts`, or with none, as they stand. */
  function OnTerminal(s: seq<ProcEntry>, pts: Pts): seq<ProcEntry> {
    if s == [] then []
    else (if s[0].pts == pts then [s[0]] else []) + OnTerminal(s[1..], pts)
  }

  lemma {:induction false} InsertEntryStable(e: ProcEntry, s: seq<ProcEntry>, pts: Pts)
    ensures OnTerminal(InsertEntry(e, s), pts) == OnTerminal([e] + s, pts)
  {
    var r := InsertEntry(e, s);
    assert ([e] + s)[1..] == s;
    if s != [] && SortKey(e) > SortKey(s[0]) {
      InsertEntryStable(e, s[1..], pts);
      assert r[0] == s[0] && r[1..] == InsertEntry(e, s[1..]);
      assert ([e] + s[1..])[1..] == s[1..];
    }
  }

  /** Entries with the same terminal, and those without one, stay as they stood. */
  lemma {:induction false} SortEntriesStable(s: seq<ProcEntry>, pts: Pts)
    ensures OnTerminal(SortEntries(s), pts) == OnTerminal(s, pts)
  {
    if s != [] {
      SortEntriesStable(s[1..], pts);
      InsertEntryStable(s[0], SortEntries(s[1..]), pts);
      assert ([s[0]] + SortEntries(s[1..]))[1..] == SortEntries(s[1..]);
    }
  }

  function Total(s: seq<ProcEntry>, f: ProcEntry -> nat): nat {
    if s == [] then 0 else f(s[0]) + Total(s[1..], f)
  }

  lemma {:induction false} TotalPush(s: seq<ProcEntry>, e: ProcEntry, f: ProcEntry -> nat)
    ensures Total(s + [e], f) == Total(s, f) + f(e)
  {
    if s == [] {
      assert s + [e] == [e];
    } else {
      assert (s + [e])[1..] == s[1..] + [e];
      TotalPush(s[1..], e, f);
    }
  }

  lemma {:induction false} InsertEntryKeeps(e: ProcEntry, s: seq<ProcEntry>, f: ProcEntry -> nat)
    ensures multiset(InsertEntry(e, s)) == multiset(s) + multiset{e}
    ensures Total(InsertEntry(e, s), f) == f(e) + Total(s, f)
  {
    var r := InsertEntry(e, s);
    if s == [] || SortKey(e) <= SortKey(s[0]) {
      assert r[1..] == s;
    } else {
      InsertEntryKeeps(e, s[1..], f);
      assert r[1..] == InsertEntry(e, s[1..]) && s == [s[0]] + s[1..];
    }
  }

  lemma {:induction false} InsertEntrySorted(e: ProcEntry, s: seq<ProcEntry>)
    requires SortedEntries(s)
    ensures SortedEntries(InsertEntry(e, s))
    ensures forall x :: x in InsertEntry(e, s) ==> x == e || x in s
  {
    if s != [] && SortKey(e) > SortKey(s[0]) {
      InsertEntrySorted(e, s[1..]);
      assert s == [s[0]] + s[1..];
      var rest := InsertEntry(e, s[1..]);
      assert forall i :: 0 <= i < |rest| ==> rest[i] == e || rest[i] in s[1..];
    }
  }

  /** Sorting keeps the entries and their totals. */
  lemma {:induction false} SortEntriesFacts(s: seq<ProcEntry>, f: ProcEntry -> nat)
    ensures var r := SortEntries(s);
            SortedEntries(r) && multiset(r) == multiset(s) && Total(r, f) == Total(s, f)
  {
    if s != [] {
      SortEntriesFacts(s[1..], f);
      InsertEntryKeeps(s[0], SortEntries(s[1..]), f);
      InsertEntrySorted(s[0], SortEntries(s[1..]));
      HeadApart(s);
    }
  }

  lemma HeadApart(s: seq<ProcEntry>)
    requires s != []
    ensures multiset(s) == multiset(s[1..]) + multiset{s[0]}
  {
    assert s == [s[0]] + s[1..];
  }

  /** One child with its whole subtree summed up; its pane is the first that a
      process of the subtree names, in the order of discovery. */
  ghost predicate Aggregates(e: ProcEntry, links: Links, r: Readings, below: set<nat>) {
    && (forall x :: x in below <==> Reaches(links, e.pid, x))
    && e.pid in r.stat && e.pts == r.stat[e.pid].pts
    && e.cmdline == (if e.pid in r.cmdline then r.cmdline[e.pid] else "")
    && e.jiffies == SumOver(JiffiesOf(r), below) && e.rss == SumOver(RssOf(r), below)
    && e.pane == FirstNamed(Discovered(links, e.pid), r)
  }

  /** The pane that the first process to name one names. */
  function FirstNamed(s: seq<nat>, r: Readings): Option<string> {
    if s == [] then None
    else
      var found := FirstNamed(s[..|s| - 1], r);
      if found.None? && s[|s| - 1] in r.pane then Some(r.pane[s[|s| - 1]]) else found
  }

  lemma {:induction false} FirstNamedIs(s: seq<nat>, r: Readings, i: nat)
    requires i < |s| && s[i] in r.pane && forall j :: 0 <= j < i ==> s[j] !in r.pane
    ensures FirstNamed(s, r) == Some(r.pane[s[i]])
  {
    if i == |s| - 1 {
      NoneNamed(s[..i], r);
    } else {
      FirstNamedIs(s[..|s| - 1], r, i);
    }
  }

  lemma {:induction false} NoneNamed(s: seq<nat>, r: Readings)
    ensures FirstNamed(s, r).None? <==> forall x :: x in s ==> x !in r.pane
  {
    if s != [] {
      NoneNamed(s[..|s| - 1], r);
      assert s == s[..|s| - 1] + [s[|s| - 1]];
    }
  }

  /** The sums over some processes, and the pane the first of them names. */
  ghost predicate Summed(jiffies: nat, rss: nat, pane: Option<string>, s: seq<nat>, r: Readings) {
    && jiffies == SumOver(JiffiesOf(r), Elems(s)) && rss == SumOver(RssOf(r), Elems(s))
    && pane == FirstNamed(s, r)
  }

  lemma SummedNext(jiffies: nat, rss: nat, pane: Option<string>, s: seq<nat>, i: nat, r: Readings)
    requires i < |s| && NoDup(s) && Summed(jiffies, rss, pane, s[..i], r)
    ensures var x := s[i];
            Summed(jiffies + (if x in r.stat then r.stat[x].jiffies else 0), rss + (if x in r.rss then r.rss[x] else 0),
                   if pane.None? && x in r.pane then Some(r.pane[x]) else pane, s[..i + 1], r)
  {
    SumOverNext(JiffiesOf(r), s, i);
    SumOverNext(RssOf(r), s, i);
    assert s[..i + 1][..i] == s[..i];
  }

  method ChildEntry(pid: nat, links: Links, r: Readings) returns (e: ProcEntry, ghost below: set<nat>)
    requires pid in r.stat
    ensures e.pid == pid && Aggregates(e, links, r, below)
  {
    var out := Descendants(pid, links);
    var jiffies: nat, rss: nat, pane: Option<string> := 0, 0, None;
    for i := 0 to |out|
      invariant Summed(jiffies, rss, pane, out[..i], r)
    {
      SummedNext(jiffies, rss, pane, out, i, r);
      if out[i] in r.stat {
        jiffies := jiffies + r.stat[out[i]].jiffies;
      }
      rss := rss + (if out[i] in r.rss then r.rss[out[i]] else 0);
      if pane.None? && out[i] in r.pane {
        pane := Some(r.pane[out[i]]);
      }
    }
    assert out[..|out|] == out;
    e := ProcEntry(pid, r.stat[pid].pts, jiffies, rss, if pid in r.cmdline then r.cmdline[pid] else "", pane);
    below := Elems(out);
  }

  function EntryJiffies(): ProcEntry -> nat {
    (e: ProcEntry) => e.jiffies
  }

  function EntryRss(): ProcEntry -> nat {
    (e: ProcEntry) => e.rss
  }

  /** `all` is everything strictly below `me`. */
  ghost predicate AllBelow(links: Links, me: nat, all: set<nat>) {
    forall x :: x in all <==> Reaches(links, me, x) && x != me
  }

  /** The direct children that can be read, in the order they are listed. */
  function ChildPids(links: Links, me: nat, r: Readings): seq<nat> {
    if links == [] then []
    else
      var (pid, ppid) := links[|links| - 1];
      ChildPids(links[..|links| - 1], me, r) + if ppid == me && pid in r.stat then [pid] else []
  }

  /** Children come in the order of the list, each on account of its own link. */
  lemma {:induction false} ChildPidsInOrder(a: Links, b: Links, me: nat, r: Readings)
    ensures ChildPids(a + b, me, r) == ChildPids(a, me, r) + ChildPids(b, me, r)
    ensures forall x :: x in ChildPids(b, me, r) <==> (x, me) in b && x in r.stat
  {
    if b == [] {
      assert a + b == a;
    } else {
      var init, last := b[..|b| - 1], b[|b| - 1];
      assert (a + b)[..|a + b| - 1] == a + init;
      ChildPidsInOrder(a, init, me, r);
      assert b == init + [last];
      forall x
        ensures (x, me) in b <==> (x, me) in init || (x, me) == last
      {
      }
    }
  }

  lemma ChildPidsPush(links: Links, i: nat, me: nat, r: Readings)
    requires i < |links|
    ensures ChildPids(links[..i + 1], me, r)
            == ChildPids(links[..i], me, r) + if links[i].1 == me && links[i].0 in r.stat then [links[i].0] else []
  {
    assert links[..i + 1][..i] == links[..i];
  }

  ghost predicate EntriesOf(entries: seq<ProcEntry>, pids: seq<nat>) {
    |entries| == |pids| && forall k :: 0 <= k < |pids| ==> entries[k].pid == pids[k]
  }

  /** In a tree of which every listed pid can be read. */
  ghost predicate Complete(links: Links, me: nat, r: Readings) {
    Tree(links, me) && forall i :: 0 <= i < |links| ==> links[i].0 in r.stat
  }

  /** The entries together account for every strict descendant exactly once. */
  ghost predicate Accounts(entries: seq<ProcEntry>, links: Links, me: nat, r: Readings) {
    forall all: set<nat> :: AllBelow(links, me, all) ==> Counted(entries, all, r)
  }

  method CollectEntries(me: nat, links: Links, r: Readings) returns (found: seq<ProcEntry>)
    ensures EntriesOf(found, ChildPids(links, me, r))
    ensures forall e :: e in found ==> exists below :: Aggregates(e, links, r, below)
    ensures Complete(links, me, r) ==> Accounts(found, links, me, r)
  {
    found := [];
    ghost var covered: set<nat> := {};
    for i := 0 to |links|
      invariant EntriesOf(found, ChildPids(links[..i], me, r))
      invariant forall e :: e in found ==> exists below :: Aggregates(e, links, r, below)
      invariant Complete(links, me, r) ==> Covers(links, me, i, covered)
      invariant Complete(links, me, r) ==> Counted(found, covered, r)
    {
      var (pid, ppid) := links[i];
      ChildPidsPush(links, i, me, r);
      if ppid == me && pid in r.stat {
        var e, below := ChildEntry(pid, links, r);
        if Complete(links, me, r) {
          NewlyCovered(links, me, i, covered, below);
          EntryCounts(found, covered, e, below, r);
        }
        found := found + [e];
        covered := covered + below;
      }
    }
    assert links[..|links|] == links;
    if Complete(links, me, r) {
      CoversAll(links, me, covered);
    }
  }

  ghost predicate Counted(entries: seq<ProcEntry>, covered: set<nat>, r: Readings) {
    && Total(entries, EntryJiffies()) == SumOver(JiffiesOf(r), covered)
    && Total(entries, EntryRss()) == SumOver(RssOf(r), covered)
  }

  lemma EntryCounts(found: seq<ProcEntry>, covered: set<nat>, e: ProcEntry, below: set<nat>, r: Readings)
    requires Counted(found, covered, r) && covered !! below
    requires e.jiffies == SumOver(JiffiesOf(r), below) && e.rss == SumOver(RssOf(r), below)
    ensures Counted(found + [e], covered + below, r)
  {
    SumOverDisjoint(JiffiesOf(r), covered, below);
    SumOverDisjoint(RssOf(r), covered, below);
    TotalPush(found, e, EntryJiffies());
    TotalPush(found, e, EntryRss());
  }

  /** `child_process_stats`: one entry for each readable direct child, in pts order,
      which together account for every strict descendant exactly once. */
  method ChildProcessStats(me: nat, links: Links, r: Readings) returns (entries: seq<ProcEntry>)
    ensures SortedEntries(entries)
    ensures exists found ::
              && EntriesOf(found, ChildPids(links, me, r)) && multiset(found) == multiset(entries)
              && forall pts :: OnTerminal(entries, pts) == OnTerminal(found, pts)
    ensures forall e :: e in entries ==> exists below :: Aggregates(e, links, r, below)
    ensures Complete(links, me, r) ==> Accounts(entries, links, me, r)
  {
    var found := CollectEntries(me, links, r);
    SortEntriesFacts(found, EntryJiffies());
    SortEntriesFacts(found, EntryRss());
    entries := SortEntries(found);
    forall pts
      ensures OnTerminal(entries, pts) == OnTerminal(found, pts)
    {
      SortEntriesStable(found, pts);
    }
    forall e | e in entries
      ensures e in found
    {
      assert e in multiset(entries);
    }
  }

  /** The pids at or below one of the first `i` listed children. */
  ghost predicate Covers(links: Links, me: nat, i: nat, covered: set<nat>)
    requires i <= |links|
  {
    forall x :: x in covered <==> exists j :: 0 <= j < i && links[j].1 == me && Reaches(links, links[j].0, x)
  }

  lemma CoversAll(links: Links, me: nat, covered: set<nat>)
    requires Tree(links, me) && Covers(links, me, |links|, covered)
    ensures forall all :: AllBelow(links, me, all) ==> all == covered
  {
    forall all | AllBelow(links, me, all)
      ensures all == covered
    {
      forall x
        ensures x in all <==> x in covered
      {
        BelowAChild(links, me, x);
      }
    }
  }

  /** The next child's subtree shares nothing with the earlier ones. */
  lemma NewlyCovered(links: Links, me: nat, i: nat, covered: set<nat>, below: set<nat>)
    requires Tree(links, me) && i < |links| && links[i].1 == me
    requires Covers(links, me, i, covered)
    requires forall x :: x in below <==> Reaches(links, links[i].0, x)
    ensures covered !! below && Covers(links, me, i + 1, covered + below)
  {
    forall x | x in covered && x in below
      ensures false
    {
      var j :| 0 <= j < i && links[j].1 == me && Reaches(links, links[j].0, x);
      assert (links[j].0, me) == links[j] && (links[i].0, me) == links[i];
      ChildrenApart(links, me, links[j].0, links[i].0, x);
    }
  }

  // ── Matching panes to terminals ────────────────────────────────────────────

  /** The first process that names pane `uuid`, or the number of processes. */
  function FirstNaming(procs: seq<ProcEntry>, uuid: string): (i: nat)
    ensures i <= |procs|
    ensures i < |procs| ==> procs[i].pane == Some(uuid)
    ensures forall j :: 0 <= j < i ==> procs[j].pane != Some(uuid)
  {
    if procs == [] || procs[0].pane == Some(uuid) then 0
    else
      var i := 1 + FirstNaming(procs[1..], uuid);
      assert forall j :: 1 <= j < i ==> procs[j] == procs[1..][j - 1];
      i
  }

  ghost predicate Exact(procs: seq<ProcEntry>, uuid: string, i: nat) {
    i == FirstNaming(procs, uuid) && i < |procs|
  }

  /** `i` is nobody's exact match. */
  ghost predicate Unclaimed(procs: seq<ProcEntry>, panes: seq<string>, i: nat) {
    forall u :: u in panes ==> !Exact(procs, u, i)
  }

  /** The process entries left over for the panes without an exact match, in order. */
  function FreeFrom(procs: seq<ProcEntry>, used: seq<bool>, i: nat): (free: seq<nat>)
    requires |used| == |procs| && i <= |procs|
    ensures forall k :: k in free <==> i <= k < |procs| && !used[k] && procs[k].pts >= 0
    ensures forall a, b :: 0 <= a < b < |free| ==> free[a] < free[b]
    decreases |procs| - i
  {
    if i == |procs| then []
    else
      var rest := FreeFrom(procs, used, i + 1);
      assert forall k :: 0 <= k < |rest| ==> rest[k] in rest;
      if !used[i] && procs[i].pts >= 0 then [i] + rest else rest
  }

  /** The panes without an exact match, in order. */
  function LeftOver(panes: seq<string>, procs: seq<ProcEntry>): seq<string> {
    if panes == [] then []
    else
      var init, last := panes[..|panes| - 1], panes[|panes| - 1];
      if FirstNaming(procs, last) < |procs| then LeftOver(init, procs) else LeftOver(init, procs) + [last]
  }

  /** The panes whose exact match has a terminal, with that match. */
  function ExactEntries(panes: seq<string>, procs: seq<ProcEntry>): map<string, nat> {
    map u | u in panes && FirstNaming(procs, u) < |procs| && procs[FirstNaming(procs, u)].pts >= 0 ::
      FirstNaming(procs, u)
  }

  /** The terminals that a matching stands for. */
  function Terminals(entry: map<string, nat>, procs: seq<ProcEntry>): map<string, int>
    requires forall u :: u in entry ==> entry[u] < |procs|
  {
    map u | u in entry :: procs[entry[u]].pts
  }

  lemma {:induction false} LeftOverIs(panes: seq<string>, procs: seq<ProcEntry>)
    ensures forall u :: u in LeftOver(panes, procs) <==> u in panes && FirstNaming(procs, u) == |procs|
  {
    if panes != [] {
      var init, last := panes[..|panes| - 1], panes[|panes| - 1];
      LeftOverIs(init, procs);
      assert panes == init + [last];
    }
  }

  /** The leftover panes stand in pane order, each place on its own account. */
  lemma {:induction false} LeftOverInOrder(a: seq<string>, b: seq<string>, procs: seq<ProcEntry>)
    ensures LeftOver(a + b, procs) == LeftOver(a, procs) + LeftOver(b, procs)
  {
    if b == [] {
      assert a + b == a;
    } else {
      var init, last := b[..|b| - 1], b[|b| - 1];
      LeftOverInOrder(a, init, procs);
      assert (a + b)[..|a + b| - 1] == a + init;
    }
  }

  /** What is claimed, matched and left over after the first phase. */
  datatype Phase = Phase(used: seq<bool>, result: map<string, int>, left: seq<string>)

  /** One pane: claim its exact match and take the terminal, if there are any. */
  function ExactStep(p: Phase, procs: seq<ProcEntry>, uuid: string): Phase
    requires |p.used| == |procs|
  {
    var i := FirstNaming(procs, uuid);
    if i == |procs| then p.(left := p.left + [uuid])
    else if procs[i].pts >= 0 then p.(used := p.used[i := true], result := p.result[uuid := procs[i].pts])
    else p.(used := p.used[i := true])
  }

  function ExactPhase(panes: seq<string>, procs: seq<ProcEntry>): (p: Phase)
    ensures |p.used| == |procs|
  {
    if panes == [] then Phase(seq(|procs|, _ => false), map[], [])
    else ExactStep(ExactPhase(panes[..|panes| - 1], procs), procs, panes[|panes| - 1])
  }

  lemma {:induction false} ExactPhaseIs(panes: seq<string>, procs: seq<ProcEntry>)
    ensures var p := ExactPhase(panes, procs); Matched(p.used, p.result, p.left, panes, procs)
  {
    if panes == [] {
      NoneMatched(procs);
    } else {
      var init, uuid := panes[..|panes| - 1], panes[|panes| - 1];
      ExactPhaseIs(init, procs);
      ExactStepIs(ExactPhase(init, procs), init, procs, uuid);
      assert panes == init + [uuid];
    }
  }

  lemma NoneMatched(procs: seq<ProcEntry>)
    ensures Matched(seq(|procs|, _ => false), map[], [], [], procs)
  {
    assert ExactEntries([], procs) == map[];
  }

  lemma ExactStepIs(p: Phase, panes: seq<string>, procs: seq<ProcEntry>, uuid: string)
    requires Matched(p.used, p.result, p.left, panes, procs)
    ensures var p' := ExactStep(p, procs, uuid); Matched(p'.used, p'.result, p'.left, panes + [uuid], procs)
  {
    MatchedNow(p.used, p.result, p.left, panes, procs, uuid);
  }

  /** The first phase of `match_pane_pts`: exact matches through CMUX_PANE. */
  method MatchExact(panes: seq<string>, procs: seq<ProcEntry>)
    returns (used: seq<bool>, result: map<string, int>, left: seq<string>)
    ensures Claims(used, procs, panes)
    ensures result == Terminals(ExactEntries(panes, procs), procs)
    ensures left == LeftOver(panes, procs)
  {
    used := seq(|procs|, _ => false);
    result, left := map[], [];
    for n := 0 to |panes|
      invariant Phase(used, result, left) == ExactPhase(panes[..n], procs)
    {
      var uuid := panes[n];
      assert panes[..n + 1][..n] == panes[..n];
      var i := FirstNaming(procs, uuid);
      if i < |procs| {
        used := used[i := true];
        if procs[i].pts >= 0 {
          result := result[uuid := procs[i].pts];
        }
      } else {
        left := left + [uuid];
      }
    }
    assert panes[..|panes|] == panes;
    ExactPhaseIs(panes, procs);
  }

  ghost predicate Matched(used: seq<bool>, result: map<string, int>, left: seq<string>,
                          panes: seq<string>, procs: seq<ProcEntry>)
  {
    && Claims(used, procs, panes)
    && result == Terminals(ExactEntries(panes, procs), procs)
    && left == LeftOver(panes, procs)
  }

  lemma MatchedNow(used: seq<bool>, result: map<string, int>, left: seq<string>,
                   panes: seq<string>, procs: seq<ProcEntry>, uuid: string)
    requires Matched(used, result, left, panes, procs)
    ensures var i := FirstNaming(procs, uuid);
            Matched(if i < |procs| then used[i := true] else used,
                    if i < |procs| && procs[i].pts >= 0 then result[uuid := procs[i].pts] else result,
                    if i < |procs| then left else left + [uuid],
                    panes + [uuid], procs)
  {
    ClaimedNow(used, panes, procs, uuid);
    TerminalsNow(panes, procs, uuid);
    LeftNow(panes, procs, uuid);
  }

  ghost predicate Claims(used: seq<bool>, procs: seq<ProcEntry>, panes: seq<string>) {
    |used| == |procs| && forall i :: 0 <= i < |procs| ==> (!used[i] <==> Unclaimed(procs, panes, i))
  }

  lemma ClaimedNow(used: seq<bool>, panes: seq<string>, procs: seq<ProcEntry>, uuid: string)
    requires Claims(used, procs, panes)
    ensures var i := FirstNaming(procs, uuid);
            Claims(if i < |procs| then used[i := true] else used, procs, panes + [uuid])
  {
    forall i
      ensures Unclaimed(procs, panes + [uuid], i) <==> Unclaimed(procs, panes, i) && !Exact(procs, uuid, i)
    {
      assert forall u :: u in panes + [uuid] <==> u in panes || u == uuid;
    }
  }

  lemma EntriesNow(panes: seq<string>, procs: seq<ProcEntry>, uuid: string)
    ensures var i := FirstNaming(procs, uuid);
            var was := ExactEntries(panes, procs);
            ExactEntries(panes + [uuid], procs) == if i < |procs| && procs[i].pts >= 0 then was[uuid := i] else was
  {
    assert forall u :: u in panes + [uuid] <==> u in panes || u == uuid;
  }

  lemma TerminalsPut(entry: map<string, nat>, procs: seq<ProcEntry>, uuid: string, i: nat)
    requires i < |procs| && forall u :: u in entry ==> entry[u] < |procs|
    ensures Terminals(entry[uuid := i], procs) == Terminals(entry, procs)[uuid := procs[i].pts]
  {
  }

  lemma TerminalsNow(panes: seq<string>, procs: seq<ProcEntry>, uuid: string)
    ensures var i := FirstNaming(procs, uuid);
            var was := Terminals(ExactEntries(panes, procs), procs);
            Terminals(ExactEntries(panes + [uuid], procs), procs)
            == if i < |procs| && procs[i].pts >= 0 then was[uuid := procs[i].pts] else was
  {
    EntriesNow(panes, procs, uuid);
    var i := FirstNaming(procs, uuid);
    if i < |procs| {
      TerminalsPut(ExactEntries(panes, procs), procs, uuid, i);
    }
  }

  lemma LeftNow(panes: seq<string>, procs: seq<ProcEntry>, uuid: string)
    ensures LeftOver(panes + [uuid], procs)
            == if FirstNaming(procs, uuid) < |procs| then LeftOver(panes, procs) else LeftOver(panes, procs) + [uuid]
  {
    assert (panes + [uuid])[..|panes + [uuid]| - 1] == panes;
  }

  // ── The second phase ───────────────────────────────────────────────────────

  /** The first n leftover panes take the free processes in order. */
  function Assigned(left: seq<string>, free: seq<nat>, n: nat): map<string, nat>
    requires n <= |left|
  {
    if n == 0 then map[]
    else if n <= |free| then Assigned(left, free, n - 1)[left[n - 1] := free[n - 1]]
    else Assigned(left, free, n - 1)
  }

  /** The last of the first m places where `u` stands. */
  function Last(left: seq<string>, m: nat, u: string): (k: Option<nat>)
    requires m <= |left|
    ensures k.Some? ==> k.value < m && left[k.value] == u && forall j :: k.value < j < m ==> left[j] != u
    ensures k.None? ==> forall j :: 0 <= j < m ==> left[j] != u
  {
    if m == 0 then None
    else if left[m - 1] == u then Some(m - 1)
    else Last(left, m - 1, u)
  }

  /** How many of the leftover panes find a free process. */
  function Served(left: seq<string>, free: seq<nat>, n: nat): nat {
    if n < |free| then n else |free|
  }

  /** A uuid is given the process of the last of its places that finds one. */
  lemma {:induction false} AssignedLast(left: seq<string>, free: seq<nat>, n: nat, u: string)
    requires n <= |left|
    ensures var k := Last(left, Served(left, free, n), u);
            && (u in Assigned(left, free, n) <==> k.Some?)
            && (k.Some? ==> Assigned(left, free, n)[u] == free[k.value])
  {
    if n > 0 {
      AssignedLast(left, free, n - 1, u);
    }
  }

  ghost predicate FreeList(panes: seq<string>, procs: seq<ProcEntry>, free: seq<nat>) {
    && (forall k :: k in free <==> 0 <= k < |procs| && Unclaimed(procs, panes, k) && procs[k].pts >= 0)
    && (forall a, b :: 0 <= a < b < |free| ==> free[a] < free[b])
  }

  /** The processes free for the second phase, in order. */
  ghost function Spare(panes: seq<string>, procs: seq<ProcEntry>): (free: seq<nat>)
    ensures FreeList(panes, procs, free)
  {
    FreeFrom(procs, Claimed(panes, procs), 0)
  }

  ghost function Claimed(panes: seq<string>, procs: seq<ProcEntry>): (used: seq<bool>)
    ensures Claims(used, procs, panes)
  {
    seq(|procs|, i requires 0 <= i < |procs| => !Unclaimed(procs, panes, i))
  }

  /** The process given to each matched pane. */
  ghost function Matching(panes: seq<string>, procs: seq<ProcEntry>): map<string, nat> {
    ExactEntries(panes, procs) + Assigned(LeftOver(panes, procs), Spare(panes, procs), |LeftOver(panes, procs)|)
  }

  /** Every matched pane has a process with a terminal: its exact match, or an
      unclaimed one. */
  lemma EntryCases(panes: seq<string>, procs: seq<ProcEntry>, u: string)
    ensures var entry := Matching(panes, procs);
            && (u in entry ==> u in panes && entry[u] < |procs| && procs[entry[u]].pts >= 0)
            && (u in entry && FirstNaming(procs, u) < |procs| ==> entry[u] == FirstNaming(procs, u))
            && (u in entry && FirstNaming(procs, u) == |procs| ==> Unclaimed(procs, panes, entry[u]))
            && (u in panes && FirstNaming(procs, u) < |procs| ==>
                  (u in entry <==> procs[FirstNaming(procs, u)].pts >= 0))
  {
    var left, free := LeftOver(panes, procs), Spare(panes, procs);
    LeftOverIs(panes, procs);
    AssignedLast(left, free, |left|, u);
    if u in Assigned(left, free, |left|) {
      var k := Last(left, Served(left, free, |left|), u).value;
      assert u in left && free[k] in free;
    }
  }

  lemma AssignedApart(left: seq<string>, free: seq<nat>, u: string, w: string)
    requires forall a, b :: 0 <= a < b < |free| ==> free[a] < free[b]
    requires var m := Assigned(left, free, |left|); u in m && w in m && m[u] == m[w]
    ensures u == w
  {
    AssignedLast(left, free, |left|, u);
    AssignedLast(left, free, |left|, w);
  }

  /** Two panes that are matched get the same process exactly if they have the same uuid. */
  lemma MatchedApart(panes: seq<string>, procs: seq<ProcEntry>, i: nat, j: nat)
    requires i < |panes| && j < |panes|
    requires panes[i] in Matching(panes, procs) && panes[j] in Matching(panes, procs)
    ensures Matching(panes, procs)[panes[i]] == Matching(panes, procs)[panes[j]] <==> panes[i] == panes[j]
  {
    var u, w, entry := panes[i], panes[j], Matching(panes, procs);
    EntryCases(panes, procs, u);
    EntryCases(panes, procs, w);
    if entry[u] == entry[w] {
      UuidsApart(panes, procs, u, w);
    }
  }

  lemma UuidsApart(panes: seq<string>, procs: seq<ProcEntry>, u: string, w: string)
    requires var entry := Matching(panes, procs); u in entry && w in entry && entry[u] == entry[w]
    ensures u == w
  {
    EntryCases(panes, procs, u);
    EntryCases(panes, procs, w);
    var left, free, entry := LeftOver(panes, procs), Spare(panes, procs), Matching(panes, procs);
    assert FirstNaming(procs, u) < |procs| ==> Exact(procs, u, entry[u]);
    assert FirstNaming(procs, w) < |procs| ==> Exact(procs, w, entry[w]);
    if FirstNaming(procs, u) == |procs| && FirstNaming(procs, w) == |procs| {
      AssignedApart(left, free, u, w);
    }
  }

  lemma OverlayPut(base: map<string, nat>, m: map<string, nat>, u: string, i: nat)
    ensures base + m[u := i] == (base + m)[u := i]
  {
  }

  /** The second phase of `match_pane_pts`: panes without an exact match, in order. */
  method MatchInOrder(exact: map<string, int>, ghost base: map<string, nat>, left: seq<string>, spare: seq<nat>,
                      procs: seq<ProcEntry>) returns (result: map<string, int>)
    requires (forall u :: u in base ==> base[u] < |procs|) && (forall k :: 0 <= k < |spare| ==> spare[k] < |procs|)
    requires exact == Terminals(base, procs)
    ensures forall u :: u in base + Assigned(left, spare, |left|) ==>
              (base + Assigned(left, spare, |left|))[u] < |procs|
    ensures result == Terminals(base + Assigned(left, spare, |left|), procs)
  {
    result := exact;
    assert base + Assigned(left, spare, 0) == base;
    for n := 0 to |left|
      invariant forall u :: u in base + Assigned(left, spare, n) ==> (base + Assigned(left, spare, n))[u] < |procs|
      invariant result == Terminals(base + Assigned(left, spare, n), procs)
    {
      if n < |spare| {
        ghost var m := Assigned(left, spare, n);
        OverlayPut(base, m, left[n], spare[n]);
        TerminalsPut(base + m, procs, left[n], spare[n]);
        result := result[left[n] := procs[spare[n]].pts];
      }
    }
  }

  /** `match_pane_pts`, given the sorted stats of the direct children. */
  method MatchPanePts(panes: seq<string>, procs: seq<ProcEntry>) returns (result: map<string, int>)
    ensures forall u :: u in Matching(panes, procs) ==> Matching(panes, procs)[u] < |procs|
    ensures result == Terminals(Matching(panes, procs), procs)
  {
    var used, exact, left := MatchExact(panes, procs);
    var spare := FreeFrom(procs, used, 0);
    assert used == Claimed(panes, procs);
    assert forall k :: 0 <= k < |spare| ==> spare[k] in spare;
    result := MatchInOrder(exact, ExactEntries(panes, procs), left, spare, procs);
  }

  // ── Who gets a free process ────────────────────────────────────────────────

  /** The number of leftover panes that find a free process. */
  ghost function Reach(panes: seq<string>, procs: seq<ProcEntry>): (m: nat)
    ensures m <= |LeftOver(panes, procs)| && m <= |Spare(panes, procs)|
    ensures m == |LeftOver(panes, procs)| || m == |Spare(panes, procs)|
  {
    Served(LeftOver(panes, procs), Spare(panes, procs), |LeftOver(panes, procs)|)
  }

  /** A leftover uuid is matched exactly if one of its places finds a free process,
      and then with the process of the last such place. */
  lemma LeftoverEntry(panes: seq<string>, procs: seq<ProcEntry>, u: string)
    requires u in LeftOver(panes, procs)
    ensures var k := Last(LeftOver(panes, procs), Reach(panes, procs), u);
            && (u in Matching(panes, procs) <==> k.Some?)
            && (k.Some? ==> Matching(panes, procs)[u] == Spare(panes, procs)[k.value])
  {
    LeftOverIs(panes, procs);
    AssignedLast(LeftOver(panes, procs), Spare(panes, procs), |LeftOver(panes, procs)|, u);
  }

  /** A leftover pane in a place that finds a process is matched. */
  lemma LeftoverAt(panes: seq<string>, procs: seq<ProcEntry>, a: nat) returns (i: nat)
    requires a < Reach(panes, procs)
    ensures var u := LeftOver(panes, procs)[a];
            && Last(LeftOver(panes, procs), Reach(panes, procs), u) == Some(i)
            && u in Matching(panes, procs) && Matching(panes, procs)[u] == Spare(panes, procs)[i]
    ensures Spare(panes, procs)[i] < |procs| && procs[Spare(panes, procs)[i]].pts >= 0
  {
    var left, free := LeftOver(panes, procs), Spare(panes, procs);
    assert left[a] in left;
    LeftoverEntry(panes, procs, left[a]);
    i := Last(left, Reach(panes, procs), left[a]).value;
    assert free[i] in free;
  }

  /** Of two leftover panes that find a process, the one whose uuid has the later
      last place gets the later process, and no smaller terminal. */
  lemma LeftoversByLast(panes: seq<string>, procs: seq<ProcEntry>, a: nat, b: nat)
    requires a < Reach(panes, procs) && b < Reach(panes, procs)
    ensures var entry, left, m := Matching(panes, procs), LeftOver(panes, procs), Reach(panes, procs);
            var i, j := Last(left, m, left[a]), Last(left, m, left[b]);
            && i.Some? && j.Some? && left[a] in entry && left[b] in entry
            && entry[left[a]] < |procs| && entry[left[b]] < |procs|
            && (entry[left[a]] <= entry[left[b]] <==> i.value <= j.value)
            && (SortedEntries(procs) && i.value <= j.value ==> procs[entry[left[a]]].pts <= procs[entry[left[b]]].pts)
  {
    var i := LeftoverAt(panes, procs, a);
    var j := LeftoverAt(panes, procs, b);
    FreeInOrder(procs, Spare(panes, procs), i, j);
  }

  lemma FreeInOrder(procs: seq<ProcEntry>, free: seq<nat>, i: nat, j: nat)
    requires forall a, b :: 0 <= a < b < |free| ==> free[a] < free[b]
    requires i < |free| && j < |free| && free[i] < |procs| && free[j] < |procs|
    requires procs[free[i]].pts >= 0 && procs[free[j]].pts >= 0
    ensures free[i] <= free[j] <==> i <= j
    ensures SortedEntries(procs) && i <= j ==> procs[free[i]].pts <= procs[free[j]].pts
  {
    if SortedEntries(procs) && i < j {
      assert InOrder(procs[free[i]], procs[free[j]]);
    }
  }

  /** No other uuid stands between two places of one uuid. */
  ghost predicate Contiguous(left: seq<string>) {
    forall a, b, c :: 0 <= a < b < c < |left| && left[a] == left[c] ==> left[b] == left[a]
  }

  /** The pane at place a gets no later process than the one at place b. */
  ghost predicate TakesInOrder(panes: seq<string>, procs: seq<ProcEntry>, a: nat, b: nat)
    requires a < |LeftOver(panes, procs)| && b < |LeftOver(panes, procs)|
  {
    var entry, left := Matching(panes, procs), LeftOver(panes, procs);
    left[a] in entry && left[b] in entry && entry[left[a]] <= entry[left[b]]
  }

  /** The uuid at place a comes for the last time no later than the one at place b. */
  ghost predicate LastsInOrder(left: seq<string>, m: nat, a: nat, b: nat)
    requires a < m <= |left| && b < m
  {
    Last(left, m, left[a]).value <= Last(left, m, left[b]).value
  }

  /** The leftover panes take processes, and so terminals, in pane order exactly if
      no other uuid stands between two places of one uuid. */
  lemma LeftoversInOrderIff(panes: seq<string>, procs: seq<ProcEntry>)
    ensures (forall a, b :: 0 <= a < b < Reach(panes, procs) ==> TakesInOrder(panes, procs, a, b))
            <==> Contiguous(LeftOver(panes, procs)[..Reach(panes, procs)])
  {
    var left, m := LeftOver(panes, procs), Reach(panes, procs);
    forall a, b | 0 <= a < b < m
      ensures TakesInOrder(panes, procs, a, b) <==> LastsInOrder(left, m, a, b)
    {
      LeftoversByLast(panes, procs, a, b);
    }
    LastsInOrderIff(left, m);
  }

  lemma LastsInOrderIff(left: seq<string>, m: nat)
    requires m <= |left|
    ensures (forall a, b :: 0 <= a < b < m ==> LastsInOrder(left, m, a, b)) <==> Contiguous(left[..m])
  {
    if Contiguous(left[..m]) {
      forall a, b | 0 <= a < b < m
        ensures LastsInOrder(left, m, a, b)
      {
        var i := Last(left, m, left[a]).value;
        assert b < i ==> left[..m][a] == left[..m][i] && left[..m][b] == left[b];
      }
    } else {
      var a, b, c :| 0 <= a < b < c < m && left[..m][a] == left[..m][c] && left[..m][b] != left[..m][a];
      LastsOutOfOrder(left, m, a, b, c);
    }
  }

  lemma LastsOutOfOrder(left: seq<string>, m: nat, a: nat, b: nat, c: nat)
    requires a < b < c < m <= |left| && left[a] == left[c] && left[b] != left[a]
    ensures !LastsInOrder(left, m, a, b) || !LastsInOrder(left, m, b, c)
  {
    var i, j := Last(left, m, left[a]).value, Last(left, m, left[b]).value;
    assert left[i] == left[a] && left[j] == left[b];
  }

  /** Who is given a free process has its last place there. */
  lemma GivenAtLast(panes: seq<string>, procs: seq<ProcEntry>, w: string, j: nat)
    requires j < |Spare(panes, procs)| && w in Matching(panes, procs)
    requires Matching(panes, procs)[w] == Spare(panes, procs)[j]
    ensures j < Reach(panes, procs) && Last(LeftOver(panes, procs), Reach(panes, procs), w) == Some(j)
  {
    var free := Spare(panes, procs);
    var i := free[j];
    assert i in free;
    EntryCases(panes, procs, w);
    LeftOverIs(panes, procs);
    assert FirstNaming(procs, w) < |procs| ==> Exact(procs, w, i);
    LeftoverEntry(panes, procs, w);
    SamePlace(free, Last(LeftOver(panes, procs), Reach(panes, procs), w).value, j);
  }

  lemma SamePlace(free: seq<nat>, a: nat, b: nat)
    requires forall i, j :: 0 <= i < j < |free| ==> free[i] < free[j]
    requires a < |free| && b < |free| && free[a] == free[b]
    ensures a == b
  {
  }

  lemma LastIsGiven(panes: seq<string>, procs: seq<ProcEntry>, j: nat)
    requires j < Reach(panes, procs) && LastOfItself(LeftOver(panes, procs), Reach(panes, procs), j)
    ensures var w := LeftOver(panes, procs)[j];
            w in Matching(panes, procs) && Matching(panes, procs)[w] == Spare(panes, procs)[j]
  {
    assert LeftOver(panes, procs)[j] in LeftOver(panes, procs);
    LastIs(LeftOver(panes, procs), Reach(panes, procs), j);
    LeftoverEntry(panes, procs, LeftOver(panes, procs)[j]);
  }

  lemma LastIs(left: seq<string>, m: nat, j: nat)
    requires j < m <= |left| && LastOfItself(left, m, j)
    ensures Last(left, m, left[j]) == Some(j)
  {
    var k := Last(left, m, left[j]);
    assert k.Some? && left[k.value] == left[j];
  }

  /** A process is given to some pane. */
  ghost predicate Given(panes: seq<string>, procs: seq<ProcEntry>, k: nat) {
    exists w :: w in Matching(panes, procs) && Matching(panes, procs)[w] == k
  }

  /** A free process is given to a pane exactly if the leftover pane in its place has
      no later place that finds a process too. */
  lemma FreeGivenIff(panes: seq<string>, procs: seq<ProcEntry>, j: nat)
    requires j < |Spare(panes, procs)|
    ensures Given(panes, procs, Spare(panes, procs)[j])
            <==> j < Reach(panes, procs) && LastOfItself(LeftOver(panes, procs), Reach(panes, procs), j)
  {
    if Given(panes, procs, Spare(panes, procs)[j]) {
      var w :| w in Matching(panes, procs) && Matching(panes, procs)[w] == Spare(panes, procs)[j];
      GivenAtLast(panes, procs, w, j);
    }
    if j < Reach(panes, procs) && LastOfItself(LeftOver(panes, procs), Reach(panes, procs), j) {
      LastIsGiven(panes, procs, j);
    }
  }

  /** The uuid at place j does not come again below place m. */
  ghost predicate LastOfItself(left: seq<string>, m: nat, j: nat)
    requires j < m <= |left|
  {
    forall i :: j < i < m ==> left[i] != left[j]
  }

  /** Process `k` is given to a pane other than `u`. */
  ghost predicate GivenToAnother(panes: seq<string>, procs: seq<ProcEntry>, u: string, k: nat) {
    exists w :: w in Matching(panes, procs) && w != u && Matching(panes, procs)[w] == k
  }

  /** A leftover pane goes unmatched only while every free terminal goes to another
      pane: that holds exactly if no uuid stands twice among the leftover panes that
      find a process. */
  lemma UnmatchedOnlyIfIff(panes: seq<string>, procs: seq<ProcEntry>, u: string)
    requires u in panes && FirstNaming(procs, u) == |procs| && u !in Matching(panes, procs)
    ensures (forall k :: 0 <= k < |procs| && Unclaimed(procs, panes, k) && procs[k].pts >= 0 ==>
               GivenToAnother(panes, procs, u, k))
            <==> NoDup(LeftOver(panes, procs)[..Reach(panes, procs)])
  {
    var left, free, m := LeftOver(panes, procs), Spare(panes, procs), Reach(panes, procs);
    UnmatchedReach(panes, procs, u);
    forall j | 0 <= j < m
      ensures GivenToAnother(panes, procs, u, free[j]) <==> LastOfItself(left, m, j)
    {
      FreeGivenIff(panes, procs, j);
      assert Given(panes, procs, free[j]) <==> GivenToAnother(panes, procs, u, free[j]);
    }
    LastOfThemselves(left, m);
    if NoDup(left[..m]) {
      forall k | 0 <= k < |procs| && Unclaimed(procs, panes, k) && procs[k].pts >= 0
        ensures GivenToAnother(panes, procs, u, k)
      {
        assert k in free;
        var j :| 0 <= j < |free| && free[j] == k;
      }
    } else {
      var j :| 0 <= j < m && !LastOfItself(left, m, j);
      assert free[j] in free;
    }
  }

  lemma UnmatchedReach(panes: seq<string>, procs: seq<ProcEntry>, u: string)
    requires u in panes && FirstNaming(procs, u) == |procs| && u !in Matching(panes, procs)
    ensures Reach(panes, procs) == |Spare(panes, procs)|
  {
    LeftOverIs(panes, procs);
    LeftoverEntry(panes, procs, u);
    var n :| 0 <= n < |LeftOver(panes, procs)| && LeftOver(panes, procs)[n] == u;
  }

  lemma LastOfThemselves(left: seq<string>, m: nat)
    requires m <= |left|
    ensures NoDup(left[..m]) <==> forall j :: 0 <= j < m ==> LastOfItself(left, m, j)
  {
    if NoDup(left[..m]) {
      forall j, i | 0 <= j < i < m
        ensures left[i] != left[j]
      {
        assert left[..m][j] != left[..m][i];
      }
    } else {
      var j, i :| 0 <= j < i < m && left[..m][j] == left[..m][i];
      assert !LastOfItself(left, m, j);
    }
  }

  // Failing inputs: two restored previews share a uuid, and no process names a pane.

  function Plain(pid: nat, pts: Pts): ProcEntry {
    ProcEntry(pid, pts, 0, 0, "", None)
  }

  /** Then all leftover panes stand in order before all terminals. */
  lemma PlainMatching(panes: seq<string>, procs: seq<ProcEntry>)
    requires forall e :: e in procs ==> e.pane.None? && e.pts >= 0
    ensures LeftOver(panes, procs) == panes
    ensures |Spare(panes, procs)| == |procs| && forall i :: 0 <= i < |procs| ==> Spare(panes, procs)[i] == i
  {
    NoneNames(panes, procs);
    AllFree(procs, Claimed(panes, procs), 0);
  }

  lemma {:induction false} NoneNames(panes: seq<string>, procs: seq<ProcEntry>)
    requires forall e :: e in procs ==> e.pane.None?
    ensures LeftOver(panes, procs) == panes
    ensures forall i :: 0 <= i < |procs| ==> Unclaimed(procs, panes, i)
  {
    if panes != [] {
      NoneNames(panes[..|panes| - 1], procs);
      forall i | 0 <= i < |procs|
        ensures procs[i].pane != Some(panes[|panes| - 1])
      {
        assert procs[i] in procs;
      }
      assert panes == panes[..|panes| - 1] + [panes[|panes| - 1]];
    }
  }

  lemma {:induction false} AllFree(procs: seq<ProcEntry>, used: seq<bool>, i: nat)
    requires |used| == |procs| && i <= |procs|
    requires forall j :: 0 <= j < |procs| ==> !used[j] && procs[j].pts >= 0
    ensures var free := FreeFrom(procs, used, i);
            |free| == |procs| - i && forall j :: 0 <= j < |free| ==> free[j] == i + j
    decreases |procs| - i
  {
    if i < |procs| {
      AllFree(procs, used, i + 1);
    }
  }

  /** The third pane goes without, and the first terminal goes to nobody. */
  lemma RepeatedUuidStarves(n: string, u: string)
    requires n != u
    ensures var panes, procs := [n, n, u], [Plain(10, 3), Plain(11, 4)];
            && u !in Matching(panes, procs) && FirstNaming(procs, u) == |procs|
            && Unclaimed(procs, panes, 0) && procs[0].pts >= 0 && !Given(panes, procs, 0)
  {
    var panes, procs := [n, n, u], [Plain(10, 3), Plain(11, 4)];
    PlainMatching(panes, procs);
    assert panes[0] == panes[1] && panes[2] == u;
    LeftoverEntry(panes, procs, u);
    FreeGivenIff(panes, procs, 0);
    assert Spare(panes, procs)[0] in Spare(panes, procs);
  }

  /** The first pane gets a later terminal than the second. */
  lemma RepeatedUuidBreaksOrder(n: string, u: string)
    requires n != u
    ensures var panes, procs := [n, u, n], [Plain(10, 3), Plain(11, 4), Plain(12, 5)];
            && n in Matching(panes, procs) && u in Matching(panes, procs)
            && Matching(panes, procs)[n] == 2 && Matching(panes, procs)[u] == 1
  {
    var panes, procs := [n, u, n], [Plain(10, 3), Plain(11, 4), Plain(12, 5)];
    PlainMatching(panes, procs);
    assert panes[0] == n && panes[1] == u && panes[2] == n;
    LeftoverEntry(panes, procs, n);
    LeftoverEntry(panes, procs, u);
  }
}
