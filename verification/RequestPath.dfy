/** The recursive query that rebuilds a request's path (`scripts/sql/request_path.sql`, `hops` and
    `walk`): rounds of a join that stop by themselves, whatever loops the metadata holds. */
module RequestPath {
  import opened Texts
  import opened Sequences

  datatype Root = Root(agent: Text, session: Text)

  /** A delegation edge; `callee` is None where the recorded context id is null. */
  datatype Hop = Hop(caller: Text, agent: Text, callee: Option<Text>)

  datatype Row = Row(agent: Text, session: Text, depth: nat, seen: seq<Text>)

  // --- The query ------------------------------------------------------------------------------------

  function Begin(roots: seq<Root>): (rows: seq<Row>)
    ensures |rows| == |roots|
    ensures forall i :: 0 <= i < |rows| ==> rows[i] == Row(roots[i].agent, roots[i].session, 0, [roots[i].session])
  {
    seq(|roots|, i requires 0 <= i < |roots| => Row(roots[i].agent, roots[i].session, 0, [roots[i].session]))
  }

  /** The join condition: a null callee is neither in `seen` nor outside it, and joins nothing. */
  predicate Joins(w: Row, h: Hop) {
    h.caller == w.session && h.callee.Some? && h.callee.value !in w.seen
  }

  function Along(w: Row, h: Hop): Row
    requires Joins(w, h)
  {
    Row(h.agent, h.callee.value, w.depth + 1, w.seen + [h.callee.value])
  }

  function Joined(w: Row, hops: seq<Hop>): (rows: seq<Row>)
    ensures forall r :: r in rows <==> exists h :: h in hops && Joins(w, h) && r == Along(w, h)
  {
    if hops == [] then []
    else
      assert hops == [hops[0]] + hops[1..];
      (if Joins(w, hops[0]) then [Along(w, hops[0])] else []) + Joined(w, hops[1..])
  }

  /** The recursive term over one round's rows. */
  function Next(rows: seq<Row>, hops: seq<Hop>): (next: seq<Row>)
    ensures forall r :: r in next <==> exists w, h :: w in rows && h in hops && Joins(w, h) && r == Along(w, h)
  {
    if rows == [] then []
    else
      assert rows == [rows[0]] + rows[1..];
      Joined(rows[0], hops) + Next(rows[1..], hops)
  }

  // --- Paths ------------------------------------------------------------------------------------------

  predicate Linked(hops: seq<Hop>, a: Text, b: Text) {
    exists h :: h in hops && h.caller == a && h.callee == Some(b)
  }

  predicate IsRoot(roots: seq<Root>, session: Text) {
    exists r :: r in roots && r.session == session
  }

  /** Delegations followed one after the other from a root. */
  predicate IsPath(roots: seq<Root>, hops: seq<Hop>, p: seq<Text>) {
    p != [] && IsRoot(roots, p[0]) && forall i :: 0 <= i < |p| - 1 ==> Linked(hops, p[i], p[i + 1])
  }

  /** A row is a path without repeats, as long as its depth says, ending at its session, under the
      agent the last delegation named. */
  predicate RowOk(roots: seq<Root>, hops: seq<Hop>, r: Row) {
    && IsPath(roots, hops, r.seen) && IsSimple(r.seen) && |r.seen| == r.depth + 1 && r.seen[r.depth] == r.session
    && if r.depth == 0 then Root(r.agent, r.session) in roots
       else Hop(r.seen[r.depth - 1], r.agent, Some(r.session)) in hops
  }

  function Names(roots: seq<Root>, hops: seq<Hop>): set<Text> {
    (set r | r in roots :: r.session) + (set h | h in hops && h.callee.Some? :: h.callee.value)
  }

  lemma PathNamed(roots: seq<Root>, hops: seq<Hop>, p: seq<Text>)
    requires IsPath(roots, hops, p)
    ensures forall i :: 0 <= i < |p| ==> p[i] in Names(roots, hops)
  {
    forall i | 0 <= i < |p| ensures p[i] in Names(roots, hops) {
      if i > 0 { assert Linked(hops, p[i - 1], p[i]); }
    }
  }

  /** No row is deeper than there are sessions. */
  lemma DepthBounded(roots: seq<Root>, hops: seq<Hop>, r: Row)
    requires RowOk(roots, hops, r)
    ensures r.depth < |Names(roots, hops)|
  {
    PathNamed(roots, hops, r.seen);
    SimpleFits(r.seen, Names(roots, hops));
  }

  lemma AlongOk(roots: seq<Root>, hops: seq<Hop>, w: Row, h: Hop)
    requires RowOk(roots, hops, w) && h in hops && Joins(w, h)
    ensures RowOk(roots, hops, Along(w, h))
  {
    var r := Along(w, h);
    assert h == Hop(w.session, h.agent, Some(r.session));
    forall i | 0 <= i < |r.seen| - 1 ensures Linked(hops, r.seen[i], r.seen[i + 1]) {
      if i < |w.seen| - 1 { assert Linked(hops, w.seen[i], w.seen[i + 1]); }
    }
    forall i, j | 0 <= i < j < |r.seen| ensures r.seen[i] != r.seen[j] {
      if j == |w.seen| { assert w.seen[i] in w.seen; }
    }
  }

  ghost predicate RoundOk(roots: seq<Root>, hops: seq<Hop>, rows: seq<Row>, depth: nat) {
    forall r :: r in rows ==> RowOk(roots, hops, r) && r.depth == depth
  }

  lemma NextOk(roots: seq<Root>, hops: seq<Hop>, rows: seq<Row>, depth: nat)
    requires RoundOk(roots, hops, rows, depth)
    ensures RoundOk(roots, hops, Next(rows, hops), depth + 1)
  {
    forall r | r in Next(rows, hops) ensures RowOk(roots, hops, r) && r.depth == depth + 1 {
      var w, h :| w in rows && h in hops && Joins(w, h) && r == Along(w, h);
      AlongOk(roots, hops, w, h);
    }
  }

  lemma BeginOk(roots: seq<Root>, hops: seq<Hop>)
    ensures RoundOk(roots, hops, Begin(roots), 0)
  {
    forall r | r in Begin(roots) ensures RowOk(roots, hops, r) && r.depth == 0 {
      var i :| 0 <= i < |roots| && r == Begin(roots)[i];
      assert Root(r.agent, r.session) == roots[i];
    }
  }

  lemma RoundShallow(roots: seq<Root>, hops: seq<Hop>, rows: seq<Row>, depth: nat)
    requires RoundOk(roots, hops, rows, depth) && rows != []
    ensures depth < |Names(roots, hops)|
  {
    DepthBounded(roots, hops, rows[0]);
  }

  /** Round after round until one is empty. It always is: a round's rows are paths without repeats,
      one longer than the last round's. */
  function Rounds(roots: seq<Root>, hops: seq<Hop>, rows: seq<Row>, depth: nat): seq<Row>
    requires RoundOk(roots, hops, rows, depth)
    decreases |Names(roots, hops)| - depth
  {
    if rows == [] then []
    else
      NextOk(roots, hops, rows, depth);
      RoundShallow(roots, hops, rows, depth);
      rows + Rounds(roots, hops, Next(rows, hops), depth + 1)
  }

  function Walk(roots: seq<Root>, hops: seq<Hop>): seq<Row> {
    BeginOk(roots, hops);
    Rounds(roots, hops, Begin(roots), 0)
  }

  // --- What the rows are ----------------------------------------------------------------------------------

  lemma {:induction false} RoundsOk(roots: seq<Root>, hops: seq<Hop>, rows: seq<Row>, depth: nat)
    requires RoundOk(roots, hops, rows, depth)
    ensures forall r :: r in Rounds(roots, hops, rows, depth) ==> RowOk(roots, hops, r) && r.depth >= depth
    decreases |Names(roots, hops)| - depth
  {
    hide RowOk, Names;
    if rows != [] {
      NextOk(roots, hops, rows, depth);
      RoundShallow(roots, hops, rows, depth);
      RoundsOk(roots, hops, Next(rows, hops), depth + 1);
    }
  }

  lemma {:induction false} RoundsClosed(roots: seq<Root>, hops: seq<Hop>, rows: seq<Row>, depth: nat, r: Row, h: Hop)
    requires RoundOk(roots, hops, rows, depth) && r in Rounds(roots, hops, rows, depth) && h in hops && Joins(r, h)
    ensures Along(r, h) in Rounds(roots, hops, rows, depth)
    decreases |Names(roots, hops)| - depth
  {
    hide RowOk, Names, Joins, Along;
    NextOk(roots, hops, rows, depth);
    RoundShallow(roots, hops, rows, depth);
    var next := Next(rows, hops);
    if r in rows {
      assert Along(r, h) in next;
      assert next <= Rounds(roots, hops, next, depth + 1);
    } else {
      RoundsClosed(roots, hops, next, depth + 1, r, h);
    }
  }

  lemma {:induction false} SimplePathHasRow(roots: seq<Root>, hops: seq<Hop>, p: seq<Text>) returns (r: Row)
    requires IsPath(roots, hops, p) && IsSimple(p)
    ensures r in Walk(roots, hops) && r.seen == p && RowOk(roots, hops, r)
    decreases |p|
  {
    hide Rounds, Names;
    BeginOk(roots, hops);
    RoundsOk(roots, hops, Begin(roots), 0);
    if |p| == 1 {
      var root :| root in roots && root.session == p[0];
      var i :| 0 <= i < |roots| && roots[i] == root;
      r := Begin(roots)[i];
      BeginWalked(roots, hops);
    } else {
      var q := p[..|p| - 1];
      assert IsPath(roots, hops, q) by {
        forall i | 0 <= i < |q| - 1 ensures Linked(hops, q[i], q[i + 1]) { assert Linked(hops, p[i], p[i + 1]); }
      }
      var w := SimplePathHasRow(roots, hops, q);
      assert Linked(hops, p[|p| - 2], p[|p| - 1]);
      var h :| h in hops && h.caller == p[|p| - 2] && h.callee == Some(p[|p| - 1]);
      assert Joins(w, h);
      RoundsClosed(roots, hops, Begin(roots), 0, w, h);
      r := Along(w, h);
    }
  }

  lemma BeginWalked(roots: seq<Root>, hops: seq<Hop>)
    ensures forall r :: r in Begin(roots) ==> r in Walk(roots, hops)
  {
    hide Names;
    BeginOk(roots, hops);
  }

  /** The rows are exactly the paths without repeats: each row is one, and each one is a row's. */
  lemma RowsAreSimplePaths(roots: seq<Root>, hops: seq<Hop>, p: seq<Text>)
    ensures (exists r :: r in Walk(roots, hops) && r.seen == p) <==> IsPath(roots, hops, p) && IsSimple(p)
    ensures forall r :: r in Walk(roots, hops) ==> RowOk(roots, hops, r)
  {
    hide Rounds, Names;
    BeginOk(roots, hops);
    RoundsOk(roots, hops, Begin(roots), 0);
    if IsPath(roots, hops, p) && IsSimple(p) {
      var r := SimplePathHasRow(roots, hops, p);
    }
  }

  // --- Which sessions are reached -----------------------------------------------------------------------------

  /** Some chain of delegations, loops allowed, leads from a root to the session. */
  ghost predicate Reachable(roots: seq<Root>, hops: seq<Hop>, session: Text) {
    exists p :: IsPath(roots, hops, p) && p[|p| - 1] == session
  }

  lemma {:induction false} CutLoops(roots: seq<Root>, hops: seq<Hop>, p: seq<Text>) returns (q: seq<Text>)
    requires IsPath(roots, hops, p)
    ensures IsPath(roots, hops, q) && IsSimple(q) && q[|q| - 1] == p[|p| - 1]
    decreases |p|
  {
    if IsSimple(p) {
      q := p;
    } else {
      var i, j :| 0 <= i < j < |p| && p[i] == p[j];
      var shorter := p[..i] + p[j..];
      forall k | 0 <= k < |shorter| - 1 ensures Linked(hops, shorter[k], shorter[k + 1]) {
        if k < i {
          assert Linked(hops, p[k], p[k + 1]);
        } else {
          assert Linked(hops, p[k - i + j], p[k - i + j + 1]);
        }
      }
      q := CutLoops(roots, hops, shorter);
    }
  }

  /** The sessions reached are exactly the closure of the delegations from the roots. */
  lemma WalkReaches(roots: seq<Root>, hops: seq<Hop>, session: Text)
    ensures (exists r :: r in Walk(roots, hops) && r.session == session) <==> Reachable(roots, hops, session)
  {
    hide Walk, IsSimple;
    if r :| r in Walk(roots, hops) && r.session == session {
      RowsAreSimplePaths(roots, hops, r.seen);
    }
    if p :| IsPath(roots, hops, p) && p[|p| - 1] == session {
      var q := CutLoops(roots, hops, p);
      var r := SimplePathHasRow(roots, hops, q);
    }
  }

  // --- How often --------------------------------------------------------------------------------------------------

  function RowsFor(rows: seq<Row>, p: seq<Text>): nat {
    if rows == [] then 0 else (if rows[0].seen == p then 1 else 0) + RowsFor(rows[1..], p)
  }

  function LinksFrom(hops: seq<Hop>, a: Text, b: Text): nat {
    if hops == [] then 0
    else (if hops[0].caller == a && hops[0].callee == Some(b) then 1 else 0) + LinksFrom(hops[1..], a, b)
  }

  function RootsAt(roots: seq<Root>, session: Text): nat {
    if roots == [] then 0 else (if roots[0].session == session then 1 else 0) + RootsAt(roots[1..], session)
  }

  /** In how many ways delegations can be chosen along the path after its first `from + 1` sessions. */
  function Choices(hops: seq<Hop>, p: seq<Text>, from: nat): nat
    requires from < |p|
    decreases |p| - from
  {
    if from == |p| - 1 then 1 else LinksFrom(hops, p[from], p[from + 1]) * Choices(hops, p, from + 1)
  }

  lemma {:induction false} RowsForConcat(a: seq<Row>, b: seq<Row>, p: seq<Text>)
    ensures RowsFor(a + b, p) == RowsFor(a, p) + RowsFor(b, p)
    decreases |a|
  {
    if a == [] {
      assert a + b == b;
    } else {
      assert (a + b)[1..] == a[1..] + b;
      RowsForConcat(a[1..], b, p);
    }
  }

  lemma {:induction false} NoRowsFor(rows: seq<Row>, p: seq<Text>)
    requires forall r :: r in rows ==> r.seen != p
    ensures RowsFor(rows, p) == 0
    decreases |rows|
  {
    if rows != [] { NoRowsFor(rows[1..], p); }
  }

  lemma {:induction false} JoinedFor(w: Row, hops: seq<Hop>, q: seq<Text>, x: Text)
    requires x !in w.seen
    ensures RowsFor(Joined(w, hops), q + [x]) == if w.seen == q then LinksFrom(hops, w.session, x) else 0
    decreases |hops|
  {
    if hops != [] {
      JoinedFor(w, hops[1..], q, x);
      var first := if Joins(w, hops[0]) then [Along(w, hops[0])] else [];
      RowsForConcat(first, Joined(w, hops[1..]), q + [x]);
      if Joins(w, hops[0]) {
        var c := hops[0].callee.value;
        assert first[0].seen == w.seen + [c];
        assert w.seen + [c] == q + [x] <==> w.seen == q && c == x by {
          assert (w.seen + [c])[..|w.seen|] == w.seen && (q + [x])[..|q|] == q;
          assert |w.seen| == |q| ==> (w.seen + [c])[|q|] == c && (q + [x])[|q|] == x;
        }
        assert RowsFor(first, q + [x]) == if first[0].seen == q + [x] then 1 else 0 by { assert first[1..] == []; }
      }
    }
  }

  predicate EndsAtSession(r: Row) {
    r.seen != [] && r.seen[|r.seen| - 1] == r.session
  }

  lemma OneRowFor(w: Row, hops: seq<Hop>, q: seq<Text>, x: Text)
    requires q != [] && x !in q && EndsAtSession(w)
    ensures RowsFor(Joined(w, hops), q + [x]) == if w.seen == q then LinksFrom(hops, q[|q| - 1], x) else 0
  {
    hide LinksFrom, Joined;
    if x in w.seen {
      forall r | r in Joined(w, hops) ensures r.seen != q + [x] { JoinedAvoids(w, hops, r, q, x); }
      NoRowsFor(Joined(w, hops), q + [x]);
    } else {
      JoinedFor(w, hops, q, x);
    }
  }

  lemma {:induction false} NextFor(hops: seq<Hop>, rows: seq<Row>, q: seq<Text>, x: Text)
    requires q != [] && x !in q && forall r :: r in rows ==> EndsAtSession(r)
    ensures RowsFor(Next(rows, hops), q + [x]) == RowsFor(rows, q) * LinksFrom(hops, q[|q| - 1], x)
    decreases |rows|
  {
    hide LinksFrom, Joined, EndsAtSession, RowsFor, Next;
    NextUnfolds(rows, hops);
    CountUnfolds(rows, q);
    if rows == [] {
      CountUnfolds([], q + [x]);
    } else {
      var links, rest := LinksFrom(hops, q[|q| - 1], x), RowsFor(rows[1..], q);
      NextFor(hops, rows[1..], q, x);
      RowsForConcat(Joined(rows[0], hops), Next(rows[1..], hops), q + [x]);
      OneRowFor(rows[0], hops, q, x);
      assert (1 + rest) * links == links + rest * links;
    }
  }

  lemma NextUnfolds(rows: seq<Row>, hops: seq<Hop>)
    ensures Next(rows, hops) == if rows == [] then [] else Joined(rows[0], hops) + Next(rows[1..], hops)
  {
    hide Joined;
  }

  lemma CountUnfolds(rows: seq<Row>, p: seq<Text>)
    ensures RowsFor(rows, p) == if rows == [] then 0 else (if rows[0].seen == p then 1 else 0) + RowsFor(rows[1..], p)
  {
  }

  lemma JoinedAvoids(w: Row, hops: seq<Hop>, r: Row, q: seq<Text>, x: Text)
    requires r in Joined(w, hops) && x in w.seen
    ensures r.seen != q + [x]
  {
    var h :| h in hops && Joins(w, h) && r == Along(w, h);
    assert r.seen[|r.seen| - 1] == h.callee.value;
    assert (q + [x])[|q + [x]| - 1] == x;
  }

  lemma {:induction false} RoundsFor(roots: seq<Root>, hops: seq<Hop>, rows: seq<Row>, depth: nat, p: seq<Text>)
    requires RoundOk(roots, hops, rows, depth) && IsSimple(p) && |p| > depth
    ensures RowsFor(Rounds(roots, hops, rows, depth), p) == RowsFor(rows, p[..depth + 1]) * Choices(hops, p, depth)
    decreases |Names(roots, hops)| - depth
  {
    hide IsPath, LinksFrom, Joined, Names, Next, RowsFor;
    if rows == [] {
      NoRowsFor(rows, p);
      NoRowsFor(rows, p[..depth + 1]);
    } else {
      NextOk(roots, hops, rows, depth);
      RoundShallow(roots, hops, rows, depth);
      var next := Next(rows, hops);
      RowsForConcat(rows, Rounds(roots, hops, next, depth + 1), p);
      if |p| == depth + 1 {
        assert p[..depth + 1] == p;
        RoundsOk(roots, hops, next, depth + 1);
        NoRowsFor(Rounds(roots, hops, next, depth + 1), p);
      } else {
        NoRowsFor(rows, p);
        RoundsFor(roots, hops, next, depth + 1, p);
        var q, x := p[..depth + 1], p[depth + 1];
        assert p[..depth + 2] == q + [x];
        assert forall r :: r in rows ==> EndsAtSession(r);
        NextFor(hops, rows, q, x);
        Reassociate(RowsFor(rows, q), LinksFrom(hops, p[depth], x), Choices(hops, p, depth + 1));
      }
    }
  }

  lemma Reassociate(a: nat, b: nat, c: nat)
    ensures (a * b) * c == a * (b * c)
  {
  }

  lemma {:induction false} BeginFor(roots: seq<Root>, session: Text)
    ensures RowsFor(Begin(roots), [session]) == RootsAt(roots, session)
    decreases |roots|
  {
    if roots != [] {
      assert Begin(roots)[1..] == Begin(roots[1..]);
      BeginFor(roots[1..], session);
    }
  }

  /** How many rows a path without repeats has: one for every choice of a root and of a delegation
      event at each hop. A callee answering twice in one session doubles every row below it. */
  lemma RowsPerPath(roots: seq<Root>, hops: seq<Hop>, p: seq<Text>)
    requires p != [] && IsSimple(p)
    ensures RowsFor(Walk(roots, hops), p) == RootsAt(roots, p[0]) * Choices(hops, p, 0)
  {
    hide Rounds, Names, Choices;
    BeginOk(roots, hops);
    RoundsFor(roots, hops, Begin(roots), 0, p);
    assert p[..1] == [p[0]];
    BeginFor(roots, p[0]);
  }

  // --- On a forest ----------------------------------------------------------------------------------------------------

  predicate DistinctCallees(hops: seq<Hop>) {
    forall i, j :: 0 <= i < j < |hops| && hops[i].callee.Some? ==> hops[i].callee != hops[j].callee
  }

  /** Each session is a root once, or is delegated to once, or neither. */
  predicate IsForest(roots: seq<Root>, hops: seq<Hop>) {
    && (forall i, j :: 0 <= i < j < |roots| ==> roots[i].session != roots[j].session)
    && DistinctCallees(hops)
    && forall h :: h in hops && h.callee.Some? ==> !IsRoot(roots, h.callee.value)
  }

  predicate Apart(rows: seq<Row>) {
    forall i, j :: 0 <= i < j < |rows| ==> rows[i].session != rows[j].session
  }

  lemma ApartConcat(a: seq<Row>, b: seq<Row>)
    requires Apart(a) && Apart(b) && forall r, t :: r in a && t in b ==> r.session != t.session
    ensures Apart(a + b)
  {
    var rows := a + b;
    forall i, j | 0 <= i < j < |rows| ensures rows[i].session != rows[j].session {
      if i < |a| && j >= |a| { assert rows[i] in a && rows[j] in b; }
    }
  }

  lemma SameHop(hops: seq<Hop>, g: Hop, h: Hop)
    requires DistinctCallees(hops) && g in hops && h in hops && g.callee.Some? && g.callee == h.callee
    ensures g == h
  {
  }

  lemma {:induction false} JoinedApart(w: Row, hops: seq<Hop>)
    requires DistinctCallees(hops)
    ensures Apart(Joined(w, hops))
    decreases |hops|
  {
    if hops != [] {
      JoinedApart(w, hops[1..]);
      ApartConcat(if Joins(w, hops[0]) then [Along(w, hops[0])] else [], Joined(w, hops[1..]));
    }
  }

  lemma {:induction false} NextApart(rows: seq<Row>, hops: seq<Hop>)
    requires Apart(rows) && DistinctCallees(hops)
    ensures Apart(Next(rows, hops))
    decreases |rows|
  {
    hide DistinctCallees;
    if rows != [] {
      JoinedApart(rows[0], hops);
      NextApart(rows[1..], hops);
      forall r, t | r in Joined(rows[0], hops) && t in Next(rows[1..], hops) ensures r.session != t.session {
        var g :| g in hops && Joins(rows[0], g) && r == Along(rows[0], g);
        var w, h :| w in rows[1..] && h in hops && Joins(w, h) && t == Along(w, h);
        if r.session == t.session { SameHop(hops, g, h); }
      }
      ApartConcat(Joined(rows[0], hops), Next(rows[1..], hops));
    }
  }

  lemma {:induction false} OnePath(roots: seq<Root>, hops: seq<Hop>, p: seq<Text>, q: seq<Text>)
    requires IsForest(roots, hops) && IsPath(roots, hops, p) && IsPath(roots, hops, q) && p[|p| - 1] == q[|q| - 1]
    ensures p == q
    decreases |p|
  {
    if |p| == 1 || |q| == 1 {
      assert |p| > 1 ==> Linked(hops, p[|p| - 2], p[|p| - 1]);
      assert |q| > 1 ==> Linked(hops, q[|q| - 2], q[|q| - 1]);
    } else {
      var p', q' := p[..|p| - 1], q[..|q| - 1];
      assert Linked(hops, p[|p| - 2], p[|p| - 1]) && Linked(hops, q[|q| - 2], q[|q| - 1]);
      var g :| g in hops && g.caller == p[|p| - 2] && g.callee == Some(p[|p| - 1]);
      var h :| h in hops && h.caller == q[|q| - 2] && h.callee == Some(q[|q| - 1]);
      SameHop(hops, g, h);
      PrefixPath(roots, hops, p);
      PrefixPath(roots, hops, q);
      OnePath(roots, hops, p', q');
      assert p == p' + [p[|p| - 1]] && q == q' + [q[|q| - 1]];
    }
  }

  lemma PrefixPath(roots: seq<Root>, hops: seq<Hop>, p: seq<Text>)
    requires IsPath(roots, hops, p) && |p| > 1
    ensures IsPath(roots, hops, p[..|p| - 1])
  {
    var q := p[..|p| - 1];
    forall i | 0 <= i < |q| - 1 ensures Linked(hops, q[i], q[i + 1]) { assert Linked(hops, p[i], p[i + 1]); }
  }

  lemma DeeperApart(roots: seq<Root>, hops: seq<Hop>, r: Row, t: Row)
    requires IsForest(roots, hops) && RowOk(roots, hops, r) && RowOk(roots, hops, t) && r.depth < t.depth
    ensures r.session != t.session
  {
    hide IsForest, IsSimple;
    if r.session == t.session { OnePath(roots, hops, r.seen, t.seen); }
  }

  lemma {:induction false} RoundsApart(roots: seq<Root>, hops: seq<Hop>, rows: seq<Row>, depth: nat)
    requires RoundOk(roots, hops, rows, depth) && IsForest(roots, hops) && Apart(rows)
    ensures Apart(Rounds(roots, hops, rows, depth))
    decreases |Names(roots, hops)| - depth
  {
    hide RowOk, Names, DistinctCallees, Next;
    if rows != [] {
      NextOk(roots, hops, rows, depth);
      RoundShallow(roots, hops, rows, depth);
      var next := Next(rows, hops);
      NextApart(rows, hops);
      RoundsApart(roots, hops, next, depth + 1);
      RoundsOk(roots, hops, next, depth + 1);
      forall r, t | r in rows && t in Rounds(roots, hops, next, depth + 1) ensures r.session != t.session {
        DeeperApart(roots, hops, r, t);
      }
      ApartConcat(rows, Rounds(roots, hops, next, depth + 1));
    }
  }

  /** On a forest every session reached is in exactly one row. */
  lemma ForestOnce(roots: seq<Root>, hops: seq<Hop>, session: Text)
    requires IsForest(roots, hops) && Reachable(roots, hops, session)
    ensures var rows := Walk(roots, hops);
            exists i :: 0 <= i < |rows| && rows[i].session == session
              && forall j :: 0 <= j < |rows| && rows[j].session == session ==> j == i
  {
    hide Rounds, Names, IsPath;
    BeginOk(roots, hops);
    RoundsApart(roots, hops, Begin(roots), 0);
    WalkReaches(roots, hops, session);
    var rows := Walk(roots, hops);
    var r :| r in rows && r.session == session;
    var i :| 0 <= i < |rows| && rows[i] == r;
    assert rows[i].session == session;
  }
}
