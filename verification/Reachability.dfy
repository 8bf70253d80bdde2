// What being reachable means to the mutator, over one collection and over runs.
module Reachability {
  import opened Space
  import opened Sweeping
  import opened Runs
  import opened Chunks
  import opened Stacks
  import opened Tracing
  import opened Collectors

  // Only objects are reachable.
  lemma ReachableRefs(w: World, roots: seq<Range>, m: set<Ref>)
    requires Clean(w) && Reachable(w, roots, m)
    ensures forall r | r in m :: IsRef(w, r)
  {
    var t := set r | r in m && IsRef(w, r);
    hide Clean, IsRef, ResolvesTo;
    forall a: nat, r | Source(w, roots, t, a) && a < |w.space.words| && ResolvesTo(w, w.space.words[a], r)
      ensures r in t
    {
      ResolvesToRef(w, w.space.words[a], r);
      SourceGrows(w, roots, t, m, a);
    }
    assert Closed(w, roots, t);
  }

  // A word of the roots or of a marked object that points into a live object,
  // anywhere in its payload, keeps it.
  lemma PointedSurvives(st: Safe, w: World, roots: seq<Range>, m: set<Ref>, a: nat, o: nat)
    requires IsUnmarked(st.space, w.space) && Clean(w) && Reachable(w, roots, m) && o in st.live
    requires Source(w, roots, m, a) && a < |w.space.words|
    requires o + HEADER <= w.space.words[a] / 8 < o + Size(st.space, o)
    ensures o in Smalls(m)
  {
    LiveSolid(st, o);
    UnmarkedSame(st.space, w.space);
    SameObjectsSolid(st.space, w.space, o);
    hide IsUnmarked, Source, SameObjects;
    HeaderInside(w.space, o);
    InWords(w.space, o, w.space.words[a] / 8);
    LiveTarget(w.space, o, w.space.words[a] / 8, o);
    assert ResolvesTo(w, w.space.words[a], Small(o)) by {
      VisibleInHeap(w.space, o, w.space.words[a] / 8);
    }
    SmallsHas(m, o);
  }

  // The same for a pointer to any byte of the payload of a chunk in use, the first
  // one included, which is the pointer that malloc returns.
  lemma LargePointedSurvives(w: World, roots: seq<Range>, m: set<Ref>, a: nat, i: nat)
    requires Clean(w) && Reachable(w, roots, m) && i < |w.chunks| && w.chunks[i].used
    requires Stop(w.space) <= w.start || w.stop <= Start(w.space)
    requires Source(w, roots, m, a) && a < |w.space.words|
    requires var c := w.chunks[i];
             8 * (c.address + CHUNK_WORDS) <= w.space.words[a] < 8 * (c.address + CHUNK_HEADER + c.size)
    ensures Large(i) in m
  {
    TilesAt(w.chunks, w.start, w.stop, i);
    LargeTarget(w, w.space.words[a], i);
    hide ResolvesTo, Source;
    assert ResolvesTo(w, w.space.words[a], Large(i));
  }

  lemma VisibleInHeap(s: Space, o: nat, a: nat)
    requires WF(s) && Visible(s, o) && o <= a < o + s.words[o]
    ensures InSmallHeap(s, a)
  {
  }

  // ---------------------------------------------------------------------- paths

  // A word of the roots resolves to r.
  ghost predicate Rooted(w: World, roots: seq<Range>, r: Ref)
    requires Shape(w.space)
  {
    exists range, a: nat ::
      range in roots && Within(range, a) && a < |w.space.words| && ResolvesTo(w, w.space.words[a], r)
  }

  // A payload word of the non-atomic object q resolves to r.
  ghost predicate PointsTo(w: World, q: Ref, r: Ref)
    requires Shape(w.space)
  {
    && IsRef(w, q) && !IsAtomic(w, q)
    && exists a: nat :: Within(Payload(w, q), a) && a < |w.space.words| && ResolvesTo(w, w.space.words[a], r)
  }

  ghost predicate Path(w: World, roots: seq<Range>, path: seq<Ref>)
    requires Shape(w.space)
  {
    && path != [] && Rooted(w, roots, path[0])
    && forall i | 0 < i < |path| :: PointsTo(w, path[i - 1], path[i])
  }

  // Some chain of pointers leads from the roots to r.
  ghost predicate HasPath(w: World, roots: seq<Range>, r: Ref)
    requires Shape(w.space)
  {
    exists path :: Path(w, roots, path) && path[|path| - 1] == r
  }

  lemma {:induction false} PathInClosed(w: World, roots: seq<Range>, t: set<Ref>, path: seq<Ref>)
    requires Shape(w.space) && Closed(w, roots, t) && Path(w, roots, path)
    ensures path[|path| - 1] in t
    decreases |path|
  {
    var n := |path| - 1;
    hide ResolvesTo, IsRef, IsAtomic;
    if n > 0 {
      assert PointsTo(w, path[n - 1], path[n]);
      PathInClosed(w, roots, t, path[..n]);
    }
  }

  lemma PathGrows(w: World, roots: seq<Range>, q: Ref, r: Ref)
    requires Shape(w.space) && HasPath(w, roots, q) && PointsTo(w, q, r)
    ensures HasPath(w, roots, r)
  {
    hide PointsTo, Rooted;
    var path :| Path(w, roots, path) && path[|path| - 1] == q;
    var longer := path + [r];
    forall i | 0 < i < |longer|
      ensures PointsTo(w, longer[i - 1], longer[i])
    {
    }
    assert Path(w, roots, longer) && longer[|longer| - 1] == r;
  }

  // The least closed set is the set of the objects that have a path from the roots.
  lemma ReachablePaths(w: World, roots: seq<Range>, m: set<Ref>, r: Ref)
    requires Clean(w) && Reachable(w, roots, m)
    ensures r in m <==> HasPath(w, roots, r)
  {
    if HasPath(w, roots, r) {
      var path :| Path(w, roots, path) && path[|path| - 1] == r;
      PathInClosed(w, roots, m, path);
    }
    var t := set q | q in m && HasPath(w, roots, q);
    hide Clean, HasPath, ResolvesTo, IsRef, IsAtomic, Within;
    forall a: nat, q | Source(w, roots, t, a) && a < |w.space.words| && ResolvesTo(w, w.space.words[a], q)
      ensures q in t
    {
      SourceGrows(w, roots, t, m, a);
      SourcePath(w, roots, t, a, q);
    }
    assert Closed(w, roots, t);
  }

  lemma SourcePath(w: World, roots: seq<Range>, t: set<Ref>, a: nat, q: Ref)
    requires Shape(w.space) && Source(w, roots, t, a) && a < |w.space.words| && ResolvesTo(w, w.space.words[a], q)
    requires forall r | r in t :: HasPath(w, roots, r)
    ensures HasPath(w, roots, q)
  {
    hide ResolvesTo, IsRef, IsAtomic;
    if range :| range in roots && Within(range, a) {
      assert Path(w, roots, [q]) && [q][|[q]| - 1] == q;
    } else {
      var r :| r in t && IsRef(w, r) && !IsAtomic(w, r) && Within(Payload(w, r), a);
      PathGrows(w, roots, r, q);
    }
  }

  // ------------------------------------------------------------------ empty objects

  // A live object without payload is freed, whatever points to it.
  lemma ZeroByteFreed(w: World, roots: seq<Range>, m: set<Ref>, o: nat)
    requires Clean(w) && Reachable(w, roots, m) && Solid(w.space, o) && w.space.words[o] == HEADER
    ensures Small(o) !in m
  {
    Findable(w.space, o);
    var t := m - {Small(o)};
    hide Clean, IsRef;
    forall a: nat, r | Source(w, roots, t, a) && a < |w.space.words| && ResolvesTo(w, w.space.words[a], r)
      ensures r in t
    {
      SourceGrows(w, roots, t, m, a);
    }
    assert Closed(w, roots, t);
  }

  // ----------------------------------------------------------------------- runs

  // A collection of a run: memory after its unmark phase, its roots, what it marks.
  datatype Collection = Collection(w: World, roots: seq<Range>, m: set<Ref>)

  // The action, if it is a collection, is this one, and o can be reached then.
  ghost predicate CollectsWith(st: State, a: Action, c: Collection, o: nat) {
    a.Collect? ==>
      && IsUnmarked(st.space, c.w.space) && Clean(c.w) && Reachable(c.w, c.roots, c.m)
      && a.marked == Smalls(c.m) && HasPath(c.w, c.roots, Small(o))
  }

  // An object that at every collection of a run can be reached from the roots of
  // that collection is live at the end of the run, and every word of its payload
  // is what the mutator last stored there.
  lemma RunKeepsReachable(states: seq<State>, actions: seq<Action>, collections: seq<Collection>, o: nat, w: nat)
    requires Run(states, actions) && Inv(states[0]) && o in states[0].live && |collections| == |actions|
    requires o + HEADER <= w < o + Size(states[0].space, o) && w < |states[0].space.words|
    requires forall i | 0 <= i < |actions| :: CollectsWith(states[i], actions[i], collections[i], o)
    requires forall i | 0 <= i < |actions| :: actions[i].Store? ==> actions[i].a != w
    ensures o in states[|actions|].live && Kept(states[0].space, states[|actions|].space, o, w)
    ensures var t := states[|actions|].space;
            w < |t.words| && t.words[w] == states[0].space.words[w]
            && o < |t.words| && t.words[o] == states[0].space.words[o]
  {
    forall i | 0 <= i < |actions| && actions[i].Collect?
      ensures o in actions[i].marked
    {
      assert CollectsWith(states[i], actions[i], collections[i], o);
      ReachablePaths(collections[i].w, collections[i].roots, collections[i].m, Small(o));
      SmallsHas(collections[i].m, o);
    }
    RunKeeps(states, actions, o, w);
  }
}
