/** The logic of the two `ProjectList` views (src/index.ts:178-234): the
    status filter each view's listener applies to a snapshot, and the status
    a drop on the view asks the store to move a project to. */
module ProjectList {

  import opened ProjectState

  /** The constructor argument `type: "active" | "finished"`. */
  datatype ListType = ActiveList | FinishedList

  /** The listener's filter callback: the active list keeps Active
      projects, any other list keeps Finished ones. */
  predicate Belongs(t: ListType, p: Project): (b: bool)
    ensures t == ActiveList ==> (b <==> p.status == Active)
    ensures t == FinishedList ==> (b <==> p.status == Finished)
  {
    if t == ActiveList then p.status == Active else p.status == Finished
  }

  /** The status a drop on list `t` moves a project to. */
  function DropStatus(t: ListType): (st: Status)
    ensures forall p: Project :: Belongs(t, p) <==> p.status == st
  {
    if t == ActiveList then Active else Finished
  }

  /** Every project belongs to exactly one of the two lists. */
  lemma BelongsToExactlyOne(p: Project)
    ensures Belongs(ActiveList, p) != Belongs(FinishedList, p)
  {
  }

  /** `projects.filter(...)`: the projects of `ps` that belong to list `t`,
      in the order they have in `ps`. */
  function Filter(ps: seq<Project>, t: ListType): (r: seq<Project>)
    ensures |r| <= |ps|
    ensures forall k :: 0 <= k < |r| ==> Belongs(t, r[k])
  {
    if ps == [] then []
    else
      var front := Filter(ps[..|ps| - 1], t);
      var last := ps[|ps| - 1];
      if Belongs(t, last) then front + [last] else front
  }

  /** The positions in `ps` of the projects that belong to list `t`, in
      increasing order. */
  function FilterIndices(ps: seq<Project>, t: ListType): (idx: seq<nat>)
    ensures forall k :: 0 <= k < |idx| ==> idx[k] < |ps| && Belongs(t, ps[idx[k]])
    ensures forall k, m :: 0 <= k < m < |idx| ==> idx[k] < idx[m]
    ensures forall j :: 0 <= j < |ps| && Belongs(t, ps[j]) ==> j in idx
  {
    if ps == [] then []
    else
      var front := FilterIndices(ps[..|ps| - 1], t);
      if Belongs(t, ps[|ps| - 1]) then front + [|ps| - 1] else front
  }

  /** `r` is `ps` read at the positions `idx`. */
  predicate ReadAt(r: seq<Project>, ps: seq<Project>, idx: seq<nat>) {
    |r| == |idx| && forall k :: 0 <= k < |idx| ==> idx[k] < |ps| && r[k] == ps[idx[k]]
  }

  /** The filtered list is the subsequence of `ps` at the positions of the
      matching projects: it keeps store order and drops nothing that
      matches. */
  lemma {:induction false} FilterKeepsStoreOrder(ps: seq<Project>, t: ListType)
    ensures ReadAt(Filter(ps, t), ps, FilterIndices(ps, t))
  {
    if ps != [] {
      FilterKeepsStoreOrder(ps[..|ps| - 1], t);
      FilterStep(ps, t);
    }
  }

  /** One step of the induction: reading the shorter snapshot at its
      positions carries over to the whole snapshot. */
  lemma FilterStep(ps: seq<Project>, t: ListType)
    requires ps != []
    requires ReadAt(Filter(ps[..|ps| - 1], t), ps[..|ps| - 1], FilterIndices(ps[..|ps| - 1], t))
    ensures ReadAt(Filter(ps, t), ps, FilterIndices(ps, t))
  {
    var front := ps[..|ps| - 1];
    if Belongs(t, ps[|ps| - 1]) {
      ReadAtSnoc(Filter(front, t), ps, FilterIndices(front, t));
    } else {
      ReadAtExtend(Filter(front, t), ps, FilterIndices(front, t));
    }
  }

  /** Taking the last element of the source, at its position, onto the list
      read keeps the reading. */
  lemma ReadAtSnoc(r: seq<Project>, ps: seq<Project>, idx: seq<nat>)
    requires ps != [] && ReadAt(r, ps[..|ps| - 1], idx)
    ensures ReadAt(r + [ps[|ps| - 1]], ps, idx + [|ps| - 1])
  {
    var r', idx' := r + [ps[|ps| - 1]], idx + [|ps| - 1];
    forall k | 0 <= k < |idx'|
      ensures idx'[k] < |ps| && r'[k] == ps[idx'[k]]
    {
      if k < |idx| {
        assert r'[k] == r[k] && idx'[k] == idx[k] && ps[..|ps| - 1][idx[k]] == ps[idx[k]];
      }
    }
  }

  /** Reading a prefix of the source is reading the source itself. */
  lemma ReadAtExtend(r: seq<Project>, ps: seq<Project>, idx: seq<nat>)
    requires ps != [] && ReadAt(r, ps[..|ps| - 1], idx)
    ensures ReadAt(r, ps, idx)
  {
    forall k | 0 <= k < |idx|
      ensures idx[k] < |ps| && r[k] == ps[idx[k]]
    {
      assert ps[..|ps| - 1][idx[k]] == ps[idx[k]];
    }
  }

  /** A project is in the filtered list exactly when it is in the snapshot
      and belongs to the list. */
  lemma FilterMembership(ps: seq<Project>, t: ListType, p: Project)
    ensures p in Filter(ps, t) <==> p in ps && Belongs(t, p)
  {
    FilterKeepsStoreOrder(ps, t);
    var idx := FilterIndices(ps, t);
    if p in ps && Belongs(t, p) {
      var j :| 0 <= j < |ps| && ps[j] == p;
      var k :| 0 <= k < |idx| && idx[k] == j;
      assert Filter(ps, t)[k] == p;
    }
    if p in Filter(ps, t) {
      var k :| 0 <= k < |Filter(ps, t)| && Filter(ps, t)[k] == p;
      assert ps[idx[k]] == p;
    }
  }

  /** The two lists partition every snapshot: their sizes add up to the
      size of the snapshot and together they hold each project exactly as
      often as the snapshot does. */
  lemma {:induction false} FilterPartitions(ps: seq<Project>)
    ensures |Filter(ps, ActiveList)| + |Filter(ps, FinishedList)| == |ps|
    ensures multiset(Filter(ps, ActiveList)) + multiset(Filter(ps, FinishedList)) == multiset(ps)
  {
    if ps != [] {
      var front := ps[..|ps| - 1];
      var last := ps[|ps| - 1];
      FilterPartitions(front);
      assert ps == front + [last];
      assert multiset(ps) == multiset(front) + multiset{last};
      var a, f := Filter(front, ActiveList), Filter(front, FinishedList);
      if last.status == Active {
        assert Filter(ps, ActiveList) == a + [last];
        assert Filter(ps, FinishedList) == f;
      } else {
        assert Filter(ps, ActiveList) == a;
        assert Filter(ps, FinishedList) == f + [last];
      }
    }
  }

  /** No project is shown in both lists. */
  lemma FilterNoOverlap(ps: seq<Project>, p: Project)
    ensures !(p in Filter(ps, ActiveList) && p in Filter(ps, FinishedList))
  {
    if p in Filter(ps, ActiveList) {
      var k :| 0 <= k < |Filter(ps, ActiveList)| && Filter(ps, ActiveList)[k] == p;
      assert p.status == Active;
    }
  }

  /** `dragDrop` (src/index.ts:209-212): the id read from the drag payload
      is moved to the status of the list it was dropped on. Afterwards the
      first project with that id, if any, belongs to that list. A drop on
      the list the project is already in changes nothing and notifies no
      one; otherwise only that project's status changes and every listener
      receives the new list once. */
  function DragDrop(s: State, t: ListType, id: string): (r: State)
    ensures WellFormed(s) ==> WellFormed(r)
    ensures r.listenerCount == s.listenerCount
    ensures (forall j :: 0 <= j < |s.projects| ==> s.projects[j].id != id) ==> r == s
    ensures forall i :: FirstWithId(s.projects, id, i) ==>
      |r.projects| == |s.projects| && Belongs(t, r.projects[i]) && r.projects[i] in Filter(r.projects, t)
    ensures forall i :: FirstWithId(s.projects, id, i) && Belongs(t, s.projects[i]) ==> r == s
    ensures forall i :: FirstWithId(s.projects, id, i) && !Belongs(t, s.projects[i]) ==>
      && r.projects == s.projects[i := s.projects[i].(status := DropStatus(t))]
      && |r.log| == |s.log| + s.listenerCount
      && r.log == s.log + Round(s.listenerCount, r.projects)
      && forall l: ListenerId ::
           Received(r.log, l) == Received(s.log, l) + (if Registered(s, l) then [r.projects] else [])
  {
    var r := MoveItem(s, id, DropStatus(t));
    assert forall i :: FirstWithId(s.projects, id, i) ==> r.projects[i] in Filter(r.projects, t) by {
      forall i | FirstWithId(s.projects, id, i)
        ensures r.projects[i] in Filter(r.projects, t)
      {
        FilterMembership(r.projects, t, r.projects[i]);
      }
    }
    r
  }
}
