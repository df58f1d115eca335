/** The project store `ProjectState` and its listener base `State`
    (src/index.ts:19-73).

    Listeners are opaque callbacks in the source; here each registration
    gets a slot number, in registration order, and every call of a listener
    is recorded in the store's notification log together with the snapshot
    it was given. A function registered twice is called twice per round, so
    one slot per registration is exact. */
module ProjectState {

  import opened Options

  datatype Status = Active | Finished

  /** Every field of the source's `Project` class. `people` is an integer
      (the source stores a JavaScript number). */
  datatype Project = Project(id: string, title: string, description: string, people: int, status: Status)

  /** A listener is known by its registration slot. */
  type ListenerId = nat

  /** One call `listenerFn(snapshot)`. */
  datatype Notification = Notification(listener: ListenerId, snapshot: seq<Project>)

  /** The store: the project list, how many listeners are registered, and
      every listener call made so far, oldest first. */
  datatype State = State(projects: seq<Project>, listenerCount: nat, log: seq<Notification>)

  /** A listener's slot is in use. */
  predicate Registered(s: State, l: ListenerId) {
    l < s.listenerCount
  }

  /** Only registered listeners have ever been called. */
  predicate WellFormed(s: State) {
    forall k :: 0 <= k < |s.log| ==> Registered(s, s.log[k].listener)
  }

  /** The store as first created: no projects, no listeners, no calls. */
  function Init(): (s: State)
    ensures s.projects == [] && s.listenerCount == 0 && s.log == []
    ensures WellFormed(s)
  {
    State([], 0, [])
  }

  /** The snapshots listener `l` has received, oldest first. */
  function Received(log: seq<Notification>, l: ListenerId): seq<seq<Project>> {
    if log == [] then []
    else
      var last := log[|log| - 1];
      Received(log[..|log| - 1], l) + (if last.listener == l then [last.snapshot] else [])
  }

  lemma ReceivedSnoc(log: seq<Notification>, n: Notification, l: ListenerId)
    ensures Received(log + [n], l) == Received(log, l) + (if n.listener == l then [n.snapshot] else [])
  {
    assert (log + [n])[..|log|] == log;
  }

  lemma {:induction false} ReceivedAppend(a: seq<Notification>, b: seq<Notification>, l: ListenerId)
    ensures Received(a + b, l) == Received(a, l) + Received(b, l)
    decreases |b|
  {
    if b == [] {
      assert a + b == a;
    } else {
      var b' := b[..|b| - 1];
      var last := b[|b| - 1];
      var tail := if last.listener == l then [last.snapshot] else [];
      assert (a + b)[..|a + b| - 1] == a + b';
      assert (a + b)[|a + b| - 1] == last;
      ReceivedAppend(a, b', l);
      calc {
        Received(a + b, l);
        Received(a + b', l) + tail;
        (Received(a, l) + Received(b', l)) + tail;
        Received(a, l) + (Received(b', l) + tail);
        Received(a, l) + Received(b, l);
      }
    }
  }

  /** A listener that was never called has received nothing. */
  lemma {:induction false} ReceivedNothingWhenNeverCalled(log: seq<Notification>, l: ListenerId)
    requires forall k :: 0 <= k < |log| ==> log[k].listener != l
    ensures Received(log, l) == []
    decreases |log|
  {
    if log != [] {
      ReceivedNothingWhenNeverCalled(log[..|log| - 1], l);
    }
  }

  /** `addListener` (src/index.ts:33-35): the new listener takes the next
      slot; nothing is called and the projects are untouched. A listener
      registered now has received no earlier snapshot. */
  function AddListener(s: State): (r: State)
    ensures WellFormed(s) ==> WellFormed(r) && Received(r.log, s.listenerCount) == []
    ensures r.listenerCount == s.listenerCount + 1 && r.projects == s.projects && r.log == s.log
  {
    NewSlotReceivedNothing(s);
    s.(listenerCount := s.listenerCount + 1)
  }

  lemma NewSlotReceivedNothing(s: State)
    ensures WellFormed(s) ==> Received(s.log, s.listenerCount) == []
  {
    if WellFormed(s) {
      ReceivedNothingWhenNeverCalled(s.log, s.listenerCount);
    }
  }

  /** One pass of `updateListeners`' loop over the first `count` listeners:
      listener `i` is the `i`-th called, each with the same snapshot. */
  function Round(count: nat, snapshot: seq<Project>): (r: seq<Notification>)
    ensures |r| == count
    ensures forall i :: 0 <= i < count ==> r[i] == Notification(i, snapshot)
  {
    if count == 0 then [] else Round(count - 1, snapshot) + [Notification(count - 1, snapshot)]
  }

  lemma {:induction false} ReceivedRound(count: nat, snapshot: seq<Project>, l: ListenerId)
    ensures Received(Round(count, snapshot), l) == if l < count then [snapshot] else []
  {
    if count > 0 {
      var front := Round(count - 1, snapshot);
      var last := Notification(count - 1, snapshot);
      assert Round(count, snapshot) == front + [last];
      ReceivedSnoc(front, last, l);
      ReceivedRound(count - 1, snapshot, l);
    }
  }

  /** `updateListeners` (src/index.ts:68-72): every registered listener is
      called exactly once, in registration order, with a copy of the whole
      current list; no other listener is called and the store's data is
      untouched. */
  function UpdateListeners(s: State): (r: State)
    ensures WellFormed(s) ==> WellFormed(r)
    ensures r.projects == s.projects && r.listenerCount == s.listenerCount
    ensures |r.log| == |s.log| + s.listenerCount
    ensures r.log == s.log + Round(s.listenerCount, s.projects)
    ensures forall i :: 0 <= i < s.listenerCount ==> r.log[|s.log| + i] == Notification(i, s.projects)
    ensures forall l: ListenerId ::
      Received(r.log, l) == Received(s.log, l) + (if Registered(s, l) then [s.projects] else [])
  {
    var round := Round(s.listenerCount, s.projects);
    var r := s.(log := s.log + round);
    assert forall l: ListenerId ::
      Received(r.log, l) == Received(s.log, l) + (if Registered(s, l) then [s.projects] else []) by {
      forall l: ListenerId
        ensures Received(r.log, l) == Received(s.log, l) + (if Registered(s, l) then [s.projects] else [])
      {
        ReceivedAppend(s.log, round, l);
        ReceivedRound(s.listenerCount, s.projects, l);
      }
    }
    r
  }

  /** `addProject` (src/index.ts:54-58): the new project, with status
      Active, is appended after all earlier ones, which are left as they
      were, and one round of notification follows. The id is a parameter:
      the source draws it at random and never checks that it is fresh. */
  function AddProject(s: State, id: string, title: string, description: string, people: int): (r: State)
    ensures WellFormed(s) ==> WellFormed(r)
    ensures |r.projects| == |s.projects| + 1
    ensures r.projects[..|s.projects|] == s.projects
    ensures r.projects[|s.projects|] == Project(id, title, description, people, Active)
    ensures r.listenerCount == s.listenerCount
    ensures |r.log| == |s.log| + s.listenerCount
    ensures r.log == s.log + Round(s.listenerCount, r.projects)
    ensures forall l: ListenerId ::
      Received(r.log, l) == Received(s.log, l) + (if Registered(s, l) then [r.projects] else [])
  {
    var p := Project(id, title, description, people, Active);
    var s' := s.(projects := s.projects + [p]);
    assert s'.projects[..|s.projects|] == s.projects;
    UpdateListeners(s')
  }

  /** `i` is the position `projects.find` returns for `id`: the first
      project with that id. */
  predicate FirstWithId(ps: seq<Project>, id: string, i: int) {
    0 <= i < |ps| && ps[i].id == id && forall j :: 0 <= j < i ==> ps[j].id != id
  }

  /** `this.projects.find((prj) => prj.id === id)`, as a position. */
  function FindProject(ps: seq<Project>, id: string): (r: Option<nat>)
    ensures r.Some? ==> FirstWithId(ps, id, r.value)
    ensures r.None? ==> forall j :: 0 <= j < |ps| ==> ps[j].id != id
  {
    if ps == [] then None
    else if ps[0].id == id then Some(0)
    else match FindProject(ps[1..], id)
      case None => None
      case Some(k) => Some(k + 1)
  }

  /** `moveItem` (src/index.ts:60-66). With an unknown id, or when the first
      project with the id already has `newStatus`, nothing changes and no
      listener is called. Otherwise that project, and only that one, gets
      `newStatus`, and one round of notification follows. */
  function MoveItem(s: State, id: string, newStatus: Status): (r: State)
    ensures WellFormed(s) ==> WellFormed(r)
    ensures r.listenerCount == s.listenerCount
    ensures (forall j :: 0 <= j < |s.projects| ==> s.projects[j].id != id) ==> r == s
    ensures forall i :: FirstWithId(s.projects, id, i) && s.projects[i].status == newStatus ==> r == s
    ensures forall i :: FirstWithId(s.projects, id, i) && s.projects[i].status != newStatus ==>
      && r.projects == s.projects[i := s.projects[i].(status := newStatus)]
      && |r.log| == |s.log| + s.listenerCount
      && r.log == s.log + Round(s.listenerCount, r.projects)
      && forall l: ListenerId ::
           Received(r.log, l) == Received(s.log, l) + (if Registered(s, l) then [r.projects] else [])
  {
    match FindProject(s.projects, id)
    case None => s
    case Some(i) =>
      var project := s.projects[i];
      if project.status == newStatus then s
      else UpdateListeners(s.(projects := s.projects[i := project.(status := newStatus)]))
  }

  /** A successful move keeps the length and order of the list, leaves every
      other project alone, and changes only the `status` field of the moved
      one. */
  lemma MoveItemChangesOnlyStatus(s: State, id: string, newStatus: Status, i: int)
    requires FirstWithId(s.projects, id, i) && s.projects[i].status != newStatus
    ensures var r := MoveItem(s, id, newStatus);
      && |r.projects| == |s.projects|
      && (forall j :: 0 <= j < |s.projects| && j != i ==> r.projects[j] == s.projects[j])
      && r.projects[i].id == s.projects[i].id
      && r.projects[i].title == s.projects[i].title
      && r.projects[i].description == s.projects[i].description
      && r.projects[i].people == s.projects[i].people
      && r.projects[i].status == newStatus
  {
  }

  /** Moving a project twice to the same status notifies once: the second
      move is a no-op. */
  lemma MoveItemIdempotent(s: State, id: string, newStatus: Status)
    ensures MoveItem(MoveItem(s, id, newStatus), id, newStatus) == MoveItem(s, id, newStatus)
  {
    var r := MoveItem(s, id, newStatus);
    match FindProject(s.projects, id)
    case None =>
    case Some(i) =>
      if s.projects[i].status != newStatus {
        assert FirstWithId(r.projects, id, i);
      }
  }
}
