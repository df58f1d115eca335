/** The page as a whole (src/index.ts:75, 304-306): one store, the input
    form, and the two lists, the active one registered first. Each user
    action is an event; the lemmas show that after any sequence of events
    each list shows exactly the store's projects of its own status. */
module Board {

  import opened Options
  import Text
  import opened ProjectState
  import opened ProjectList
  import opened ProjectInput
  import opened Validation

  /** The listener slot of each list: the active list is constructed, and
      so registers its listener, before the finished one. */
  function ListenerOf(t: ListType): ListenerId {
    if t == ActiveList then 0 else 1
  }

  /** The store right after the page has set itself up: empty, with the
      active list's listener in slot 0 and the finished list's in slot 1. */
  function Startup(): (s: State)
    ensures WellFormed(s)
    ensures s.projects == [] && s.listenerCount == 2
    ensures forall t :: Received(s.log, ListenerOf(t)) == []
  {
    AddListener(AddListener(Init()))
  }

  /** The last snapshot a listener received, or the empty list when it has
      received none (`assignedProjects` starts out empty). */
  function LastSnapshot(received: seq<seq<Project>>): seq<Project> {
    if received == [] then [] else received[|received| - 1]
  }

  /** `assignedProjects` of list `t`: its filter applied to the last
      snapshot its listener was given. */
  function AssignedProjects(s: State, t: ListType): (r: seq<Project>)
    ensures forall k :: 0 <= k < |r| ==> Belongs(t, r[k])
    ensures forall p :: p in r <==> p in LastSnapshot(Received(s.log, ListenerOf(t))) && Belongs(t, p)
  {
    var last := LastSnapshot(Received(s.log, ListenerOf(t)));
    assert forall p :: p in Filter(last, t) <==> p in last && Belongs(t, p) by {
      forall p
        ensures p in Filter(last, t) <==> p in last && Belongs(t, p)
      {
        FilterMembership(last, t, p);
      }
    }
    Filter(last, t)
  }

  /** The user actions that reach the store: submitting the form (with the
      id the store will draw) and dropping a card carrying `id` on a list. */
  datatype Event =
    | Submit(id: string, title: string, description: string, people: int)
    | Drop(target: ListType, id: string)

  function Step(s: State, e: Event): (r: State)
    ensures WellFormed(s) ==> WellFormed(r)
    ensures r.listenerCount == s.listenerCount
  {
    match e
    case Submit(id, title, description, people) => SubmitHandler(s, id, title, description, people)
    case Drop(target, id) => DragDrop(s, target, id)
  }

  function Run(s: State, events: seq<Event>): (r: State)
    ensures WellFormed(s) ==> WellFormed(r)
    ensures r.listenerCount == s.listenerCount
    decreases |events|
  {
    if events == [] then s else Run(Step(s, events[0]), events[1..])
  }

  /** Every registered listener's last snapshot is the current list. */
  predicate Synced(s: State) {
    forall l: ListenerId :: l < s.listenerCount ==> LastSnapshot(Received(s.log, l)) == s.projects
  }

  /** Each event either leaves the store as it was or notifies every
      listener with the new list, so no listener is left with a stale
      snapshot. */
  lemma StepKeepsSynced(s: State, e: Event)
    requires WellFormed(s) && Synced(s)
    ensures Synced(Step(s, e))
  {
    var r := Step(s, e);
    match e
    case Submit(id, title, description, people) =>
      if AcceptableInput(title, description, people) {
        SyncedAfterRound(s, r);
      }
    case Drop(target, id) =>
      match FindProject(s.projects, id)
      case None =>
      case Some(i) =>
        if s.projects[i].status != DropStatus(target) {
          SyncedAfterRound(s, r);
        }
  }

  /** A round of notification with the new list brings every listener up to
      date. */
  lemma SyncedAfterRound(s: State, r: State)
    requires r.listenerCount == s.listenerCount
    requires forall l: ListenerId ::
      Received(r.log, l) == Received(s.log, l) + (if Registered(s, l) then [r.projects] else [])
    ensures Synced(r)
  {
    forall l: ListenerId | l < r.listenerCount
      ensures LastSnapshot(Received(r.log, l)) == r.projects
    {
      assert Received(r.log, l) == Received(s.log, l) + [r.projects];
    }
  }

  lemma {:induction false} RunKeepsSynced(s: State, events: seq<Event>)
    requires WellFormed(s) && Synced(s)
    ensures Synced(Run(s, events))
    decreases |events|
  {
    if events != [] {
      StepKeepsSynced(s, events[0]);
      RunKeepsSynced(Step(s, events[0]), events[1..]);
    }
  }

  /** After any sequence of submits and drops, each list shows exactly the
      store's projects of its own status, in store order; together the two
      lists show every project once. */
  lemma ListsFollowStore(events: seq<Event>)
    ensures var s := Run(Startup(), events);
      && AssignedProjects(s, ActiveList) == Filter(s.projects, ActiveList)
      && AssignedProjects(s, FinishedList) == Filter(s.projects, FinishedList)
      && |AssignedProjects(s, ActiveList)| + |AssignedProjects(s, FinishedList)| == |s.projects|
  {
    var s0 := Startup();
    RunKeepsSynced(s0, events);
    var s := Run(s0, events);
    assert Registered(s, ListenerOf(ActiveList)) && Registered(s, ListenerOf(FinishedList));
    FilterPartitions(s.projects);
  }

  const BridgeTitle := "Build bridge"
  const BridgeDescription := "Large civil project"

  lemma BridgeTitleValid()
    ensures Validate(Str(BridgeTitle), TitleRules)
  {
    var title := BridgeTitle;
    assert !Text.IsWhitespace('B') && title[0] == 'B';
    TitleCheck(title);
  }

  lemma BridgeDescriptionValid()
    ensures Validate(Str(BridgeDescription), DescriptionRules)
  {
    var description := BridgeDescription;
    assert !Text.IsWhitespace('L') && !Text.IsWhitespace('t');
    assert description[0] == 'L' && description[|description| - 1] == 't';
    Text.TrimKeepsInnerString(description);
    DescriptionCheck(description);
  }

  lemma BridgeInputAccepted()
    ensures GatherUserInput(BridgeTitle, BridgeDescription, 3) == Some(UserInput(BridgeTitle, BridgeDescription, 3))
  {
    BridgeTitleValid();
    BridgeDescriptionValid();
    PeopleCheck(3);
  }

  const BridgeSubmit := Submit("p1", BridgeTitle, BridgeDescription, 3)
  const BridgeDrop := Drop(FinishedList, "p1")

  lemma BridgeAdded()
    ensures Step(Startup(), BridgeSubmit).projects == [Project("p1", BridgeTitle, BridgeDescription, 3, Active)]
  {
    BridgeInputAccepted();
  }

  lemma BridgeFinished(s1: State)
    requires s1.projects == [Project("p1", BridgeTitle, BridgeDescription, 3, Active)]
    ensures Step(s1, BridgeDrop).projects == [Project("p1", BridgeTitle, BridgeDescription, 3, Finished)]
  {
    assert FirstWithId(s1.projects, "p1", 0);
  }

  lemma RunOne(s: State, a: Event)
    ensures Run(s, [a]) == Step(s, a)
  {
    assert [a][1..] == [];
  }

  lemma RunTwo(s: State, a: Event, b: Event)
    ensures Run(s, [a, b]) == Step(Step(s, a), b)
  {
    assert [a, b][1..] == [b];
    RunOne(Step(s, a), b);
  }

  /** A project is added through the form and then dragged to the finished
      list: it keeps its data, changes status, and moves from one list to
      the other. */
  lemma BuildBridgeScenario()
    ensures var s1 := Run(Startup(), [BridgeSubmit]);
      && s1.projects == [Project("p1", BridgeTitle, BridgeDescription, 3, Active)]
      && |AssignedProjects(s1, ActiveList)| == 1 && AssignedProjects(s1, FinishedList) == []
    ensures var s2 := Run(Startup(), [BridgeSubmit, BridgeDrop]);
      && s2.projects == [Project("p1", BridgeTitle, BridgeDescription, 3, Finished)]
      && AssignedProjects(s2, ActiveList) == [] && |AssignedProjects(s2, FinishedList)| == 1
  {
    var s0 := Startup();
    RunOne(s0, BridgeSubmit);
    RunTwo(s0, BridgeSubmit, BridgeDrop);
    var s1 := Step(s0, BridgeSubmit);
    BridgeAdded();
    ListsFollowStore([BridgeSubmit]);
    BridgeFinished(s1);
    ListsFollowStore([BridgeSubmit, BridgeDrop]);
  }
}
