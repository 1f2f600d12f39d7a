/** What the steps of a reservation leave behind, and when one succeeds if nothing else
    happens: the exact condition on tables and directories.
 */
module ReservationAlone {
  import opened Reservation

  /** A commit that reached the database leaves the route to the directory of the id and an
      active marker with the id as its key, and nothing else; one that did not leaves the
      tables. Only an acknowledged commit is a success. */
  lemma CommitExact(states: seq<State>, events: seq<Event>, m: nat, pid: Pid, result: CommitResult)
    requires Run(states, events) && m < |events| && events[m] == Commit(pid, result)
    ensures pid in states[m].procs && pid in states[m + 1].procs
    ensures var repo, t := states[m].procs[pid].repo, states[m].t;
            && repo !in t.routes && repo !in t.markers
            && states[m + 1].t ==
               (if result == NotPersisted then t
                else Tables(t.routes[repo := "auto-local:" + repo], t.markers[repo := Marker(repo, "active")],
                            t.native, t.virtual, t.dirs))
            && (states[m + 1].procs[pid].phase == Succeeded <==> result == Persisted)
  {
    RunInv(states, events, m);
    assert StepAt(states, events, m);
  }

  /** Retiring marks the id, if it has a marker, and does nothing else. */
  lemma RetireExact(states: seq<State>, events: seq<Event>, m: nat, repo: Repo)
    requires Run(states, events) && m < |events| && events[m] == Retire(repo)
    ensures states[m + 1] == states[m].(t := states[m].t.(markers := states[m + 1].t.markers))
    ensures states[m + 1].t.markers.Keys == states[m].t.markers.Keys
    ensures forall id :: id in states[m].t.markers ==>
              states[m + 1].t.markers[id] ==
              if id == repo then Marker(states[m].t.markers[id].key, "retired") else states[m].t.markers[id]
  {
    assert StepAt(states, events, m);
  }

  /** A reservation that gave up before its commit takes its directory away again, if that
      can be removed, and nobody else's; the tables stay. */
  lemma UndoExact(states: seq<State>, events: seq<Event>, m: nat, pid: Pid, removed: bool)
    requires Run(states, events) && m < |events| && events[m] == RemoveDir(pid, removed)
    ensures pid in states[m].procs && states[m].procs[pid].repo in states[m].t.dirs
    ensures var repo, t := states[m].procs[pid].repo, states[m].t;
            && repo !in states[m].reserved
            && states[m + 1].t ==
               Tables(t.routes, t.markers, t.native, t.virtual, if removed then t.dirs - {repo} else t.dirs)
  {
    RunInv(states, events, m);
    assert StepAt(states, events, m);
    assert OwnerOk(states[m], states[m].procs[pid]);
  }

  // ------------------------------------------------------------------- alone

  /** Nothing of the id exists: no directory, no route, no library and no marker, and no
      marker of another id has it as its key. */
  predicate Unused(t: Tables, repo: Repo)
  {
    repo !in t.dirs && repo !in t.routes && repo !in t.native && repo !in t.markers && !KeyTaken(t, repo)
  }

  predicate ByZero(ev: Event)
  {
    match ev
    case MakeDir(pid) => pid == 0
    case Refuse(pid) => pid == 0
    case Check(pid) => pid == 0
    case Insert(pid) => pid == 0
    case InsertFails(pid) => pid == 0
    case Commit(pid, _) => pid == 0
    case RemoveDir(pid, _) => pid == 0
    case _ => false
  }

  /** Reservation 0 starts, and every other step is its own. */
  ghost predicate Alone(states: seq<State>, events: seq<Event>, t: Tables, repo: Repo)
  {
    && Run(states, events) && states[0].t == t && events != [] && events[0] == Spawn(0, repo)
    && forall i :: 0 < i < |events| ==> ByZero(events[i])
  }

  function Only(t: Tables, repo: Repo, phase: Phase): State
  {
    State(if phase == Begun then t else t.(dirs := t.dirs + {repo}), map[0 := Reserver(repo, phase)], {})
  }

  lemma Steps(states: seq<State>, events: seq<Event>, t: Tables, repo: Repo, ev: Event, next: State)
    returns (states': seq<State>, events': seq<Event>)
    requires Alone(states, events, t, repo) && ByZero(ev)
    requires Enabled(states[|events|], ev) && Apply(states[|events|], ev) == next
    ensures Alone(states', events', t, repo) && states'[|events'|] == next
  {
    Extend(states, events, ev);
    states', events' := states + [next], events + [ev];
  }

  lemma StepsExist(t: Tables, repo: Repo)
    requires Unused(t, repo)
    ensures Enabled(Only(t, repo, Begun), MakeDir(0))
    ensures Apply(Only(t, repo, Begun), MakeDir(0)) == Only(t, repo, DirMade)
    ensures Enabled(Only(t, repo, DirMade), Check(0))
    ensures Apply(Only(t, repo, DirMade), Check(0)) == Only(t, repo, Checked)
    ensures Enabled(Only(t, repo, Checked), Insert(0))
    ensures Apply(Only(t, repo, Checked), Insert(0)) == Only(t, repo, Inserted)
  {
  }

  lemma Starts(t: Tables, repo: Repo) returns (states: seq<State>, events: seq<Event>)
    requires IsUuid(repo)
    ensures Alone(states, events, t, repo) && states[|events|] == Only(t, repo, Begun)
  {
    var s := State(t, map[], {});
    Extend([s], [], Spawn(0, repo));
    states, events := [s, Only(t, repo, Begun)], [Spawn(0, repo)];
    assert states == [s] + [Apply(s, Spawn(0, repo))] && events == [] + [Spawn(0, repo)];
  }

  /** A reservation of an unused id succeeds, if it is left alone and nothing fails. */
  lemma ReservesAlone(t: Tables, repo: Repo) returns (states: seq<State>, events: seq<Event>)
    requires IsUuid(repo) && Unused(t, repo)
    ensures Alone(states, events, t, repo) && ActorIn(states[|events|], 0, Succeeded)
  {
    StepsExist(t, repo);
    states, events := Starts(t, repo);
    states, events := Steps(states, events, t, repo, MakeDir(0), Only(t, repo, DirMade));
    states, events := Steps(states, events, t, repo, Check(0), Only(t, repo, Checked));
    states, events := Steps(states, events, t, repo, Insert(0), Only(t, repo, Inserted));
    var s := Only(t, repo, Inserted);
    states, events := Steps(states, events, t, repo, Commit(0, Persisted), Apply(s, Commit(0, Persisted)));
  }

  /** What the phase of a reservation that is alone says about the tables it started with. */
  ghost predicate Needed(t: Tables, repo: Repo, s: State)
  {
    && s.procs.Keys == {0} && s.procs[0].repo == repo && IsUuid(repo)
    && var phase := s.procs[0].phase;
       && (phase == Begun ==> s.t == t)
       && (phase == DirMade ==> s.t == t.(dirs := t.dirs + {repo}) && repo !in t.dirs)
       && (phase == Checked ==>
             s.t == t.(dirs := t.dirs + {repo}) && repo !in t.dirs && repo !in t.routes && repo !in t.native)
       && (phase == Inserted || phase == Succeeded ==> Unused(t, repo))
  }

  lemma NeededStep(t: Tables, repo: Repo, s: State, ev: Event)
    requires Needed(t, repo, s) && ByZero(ev) && Enabled(s, ev)
    ensures Needed(t, repo, Apply(s, ev))
  {
  }

  lemma {:induction false} NeededHolds(states: seq<State>, events: seq<Event>, t: Tables, repo: Repo, n: nat)
    requires Alone(states, events, t, repo) && 0 < n < |states|
    ensures Needed(t, repo, states[n])
  {
    assert StepAt(states, events, n - 1);
    if n > 1 {
      NeededHolds(states, events, t, repo, n - 1);
      NeededStep(t, repo, states[n - 1], events[n - 1]);
    }
  }

  /** One that succeeds with nothing else going on is of an unused id. */
  lemma AloneNeeds(states: seq<State>, events: seq<Event>, t: Tables, repo: Repo, n: nat)
    requires Alone(states, events, t, repo) && n < |states| && ActorIn(states[n], 0, Succeeded)
    ensures IsUuid(repo) && Unused(t, repo)
  {
    NeededHolds(states, events, t, repo, n);
  }
}
