/** What a recount may supersede: only a line that was rejected, over every interleaving
    (backend/api/count_lines_routes.py, backend/services/canonical_inventory.py). */
module CountLineRecounts {
  import opened Common
  import opened CountLineChains

  /** The floor or rack the duplicate check looks for: the number, if one is given. */
  predicate IsNumber(value: Option<string>, number: Option<string>) {
    value == if number.Some? && number.value != "" then number else None
  }

  /** A line not superseded at the session, item, floor and rack the request names by number. */
  predicate LiveWhereLooked(l: Line, r: Request) {
    && l.place.sessionId == r.sessionId && l.place.itemCode == r.itemCode
    && IsNumber(l.place.floor, r.floorNo) && IsNumber(l.place.rack, r.rackNo)
    && l.status != SupersededLine && (l.supersededBy.Some? ==> l.supersededBy.value == "")
  }

  lemma LiveAtIff(store: Store, id: string, r: Request)
    requires id in store
    ensures LiveAt(store, id, FilterPlace(r)) <==> LiveWhereLooked(store[id], r)
  {
  }

  /** The duplicate check: with no live line where it looks, the request goes on as a first count; with one
      that was rejected and that the request names, as a recount of it; with any other it ends. */
  lemma CheckTable(s: System, pid: nat, found: Option<string>)
    requires Enabled(s, Check(pid, found))
    ensures var (r, after) := (s.requests[pid].r, Step(s, Check(pid, found)));
            && after.store == s.store
            && match found
               case None =>
                 && (forall id | id in s.store :: !LiveWhereLooked(s.store[id], r))
                 && pid in after.requests && after.requests[pid].phase == Checked(None)
               case Some(id) =>
                 && id in s.store && LiveWhereLooked(s.store[id], r)
                 && (if MayRecount(r, s.store[id])
                     then pid in after.requests && after.requests[pid].phase == Checked(Some(s.store[id]))
                     else pid !in after.requests)
  {
    forall id | id in s.store
      ensures LiveAt(s.store, id, FilterPlace(s.requests[pid].r)) <==> LiveWhereLooked(s.store[id], s.requests[pid].r)
    {
      LiveAtIff(s.store, id, s.requests[pid].r);
    }
  }

  /** Event k is a duplicate check that found this line, live where it looked, rejected, and the one the
      request names. */
  predicate RejectedAt(events: seq<Event>, k: nat, id: string) {
    && k < |events| && events[k].Check?
    && var s := Run(events[..k]);
       && events[k].pid in s.requests && id in s.store
       && var (l, r) := (s.store[id], s.requests[events[k].pid].r);
          LiveWhereLooked(l, r) && l.status == RejectedLine && r.recountOf == Some(id)
  }

  ghost predicate WasRejected(events: seq<Event>, id: string) {
    exists k: nat :: RejectedAt(events, k, id)
  }

  /** Every target of a request in flight, and every line a stored recount follows, was rejected. */
  ghost predicate TargetsRejected(events: seq<Event>, s: System) {
    && OwnIds(s.store)
    && (forall pid | pid in s.requests && s.requests[pid].phase.Checked? && s.requests[pid].phase.target.Some? ::
          WasRejected(events, s.requests[pid].phase.target.value.id))
    && (forall pid | pid in s.requests && s.requests[pid].phase.Inserted? ::
          WasRejected(events, s.requests[pid].phase.targetId))
    && (forall id | id in s.store && s.store[id].previous.Some? :: WasRejected(events, s.store[id].previous.value))
  }

  lemma WasRejectedStays(init: seq<Event>, ev: Event, id: string)
    requires WasRejected(init, id)
    ensures WasRejected(init + [ev], id)
  {
    var k: nat :| RejectedAt(init, k, id);
    assert (init + [ev])[..k] == init[..k];
    assert RejectedAt(init + [ev], k, id);
  }

  /** One more check. */
  lemma CheckFindsRejected(init: seq<Event>, pid: nat, found: Option<string>)
    requires Enabled(Run(init), Check(pid, found)) && OwnIds(Run(init).store)
    ensures var after := Step(Run(init), Check(pid, found));
            pid in after.requests && after.requests[pid].phase.Checked? && after.requests[pid].phase.target.Some? ==>
              WasRejected(init + [Check(pid, found)], after.requests[pid].phase.target.value.id)
  {
    var s, events := Run(init), init + [Check(pid, found)];
    CheckTable(s, pid, found);
    if found.Some? && MayRecount(s.requests[pid].r, s.store[found.value]) {
      assert events[..|init|] == init;
      assert RejectedAt(events, |init|, found.value);
    }
  }

  /** What a step can bring into flight. */
  lemma PhasesAfter(s: System, ev: Event, pid: nat)
    requires Enabled(s, ev) && pid in Step(s, ev).requests
    ensures var phase := Step(s, ev).requests[pid].phase;
            || (pid in s.requests && s.requests[pid].phase == phase)
            || phase in {Waiting, Holding, Finished}
            || (ev.Check? && ev.pid == pid && phase.Checked?)
            || (ev.Insert? && ev.pid == pid && phase.Inserted? && s.requests[pid].phase.target.Some?
                && phase.targetId == s.requests[pid].phase.target.value.id)
  {
  }

  lemma PreviousAfter(s: System, ev: Event, id: string)
    requires Enabled(s, ev) && id in Step(s, ev).store
    ensures var l := Step(s, ev).store[id];
            || (id in s.store && s.store[id].previous == l.previous)
            || l.previous.None?
            || (ev.Insert? && s.requests[ev.pid].phase.target.Some?
                && l.previous == Some(s.requests[ev.pid].phase.target.value.id))
  {
  }

  lemma OwnIdsStay(s: System, ev: Event)
    requires Enabled(s, ev) && OwnIds(s.store)
    ensures OwnIds(Step(s, ev).store)
  {
  }

  lemma StepKeepsRejected(init: seq<Event>, ev: Event)
    requires Enabled(Run(init), ev) && TargetsRejected(init, Run(init))
    ensures TargetsRejected(init + [ev], Step(Run(init), ev))
  {
    var s, after, events := Run(init), Step(Run(init), ev), init + [ev];
    OwnIdsStay(s, ev);
    forall id | WasRejected(init, id) ensures WasRejected(events, id) {
      WasRejectedStays(init, ev, id);
    }
    forall pid | pid in after.requests && after.requests[pid].phase.Checked? && after.requests[pid].phase.target.Some?
      ensures WasRejected(events, after.requests[pid].phase.target.value.id)
    {
      PhasesAfter(s, ev, pid);
      if ev.Check? {
        CheckFindsRejected(init, ev.pid, ev.found);
      }
    }
    forall pid | pid in after.requests && after.requests[pid].phase.Inserted?
      ensures WasRejected(events, after.requests[pid].phase.targetId)
    {
      PhasesAfter(s, ev, pid);
    }
    forall id | id in after.store && after.store[id].previous.Some?
      ensures WasRejected(events, after.store[id].previous.value)
    {
      PreviousAfter(s, ev, id);
    }
  }

  /** Over every interleaving, failures included: whatever a stored recount follows, and so whatever is ever
      superseded by one, was found live where its request looked, rejected, and named by that request. */
  lemma {:induction false} RecountsFollowRejected(events: seq<Event>)
    requires Possible(events)
    ensures TargetsRejected(events, Run(events))
  {
    if events != [] {
      var init, ev := events[..|events| - 1], events[|events| - 1];
      assert events == init + [ev];
      RecountsFollowRejected(init);
      StepKeepsRejected(init, ev);
    }
  }

  /** A line's link to what superseded it comes from such a recount. */
  ghost predicate LinksRejected(events: seq<Event>, s: System) {
    forall id | id in s.store && s.store[id].supersededBy.Some? :: WasRejected(events, id)
  }

  lemma SupersededByAfter(s: System, ev: Event, id: string)
    requires Enabled(s, ev) && id in Step(s, ev).store && Step(s, ev).store[id].supersededBy.Some?
    ensures (id in s.store && s.store[id].supersededBy.Some?)
            || (ev.Supersede? && s.requests[ev.pid].phase.targetId == id)
  {
  }

  lemma {:induction false} SupersededWereRejected(events: seq<Event>)
    requires Possible(events)
    ensures LinksRejected(events, Run(events))
  {
    if events != [] {
      var init, ev := events[..|events| - 1], events[|events| - 1];
      assert events == init + [ev];
      SupersededWereRejected(init);
      RecountsFollowRejected(init);
      forall id | id in Run(events).store && Run(events).store[id].supersededBy.Some? ensures WasRejected(events, id) {
        SupersededByAfter(Run(init), ev, id);
        WasRejectedStays(init, ev, id);
      }
    }
  }
}
