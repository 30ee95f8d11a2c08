/** The version numbers along a chain of recounts, with quantity edits anywhere in between
    (backend/api/count_lines_routes.py, backend/services/count_lines/validation.py). */
module CountLineVersions {
  import opened Common
  import opened CountLineChains

  /** How often a line's quantity has been edited. */
  function EditsOf(events: seq<Event>, id: string): nat {
    if events == [] then 0
    else EditsOf(events[..|events| - 1], id)
         + if events[|events| - 1].EditQuantity? && events[|events| - 1].id == id then 1 else 0
  }

  /** The edits of a line after the first k events. */
  function EditsSince(events: seq<Event>, k: nat, id: string): int
    requires k <= |events|
  {
    EditsOf(events, id) - EditsOf(events[..k], id)
  }

  /** Event k stores the line as a recount of line p, which is stored then. */
  predicate StoredAt(events: seq<Event>, k: nat, id: string, p: string) {
    && k < |events| && events[k].Insert? && events[k].newId == id
    && p in Run(events[..k]).store
  }

  /** What a stored line's version says: a first count starts at one, a recount one above its target as
      it stood when the recount was stored, and every edit of the line adds one. */
  ghost predicate VersionOk(events: seq<Event>, id: string, l: Line) {
    match l.previous
    case None => l.version == 1 + EditsOf(events, id)
    case Some(p) => exists k :: StoredAt(events, k, id, p) && FollowsAt(events, k, id, p, l.version)
  }

  predicate FollowsAt(events: seq<Event>, k: nat, id: string, p: string, version: nat)
    requires StoredAt(events, k, id, p)
  {
    version == Run(events[..k]).store[p].version + 1 + EditsOf(events, id)
  }

  ghost predicate LineOk(events: seq<Event>, store: Store, id: string)
    requires id in store
  {
    store[id].id == id && store[id].version >= 1 && VersionOk(events, id, store[id])
  }

  ghost predicate VersionsOk(events: seq<Event>, s: System) {
    && (forall id | id in s.store :: LineOk(events, s.store, id))
    && (forall id | id !in s.store :: EditsOf(events, id) == 0)
  }

  lemma EditsSnoc(init: seq<Event>, ev: Event, id: string)
    ensures EditsOf(init + [ev], id) == EditsOf(init, id) + if ev.EditQuantity? && ev.id == id then 1 else 0
  {
    assert (init + [ev])[..|init|] == init;
  }

  lemma VersionStays(init: seq<Event>, ev: Event, id: string, l: Line, m: Line)
    requires VersionOk(init, id, l) && m.previous == l.previous
    requires m.version == l.version + if ev.EditQuantity? && ev.id == id then 1 else 0
    ensures VersionOk(init + [ev], id, m)
  {
    EditsSnoc(init, ev, id);
    if l.previous.Some? {
      var p := l.previous.value;
      var k: nat :| StoredAt(init, k, id, p) && FollowsAt(init, k, id, p, l.version);
      assert (init + [ev])[..k] == init[..k];
      assert StoredAt(init + [ev], k, id, p) && FollowsAt(init + [ev], k, id, p, m.version);
    }
  }

  /** One step leaves a stored line where it is; only its own edit moves its version. */
  lemma StoredLineStays(s: System, ev: Event, id: string)
    requires Enabled(s, ev) && id in s.store
    ensures id in Step(s, ev).store
    ensures var (l, m) := (s.store[id], Step(s, ev).store[id]);
            && m.id == l.id && m.previous == l.previous
            && m.version == l.version + if ev.EditQuantity? && ev.id == id then 1 else 0
  {
  }

  /** A new line comes from an accepted insert. */
  lemma NewLineIsInserted(s: System, ev: Event, id: string)
    requires Enabled(s, ev) && id !in s.store && id in Step(s, ev).store
    ensures ev.Insert? && ev.newId == id
    ensures var f := s.requests[ev.pid];
            && Step(s, ev).store[id] == NewLine(f.r, id, f.phase.target)
            && Continues(s.store, NewLine(f.r, id, f.phase.target), f.phase.target)
  {
  }

  /** A stored recount starts one above the version its target has at that moment. */
  lemma NewVersionOk(init: seq<Event>, ev: Event, id: string)
    requires Enabled(Run(init), ev) && VersionsOk(init, Run(init))
    requires id !in Run(init).store && id in Step(Run(init), ev).store
    ensures LineOk(init + [ev], Step(Run(init), ev).store, id)
  {
    var s, events := Run(init), init + [ev];
    NewLineIsInserted(s, ev, id);
    EditsSnoc(init, ev, id);
    var target := s.requests[ev.pid].phase.target;
    if target.Some? {
      var p := target.value.id;
      assert LineOk(init, s.store, p);
      assert events[..|init|] == init;
      assert StoredAt(events, |init|, id, p);
      assert FollowsAt(events, |init|, id, p, Step(s, ev).store[id].version);
    }
  }

  lemma LinesStayOk(init: seq<Event>, ev: Event, id: string)
    requires Enabled(Run(init), ev) && VersionsOk(init, Run(init))
    requires id in Step(Run(init), ev).store
    ensures LineOk(init + [ev], Step(Run(init), ev).store, id)
  {
    var s := Run(init);
    if id in s.store {
      assert LineOk(init, s.store, id);
      StoredLineStays(s, ev, id);
      VersionStays(init, ev, id, s.store[id], Step(s, ev).store[id]);
    } else {
      NewVersionOk(init, ev, id);
    }
  }

  lemma {:induction false} RunKeepsVersions(events: seq<Event>)
    requires Possible(events)
    ensures VersionsOk(events, Run(events))
  {
    if events != [] {
      var init, ev := events[..|events| - 1], events[|events| - 1];
      assert events == init + [ev];
      RunKeepsVersions(init);
      var after := Run(events);
      forall id | id in after.store ensures LineOk(events, after.store, id) {
        LinesStayOk(init, ev, id);
      }
      forall id | id !in after.store ensures EditsOf(events, id) == 0 {
        EditsSnoc(init, ev, id);
        assert id in Run(init).store ==> id in after.store by {
          if id in Run(init).store {
            StoredLineStays(Run(init), ev, id);
          }
        }
      }
    }
  }

  /** A stored line stays, and only its own edits move its version. */
  lemma {:induction false} OnlyEditsMoveVersions(events: seq<Event>, k: nat, id: string)
    requires Possible(events) && k <= |events| && id in Run(events[..k]).store
    ensures Possible(events[..k]) && id in Run(events).store
    ensures Run(events).store[id].version == Run(events[..k]).store[id].version + EditsSince(events, k, id)
  {
    if k == |events| {
      assert events[..k] == events;
    } else {
      var init := events[..|events| - 1];
      assert init[..k] == events[..k];
      OnlyEditsMoveVersions(init, k, id);
      StoredLineStays(Run(init), events[|events| - 1], id);
    }
  }

  /** Over every interleaving, with any edits: a recount is stored with one more than its target's version
      at that moment, because any other version is refused. So a link raises the version by exactly one
      when the new line has been edited since as often as the old one. */
  lemma LinkRaisesVersionByOneIff(events: seq<Event>, id: string) returns (k: nat)
    requires Possible(events) && id in Run(events).store && Run(events).store[id].previous.Some?
    ensures var (s, p) := (Run(events), Run(events).store[id].previous.value);
            && StoredAt(events, k, id, p) && p in s.store
            && s.store[id].version == Run(events[..k]).store[p].version + 1 + EditsOf(events, id)
            && (s.store[id].version == s.store[p].version + 1 <==> EditsOf(events, id) == EditsSince(events, k, p))
  {
    RunKeepsVersions(events);
    var s := Run(events);
    assert LineOk(events, s.store, id);
    var p := s.store[id].previous.value;
    k :| StoredAt(events, k, id, p) && FollowsAt(events, k, id, p, s.store[id].version);
    OnlyEditsMoveVersions(events, k, p);
  }

  predicate NoEdits(events: seq<Event>) {
    forall i | 0 <= i < |events| :: !events[i].EditQuantity?
  }

  lemma {:induction false} NothingEdited(events: seq<Event>, id: string)
    requires NoEdits(events)
    ensures EditsOf(events, id) == 0
  {
    if events != [] {
      NothingEdited(events[..|events| - 1], id);
    }
  }

  /** Without quantity edits every link raises the version by one. */
  lemma VersionsRiseWithoutEdits(events: seq<Event>, id: string)
    requires Possible(events) && NoEdits(events) && id in Run(events).store && Run(events).store[id].previous.Some?
    ensures var p := Run(events).store[id].previous.value;
            p in Run(events).store && Run(events).store[id].version == Run(events).store[p].version + 1
  {
    var k := LinkRaisesVersionByOneIff(events, id);
    NothingEdited(events, id);
    NothingEdited(events, Run(events).store[id].previous.value);
    NothingEdited(events[..k], Run(events).store[id].previous.value);
  }
}
