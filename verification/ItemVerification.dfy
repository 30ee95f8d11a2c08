/** Item verification: the material-conflict rule, the optimistic lock on the stock quantity, and the
    two logs (backend/api/item_verification_api.py). */
module ItemVerification {
  import opened Common

  // ---------------------------------------------------------------- data

  /** The part of an ERP item that verification reads or writes. */
  datatype Item = Item(
    stockQty: Option<real>,
    verified: bool,
    verifiedQty: Option<real>,
    damagedQty: Option<real>,
    variance: Option<real>)

  datatype Request = Request(
    verified: bool,
    verifiedQty: Option<real>,
    damagedQty: Option<real>,
    isSerialized: Option<bool>,
    user: string)

  datatype LogEntry = LogEntry(
    itemCode: string,
    systemQty: real,
    verifiedQty: Option<real>,
    damagedQty: Option<real>,
    variance: Option<real>,
    user: string)

  datatype Fork = Fork(itemCode: string, request: Request)

  datatype Store = Store(items: map<string, Item>, logs: seq<LogEntry>, variances: seq<LogEntry>, forks: seq<Fork>)

  datatype Answer = SerializedNotAllowed | NotFound | Forked | Changed | Verified(variance: Option<real>)

  function OrZero(q: Option<real>): real {
    if q.Some? then q.value else 0.0
  }

  /** `_calculate_variance`. */
  function VarianceOf(r: Request, systemQty: real): Option<real> {
    if r.verifiedQty.Some? then Some(r.verifiedQty.value + OrZero(r.damagedQty) - systemQty) else None
  }

  /** `_verification_has_material_conflict`. */
  predicate MaterialConflict(seen: Item, r: Request) {
    seen.verified && r.verifiedQty.Some? && r.verifiedQty != seen.verifiedQty
  }

  /** `_build_item_update_doc`, built from the item as it was read and applied to the stored one. */
  function Updated(stored: Item, r: Request, seen: Item): Item {
    stored.(verified := r.verified,
            verifiedQty := if r.verifiedQty.Some? then r.verifiedQty else stored.verifiedQty,
            variance := if r.verifiedQty.Some? then VarianceOf(r, OrZero(seen.stockQty)) else stored.variance,
            damagedQty := if r.damagedQty.Some? then r.damagedQty else stored.damagedQty)
  }

  /** `_build_verification_filter`: the stock quantity is part of the filter when it was known. */
  predicate Matches(stored: Item, seen: Item) {
    seen.stockQty.Some? ==> stored.stockQty == seen.stockQty
  }

  function LogOf(code: string, r: Request, seen: Item): LogEntry {
    LogEntry(code, OrZero(seen.stockQty), r.verifiedQty, r.damagedQty, VarianceOf(r, OrZero(seen.stockQty)), r.user)
  }

  predicate Material(e: LogEntry) {
    e.variance.Some? && e.variance.value != 0.0
  }

  function WithLog(s: Store, e: LogEntry): Store {
    s.(logs := s.logs + [e], variances := if Material(e) then s.variances + [e] else s.variances)
  }

  /** An uninterrupted verify request. */
  function Verify(s: Store, code: string, r: Request): (Store, Answer) {
    if r.isSerialized.Some? then (s, SerializedNotAllowed)
    else if code !in s.items then (s, NotFound)
    else
      var item := s.items[code];
      if MaterialConflict(item, r) then (s.(forks := s.forks + [Fork(code, r)]), Forked)
      else
        var updated := s.(items := s.items[code := Updated(item, r, item)]);
        (WithLog(updated, LogOf(code, r, item)), Verified(VarianceOf(r, OrZero(item.stockQty))))
  }

  /** Verified plus damaged minus the stock, where a quantity is given. */
  predicate IsVariance(variance: Option<real>, r: Request, stock: real) {
    if r.verifiedQty.None? then variance.None?
    else variance == Some(r.verifiedQty.value + (if r.damagedQty.Some? then r.damagedQty.value else 0.0) - stock)
  }

  /** The stock the system had for the item, zero if it had none. */
  function StockOf(i: Item): real {
    if i.stockQty.Some? then i.stockQty.value else 0.0
  }

  /** The item with the request's verification: quantities that were not given stay. */
  predicate Takes(after: Item, before: Item, r: Request, stock: real) {
    && after.stockQty == before.stockQty
    && after.verified == r.verified
    && after.verifiedQty == (if r.verifiedQty.Some? then r.verifiedQty else before.verifiedQty)
    && after.damagedQty == (if r.damagedQty.Some? then r.damagedQty else before.damagedQty)
    && if r.verifiedQty.Some? then IsVariance(after.variance, r, stock) else after.variance == before.variance
  }

  /** The log entry of a verification. */
  predicate Logs(e: LogEntry, code: string, r: Request, stock: real) {
    && e.itemCode == code && e.systemQty == stock && e.user == r.user
    && e.verifiedQty == r.verifiedQty && e.damagedQty == r.damagedQty
    && IsVariance(e.variance, r, stock)
  }

  /** A verified item that holds another quantity than the one given. */
  predicate Disagrees(i: Item, r: Request) {
    i.verified && r.verifiedQty.Some? && i.verifiedQty != Some(r.verifiedQty.value)
  }

  /** What one verify request does: it is refused, or it disagrees with a verified item and only leaves a
      fork, or it changes that item alone, is logged, and is entered among the variances exactly if it
      found one. */
  lemma VerifyTable(s: Store, code: string, r: Request)
    ensures var (after, answer) := Verify(s, code, r);
            if r.isSerialized.Some? then answer == SerializedNotAllowed && after == s
            else if code !in s.items then answer == NotFound && after == s
            else if Disagrees(s.items[code], r)
            then answer == Forked && after == s.(forks := s.forks + [Fork(code, r)])
            else
              var stock := StockOf(s.items[code]);
              && answer.Verified? && IsVariance(answer.variance, r, stock)
              && after.forks == s.forks && after.items.Keys == s.items.Keys
              && (forall other | other in s.items && other != code :: after.items[other] == s.items[other])
              && Takes(after.items[code], s.items[code], r, stock)
              && |after.logs| == |s.logs| + 1 && after.logs[..|s.logs|] == s.logs
              && Logs(after.logs[|s.logs|], code, r, stock)
              && after.variances
                 == s.variances + if answer.variance in {None, Some(0.0)} then [] else [after.logs[|s.logs|]]
  {
  }

  // ---------------------------------------------------------------- the endpoint

  class VerificationApi {
    var items: map<string, Item>
    var logs: seq<LogEntry>
    var variances: seq<LogEntry>
    var forks: seq<Fork>

    ghost function State(): Store
      reads this
    {
      Store(items, logs, variances, forks)
    }

    constructor (items: map<string, Item>)
      ensures State() == Store(items, [], [], [])
    {
      this.items := items;
      logs, variances, forks := [], [], [];
    }

    /** The filtered `update_one`. */
    method UpdateOne(code: string, r: Request, seen: Item) returns (matched: bool)
      requires code in items
      modifies this`items
      ensures matched <==> (seen.stockQty.Some? ==> old(items)[code].stockQty == seen.stockQty)
      ensures items == if matched then old(items)[code := Updated(old(items)[code], r, seen)] else old(items)
    {
      matched := seen.stockQty.Some? ==> items[code].stockQty == seen.stockQty;
      if matched {
        items := items[code := Updated(items[code], r, seen)];
      }
    }

    /** `verify_item`. */
    method VerifyItem(code: string, r: Request) returns (answer: Answer)
      modifies this
      ensures (State(), answer) == Verify(old(State()), code, r)
      ensures answer != Changed
    {
      if r.isSerialized.Some? {
        return SerializedNotAllowed;
      }
      if code !in items {
        return NotFound;
      }
      var item := items[code];
      if MaterialConflict(item, r) {
        forks := forks + [Fork(code, r)];
        return Forked;
      }
      var matched := UpdateOne(code, r, item);
      if !matched {
        return Changed;
      }
      var entry := LogOf(code, r, item);
      logs := logs + [entry];
      if Material(entry) {
        variances := variances + [entry];
      }
      answer := Verified(entry.variance);
    }
  }

  // ---------------------------------------------------------------- runs of atomic requests

  datatype Op = VerifyOp(code: string, r: Request) | StockSync(code: string, qty: Option<real>)

  function Apply(s: Store, op: Op): Store {
    match op
    case VerifyOp(code, r) => Verify(s, code, r).0
    case StockSync(code, qty) =>
      if code in s.items then s.(items := s.items[code := s.items[code].(stockQty := qty)]) else s
  }

  function Run(s: Store, ops: seq<Op>): Store {
    if ops == [] then s else Apply(Run(s, ops[..|ops| - 1]), ops[|ops| - 1])
  }

  /** The log entries whose variance is present and non-zero, in order. */
  function NonZero(logs: seq<LogEntry>): seq<LogEntry> {
    if logs == [] then []
    else
      var rest, last := NonZero(logs[..|logs| - 1]), logs[|logs| - 1];
      if Material(last) then rest + [last] else rest
  }

  lemma LogKeepsAgreement(s: Store, e: LogEntry)
    requires s.variances == NonZero(s.logs)
    ensures WithLog(s, e).variances == NonZero(WithLog(s, e).logs)
  {
    assert (s.logs + [e])[..|s.logs|] == s.logs;
  }

  /** Over every run, `item_variances` is exactly the subsequence of `verification_logs` whose
      variance is present and non-zero, both only grow, and forks leave items and logs alone. */
  lemma {:induction false} LogsAgree(s: Store, ops: seq<Op>)
    requires s.variances == NonZero(s.logs)
    ensures var after := Run(s, ops);
            after.variances == NonZero(after.logs) && s.logs <= after.logs && s.variances <= after.variances
  {
    if ops != [] {
      LogsAgree(s, ops[..|ops| - 1]);
      var before, op := Run(s, ops[..|ops| - 1]), ops[|ops| - 1];
      if op.VerifyOp? && op.code in before.items {
        var item := before.items[op.code];
        var updated := before.(items := before.items[op.code := Updated(item, op.r, item)]);
        LogKeepsAgreement(updated, LogOf(op.code, op.r, item));
      }
    }
  }

  // ---------------------------------------------------------------- the two log inserts apart

  /** The logs while requests are between their two inserts; `between` are the material entries logged and
      not yet among the variances, `lost` those whose request failed there. */
  datatype Logging = Logging(logs: seq<LogEntry>, variances: seq<LogEntry>, between: seq<LogEntry>, lost: seq<LogEntry>)

  datatype LogEvent = LogInsert(e: LogEntry) | VarianceInsert(i: nat) | Dies(i: nat)

  function Without(entries: seq<LogEntry>, i: nat): seq<LogEntry>
    requires i < |entries|
  {
    entries[..i] + entries[i + 1..]
  }

  function LogStep(l: Logging, ev: LogEvent): Logging {
    match ev
    case LogInsert(e) => l.(logs := l.logs + [e], between := if Material(e) then l.between + [e] else l.between)
    case VarianceInsert(i) =>
      if i < |l.between| then l.(variances := l.variances + [l.between[i]], between := Without(l.between, i)) else l
    case Dies(i) =>
      if i < |l.between| then l.(lost := l.lost + [l.between[i]], between := Without(l.between, i)) else l
  }

  function LogRun(events: seq<LogEvent>): Logging {
    if events == [] then Logging([], [], [], []) else LogStep(LogRun(events[..|events| - 1]), events[|events| - 1])
  }

  lemma NonZeroSnoc(logs: seq<LogEntry>, e: LogEntry)
    ensures NonZero(logs + [e]) == if Material(e) then NonZero(logs) + [e] else NonZero(logs)
  {
    assert (logs + [e])[..|logs|] == logs;
  }

  lemma WithoutOne(entries: seq<LogEntry>, i: nat)
    requires i < |entries|
    ensures multiset(entries) == multiset(Without(entries, i)) + multiset{entries[i]}
  {
    assert entries == entries[..i] + [entries[i]] + entries[i + 1..];
  }

  /** Over every interleaving of the inserts, the material log entries are the variances, those whose
      request is between its inserts, and those whose request failed there. */
  lemma {:induction false} LogsAccountForVariances(events: seq<LogEvent>)
    ensures var l := LogRun(events);
            multiset(NonZero(l.logs)) == multiset(l.variances) + multiset(l.between) + multiset(l.lost)
  {
    if events != [] {
      var l, ev := LogRun(events[..|events| - 1]), events[|events| - 1];
      LogsAccountForVariances(events[..|events| - 1]);
      match ev
      case LogInsert(e) => NonZeroSnoc(l.logs, e);
      case VarianceInsert(i) => if i < |l.between| { WithoutOne(l.between, i); }
      case Dies(i) => if i < |l.between| { WithoutOne(l.between, i); }
    }
  }

  /** So the two logs hold the same entries exactly when no request is or failed between its inserts. */
  lemma LogsHoldTheSameIff(events: seq<LogEvent>)
    ensures var l := LogRun(events);
            multiset(NonZero(l.logs)) == multiset(l.variances) <==> l.between == [] && l.lost == []
  {
    var l := LogRun(events);
    LogsAccountForVariances(events);
    if multiset(NonZero(l.logs)) == multiset(l.variances) {
      assert |multiset(l.variances)| == |multiset(l.variances)| + |multiset(l.between)| + |multiset(l.lost)|;
    }
  }

  /** No request overtakes another between their inserts, and none fails there. */
  predicate InTurn(events: seq<LogEvent>) {
    forall k | 0 <= k < |events| :: events[k].LogInsert? || events[k] == VarianceInsert(0)
  }

  lemma InTurnStep(l: Logging, ev: LogEvent)
    requires NonZero(l.logs) == l.variances + l.between && (ev.LogInsert? || ev == VarianceInsert(0))
    ensures NonZero(LogStep(l, ev).logs) == LogStep(l, ev).variances + LogStep(l, ev).between
  {
    if ev.LogInsert? {
      NonZeroSnoc(l.logs, ev.e);
    } else if l.between != [] {
      assert l.variances + l.between == (l.variances + [l.between[0]]) + Without(l.between, 0);
    }
  }

  /** Then they hold them in the same order. */
  lemma {:induction false} LogsAgreeInTurn(events: seq<LogEvent>)
    requires InTurn(events)
    ensures var l := LogRun(events);
            NonZero(l.logs) == l.variances + l.between && (l.between == [] ==> l.variances == NonZero(l.logs))
  {
    if events != [] {
      LogsAgreeInTurn(events[..|events| - 1]);
      InTurnStep(LogRun(events[..|events| - 1]), events[|events| - 1]);
    }
  }

  lemma TwoLogged(a: LogEntry, b: LogEntry)
    requires Material(a) && Material(b)
    ensures LogRun([LogInsert(a), LogInsert(b)]) == Logging([a, b], [], [a, b], [])
    ensures NonZero([a, b]) == [a, b]
  {
    LogRunSnoc([], LogInsert(a));
    LogRunSnoc([LogInsert(a)], LogInsert(b));
    assert [] + [LogInsert(a)] == [LogInsert(a)] && [LogInsert(a)] + [LogInsert(b)] == [LogInsert(a), LogInsert(b)];
    NonZeroSnoc([], a);
    NonZeroSnoc([a], b);
    assert [] + [a] == [a] && [a] + [b] == [a, b];
  }

  /** One request overtaking another is enough to change the order. */
  lemma OvertakingChangesOrder(a: LogEntry, b: LogEntry)
    requires Material(a) && Material(b) && a != b
    ensures var l := LogRun([LogInsert(a), LogInsert(b)] + [VarianceInsert(1)] + [VarianceInsert(0)]);
            l.between == [] && l.lost == [] && l.variances == [b, a] && NonZero(l.logs) == [a, b]
  {
    TwoLogged(a, b);
    LogRunSnoc([LogInsert(a), LogInsert(b)], VarianceInsert(1));
    LogRunSnoc([LogInsert(a), LogInsert(b)] + [VarianceInsert(1)], VarianceInsert(0));
    assert Without([a, b], 1) == [a] && Without([a], 0) == [];
  }

  lemma LogRunSnoc(events: seq<LogEvent>, ev: LogEvent)
    ensures LogRun(events + [ev]) == LogStep(LogRun(events), ev)
  {
    assert (events + [ev])[..|events|] == events;
  }

  /** One step changes an item's verified quantity only when that item was not verified. */
  lemma QuantityChangesOnlyUnverified(s: Store, op: Op, code: string)
    requires code in s.items
    ensures code in Apply(s, op).items
    ensures Apply(s, op).items[code].verifiedQty != s.items[code].verifiedQty ==> !s.items[code].verified
  {
  }

  /** No request in the run takes the item's verification away. */
  predicate NeverUnverified(ops: seq<Op>, code: string) {
    forall i | 0 <= i < |ops| :: ops[i].VerifyOp? && ops[i].code == code ==> ops[i].r.verified
  }

  /** So from the moment an item is verified its quantity is frozen until a request unverifies it,
      whatever else happens in between. */
  lemma {:induction false} VerifiedQuantityIsFrozen(s: Store, ops: seq<Op>, code: string)
    requires code in s.items && s.items[code].verified && NeverUnverified(ops, code)
    ensures var after := Run(s, ops).items;
            code in after && after[code].verified && after[code].verifiedQty == s.items[code].verifiedQty
  {
    if ops != [] {
      VerifiedQuantityIsFrozen(s, ops[..|ops| - 1], code);
      QuantityChangesOnlyUnverified(Run(s, ops[..|ops| - 1]), ops[|ops| - 1], code);
    }
  }

  // ---------------------------------------------------------------- reads and commits interleaved

  /** A request that has read the item, passed the conflict check and not yet written. */
  datatype Ticket = Ticket(r: Request, seen: Item)

  /** One item with its in-flight requests; `last` is the last committed request that carried a
      quantity, with the stock (zero if unknown) stored when it committed. */
  datatype System = System(item: Item, tickets: map<nat, Ticket>, last: Option<(Request, real)>, forks: nat)

  datatype Event = Fetch(pid: nat, r: Request) | Commit(pid: nat) | Sync(qty: real)

  function Step(s: System, ev: Event): System {
    match ev
    case Fetch(pid, r) =>
      if r.isSerialized.Some? then s
      else if MaterialConflict(s.item, r) then s.(forks := s.forks + 1)
      else s.(tickets := s.tickets[pid := Ticket(r, s.item)])
    case Commit(pid) =>
      if pid !in s.tickets then s
      else
        var t := s.tickets[pid];
        var rest := s.(tickets := s.tickets - {pid});
        if !Matches(s.item, t.seen) then rest
        else rest.(item := Updated(s.item, t.r, t.seen),
                   last := if t.r.verifiedQty.Some? then Some((t.r, OrZero(s.item.stockQty))) else s.last)
    case Sync(qty) => s.(item := s.item.(stockQty := Some(qty)))
  }

  function Interleave(item: Item, events: seq<Event>): System {
    if events == [] then System(item, map[], None, 0)
    else Step(Interleave(item, events[..|events| - 1]), events[|events| - 1])
  }

  /** What each step does to the item, on any state: a request that disagrees with a verified item leaves a
      fork, any other remembers the item as it is; its commit goes through exactly when the stock it
      remembers, if any, still stands, and then stores its quantities with the variance at that stock. */
  lemma StepTable(s: System, ev: Event)
    ensures var after := Step(s, ev);
            match ev
            case Fetch(pid, r) =>
              && after.item == s.item && after.last == s.last
              && after.forks == s.forks + (if r.isSerialized.None? && Disagrees(s.item, r) then 1 else 0)
              && after.tickets
                 == if r.isSerialized.None? && !Disagrees(s.item, r) then s.tickets[pid := Ticket(r, s.item)]
                    else s.tickets
            case Commit(pid) =>
              && after.tickets == s.tickets - {pid} && after.forks == s.forks
              && if pid in s.tickets && (s.tickets[pid].seen.stockQty.None?
                                         || s.item.stockQty == s.tickets[pid].seen.stockQty)
                 then Takes(after.item, s.item, s.tickets[pid].r, StockOf(s.tickets[pid].seen))
                 else after.item == s.item
            case Sync(qty) =>
              after.item.stockQty == Some(qty) && after.item.verified == s.item.verified
              && after.item.verifiedQty == s.item.verifiedQty && after.item.damagedQty == s.item.damagedQty
              && after.item.variance == s.item.variance && after.tickets == s.tickets
  {
  }

  /** The variance one commit stores is the one at the stock of that moment exactly when the stock
      was known at the read, or counts as zero at the commit. */
  lemma CommitVarianceIff(stored: Item, t: Ticket)
    requires Matches(stored, t.seen) && t.r.verifiedQty.Some?
    ensures IsVariance(Updated(stored, t.r, t.seen).variance, t.r, StockOf(stored))
            <==> t.seen.stockQty.Some? || StockOf(stored) == 0.0
  {
  }

  /** The stored quantity and variance are those of the last quantity-carrying commit, at the stock
      of the moment of that commit. */
  predicate TrueAtCommit(s: System) {
    s.last.Some? ==>
      var (r, stock) := s.last.value;
      && r.verifiedQty.Some? && s.item.verifiedQty == r.verifiedQty
      && s.item.variance
         == Some(r.verifiedQty.value + (if r.damagedQty.Some? then r.damagedQty.value else 0.0) - stock)
  }

  predicate StockKnown(s: System) {
    s.item.stockQty.Some? && forall pid | pid in s.tickets :: s.tickets[pid].seen.stockQty.Some?
  }

  /** Over every interleaving of verify requests and stock syncs on an item whose stock is known, the
      stored variance is verified plus damaged minus the stock at the moment of commit. */
  lemma {:induction false} VarianceTrueAtCommit(item: Item, events: seq<Event>)
    requires item.stockQty.Some?
    ensures TrueAtCommit(Interleave(item, events)) && StockKnown(Interleave(item, events))
  {
    if events != [] {
      VarianceTrueAtCommit(item, events[..|events| - 1]);
    }
  }

  /** The same said of each commit: on an item whose stock is known it goes through exactly when the stock
      is what it was at the read, and then stores the quantities and the variance at that stock; otherwise
      the item stays as it is. */
  lemma EveryCommitIsTrue(item: Item, events: seq<Event>, pid: nat)
    requires item.stockQty.Some? && pid in Interleave(item, events).tickets
    ensures var s := Interleave(item, events);
            var (t, after) := (s.tickets[pid], Step(s, Commit(pid)).item);
            && s.item.stockQty.Some?
            && if s.item.stockQty == t.seen.stockQty then Takes(after, s.item, t.r, s.item.stockQty.value)
               else after == s.item
  {
    VarianceTrueAtCommit(item, events);
  }

  // ---------------------------------------------------------------- quantities replaced without a fork

  /** Committing pid now replaces the quantity of a verified item. */
  predicate Overwrites(s: System, pid: nat) {
    s.item.verified && Step(s, Commit(pid)).item.verifiedQty != s.item.verifiedQty
  }

  /** The requests that may be made of one item; each may be repeated, and pid is made once at a time. */
  type Requests = map<nat, Request>

  predicate Among(reqs: Requests, ev: Event) {
    ev.Fetch? ==> ev.pid in reqs && reqs[ev.pid] == ev.r
  }

  predicate AllAmong(reqs: Requests, events: seq<Event>) {
    forall i | 0 <= i < |events| :: Among(reqs, events[i])
  }

  /** The commit's own view of it: the write goes through, and would have been forked on what is stored
      now. Then the item was not verified with the stored quantity when the request read it. */
  lemma OverwritesIff(item: Item, events: seq<Event>, pid: nat)
    ensures var s := Interleave(item, events);
            && (Overwrites(s, pid) <==>
                  && pid in s.tickets && Matches(s.item, s.tickets[pid].seen)
                  && MaterialConflict(s.item, s.tickets[pid].r))
            && (Overwrites(s, pid) ==>
                  !(s.tickets[pid].seen.verified && s.tickets[pid].seen.verifiedQty == s.item.verifiedQty))
  {
    TicketsPassedTheCheck(item, events);
  }

  /** Every pending request passed the conflict check on what it read. */
  predicate PassedTheCheck(s: System) {
    forall pid | pid in s.tickets :: !MaterialConflict(s.tickets[pid].seen, s.tickets[pid].r)
  }

  lemma {:induction false} TicketsPassedTheCheck(item: Item, events: seq<Event>)
    ensures PassedTheCheck(Interleave(item, events))
  {
    if events != [] {
      var s, ev := Interleave(item, events[..|events| - 1]), events[|events| - 1];
      TicketsPassedTheCheck(item, events[..|events| - 1]);
      assert PassedTheCheck(Step(s, ev));
    }
  }

  /** The request reaches the conflict check. */
  predicate Asks(reqs: Requests, pid: nat) {
    pid in reqs && reqs[pid].isSerialized.None?
  }

  /** The item can stand unverified: it does, or a request that passes the check unverifies it. */
  ghost predicate CanBeUnverified(item: Item, reqs: Requests) {
    !item.verified || exists u :: Asks(reqs, u) && Unverifies(item, reqs[u])
  }

  predicate Unverifies(item: Item, r: Request) {
    !r.verified && (r.verifiedQty.None? || r.verifiedQty == item.verifiedQty)
  }

  /** The item can hold this quantity. */
  ghost predicate CanHold(item: Item, reqs: Requests, qty: Option<real>) {
    qty == item.verifiedQty || exists c :: Asks(reqs, c) && reqs[c].verifiedQty.Some? && reqs[c].verifiedQty == qty
  }

  /** Request a verifies the item with a quantity other than b's: its own, or one the item can hold. */
  ghost predicate Collide(item: Item, reqs: Requests, a: nat, b: nat) {
    && Asks(reqs, a) && Asks(reqs, b) && a != b
    && reqs[a].verified && reqs[b].verifiedQty.Some?
    && if reqs[a].verifiedQty.Some? then reqs[a].verifiedQty != reqs[b].verifiedQty
       else exists qty :: CanHold(item, reqs, qty) && qty != reqs[b].verifiedQty
  }

  ghost predicate SomeCollide(item: Item, reqs: Requests) {
    exists a, b :: Collide(item, reqs, a, b)
  }

  // ---- no collision, no overwriting

  /** Request a has verified the item since b read it. */
  predicate VerifiedBy(s: System, reqs: Requests, a: nat, b: nat) {
    && Asks(reqs, a) && a != b && reqs[a].verified
    && (reqs[a].verifiedQty.Some? ==> s.item.verifiedQty == reqs[a].verifiedQty)
  }

  /** A pending request passes the check on what is stored now, or another has verified the item. */
  ghost predicate PassesOrOvertaken(s: System, reqs: Requests, b: nat)
    requires b in s.tickets
  {
    !MaterialConflict(s.item, s.tickets[b].r) || exists a :: VerifiedBy(s, reqs, a, b)
  }

  ghost predicate Tracked(item: Item, reqs: Requests, s: System) {
    && CanHold(item, reqs, s.item.verifiedQty)
    && (forall b | b in s.tickets :: Asks(reqs, b) && s.tickets[b].r == reqs[b] && PassesOrOvertaken(s, reqs, b))
    && (!CanBeUnverified(item, reqs) ==>
          s.item.verified && s.item.verifiedQty == item.verifiedQty
          && forall b | b in s.tickets :: !MaterialConflict(item, s.tickets[b].r))
  }

  lemma CommitStaysTracked(item: Item, reqs: Requests, s: System, pid: nat)
    requires Tracked(item, reqs, s)
    ensures Tracked(item, reqs, Step(s, Commit(pid)))
  {
    var after := Step(s, Commit(pid));
    if pid in s.tickets && Matches(s.item, s.tickets[pid].seen) {
      var r := s.tickets[pid].r;
      assert Asks(reqs, pid) && r == reqs[pid];
      forall b | b in after.tickets ensures PassesOrOvertaken(after, reqs, b) {
        if r.verified {
          assert VerifiedBy(after, reqs, pid, b);
        }
      }
      if !CanBeUnverified(item, reqs) {
        assert !Unverifies(item, reqs[pid]);
      }
    } else {
      forall b | b in after.tickets ensures PassesOrOvertaken(after, reqs, b) {
        OvertakenStays(s, after, reqs, b);
      }
    }
  }

  lemma OvertakenStays(s: System, after: System, reqs: Requests, b: nat)
    requires b in s.tickets && b in after.tickets && after.tickets[b] == s.tickets[b] && PassesOrOvertaken(s, reqs, b)
    requires after.item.verified == s.item.verified && after.item.verifiedQty == s.item.verifiedQty
    ensures PassesOrOvertaken(after, reqs, b)
  {
    if MaterialConflict(s.item, s.tickets[b].r) {
      var a :| VerifiedBy(s, reqs, a, b);
      assert VerifiedBy(after, reqs, a, b);
    }
  }

  lemma StepStaysTracked(item: Item, reqs: Requests, s: System, ev: Event)
    requires Tracked(item, reqs, s) && Among(reqs, ev)
    ensures Tracked(item, reqs, Step(s, ev))
  {
    if ev.Commit? {
      CommitStaysTracked(item, reqs, s, ev.pid);
    } else {
      var after := Step(s, ev);
      forall b | b in after.tickets ensures PassesOrOvertaken(after, reqs, b) {
        if b in s.tickets && after.tickets[b] == s.tickets[b] {
          OvertakenStays(s, after, reqs, b);
        }
      }
    }
  }

  lemma {:induction false} RunsStayTracked(item: Item, reqs: Requests, events: seq<Event>)
    requires AllAmong(reqs, events)
    ensures Tracked(item, reqs, Interleave(item, events))
  {
    if events != [] {
      RunsStayTracked(item, reqs, events[..|events| - 1]);
      assert Among(reqs, events[|events| - 1]);
      StepStaysTracked(item, reqs, Interleave(item, events[..|events| - 1]), events[|events| - 1]);
    }
  }

  lemma OverwritingNeedsCollision(item: Item, reqs: Requests, events: seq<Event>, pid: nat)
    requires AllAmong(reqs, events) && Overwrites(Interleave(item, events), pid)
    ensures CanBeUnverified(item, reqs) && SomeCollide(item, reqs)
  {
    var s := Interleave(item, events);
    RunsStayTracked(item, reqs, events);
    OverwritesIff(item, events, pid);
    var a :| VerifiedBy(s, reqs, a, pid);
    assert Collide(item, reqs, a, pid);
  }

  // ---- a collision can overwrite

  ghost predicate Reachable(item: Item, reqs: Requests, s: System) {
    exists events :: AllAmong(reqs, events) && Interleave(item, events) == s
  }

  lemma StepIsReachable(item: Item, reqs: Requests, s: System, ev: Event)
    requires Reachable(item, reqs, s) && Among(reqs, ev)
    ensures Reachable(item, reqs, Step(s, ev))
  {
    var events :| AllAmong(reqs, events) && Interleave(item, events) == s;
    assert (events + [ev])[..|events|] == events;
    assert AllAmong(reqs, events + [ev]);
  }

  /** One request from read to commit with nobody in between. */
  lemma Completes(item: Item, reqs: Requests, s: System, pid: nat) returns (after: System)
    requires Reachable(item, reqs, s) && Asks(reqs, pid) && !MaterialConflict(s.item, reqs[pid])
    ensures Reachable(item, reqs, after) && after.item == Updated(s.item, reqs[pid], s.item)
    ensures after.tickets == s.tickets - {pid}
  {
    StepIsReachable(item, reqs, s, Fetch(pid, reqs[pid]));
    var s1 := Step(s, Fetch(pid, reqs[pid]));
    StepIsReachable(item, reqs, s1, Commit(pid));
    after := Step(s1, Commit(pid));
  }

  /** From an unverified item: b reads, a verifies another quantity, b is about to commit. */
  lemma ReadsBeforeVerified(item: Item, reqs: Requests, s: System, a: nat, b: nat) returns (after: System)
    requires Reachable(item, reqs, s) && !s.item.verified
    requires Asks(reqs, a) && Asks(reqs, b) && a != b && reqs[a].verified && reqs[b].verifiedQty.Some?
    requires (if reqs[a].verifiedQty.Some? then reqs[a].verifiedQty else s.item.verifiedQty) != reqs[b].verifiedQty
    ensures Reachable(item, reqs, after) && Overwrites(after, b)
  {
    StepIsReachable(item, reqs, s, Fetch(b, reqs[b]));
    var s1 := Step(s, Fetch(b, reqs[b]));
    after := Completes(item, reqs, s1, a);
  }

  lemma Unverified(item: Item, reqs: Requests) returns (s: System)
    requires CanBeUnverified(item, reqs)
    ensures Reachable(item, reqs, s) && !s.item.verified && s.item.verifiedQty == item.verifiedQty
  {
    assert Interleave(item, []) == System(item, map[], None, 0) && AllAmong(reqs, []);
    s := System(item, map[], None, 0);
    if item.verified {
      var u :| Asks(reqs, u) && Unverifies(item, reqs[u]);
      s := Completes(item, reqs, s, u);
    }
  }

  lemma CollisionOverwrites(item: Item, reqs: Requests, a: nat, b: nat) returns (s: System, pid: nat)
    requires CanBeUnverified(item, reqs) && Collide(item, reqs, a, b)
    ensures Reachable(item, reqs, s) && Overwrites(s, pid)
  {
    s := Unverified(item, reqs);
    pid := b;
    if reqs[a].verifiedQty.Some? || item.verifiedQty != reqs[b].verifiedQty {
      s := ReadsBeforeVerified(item, reqs, s, a, b);
    } else {
      var qty :| CanHold(item, reqs, qty) && qty != reqs[b].verifiedQty;
      var c :| Asks(reqs, c) && reqs[c].verifiedQty.Some? && reqs[c].verifiedQty == qty;
      if reqs[c].verified {
        s := ReadsBeforeVerified(item, reqs, s, c, b);
      } else {
        s := Completes(item, reqs, s, c);
        s := ReadsBeforeVerified(item, reqs, s, a, b);
      }
    }
  }

  /** An interleaving of the requests after which committing pid overwrites a verified quantity. */
  ghost predicate OverwritingRun(item: Item, reqs: Requests, events: seq<Event>, pid: nat) {
    AllAmong(reqs, events) && Overwrites(Interleave(item, events), pid)
  }

  /** Any requests on one item, interleaved in any way with each other and with stock syncs: some commit
      replaces a verified quantity without a fork exactly when the item can stand unverified and one
      request can verify it with a quantity other than another request's. */
  lemma SilentOverwriteIff(item: Item, reqs: Requests)
    ensures (exists events, pid :: OverwritingRun(item, reqs, events, pid))
            <==> CanBeUnverified(item, reqs) && SomeCollide(item, reqs)
  {
    if CanBeUnverified(item, reqs) && SomeCollide(item, reqs) {
      var a, b :| Collide(item, reqs, a, b);
      var s, pid := CollisionOverwrites(item, reqs, a, b);
      var events :| AllAmong(reqs, events) && Interleave(item, events) == s;
      assert OverwritingRun(item, reqs, events, pid);
    }
    forall events, pid | OverwritingRun(item, reqs, events, pid)
      ensures CanBeUnverified(item, reqs) && SomeCollide(item, reqs)
    {
      OverwritingNeedsCollision(item, reqs, events, pid);
    }
  }
}
