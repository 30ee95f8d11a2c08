/** What `validate_entries` accepts, entry by entry (scripts/approval_pipeline.py). */
module ApprovalValidity {
  import opened Common
  import opened CommandRisk
  import opened ApprovalLog

  predicate HexDigits(s: string) {
    |s| == 64 && forall i | 0 <= i < 64 :: '0' <= s[i] <= '9' || 'a' <= s[i] <= 'f'
  }

  /** Entry j is the latest request of this run before position n. */
  predicate LatestRequestAt(log: Log, id: string, n: nat, j: nat) {
    && j < n <= |log| && log[j].body.runId == id && log[j].body.status == Requested
    && forall k | j < k < n :: !(log[k].body.runId == id && log[k].body.status == Requested)
  }

  predicate NoRequestBefore(log: Log, id: string, n: nat)
    requires n <= |log|
  {
    forall k | 0 <= k < n :: !(log[k].body.runId == id && log[k].body.status == Requested)
  }

  /** Entry i is linked, hashed and well-formed, and carries the execution hash of its own command or of the
      latest request of its run. */
  ghost predicate EntryFits(h: Host, log: Log, i: nat)
    requires i < |log|
  {
    var b := log[i].body;
    && b.prevHash == (if i == 0 then Zeros(64) else log[i - 1].hash)
    && log[i].hash == h.sha256(h.canonical(b) + b.prevHash)
    && b.status in {Requested, Approved, Rejected, Executed, Completed, Failed}
    && b.risk in {L0, L1, L2, L3, L4}
    && HexDigits(b.executionHash)
    && (b.details.verification == JNull || b.details.verification.JObject?)
    && if b.status == Requested
       then h.normalize(b.command).Some?
            && b.executionHash == h.sha256(h.normalize(b.command).value + b.runId + b.timestamp)
       else CarriesRequestHash(log, i)
  }

  ghost predicate CarriesRequestHash(log: Log, i: nat)
    requires i < |log|
  {
    exists j: nat :: LatestRequestAt(log, log[i].body.runId, i, j)
                     && log[j].body.executionHash == log[i].body.executionHash
  }

  /** The latest request of the run before position n, if there is one. */
  ghost predicate IsLatestRequest(log: Log, id: string, n: nat, r: Option<Entry>)
    requires n <= |log|
  {
    match r
    case None => NoRequestBefore(log, id, n)
    case Some(e) => exists j: nat :: LatestRequestAt(log, id, n, j) && log[j] == e
  }

  lemma LatestRequestGrows(log: Log, id: string, n: nat, r: Option<Entry>)
    requires n < |log| && IsLatestRequest(log, id, n, r)
    ensures var e := log[n];
            IsLatestRequest(log, id, n + 1, if e.body.runId == id && e.body.status == Requested then Some(e) else r)
  {
    var e := log[n];
    if e.body.runId == id && e.body.status == Requested {
      assert LatestRequestAt(log, id, n + 1, n);
    } else if r.Some? {
      var j: nat :| LatestRequestAt(log, id, n, j) && log[j] == r.value;
      assert LatestRequestAt(log, id, n + 1, j);
    }
  }

  lemma {:induction false} LatestRequestIs(log: Log, id: string, n: nat)
    requires n <= |log|
    ensures IsLatestRequest(log, id, n, LatestRequested(RunEntries(log[..n], id)))
  {
    if n > 0 {
      LatestRequestIs(log, id, n - 1);
      LatestRequestGrows(log, id, n - 1, LatestRequested(RunEntries(log[..n - 1], id)));
      assert log[..n] == log[..n - 1] + [log[n - 1]];
      RunEntriesSnoc(log[..n - 1], log[n - 1], id);
      LatestRequestedSnoc(RunEntries(log[..n - 1], id), log[n - 1]);
    }
  }

  lemma OneLatestRequest(log: Log, id: string, n: nat, i: nat, j: nat)
    requires LatestRequestAt(log, id, n, i) && LatestRequestAt(log, id, n, j)
    ensures i == j
  {
  }

  /** A later entry carries the hash of its run's latest request exactly when validation finds it so. */
  lemma CarriesIff(log: Log, i: nat)
    requires i < |log|
    ensures var request := LatestRequested(RunEntries(log[..i], log[i].body.runId));
            CarriesRequestHash(log, i)
            <==> request.Some? && request.value.body.executionHash == log[i].body.executionHash
  {
    var id := log[i].body.runId;
    LatestRequestIs(log, id, i);
    var request := LatestRequested(RunEntries(log[..i], id));
    if request.Some? {
      var j: nat :| LatestRequestAt(log, id, i, j) && log[j] == request.value;
      forall k: nat | LatestRequestAt(log, id, i, k) ensures k == j {
        OneLatestRequest(log, id, i, k, j);
      }
    }
  }

  /** An entry fits exactly when it is not refused after those before it. */
  lemma FitsIffNotRefused(h: Host, log: Log, i: nat)
    requires i < |log|
    ensures EntryFits(h, log, i) <==> Refusal(h, log[..i], log[i]).None?
  {
    CarriesIff(log, i);
  }

  /** `validate_entries` accepts a log exactly when every entry fits the entries before it. */
  lemma AcceptedIff(h: Host, log: Log)
    ensures Accepted(h, log) <==> forall i: nat | i < |log| :: EntryFits(h, log, i)
  {
    AcceptedIffPrefix(h, log, |log|);
    assert log[..|log|] == log;
  }

  ghost predicate AllFit(h: Host, log: Log, n: nat)
    requires n <= |log|
  {
    forall i: nat | i < n :: EntryFits(h, log, i)
  }

  lemma AcceptedStep(h: Host, log: Log, n: nat)
    requires n < |log|
    ensures Accepted(h, log[..n + 1]) <==> Accepted(h, log[..n]) && Refusal(h, log[..n], log[n]).None?
  {
    assert log[..n + 1][..n] == log[..n];
  }

  lemma AllFitStep(h: Host, log: Log, n: nat)
    requires n < |log|
    ensures AllFit(h, log, n + 1) <==> AllFit(h, log, n) && EntryFits(h, log, n)
  {
  }

  lemma {:induction false} AcceptedIffPrefix(h: Host, log: Log, n: nat)
    requires n <= |log|
    ensures Accepted(h, log[..n]) <==> AllFit(h, log, n)
  {
    if n > 0 {
      AcceptedIffPrefix(h, log, n - 1);
      AcceptedStep(h, log, n - 1);
      AllFitStep(h, log, n - 1);
      FitsIffNotRefused(h, log, n - 1);
    }
  }
}
