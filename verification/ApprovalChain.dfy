/** Tamper evidence of the approval log's hash chain. */
module ApprovalChain {
  import opened ApprovalLog

  /** What is assumed of the hash and the encoding: digests are 64 characters long, and canonical
      JSON tells different payloads apart. Nothing is assumed about collisions. */
  ghost predicate Sound(h: Host) {
    && (forall x: string :: |h.sha256(x)| == 64)
    && (forall a: Body, b: Body :: h.canonical(a) == h.canonical(b) ==> a == b)
  }

  /** The string whose digest is the hash of the last entry of an accepted log. */
  function HeadPreimage(h: Host, log: Log): (x: string)
    requires Accepted(h, log) && log != []
    ensures h.sha256(x) == HeadHash(log)
  {
    var e := log[|log| - 1];
    h.canonical(e.body) + HeadHash(log[..|log| - 1])
  }

  /** The outcome of comparing two logs that end in the same hash. */
  datatype Finding = Identical | Collision(x: string, y: string) | GenesisPreimage(x: string)

  ghost predicate Genuine(h: Host, f: Finding) {
    match f
    case Identical => true
    case Collision(x, y) => x != y && h.sha256(x) == h.sha256(y)
    case GenesisPreimage(x) => h.sha256(x) == GENESIS_HASH
  }

  lemma {:induction false} HashLength(h: Host, log: Log)
    requires Sound(h) && Accepted(h, log)
    ensures |HeadHash(log)| == 64
  {
  }

  /** Equal preimages come from equal payloads and equal previous hashes. */
  lemma SamePreimage(h: Host, a: Log, b: Log)
    requires Sound(h) && Accepted(h, a) && Accepted(h, b) && a != [] && b != []
    requires HeadPreimage(h, a) == HeadPreimage(h, b)
    ensures a[|a| - 1] == b[|b| - 1]
    ensures HeadHash(a[..|a| - 1]) == HeadHash(b[..|b| - 1])
  {
    var pa, pb := HeadHash(a[..|a| - 1]), HeadHash(b[..|b| - 1]);
    var ca, cb := h.canonical(a[|a| - 1].body), h.canonical(b[|b| - 1].body);
    HashLength(h, a[..|a| - 1]);
    HashLength(h, b[..|b| - 1]);
    assert ca + pa == cb + pb;
    assert |ca| == |cb|;
    assert ca == (ca + pa)[..|ca|] == (cb + pb)[..|cb|] == cb;
    assert pa == (ca + pa)[|ca|..] == (cb + pb)[|cb|..] == pb;
  }

  /** Two accepted logs with the same head hash are the same log, or this walk back along the two
      chains returns a collision of the hash function or a preimage of the genesis hash. */
  function Compare(h: Host, a: Log, b: Log): (f: Finding)
    requires Sound(h) && Accepted(h, a) && Accepted(h, b)
    requires HeadHash(a) == HeadHash(b)
    ensures Genuine(h, f)
    ensures f == Identical <==> a == b
  {
    if a == [] && b == [] then Identical
    else if a == [] then GenesisPreimage(HeadPreimage(h, b))
    else if b == [] then GenesisPreimage(HeadPreimage(h, a))
    else
      var x, y := HeadPreimage(h, a), HeadPreimage(h, b);
      if x != y then
        Collision(x, y)
      else
        SamePreimage(h, a, b);
        assert a == a[..|a| - 1] + [a[|a| - 1]] && b == b[..|b| - 1] + [b[|b| - 1]];
        Compare(h, a[..|a| - 1], b[..|b| - 1])
  }

  /** A recorded hash commits to everything up to it: an accepted log whose head occurs as a hash
      inside `a` is a prefix of `a`, so an edit, a reorder or an interior deletion that leaves any
      later hash in place shows up as a genuine break of the hash function. */
  lemma HeadCommitsToPrefix(h: Host, a: Log, k: nat, b: Log) returns (f: Finding)
    requires Sound(h) && Accepted(h, a) && Accepted(h, b)
    requires k < |a| && HeadHash(b) == a[k].hash
    ensures Genuine(h, f)
    ensures f == Identical <==> b == a[..k + 1]
  {
    AcceptedPrefix(h, a, k + 1);
    f := Compare(h, a[..k + 1], b);
  }

  /** An edit that keeps the hash column: whatever is changed in the recorded payloads, the
      altered log is refused or the change yields a collision. */
  lemma EditedPayloadIsRefused(h: Host, a: Log, i: nat, body: Body) returns (f: Finding)
    requires Sound(h) && Accepted(h, a) && i < |a| && body != a[i].body
    ensures Accepted(h, a[i := Entry(body, a[i].hash)]) ==> f.Collision? && Genuine(h, f)
  {
    var b := a[i := Entry(body, a[i].hash)];
    f := Identical;
    if Accepted(h, b) {
      AcceptedAt(h, a, i);
      AcceptedAt(h, b, i);
      assert b[..i] == a[..i];
      var prev := HeadHash(a[..i]);
      f := Collision(h.canonical(a[i].body) + prev, h.canonical(body) + prev);
      assert f.x[..|f.x| - |prev|] == h.canonical(a[i].body);
      assert f.y[..|f.y| - |prev|] == h.canonical(body);
    }
  }
}
