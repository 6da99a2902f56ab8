/** The certificate manager: issuing and installing bundles, and when the
    rotation loop wakes up to do so.  Times are nanoseconds since the epoch. */
module Rotation {
  import opened Int64
  import opened TlsCache

  const NUMERATOR: int := 80
  const DENOMINATOR: nat := 100
  const MIN_WAIT: int := 30 * SECOND

  datatype Meta = Meta(notBefore: int, notAfter: int)

  /** Validity metadata the loop can work with. */
  predicate Known(m: Meta) {
    m.notBefore != ZERO_TIME && m.notAfter != ZERO_TIME && m.notBefore < m.notAfter
  }

  function RotationPoint(m: Meta): int {
    m.notBefore + Quotient(Wrap(Saturate(m.notAfter - m.notBefore) * NUMERATOR), DENOMINATOR)
  }

  /** `t0` and `t1` are the two readings of the clock. */
  function RenewAt(m: Meta, retry: int, t0: int, t1: int): int {
    if !Known(m) then t0 + retry
    else if RotationPoint(m) < t0 then t1 + MIN_WAIT
    else RotationPoint(m)
  }

  function Max(a: int, b: int): int { if a < b then b else a }

  /** When the loop starts its attempt, with `t2` the reading behind `time.Until`. */
  function WakeAt(m: Meta, retry: int, t0: int, t1: int, t2: int): int {
    t2 + Max(Saturate(RenewAt(m, retry, t0, t1) - t2), MIN_WAIT)
  }

  // ------------------------------------------------------------------ the manager

  /** What Vault answers: a bundle with its validity, and how many of the three
      renames succeed before one fails. */
  datatype Issue = VaultError | Issued(bundle: Bundle, meta: Meta, renames: nat)

  datatype Attempt = ClientError | Tried(issue: Issue)

  /** One turn of the loop: three clock readings, then the attempt. */
  datatype Turn = Turn(t0: int, t1: int, t2: int, attempt: Attempt)

  predicate Installs(i: Issue) {
    i.Issued? && Valid(i.bundle) && i.renames >= 3
  }

  function DiskAfter(d: Disk, i: Issue): Disk {
    if i.Issued? && Valid(i.bundle) then Written(d, i.bundle, i.renames) else d
  }

  datatype Progress = Progress(meta: Meta, disk: Disk, wakes: seq<int>)

  function AfterTurn(p: Progress, retry: int, t: Turn): Progress {
    var wake := WakeAt(p.meta, retry, t.t0, t.t1, t.t2);
    var wakes := p.wakes + [wake];
    match t.attempt
    case ClientError => p.(wakes := wakes)
    case Tried(i) => Progress(if Installs(i) then i.meta else p.meta, DiskAfter(p.disk, i), wakes)
  }

  function AfterTurns(p: Progress, retry: int, turns: seq<Turn>): Progress {
    if turns == [] then p
    else AfterTurn(AfterTurns(p, retry, turns[..|turns| - 1]), retry, turns[|turns| - 1])
  }

  class CertManager {
    const retry: int
    var current: Meta
    var disk: Disk

    constructor (retry: int, disk: Disk)
      ensures this.retry == retry && this.disk == disk && current == Meta(ZERO_TIME, ZERO_TIME)
    {
      this.retry, this.disk, current := retry, disk, Meta(ZERO_TIME, ZERO_TIME);
    }

    /** Checks the whole bundle, then replaces key, certificate and CA in turn. */
    method WriteCertBundleAtomic(b: Bundle, renames: nat) returns (ok: bool)
      modifies this`disk
      ensures Valid(b) <==> b.cert.usable && b.key.usable && b.cert.pair == b.key.pair && b.ca.usable
      ensures ok <==> Valid(b) && renames >= 3
      ensures disk == if Valid(b) then Written(old(disk), b, renames) else old(disk)
      ensures disk.keys == old(disk.keys) + if Valid(b) && renames >= 1 then [b.key] else []
      ensures disk.certs == old(disk.certs) + if Valid(b) && renames >= 2 then [b.cert] else []
      ensures disk.cas == old(disk.cas) + if Valid(b) && renames >= 3 then [b.ca] else []
    {
      if !Loads(b.cert, b.key) || !b.ca.usable { return false; }
      if renames < 1 { return false; }
      disk := Renamed(disk, KeyPath, b.key);
      if renames < 2 { return false; }
      disk := Renamed(disk, CertPath, b.cert);
      if renames < 3 { return false; }
      disk := Renamed(disk, CaPath, b.ca);
      return true;
    }

    method IssueAndPersist(i: Issue) returns (ok: bool)
      modifies this`disk, this`current
      ensures ok == Installs(i)
      ensures disk == DiskAfter(old(disk), i)
      ensures current == if Installs(i) then i.meta else old(current)
    {
      if i.VaultError? { return false; }
      ok := WriteCertBundleAtomic(i.bundle, i.renames);
      if ok { current := i.meta; }
    }

    method NextRenewAt(t0: int, t1: int) returns (at: int)
      ensures at == RenewAt(current, retry, t0, t1)
    {
      if current.notAfter == ZERO_TIME || current.notBefore == ZERO_TIME || !(current.notAfter > current.notBefore) {
        return t0 + retry;
      }
      var lifetime := Saturate(current.notAfter - current.notBefore);
      var point := current.notBefore + Quotient(Wrap(lifetime * NUMERATOR), DENOMINATOR);
      if point < t0 { return t1 + MIN_WAIT; }
      return point;
    }

    /** The loop, until its context is cancelled after the given turns. */
    method RotationLoop(turns: seq<Turn>) returns (wakes: seq<int>)
      modifies this`disk, this`current
      ensures Progress(current, disk, wakes) == AfterTurns(Progress(old(current), old(disk), []), retry, turns)
    {
      wakes := [];
      for n := 0 to |turns|
        invariant Progress(current, disk, wakes) == AfterTurns(Progress(old(current), old(disk), []), retry, turns[..n])
      {
        var t := turns[n];
        assert turns[..n + 1][..n] == turns[..n];
        var renewAt := NextRenewAt(t.t0, t.t1);
        var wait := Saturate(renewAt - t.t2);
        if wait < MIN_WAIT { wait := MIN_WAIT; }
        wakes := wakes + [t.t2 + wait];
        match t.attempt
        case ClientError =>
        case Tried(i) => var _ := IssueAndPersist(i);
      }
      assert turns[..|turns|] == turns;
    }
  }

  // -------------------------------------------------------------------- arithmetic

  /** The longest lifetime whose product with the numerator fits 64 bits:
      about 3.65 years. */
  const LONGEST: int := MAX / NUMERATOR

  /** The rotation point is four fifths into the lifetime, rounded down, if and
      only if the lifetime is at most `LONGEST`; then it lies in the validity
      period with a fifth, rounded up, still to go. */
  lemma RotationPointExact(m: Meta)
    requires m.notBefore < m.notAfter
    ensures
      var lifetime := m.notAfter - m.notBefore;
      && (RotationPoint(m) == m.notBefore + lifetime * 4 / 5 <==> lifetime <= LONGEST)
      && (lifetime <= LONGEST ==>
            && m.notBefore <= RotationPoint(m) < m.notAfter
            && m.notAfter - RotationPoint(m) == (lifetime + 4) / 5)
  {
    var lifetime := m.notAfter - m.notBefore;
    var product := Saturate(lifetime) * NUMERATOR;
    if lifetime <= LONGEST {
      assert Wrap(product) == product == lifetime * 80;
      assert lifetime * 80 / 100 == lifetime * 4 / 5;
    } else {
      assert product > MAX;
      WrapDrops(product);
      assert Quotient(Wrap(product), DENOMINATOR) < product / 100;
      assert product / 100 <= lifetime * 80 / 100 == lifetime * 4 / 5;
    }
  }

  lemma WrapDrops(x: int)
    requires x > MAX
    ensures Wrap(x) <= x - SPAN
  {
    var q := (x - MIN) / SPAN;
    assert x - MIN == q * SPAN + (x - MIN) % SPAN;
    assert q >= 1;
  }

  /** A five-year certificate is past the bound: its rotation point falls before
      it is even valid. */
  lemma FiveYearCertificateRotatesAtOnce(notBefore: int)
    ensures
      var fiveYears := 5 * 365 * 24 * 60 * MINUTE;
      RotationPoint(Meta(notBefore, notBefore + fiveYears)) < notBefore
  {
    var fiveYears := 5 * 365 * 24 * 60 * MINUTE;
    assert Wrap(fiveYears * 80) == fiveYears * 80 - SPAN;
  }

  /** For every lifetime, overflowing or not, rotation is due before expiry. */
  lemma RotationBeforeExpiry(m: Meta)
    requires m.notBefore < m.notAfter
    ensures RotationPoint(m) < m.notAfter
  {
    var lifetime := m.notAfter - m.notBefore;
    var product := Saturate(lifetime) * NUMERATOR;
    if lifetime <= LONGEST {
      RotationPointExact(m);
    } else {
      WrapDrops(product);
      assert Quotient(Wrap(product), DENOMINATOR) < product / 100;
    }
  }

  /** The attempt never starts sooner than the minimum wait or before the
      rotation point, and starts before expiry when more than the minimum wait
      of validity is left. */
  lemma AttemptStartsInTime(m: Meta, retry: int, t0: int, t1: int, t2: int)
    requires Known(m) && t0 <= t1 <= t2
    ensures
      var wake := WakeAt(m, retry, t0, t1, t2);
      && t2 + MIN_WAIT <= wake
      && (m.notAfter - t2 > MIN_WAIT ==> wake < m.notAfter)
      && (RotationPoint(m) - t2 <= MAX ==> RotationPoint(m) <= wake)
      && (RotationPoint(m) <= t0 ==> wake == t2 + MIN_WAIT)
  {
    RotationBeforeExpiry(m);
  }

  /** Exactly when the loop wakes.  While the rotation point lies ahead it wakes
      there, at four fifths of a lifetime that does not overflow; once it has
      passed, after 30 seconds; without known validity, after the retry interval;
      never sooner than after 30 seconds or later than a 64-bit duration. */
  lemma WakesAtRotationPoint(m: Meta, retry: int, t0: int, t1: int, t2: int)
    requires t0 <= t1 <= t2
    ensures
      var wake, soonest := WakeAt(m, retry, t0, t1, t2), t2 + 30_000_000_000;
      var lifetime, point := m.notAfter - m.notBefore, RotationPoint(m);
      && (Known(m) && lifetime <= LONGEST ==> point == m.notBefore + lifetime * 4 / 5)
      && (Known(m) && point < t0 ==> wake == soonest)
      && (Known(m) && t0 <= point <= t2 + MAX ==> wake == if point < soonest then soonest else point)
      && (Known(m) && point > t2 + MAX ==> wake == t2 + MAX)
      && (!Known(m) && t0 + retry <= t2 + MAX ==> wake == if t0 + retry < soonest then soonest else t0 + retry)
  {
    if Known(m) { RotationPointExact(m); }
  }

  /** Turn `i` waits for the certificate that was installed last before it, at
      turn `j`, or for the one the loop started with if there was none. */
  lemma {:induction false} LoopFollowsCertificate(p: Progress, retry: int, turns: seq<Turn>, i: nat) returns (j: int)
    requires p.wakes == [] && i < |turns|
    ensures -1 <= j < i && (j >= 0 ==> turns[j].attempt.Tried? && Installs(turns[j].attempt.issue))
    ensures forall k :: j < k < i ==> Fails(turns[k].attempt)
    ensures
      var wakes, t := AfterTurns(p, retry, turns).wakes, turns[i];
      && |wakes| == |turns|
      && wakes[i] == WakeAt(if j < 0 then p.meta else turns[j].attempt.issue.meta, retry, t.t0, t.t1, t.t2)
  {
    WakesRecorded(p, retry, turns, i);
    j := LastInstalled(p, retry, turns[..i]);
  }

  lemma {:induction false} WakesRecorded(p: Progress, retry: int, turns: seq<Turn>, i: nat)
    requires p.wakes == [] && i < |turns|
    ensures
      var wakes, t := AfterTurns(p, retry, turns).wakes, turns[i];
      && |wakes| == |turns|
      && wakes[i] == WakeAt(AfterTurns(p, retry, turns[..i]).meta, retry, t.t0, t.t1, t.t2)
  {
    var init := turns[..|turns| - 1];
    if i < |init| {
      WakesRecorded(p, retry, init, i);
      assert init[..i] == turns[..i];
    } else if init != [] {
      WakesRecorded(p, retry, init, 0);
    }
  }

  lemma {:induction false} LastInstalled(p: Progress, retry: int, turns: seq<Turn>) returns (j: int)
    ensures -1 <= j < |turns| && (j >= 0 ==> turns[j].attempt.Tried? && Installs(turns[j].attempt.issue))
    ensures forall k :: j < k < |turns| ==> Fails(turns[k].attempt)
    ensures AfterTurns(p, retry, turns).meta == if j < 0 then p.meta else turns[j].attempt.issue.meta
  {
    j := -1;
    if turns != [] {
      var n := |turns| - 1;
      j := LastInstalled(p, retry, turns[..n]);
      if !Fails(turns[n].attempt) { j := n; }
    }
  }

  // ---------------------------------------------------------- while Vault is failing

  /** Turns in order: each starts after the previous wake-up, reads its clocks in
      order, and is waiting again at most `d` after the previous attempt began. */
  ghost predicate Paced(turns: seq<Turn>, wakes: seq<int>, d: int) {
    && |turns| == |wakes|
    && (forall i :: 0 <= i < |turns| ==> turns[i].t0 <= turns[i].t1 <= turns[i].t2)
    && (forall i :: 0 < i < |turns| ==> wakes[i - 1] <= turns[i].t0 && turns[i].t2 <= wakes[i - 1] + d)
  }

  predicate Fails(a: Attempt) {
    a.ClientError? || !Installs(a.issue)
  }

  lemma {:induction false} FailingTurns(p: Progress, retry: int, turns: seq<Turn>)
    requires p.wakes == [] && forall i :: 0 <= i < |turns| ==> Fails(turns[i].attempt)
    ensures
      var r := AfterTurns(p, retry, turns);
      && r.meta == p.meta && |r.wakes| == |turns|
      && forall i :: 0 <= i < |turns| ==> r.wakes[i] == WakeAt(p.meta, retry, turns[i].t0, turns[i].t1, turns[i].t2)
  {
    if turns != [] {
      FailingTurns(p, retry, turns[..|turns| - 1]);
    }
  }

  lemma {:induction false} WakesKeepPace(m: Meta, retry: int, turns: seq<Turn>, wakes: seq<int>, d: int, i: nat)
    requires Known(m) && Paced(turns, wakes, d) && i < |turns|
    requires RotationPoint(m) - turns[0].t2 <= MAX
    requires forall j :: 0 <= j < |turns| ==> wakes[j] == WakeAt(m, retry, turns[j].t0, turns[j].t1, turns[j].t2)
    ensures RotationPoint(m) <= wakes[i] && wakes[i] <= wakes[0] + i * (MIN_WAIT + d)
  {
    var t := turns[i];
    AttemptStartsInTime(m, retry, t.t0, t.t1, t.t2);
    if i > 0 {
      WakesKeepPace(m, retry, turns, wakes, d, i - 1);
      assert (i - 1) * (MIN_WAIT + d) + (MIN_WAIT + d) == i * (MIN_WAIT + d);
    }
  }

  /** While every attempt fails, with at most `d` spent on each, the loop starts
      one attempt per `MIN_WAIT + d` until expiry: every attempt whose turn comes
      up within the remaining validity starts before the certificate expires. */
  lemma AttemptsBeforeExpiry(p: Progress, retry: int, turns: seq<Turn>, d: int)
    requires p.wakes == [] && turns != [] && Known(p.meta) && d >= 0
    requires forall i :: 0 <= i < |turns| ==> Fails(turns[i].attempt)
    requires Paced(turns, AfterTurns(p, retry, turns).wakes, d)
    requires RotationPoint(p.meta) - turns[0].t2 <= MAX
    ensures
      var wakes := AfterTurns(p, retry, turns).wakes;
      && |wakes| == |turns|
      && forall i :: 0 <= i < |turns| && i * (MIN_WAIT + d) < p.meta.notAfter - wakes[0] ==> wakes[i] < p.meta.notAfter
  {
    FailingTurns(p, retry, turns);
    var wakes := AfterTurns(p, retry, turns).wakes;
    forall i | 0 <= i < |turns| && i * (MIN_WAIT + d) < p.meta.notAfter - wakes[0] ensures wakes[i] < p.meta.notAfter {
      WakesKeepPace(p.meta, retry, turns, wakes, d, i);
    }
  }
}
