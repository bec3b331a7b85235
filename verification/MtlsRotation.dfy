/**
 Zero-downtime rotation of the mTLS certificates: scripts/mtls-rotation/mtls-rotation.js.
 A PEM text is the list of the CAs in it. Every call to the cluster or the issuer may be rejected, and
 then has had no effect; the clock and the error rates are inputs.
 */
module MtlsRotation {
  import opened Prelude

  type Ca = nat
  datatype Cert = Cert(serial: nat, issuer: Ca)
  datatype Bundle = Bundle(cert: Cert, key: nat, ca: seq<Ca>)

  /** The three secrets. `caCert` is absent when the secret has no such entry. */
  datatype CaSecret = CaSecret(caCert: Option<seq<Ca>>, caKey: nat, chain: seq<Ca>, root: seq<Ca>)
  datatype TlsSecret = TlsSecret(crt: Cert, key: nat, ca: seq<Ca>)
  datatype Secrets = Secrets(cacerts: CaSecret, gateway: TlsSecret, backend: TlsSecret)

  datatype Phase = Idle | Issuing | DualTrust | MonitoringPostDistribution | Cutover
                 | MonitoringPostCutover | Cleanup | Complete | RollingBack | RolledBack

  // ---------------------------------------------------------------- what the outside does

  /** Whether each call of one `distribute` is accepted. */
  datatype Calls = Calls(cacerts: bool, restart: bool, gateway: bool, backend: bool)

  /** One turn of the monitoring loop: the clock at its test, the error rate (absent when the query is
      rejected), and the clock after the check. */
  datatype Poll = Poll(now: int, rate: Option<int>, after: int)
  datatype Window = Window(start: int, polls: seq<Poll>)

  datatype Target = CacertsSecret | GatewaySecret | BackendSecret

  /** The restores run in parallel: the order in which they take effect, and which are accepted. */
  datatype Restores = Restores(order: seq<Target>, accepted: set<Target>, restart: bool)

  datatype Script = Script(backup: bool, bundle: Option<Bundle>, first: Calls, window1: Window,
                           second: Calls, window2: Window, restores: Restores)

  // ---------------------------------------------------------------- distribution

  /** The CA bundle written to Istio: old and new CA together in the dual-trust phase, if there is an old
      one. */
  function CaBundle(bundle: Bundle, dualTrust: bool, oldCa: Option<seq<Ca>>): seq<Ca> {
    if dualTrust && oldCa.Some? && oldCa.value != [] then oldCa.value + bundle.ca else bundle.ca
  }

  /** The secrets after the first `n` of the three writes. */
  function AfterWrites(s: Secrets, bundle: Bundle, trust: seq<Ca>, n: nat): Secrets {
    var tls := TlsSecret(bundle.cert, bundle.key, bundle.ca);
    Secrets(if n >= 1 then CaSecret(Some(trust), bundle.key, trust, trust) else s.cacerts,
            if n >= 2 then tls else s.gateway,
            if n >= 3 then tls else s.backend)
  }

  /** How many of the writes are made before a call is rejected. */
  function Writes(calls: Calls): nat {
    if !calls.cacerts then 0
    else if !calls.restart || !calls.gateway then 1
    else if !calls.backend then 2
    else 3
  }

  /** The state of the secrets after every single write. */
  function States(s: Secrets, bundle: Bundle, trust: seq<Ca>, n: nat): seq<Secrets> {
    seq(n, i requires 0 <= i < n => AfterWrites(s, bundle, trust, i + 1))
  }

  // ---------------------------------------------------------------- monitoring

  predicate Within(rate: Option<int>, threshold: int) { rate.Some? && rate.value <= threshold }

  /** Whether monitoring from poll `i` on ends well, and how many rates it has read by then. */
  function Monitored(polls: seq<Poll>, deadline: int, threshold: int, i: nat): (bool, nat)
    decreases |polls| - i
  {
    if i >= |polls| || polls[i].now >= deadline then (true, i)
    else if !Within(polls[i].rate, threshold) then (false, i + 1)
    else if polls[i].after >= deadline then (true, i + 1)
    else Monitored(polls, deadline, threshold, i + 1)
  }

  /** The clock gets past the end of the window. */
  predicate TimePasses(w: Window, windowMs: int) {
    w.polls != [] && w.polls[|w.polls| - 1].now >= w.start + windowMs
  }

  predicate Passes(w: Window, windowMs: int, threshold: int) {
    Monitored(w.polls, w.start + windowMs, threshold, 0).0
  }

  /** A window passes exactly when every poll taken in it found the rate within the threshold, up to the
      first moment at which the deadline was seen to be over; it fails at the first poll that did not. */
  lemma {:induction false} PassesMeansAllWithin(polls: seq<Poll>, deadline: int, threshold: int, i: nat)
    requires i < |polls| && polls[|polls| - 1].now >= deadline
    ensures var (ok, n) := Monitored(polls, deadline, threshold, i);
            && i <= n <= |polls|
            && (forall j :: i <= j < n ==> polls[j].now < deadline)
            && (forall j :: i <= j < n - 1 ==> polls[j].after < deadline)
            && (forall j :: i <= j < n - 1 ==> polls[j].rate.Some? && polls[j].rate.value <= threshold)
            && (ok ==> forall j :: i <= j < n ==> polls[j].rate.Some? && polls[j].rate.value <= threshold)
            && (ok ==> (n < |polls| && polls[n].now >= deadline) || (n > i && polls[n - 1].after >= deadline))
            && (!ok ==> n > i && (polls[n - 1].rate.None? || polls[n - 1].rate.value > threshold))
    decreases |polls| - i
  {
    if polls[i].now < deadline && Within(polls[i].rate, threshold) && polls[i].after < deadline {
      PassesMeansAllWithin(polls, deadline, threshold, i + 1);
    }
  }

  /** The first `n` polls of a window are in time and within the threshold, and with them the window is over. */
  predicate WatchedFor(w: Window, windowMs: int, threshold: int, n: nat) {
    var deadline := w.start + windowMs;
    && n <= |w.polls|
    && (forall j :: 0 <= j < n ==> w.polls[j].now < deadline)
    && (forall j :: 0 <= j < n ==> w.polls[j].rate.Some? && w.polls[j].rate.value <= threshold)
    && (forall j :: 0 <= j < n - 1 ==> w.polls[j].after < deadline)
    && ((n < |w.polls| && w.polls[n].now >= deadline) || (n > 0 && w.polls[n - 1].after >= deadline))
  }

  lemma PassesIffWatched(w: Window, windowMs: int, threshold: int)
    requires TimePasses(w, windowMs)
    ensures Passes(w, windowMs, threshold) <==> exists n :: WatchedFor(w, windowMs, threshold, n)
  {
    PassesMeansAllWithin(w.polls, w.start + windowMs, threshold, 0);
    var (ok, m) := Monitored(w.polls, w.start + windowMs, threshold, 0);
    if ok { assert WatchedFor(w, windowMs, threshold, m); }
  }

  /** A window that passes still passes under a higher threshold. */
  lemma HigherThresholdPasses(w: Window, windowMs: int, low: int, high: int)
    requires TimePasses(w, windowMs) && low <= high && Passes(w, windowMs, low)
    ensures Passes(w, windowMs, high)
  {
    PassesIffWatched(w, windowMs, low);
    var n :| WatchedFor(w, windowMs, low, n);
    assert WatchedFor(w, windowMs, high, n);
    PassesIffWatched(w, windowMs, high);
  }

  // ---------------------------------------------------------------- the course of a rotation

  /** The bundle has been distributed alongside the old CA. */
  predicate Distributed(sc: Script) { sc.backup && sc.bundle.Some? && Writes(sc.first) == 3 }

  predicate CutsOver(sc: Script, windowMs: int, threshold: int) {
    Distributed(sc) && Passes(sc.window1, windowMs, threshold)
  }

  predicate Finishes(sc: Script, windowMs: int, threshold: int) {
    CutsOver(sc, windowMs, threshold) && Writes(sc.second) == 3 && Passes(sc.window2, windowMs, threshold)
  }

  /** Monitoring, and nothing else, starts a rollback. */
  predicate RollsBack(sc: Script, windowMs: int, threshold: int) {
    || (Distributed(sc) && !Passes(sc.window1, windowMs, threshold))
    || (CutsOver(sc, windowMs, threshold) && Writes(sc.second) == 3 && !Passes(sc.window2, windowMs, threshold))
  }

  predicate Restored(sc: Script, windowMs: int, threshold: int) {
    && RollsBack(sc, windowMs, threshold)
    && ALL <= sc.restores.accepted
    && sc.restores.restart
  }

  const SUCCESS := [Issuing, DualTrust, MonitoringPostDistribution, Cutover, MonitoringPostCutover, Cleanup, Complete]
  const EARLY_ROLLBACK := [Issuing, DualTrust, MonitoringPostDistribution, RollingBack, RolledBack]
  const LATE_ROLLBACK :=
    [Issuing, DualTrust, MonitoringPostDistribution, Cutover, MonitoringPostCutover, RollingBack, RolledBack]

  /** The secrets after every write of the forward phases. */
  function Forward(s: Secrets, sc: Script, windowMs: int, threshold: int): seq<Secrets> {
    if !sc.backup || sc.bundle.None? then []
    else
      var b := sc.bundle.value;
      var first := States(s, b, CaBundle(b, true, s.cacerts.caCert), Writes(sc.first));
      if !CutsOver(sc, windowMs, threshold) then first
      else
        var mid := AfterWrites(s, b, CaBundle(b, true, s.cacerts.caCert), 3);
        first + States(mid, b, CaBundle(b, false, s.cacerts.caCert), Writes(sc.second))
  }

  predicate IsOrder(order: seq<Target>) {
    && |order| == 3
    && CacertsSecret in order && GatewaySecret in order && BackendSecret in order
  }

  const ALL := {CacertsSecret, GatewaySecret, BackendSecret}

  /** The secrets with those in `which` put back. */
  function PutBack(s: Secrets, snapshot: Secrets, which: set<Target>): Secrets {
    Secrets(if CacertsSecret in which then snapshot.cacerts else s.cacerts,
            if GatewaySecret in which then snapshot.gateway else s.gateway,
            if BackendSecret in which then snapshot.backend else s.backend)
  }

  /** The secrets after the last write of the forward phases. */
  function Written(s: Secrets, sc: Script, windowMs: int, threshold: int): Secrets {
    if !sc.backup || sc.bundle.None? then s
    else
      var b := sc.bundle.value;
      var mid := AfterWrites(s, b, CaBundle(b, true, s.cacerts.caCert), Writes(sc.first));
      if !CutsOver(sc, windowMs, threshold) then mid
      else AfterWrites(mid, b, CaBundle(b, false, s.cacerts.caCert), Writes(sc.second))
  }

  /** What a rotation leaves: what it wrote, with what a rollback puts back. */
  function Outcome(s: Secrets, sc: Script, windowMs: int, threshold: int): Secrets {
    var d := Written(s, sc, windowMs, threshold);
    if RollsBack(sc, windowMs, threshold) then PutBack(d, s, ALL * sc.restores.accepted) else d
  }

  /** The phases a rotation goes through. */
  function Trace(sc: Script, windowMs: int, threshold: int): seq<Phase> {
    if !sc.backup then []
    else if sc.bundle.None? then [Issuing]
    else if Writes(sc.first) < 3 then [Issuing, DualTrust]
    else [Issuing, DualTrust, MonitoringPostDistribution]
         + if !Passes(sc.window1, windowMs, threshold) then Undoing(sc.restores)
           else CutoverTrace(sc, windowMs, threshold)
  }

  function CutoverTrace(sc: Script, windowMs: int, threshold: int): seq<Phase> {
    if Writes(sc.second) < 3 then [Cutover]
    else [Cutover, MonitoringPostCutover]
         + if !Passes(sc.window2, windowMs, threshold) then Undoing(sc.restores) else [Cleanup, Complete]
  }

  function Undoing(restores: Restores): seq<Phase> {
    if ALL <= restores.accepted && restores.restart then [RollingBack, RolledBack] else [RollingBack]
  }

  /** A trace is a prefix of the success sequence or of one of the two rollback sequences, and reaches each
      decisive phase exactly when it should. */
  predicate TraceFits(t: seq<Phase>, sc: Script, windowMs: int, threshold: int) {
    && (t <= SUCCESS || t <= EARLY_ROLLBACK || t <= LATE_ROLLBACK)
    && (Cutover in t <==> CutsOver(sc, windowMs, threshold))
    && (RollingBack in t <==> RollsBack(sc, windowMs, threshold))
    && (RolledBack in t <==> Restored(sc, windowMs, threshold))
    && (Complete in t <==> Finishes(sc, windowMs, threshold))
  }

  lemma TraceWithoutCutover(sc: Script, windowMs: int, threshold: int)
    requires !CutsOver(sc, windowMs, threshold)
    ensures TraceFits(Trace(sc, windowMs, threshold), sc, windowMs, threshold)
  {
    var t := Trace(sc, windowMs, threshold);
    assert t == EARLY_ROLLBACK[..|t|];
    assert |t| > 3 ==> t[3] == RollingBack;
    assert |t| > 4 ==> t[4] == RolledBack;
  }

  lemma TraceWithCutover(sc: Script, windowMs: int, threshold: int)
    requires CutsOver(sc, windowMs, threshold)
    ensures TraceFits(Trace(sc, windowMs, threshold), sc, windowMs, threshold)
  {
    var t := Trace(sc, windowMs, threshold);
    assert t[3] == Cutover;
    if Finishes(sc, windowMs, threshold) {
      assert t == SUCCESS && t[6] == Complete;
    } else {
      assert t == LATE_ROLLBACK[..|t|];
      assert |t| > 5 ==> t[5] == RollingBack;
      assert |t| > 6 ==> t[6] == RolledBack;
    }
  }

  /** Every run is well formed. Cutover follows exactly a first window that passed, a rollback exactly a
      window that failed, and Complete exactly two windows that passed after two distributions that went
      through. */
  lemma RotationWellFormed(sc: Script, windowMs: int, threshold: int)
    ensures TraceFits(Trace(sc, windowMs, threshold), sc, windowMs, threshold)
    ensures var t := Trace(sc, windowMs, threshold);
            && (Complete in t ==>
                  t == [Issuing, DualTrust, MonitoringPostDistribution, Cutover, MonitoringPostCutover,
                        Cleanup, Complete])
            && (RolledBack in t && Cutover in t ==>
                  t == [Issuing, DualTrust, MonitoringPostDistribution, Cutover, MonitoringPostCutover,
                        RollingBack, RolledBack])
            && (RolledBack in t && Cutover !in t ==>
                  t == [Issuing, DualTrust, MonitoringPostDistribution, RollingBack, RolledBack])
  {
    if CutsOver(sc, windowMs, threshold) {
      TraceWithCutover(sc, windowMs, threshold);
    } else {
      TraceWithoutCutover(sc, windowMs, threshold);
    }
  }

  /** A run cuts over if and only if every poll of the first window, until it is over, was within the
      threshold; and it completes if and only if that is so of both windows. */
  lemma CompleteIffWatched(sc: Script, windowMs: int, threshold: int)
    requires TimePasses(sc.window1, windowMs) && TimePasses(sc.window2, windowMs)
    ensures var t := Trace(sc, windowMs, threshold);
            && (Cutover in t <==>
                  && sc.backup && sc.bundle.Some?
                  && sc.first.cacerts && sc.first.restart && sc.first.gateway && sc.first.backend
                  && exists n :: WatchedFor(sc.window1, windowMs, threshold, n))
            && (Complete in t <==>
                  && Cutover in t
                  && sc.second.cacerts && sc.second.restart && sc.second.gateway && sc.second.backend
                  && exists n :: WatchedFor(sc.window2, windowMs, threshold, n))
  {
    RotationWellFormed(sc, windowMs, threshold);
    PassesIffWatched(sc.window1, windowMs, threshold);
    PassesIffWatched(sc.window2, windowMs, threshold);
  }

  /** Rolled back means that all three secrets equal the backup. Complete means that the gateway and the
      backend hold the new certificate and that Istio trusts the new CA and no other. A run that does not
      roll back leaves the last state it wrote. */
  lemma OutcomeOfRotation(s: Secrets, sc: Script, windowMs: int, threshold: int)
    ensures Restored(sc, windowMs, threshold) ==> Outcome(s, sc, windowMs, threshold) == s
    ensures Finishes(sc, windowMs, threshold) ==>
              var d := Outcome(s, sc, windowMs, threshold);
              var b := sc.bundle.value;
              && d.gateway == d.backend == TlsSecret(b.cert, b.key, b.ca)
              && d.cacerts == CaSecret(Some(b.ca), b.key, b.ca, b.ca)
    ensures var states := Forward(s, sc, windowMs, threshold);
            Written(s, sc, windowMs, threshold) == if states == [] then s else states[|states| - 1]
  {
    if sc.backup && sc.bundle.Some? {
      var b := sc.bundle.value;
      var mid := AfterWrites(s, b, CaBundle(b, true, s.cacerts.caCert), Writes(sc.first));
      assert Writes(sc.second) == 0 ==> AfterWrites(mid, b, CaBundle(b, false, s.cacerts.caCert), 0) == mid;
    }
  }

  class CertRotationOrchestrator {
    const windowMs: int
    const threshold: int
    var state: Phase
    var secrets: Secrets
    /** The emitted phases, and the secrets after each write of `distribute`. */
    ghost var phases: seq<Phase>
    ghost var forward: seq<Secrets>

    constructor (windowMs: int, threshold: int, secrets: Secrets)
      ensures state == Idle && phases == [] && forward == []
      ensures this.windowMs == windowMs && this.threshold == threshold && this.secrets == secrets
    {
      this.windowMs, this.threshold, this.secrets := windowMs, threshold, secrets;
      state, phases, forward := Idle, [], [];
    }

    method SetState(phase: Phase)
      modifies this`state, this`phases
      ensures state == phase && phases == old(phases) + [phase]
    {
      state := phase;
      phases := phases + [phase];
    }

    /** The three writes in order, with the restart between the first two; stops at a rejected call. */
    method Distribute(bundle: Bundle, dualTrust: bool, oldCa: Option<seq<Ca>>, calls: Calls) returns (done: bool)
      modifies this`secrets, this`forward
      ensures done <==> calls.cacerts && calls.restart && calls.gateway && calls.backend
      ensures done <==> Writes(calls) == 3
      ensures secrets.cacerts.root == (if !calls.cacerts then old(secrets).cacerts.root
                                       else if dualTrust && oldCa.Some? then oldCa.value + bundle.ca
                                       else bundle.ca)
      ensures secrets.gateway == (if calls.cacerts && calls.restart && calls.gateway
                                  then TlsSecret(bundle.cert, bundle.key, bundle.ca) else old(secrets).gateway)
      ensures secrets.backend == (if done then TlsSecret(bundle.cert, bundle.key, bundle.ca) else old(secrets).backend)
      ensures secrets == AfterWrites(old(secrets), bundle, CaBundle(bundle, dualTrust, oldCa), Writes(calls))
      ensures forward == old(forward)
                + States(old(secrets), bundle, CaBundle(bundle, dualTrust, oldCa), Writes(calls))
    {
      var caBundle := if dualTrust && oldCa.Some? && oldCa.value != [] then oldCa.value + bundle.ca else bundle.ca;
      var tls := TlsSecret(bundle.cert, bundle.key, bundle.ca);
      if !calls.cacerts { return false; }
      secrets := secrets.(cacerts := CaSecret(Some(caBundle), bundle.key, caBundle, caBundle));
      forward := forward + [secrets];
      if !calls.restart { return false; }
      if !calls.gateway { return false; }
      secrets := secrets.(gateway := tls);
      forward := forward + [secrets];
      if !calls.backend { return false; }
      secrets := secrets.(backend := tls);
      forward := forward + [secrets];
      return true;
    }

    /** Polls until the deadline; stops at a rate above the threshold or a rejected query. */
    method Monitor(w: Window) returns (ok: bool, read: nat)
      requires TimePasses(w, windowMs)
      ensures (ok, read) == Monitored(w.polls, w.start + windowMs, threshold, 0)
      ensures ok <==> Passes(w, windowMs, threshold)
      ensures read <= |w.polls|
      ensures ok ==> forall j :: 0 <= j < read ==> w.polls[j].rate.Some? && w.polls[j].rate.value <= threshold
      ensures !ok ==> read > 0 && (w.polls[read - 1].rate.None? || w.polls[read - 1].rate.value > threshold)
    {
      var deadline := w.start + windowMs;
      var i := 0;
      while w.polls[i].now < deadline
        invariant 0 <= i < |w.polls|
        invariant Monitored(w.polls, deadline, threshold, 0) == Monitored(w.polls, deadline, threshold, i)
        invariant forall j :: 0 <= j < i ==> w.polls[j].rate.Some? && w.polls[j].rate.value <= threshold
        decreases |w.polls| - i
      {
        var rate := w.polls[i].rate;
        if !Within(rate, threshold) { return false, i + 1; }
        var remaining := deadline - w.polls[i].after;
        if remaining <= 0 { return true, i + 1; }
        i := i + 1;
      }
      return true, i;
    }

    /** Puts the accepted secrets back, in whatever order they take effect. */
    method Restore(snapshot: Secrets, restores: Restores) returns (done: bool)
      requires IsOrder(restores.order)
      modifies this`secrets
      ensures done <==> ALL <= restores.accepted && restores.restart
      ensures secrets == PutBack(old(secrets), snapshot, ALL * restores.accepted)
    {
      var order := restores.order;
      ghost var put: set<Target> := {};
      done := true;
      for i := 0 to |order|
        invariant secrets == PutBack(old(secrets), snapshot, put)
        invariant put <= restores.accepted
        invariant forall j :: 0 <= j < i && order[j] in restores.accepted ==> order[j] in put
        invariant done <==> forall j :: 0 <= j < i ==> order[j] in restores.accepted
      {
        if order[i] in restores.accepted {
          match order[i] {
            case CacertsSecret => secrets := secrets.(cacerts := snapshot.cacerts);
            case GatewaySecret => secrets := secrets.(gateway := snapshot.gateway);
            case BackendSecret => secrets := secrets.(backend := snapshot.backend);
          }
          put := put + {order[i]};
        } else {
          done := false;
        }
      }
      assert ALL * restores.accepted == ALL * put;
      if !restores.restart { done := false; }
    }

    /** The whole rotation. It returns whether it completed; otherwise an error was thrown. */
    method Rotate(sc: Script) returns (completed: bool)
      requires state == Idle && phases == [] && forward == []
      requires TimePasses(sc.window1, windowMs) && TimePasses(sc.window2, windowMs) && IsOrder(sc.restores.order)
      modifies this
      ensures phases == Trace(sc, windowMs, threshold)
      ensures state == if phases == [] then Idle else phases[|phases| - 1]
      ensures completed <==> Finishes(sc, windowMs, threshold)
      ensures secrets == Outcome(old(secrets), sc, windowMs, threshold)
      ensures forward == Forward(old(secrets), sc, windowMs, threshold)
    {
      if !sc.backup { return false; }
      var backup := secrets;
      var oldCa := backup.cacerts.caCert;

      SetState(Issuing);
      if sc.bundle.None? { return false; }
      var newBundle := sc.bundle.value;

      SetState(DualTrust);
      var done := Distribute(newBundle, true, oldCa, sc.first);
      if !done { return false; }
      ghost var sofar, written := phases, forward;
      assert sofar == [Issuing, DualTrust];
      assert written == States(backup, newBundle, CaBundle(newBundle, true, oldCa), 3);
      completed := MonitorAndCutOver(newBundle, oldCa, backup, sc);
      assert phases == sofar + [MonitoringPostDistribution] + phases[3..];
    }

    /** The rotation after its first distribution. */
    method MonitorAndCutOver(newBundle: Bundle, oldCa: Option<seq<Ca>>, backup: Secrets, sc: Script)
      returns (completed: bool)
      requires TimePasses(sc.window1, windowMs) && TimePasses(sc.window2, windowMs) && IsOrder(sc.restores.order)
      modifies this
      ensures var passed := Passes(sc.window1, windowMs, threshold);
              var trust := CaBundle(newBundle, false, oldCa);
              var d := AfterWrites(old(secrets), newBundle, trust, Writes(sc.second));
              && phases == old(phases) + [MonitoringPostDistribution] +
                   (if passed then CutoverTrace(sc, windowMs, threshold) else Undoing(sc.restores))
              && state == phases[|phases| - 1]
              && forward == old(forward) +
                   (if passed then States(old(secrets), newBundle, trust, Writes(sc.second)) else [])
              && (completed <==> passed && Writes(sc.second) == 3 && Passes(sc.window2, windowMs, threshold))
              && secrets == if !passed then PutBack(old(secrets), backup, ALL * sc.restores.accepted)
                            else if Writes(sc.second) == 3 && !completed
                            then PutBack(d, backup, ALL * sc.restores.accepted)
                            else d
    {
      SetState(MonitoringPostDistribution);
      var ok, read := Monitor(sc.window1);
      if !ok {
        RollBack(backup, sc.restores);
        return false;
      }
      completed := CutOver(newBundle, oldCa, backup, sc);
    }

    /** The rotation after its first window has passed. */
    method CutOver(newBundle: Bundle, oldCa: Option<seq<Ca>>, backup: Secrets, sc: Script) returns (completed: bool)
      requires TimePasses(sc.window2, windowMs) && IsOrder(sc.restores.order)
      modifies this
      ensures phases == old(phases) + CutoverTrace(sc, windowMs, threshold) && state == phases[|phases| - 1]
      ensures forward == old(forward)
                + States(old(secrets), newBundle, CaBundle(newBundle, false, oldCa), Writes(sc.second))
      ensures completed <==> Writes(sc.second) == 3 && Passes(sc.window2, windowMs, threshold)
      ensures var d := AfterWrites(old(secrets), newBundle, CaBundle(newBundle, false, oldCa), Writes(sc.second));
              secrets == if Writes(sc.second) == 3 && !completed
                         then PutBack(d, backup, ALL * sc.restores.accepted) else d
    {
      SetState(Cutover);
      var done := Distribute(newBundle, false, oldCa, sc.second);
      if !done { return false; }

      SetState(MonitoringPostCutover);
      var ok, read := Monitor(sc.window2);
      if !ok {
        RollBack(backup, sc.restores);
        return false;
      }

      SetState(Cleanup);
      SetState(Complete);
      return true;
    }

    method RollBack(backup: Secrets, restores: Restores)
      requires IsOrder(restores.order)
      modifies this`state, this`phases, this`secrets
      ensures phases == old(phases) + Undoing(restores) && state == phases[|phases| - 1]
      ensures secrets == PutBack(old(secrets), backup, ALL * restores.accepted)
    {
      SetState(RollingBack);
      var done := Restore(backup, restores);
      if done { SetState(RolledBack); }
    }
  }

  // ---------------------------------------------------------------- trust

  /** Istio trusts the issuers of the certificates that the gateway and the backend hold. */
  predicate Trusted(s: Secrets) {
    s.gateway.crt.issuer in s.cacerts.root && s.backend.crt.issuer in s.cacerts.root
  }

  /** A bundle carries the CA that issued its certificate. */
  predicate Issued(b: Bundle) { b.cert.issuer in b.ca }

  /** The old CA together with the new one covers the installed certificates. */
  predicate Covered(s: Secrets, b: Bundle) {
    var trust := CaBundle(b, true, s.cacerts.caCert);
    s.gateway.crt.issuer in trust && s.backend.crt.issuer in trust
  }

  /** Trust holds after every single write of both distributions of a forward run if and only if the
      captured old CA, with the new one, covers the certificates installed at the start. */
  lemma TrustKeptIff(s: Secrets, sc: Script, windowMs: int, threshold: int)
    requires sc.backup && sc.bundle.Some? && Issued(sc.bundle.value) && Writes(sc.first) >= 1
    ensures (forall i :: 0 <= i < |Forward(s, sc, windowMs, threshold)| ==>
               Trusted(Forward(s, sc, windowMs, threshold)[i]))
            <==> Covered(s, sc.bundle.value)
  {
    var b := sc.bundle.value;
    var trust := CaBundle(b, true, s.cacerts.caCert);
    var states := Forward(s, sc, windowMs, threshold);
    assert forall c :: c in b.ca ==> c in trust;
    assert states[0] == AfterWrites(s, b, trust, 1);
  }

  /** In particular it holds when there is an old CA and it issued the installed certificates. */
  lemma TrustNeverBroken(s: Secrets, sc: Script, windowMs: int, threshold: int)
    requires sc.bundle.Some? && Issued(sc.bundle.value) && s.cacerts.caCert.Some?
    requires s.gateway.crt.issuer in s.cacerts.caCert.value && s.backend.crt.issuer in s.cacerts.caCert.value
    ensures forall i :: 0 <= i < |Forward(s, sc, windowMs, threshold)| ==>
              Trusted(Forward(s, sc, windowMs, threshold)[i])
  {
    if sc.backup && Writes(sc.first) >= 1 { TrustKeptIff(s, sc, windowMs, threshold); }
  }

  /** Without a captured old CA the very first write breaks trust in any certificate that the new CA did
      not issue. */
  lemma NoOldCaBreaksTrust(s: Secrets, sc: Script, windowMs: int, threshold: int)
    requires sc.backup && sc.bundle.Some? && Writes(sc.first) >= 1
    requires s.cacerts.caCert.None? && s.gateway.crt.issuer !in sc.bundle.value.ca
    ensures Forward(s, sc, windowMs, threshold) != [] && !Trusted(Forward(s, sc, windowMs, threshold)[0])
  {
    assert Forward(s, sc, windowMs, threshold)[0] == AfterWrites(s, sc.bundle.value, sc.bundle.value.ca, 1);
  }
}
