/**
 The blue-green deployment of scripts/blue-green/blue-green-deploy.ts. Every command is tried up to
 three times; each attempt may be rejected, and then has had no effect. What the queries answer, and the
 clock, are inputs.
 */
module BlueGreen {
  import opened Prelude

  datatype Slot = Blue | Green

  function Other(s: Slot): Slot { if s == Blue then Green else Blue }

  /** What the cloud holds of one slot: its share of the traffic, its desired task count, and its task
      definition. */
  datatype Side = Side(weight: nat, desired: nat, taskDefinition: string)
  datatype Cloud = Cloud(blue: Side, green: Side)

  function At(c: Cloud, s: Slot): Side { if s == Blue then c.blue else c.green }

  function Set(c: Cloud, s: Slot, side: Side): Cloud { if s == Blue then c.(blue := side) else c.(green := side) }

  // ---------------------------------------------------------------- what the outside does

  const MAX_ATTEMPTS := 3

  /** The attempts of one command: which of them are accepted. */
  datatype Tries = Tries(first: bool, second: bool, third: bool)

  predicate Accepted(t: Tries) { t.first || t.second || t.third }

  datatype Service = Service(targetGroup: string)

  /** The answers to the queries of the first step. */
  datatype Discovery = Discovery(services: Tries, blue: Option<Service>, green: Option<Service>,
                                 blueHealth: Tries, blueHealthy: nat, greenHealth: Tries, greenHealthy: nat,
                                 targetGroups: Tries, loadBalancerFound: bool)

  /** One turn of the health loop: the clock at its test, and the answer of the health query. */
  datatype Poll = Poll(now: int, query: Tries, healthy: nat)

  datatype Script = Script(
    discovery: Discovery,
    describe: Tries, described: bool, register: Tries, newArn: string,
    update: Tries,
    healthStart: int, polls: seq<Poll>,
    smokeQuery: Tries, smokeHealthy: nat, smokeOk: bool,
    shift: Tries, drain: Tries, restoreListener: Tries, scaleDown: Tries)

  datatype Config = Config(dryRun: bool, runSmokeTests: bool, healthTimeoutMs: int)

  // ---------------------------------------------------------------- the course of a deployment

  /** The slot that discovery takes to be active; None when it throws. */
  function Discovered(d: Discovery): Option<Slot> {
    if !Accepted(d.services) || d.blue.None? || d.green.None? then None
    else if d.blue.value.targetGroup == "" || d.green.value.targetGroup == "" then None
    else if !Accepted(d.blueHealth) || !Accepted(d.greenHealth) then None
    else if !Accepted(d.targetGroups) || !d.loadBalancerFound then None
    else Some(ActiveSlot(d.blueHealthy, d.greenHealthy))
  }

  /** One slot alone is healthy, or the answer is ambiguous and blue is assumed. */
  function ActiveSlot(blueHealthy: nat, greenHealthy: nat): Slot {
    if blueHealthy > 0 && greenHealthy == 0 then Blue
    else if greenHealthy > 0 && blueHealthy == 0 then Green
    else Blue
  }

  /** Poll `n` is the first that sees a healthy target, by an answered query, and all before it were in time. */
  predicate SeenAt(polls: seq<Poll>, deadline: int, n: nat) {
    && n < |polls| && polls[n].healthy >= 1
    && (forall j :: 0 <= j <= n ==> polls[j].now < deadline && Accepted(polls[j].query))
    && (forall j :: 0 <= j < n ==> polls[j].healthy == 0)
  }

  predicate SeesHealthy(polls: seq<Poll>, deadline: int) { exists n :: 0 <= n < |polls| && SeenAt(polls, deadline, n) }

  predicate Registers(sc: Script) { Accepted(sc.describe) && sc.described && Accepted(sc.register) && sc.newArn != "" }

  predicate BecomesHealthy(sc: Script, cfg: Config) {
    SeesHealthy(sc.polls, sc.healthStart + cfg.healthTimeoutMs)
  }

  predicate SmokePasses(sc: Script, cfg: Config) {
    cfg.runSmokeTests ==> Accepted(sc.smokeQuery) && sc.smokeHealthy > 0 && sc.smokeOk
  }

  // ---------------------------------------------------------------- what a deployment does

  /** The commands that took effect, and the health that was observed, in the order they happened. */
  datatype Action =
    | Deployed(slot: Slot, arn: string)
    | SawHealthy(slot: Slot)
    | Pointed(slot: Slot)
    | Scaled(slot: Slot)

  /** A service update gives a slot two tasks of the new definition; the listener rule gives one slot all
      the weight; a scale-down leaves no task. */
  function Apply(c: Cloud, x: Action): Cloud {
    match x
    case Deployed(s, arn) => Set(c, s, At(c, s).(desired := 2, taskDefinition := arn))
    case SawHealthy(_) => c
    case Pointed(s) => Set(Set(c, s, At(c, s).(weight := 100)), Other(s), At(c, Other(s)).(weight := 0))
    case Scaled(s) => Set(c, s, At(c, s).(desired := 0))
  }

  function Replay(c: Cloud, xs: seq<Action>): Cloud
    decreases |xs|
  {
    if xs == [] then c else Replay(Apply(c, xs[0]), xs[1..])
  }

  /** The commands up to the shift are accepted, and so is the shift. */
  predicate Moves(sc: Script, cfg: Config) {
    && Registers(sc) && Accepted(sc.update) && BecomesHealthy(sc, cfg)
    && SmokePasses(sc, cfg) && Accepted(sc.shift)
  }

  predicate Succeeds(sc: Script, cfg: Config) {
    Moves(sc, cfg) && Accepted(sc.drain)
  }

  /** The slot from which a deployment sets out, and to which it may have to return. */
  predicate SetsOut(sc: Script, cfg: Config, a: Slot) { Discovered(sc.discovery) == Some(a) && !cfg.dryRun }

  function Forward(sc: Script, cfg: Config, a: Slot): seq<Action> {
    if !Registers(sc) || !Accepted(sc.update) then [] else [Deployed(Other(a), sc.newArn)] + AfterUpdate(sc, cfg, a)
  }

  function AfterUpdate(sc: Script, cfg: Config, a: Slot): seq<Action> {
    if !BecomesHealthy(sc, cfg) then [] else [SawHealthy(Other(a))] + AfterHealth(sc, cfg, a)
  }

  function AfterHealth(sc: Script, cfg: Config, a: Slot): seq<Action> {
    if !SmokePasses(sc, cfg) || !Accepted(sc.shift) then []
    else [Pointed(Other(a))] + if Accepted(sc.drain) then [Scaled(a)] else []
  }

  function Undo(sc: Script, a: Slot): seq<Action> {
    if Accepted(sc.restoreListener) then [Pointed(a)] + UndoRest(sc, a) else UndoRest(sc, a)
  }

  function UndoRest(sc: Script, a: Slot): seq<Action> {
    if Accepted(sc.scaleDown) then [Scaled(Other(a))] else []
  }

  function ActionsOf(sc: Script, cfg: Config): seq<Action> {
    match Discovered(sc.discovery)
    case None => []
    case Some(a) =>
      if cfg.dryRun then []
      else if Succeeds(sc, cfg) then Forward(sc, cfg, a)
      else Forward(sc, cfg, a) + Undo(sc, a)
  }

  function Outcome(c: Cloud, sc: Script, cfg: Config): Cloud { Replay(c, ActionsOf(sc, cfg)) }

  /** What `deploy` returns. */
  datatype Report =
    Report(success: bool, previousSlot: Slot, newActiveSlot: Slot, newTaskDefinitionArn: string, rolledBack: bool)

  class BlueGreenDeployer {
    const cfg: Config
    var cloud: Cloud
    ghost var log: seq<Action>

    constructor (cfg: Config, cloud: Cloud)
      ensures this.cfg == cfg && this.cloud == cloud && log == []
    {
      this.cfg, this.cloud, log := cfg, cloud, [];
    }

    /** Something takes effect, or is observed. */
    method Happens(x: Action)
      modifies this
      ensures cloud == Apply(old(cloud), x) && log == old(log) + [x]
    {
      cloud := Apply(cloud, x);
      log := log + [x];
    }

    /** `withRetry`: stops at the first accepted attempt, gives up after the third. */
    method WithRetry(tries: Tries) returns (ok: bool, attempts: nat)
      ensures ok <==> tries.first || tries.second || tries.third
      ensures 1 <= attempts <= MAX_ATTEMPTS
      ensures ok ==> [tries.first, tries.second, tries.third][attempts - 1]
      ensures forall j :: 0 <= j < attempts - 1 ==> ![tries.first, tries.second, tries.third][j]
    {
      var outcomes := [tries.first, tries.second, tries.third];
      attempts := 1;
      while attempts <= MAX_ATTEMPTS
        invariant 1 <= attempts <= MAX_ATTEMPTS + 1
        invariant forall j :: 0 <= j < attempts - 1 ==> !outcomes[j]
      {
        if outcomes[attempts - 1] { return true, attempts; }
        attempts := attempts + 1;
      }
      assert !outcomes[0] && !outcomes[1] && !outcomes[2];
      return false, MAX_ATTEMPTS;
    }

    /** Either the three attempts fail and nothing happened, or `x` took effect once. */
    method Send(tries: Tries, x: Action) returns (ok: bool)
      modifies this
      ensures ok <==> Accepted(tries)
      ensures cloud == (if ok then Apply(old(cloud), x) else old(cloud))
      ensures log == old(log) + if ok then [x] else []
    {
      var made;
      ok, made := WithRetry(tries);
      if ok { Happens(x); }
    }

    method DiscoverSlots(d: Discovery) returns (active: Option<Slot>)
      ensures active == Discovered(d)
    {
      var ok, made := WithRetry(d.services);
      if !ok || d.blue.None? || d.green.None? { return None; }
      if d.blue.value.targetGroup == "" || d.green.value.targetGroup == "" { return None; }
      ok, made := WithRetry(d.blueHealth);
      if !ok { return None; }
      ok, made := WithRetry(d.greenHealth);
      if !ok { return None; }
      ok, made := WithRetry(d.targetGroups);
      if !ok || !d.loadBalancerFound { return None; }
      return Some(ActiveSlot(d.blueHealthy, d.greenHealthy));
    }

    method RegisterNewTaskDefinition(sc: Script) returns (ok: bool)
      ensures ok <==> Registers(sc)
    {
      var made;
      ok, made := WithRetry(sc.describe);
      if !ok || !sc.described { return false; }
      ok, made := WithRetry(sc.register);
      if sc.newArn == "" { return false; }
    }

    /** Polls until a target is healthy or the deadline is over. */
    method WaitForHealthy(slot: Slot, start: int, polls: seq<Poll>) returns (ok: bool)
      requires polls != [] && polls[|polls| - 1].now >= start + cfg.healthTimeoutMs
      modifies this
      ensures ok <==> SeesHealthy(polls, start + cfg.healthTimeoutMs)
      ensures cloud == old(cloud) && log == old(log) + if ok then [SawHealthy(slot)] else []
    {
      var deadline := start + cfg.healthTimeoutMs;
      var i := 0;
      while polls[i].now < deadline
        invariant 0 <= i < |polls|
        invariant cloud == old(cloud) && log == old(log)
        invariant forall j :: 0 <= j < i ==>
                    polls[j].now < deadline && Accepted(polls[j].query) && polls[j].healthy == 0
        decreases |polls| - i
      {
        var answered, made := WithRetry(polls[i].query);
        if !answered { return false; }
        if polls[i].healthy >= 1 {
          assert SeenAt(polls, deadline, i);
          Happens(SawHealthy(slot));
          return true;
        }
        i := i + 1;
      }
      return false;
    }

    method RunSmokeTests(sc: Script) returns (ok: bool)
      ensures ok <==> SmokePasses(sc, cfg)
    {
      if !cfg.runSmokeTests { return true; }
      var made;
      ok, made := WithRetry(sc.smokeQuery);
      if !ok || sc.smokeHealthy == 0 { return false; }
      ok := sc.smokeOk;
    }

    /** The seven steps. */
    method Deploy(sc: Script) returns (report: Report)
      requires sc.polls != [] && sc.polls[|sc.polls| - 1].now >= sc.healthStart + cfg.healthTimeoutMs
      modifies this
      ensures log == old(log) + ActionsOf(sc, cfg)
      ensures cloud == Outcome(old(cloud), sc, cfg)
      ensures report.success <==> Discovered(sc.discovery).Some? && !cfg.dryRun && Succeeds(sc, cfg)
      ensures report.rolledBack <==> Discovered(sc.discovery).None? || (!cfg.dryRun && !Succeeds(sc, cfg))
      ensures report.previousSlot == if Discovered(sc.discovery).None? then Blue else Discovered(sc.discovery).value
      ensures report.newActiveSlot == if report.success then Other(report.previousSlot) else report.previousSlot
      ensures report.newTaskDefinitionArn ==
                if Discovered(sc.discovery).Some? && !cfg.dryRun && Registers(sc) then sc.newArn else ""
    {
      var active := DiscoverSlots(sc.discovery);
      if active.None? { return Report(false, Blue, Blue, "", true); }
      var a := active.value;
      if cfg.dryRun { return Report(false, a, a, "", false); }

      var ok, arn := Advance(a, sc);
      if ok { return Report(true, a, Other(a), arn, false); }
      ghost var here, known := cloud, log;
      Rollback(a, sc);
      ReplayOfSum(old(cloud), Forward(sc, cfg, a), Undo(sc, a));
      assert log == known + Undo(sc, a) == old(log) + (Forward(sc, cfg, a) + Undo(sc, a));
      return Report(false, a, a, arn, true);
    }

    /** The steps after discovery, up to the first that throws. */
    method Advance(a: Slot, sc: Script) returns (ok: bool, arn: string)
      requires sc.polls != [] && sc.polls[|sc.polls| - 1].now >= sc.healthStart + cfg.healthTimeoutMs
      modifies this
      ensures ok <==> Succeeds(sc, cfg)
      ensures arn == if Registers(sc) then sc.newArn else ""
      ensures log == old(log) + Forward(sc, cfg, a)
      ensures cloud == Replay(old(cloud), Forward(sc, cfg, a))
    {
      ok := RegisterNewTaskDefinition(sc);
      if !ok { return false, ""; }
      arn := sc.newArn;
      ok := Send(sc.update, Deployed(Other(a), arn));
      if !ok { return; }
      Step(old(cloud), Deployed(Other(a), arn), AfterUpdate(sc, cfg, a));
      ok := AwaitAndShift(a, sc);
      assert log == old(log) + ([Deployed(Other(a), arn)] + AfterUpdate(sc, cfg, a));
    }

    /** The last four steps. */
    method AwaitAndShift(a: Slot, sc: Script) returns (ok: bool)
      requires sc.polls != [] && sc.polls[|sc.polls| - 1].now >= sc.healthStart + cfg.healthTimeoutMs
      modifies this
      ensures ok <==> BecomesHealthy(sc, cfg) && SmokePasses(sc, cfg) && Accepted(sc.shift) && Accepted(sc.drain)
      ensures log == old(log) + AfterUpdate(sc, cfg, a)
      ensures cloud == Replay(old(cloud), AfterUpdate(sc, cfg, a))
    {
      ok := WaitForHealthy(Other(a), sc.healthStart, sc.polls);
      if !ok { return; }
      Step(old(cloud), SawHealthy(Other(a)), AfterHealth(sc, cfg, a));
      ok := Shift(a, sc);
      assert log == old(log) + ([SawHealthy(Other(a))] + AfterHealth(sc, cfg, a));
    }

    /** The last three steps. */
    method Shift(a: Slot, sc: Script) returns (ok: bool)
      modifies this
      ensures ok <==> SmokePasses(sc, cfg) && Accepted(sc.shift) && Accepted(sc.drain)
      ensures log == old(log) + AfterHealth(sc, cfg, a)
      ensures cloud == Replay(old(cloud), AfterHealth(sc, cfg, a))
    {
      ok := RunSmokeTests(sc);
      if !ok { return; }
      ok := Send(sc.shift, Pointed(Other(a)));
      if !ok { return; }
      ok := Send(sc.drain, Scaled(a));
      assert log == old(log) + ([Pointed(Other(a))] + if ok then [Scaled(a)] else []);
      Step(old(cloud), Pointed(Other(a)), if ok then [Scaled(a)] else []);
      Step(Apply(old(cloud), Pointed(Other(a))), Scaled(a), []);
    }

    /** Restores the listener, then scales the new slot down; neither failure stops it. */
    method Rollback(a: Slot, sc: Script)
      modifies this
      ensures log == old(log) + Undo(sc, a)
      ensures cloud == Replay(old(cloud), Undo(sc, a))
    {
      var restored := Send(sc.restoreListener, Pointed(a));
      var scaled := Send(sc.scaleDown, Scaled(Other(a)));
      assert log == old(log) + ((if restored then [Pointed(a)] else []) + UndoRest(sc, a));
      Step(old(cloud), Pointed(a), UndoRest(sc, a));
      Step(if restored then Apply(old(cloud), Pointed(a)) else old(cloud), Scaled(Other(a)), []);
    }
  }

  lemma {:induction false} ReplayOfSum(c: Cloud, xs: seq<Action>, ys: seq<Action>)
    ensures Replay(c, xs + ys) == Replay(Replay(c, xs), ys)
    decreases |xs|
  {
    if xs == [] {
      assert xs + ys == ys;
    } else {
      assert (xs + ys)[0] == xs[0] && (xs + ys)[1..] == xs[1..] + ys;
      ReplayOfSum(Apply(c, xs[0]), xs[1..], ys);
    }
  }

  lemma Step(c: Cloud, x: Action, xs: seq<Action>)
    ensures Replay(c, [x] + xs) == Replay(Apply(c, x), xs) && Replay(c, [x]) == Apply(c, x)
    ensures AlwaysUp(c, [x] + xs) <==> Up(c) && AlwaysUp(Apply(c, x), xs)
    ensures AlwaysUp(c, [x]) <==> Up(c) && Up(Apply(c, x))
  {
    assert ([x] + xs)[1..] == xs && [x][1..] == [];
  }

  // ---------------------------------------------------------------- outcomes over every failure point

  /** All traffic goes to this slot. */
  predicate Serves(c: Cloud, s: Slot) { At(c, s).weight == 100 && At(c, Other(s)).weight == 0 }

  /** All traffic goes to a slot that is meant to run. */
  predicate Up(c: Cloud) { exists s :: Serves(c, s) && At(c, s).desired > 0 }

  /** The old slot alone holds the traffic, and has been touched by nothing. */
  predicate Untouched(c: Cloud, a: Slot, d: Cloud) { Serves(d, a) && At(d, a) == At(c, a) }

  /** Success means that all traffic is on the new slot with its new task definition, and that the old
      slot is at zero. */
  lemma SuccessMeansNewSlot(c: Cloud, sc: Script, cfg: Config, a: Slot)
    requires SetsOut(sc, cfg, a) && Succeeds(sc, cfg)
    ensures var d := Outcome(c, sc, cfg);
            && Serves(d, Other(a)) && At(d, Other(a)) == Side(100, 2, sc.newArn)
            && At(d, a) == At(c, a).(weight := 0, desired := 0)
  {
    var n := Other(a);
    var c1 := Apply(c, Deployed(n, sc.newArn));
    Step(c, Deployed(n, sc.newArn), AfterUpdate(sc, cfg, a));
    Step(c1, SawHealthy(n), AfterHealth(sc, cfg, a));
    Step(c1, Pointed(n), [Scaled(a)]);
    Step(Apply(c1, Pointed(n)), Scaled(a), []);
  }

  /** Traffic is never given to the new slot unless health was observed there after its update, by an
      answered query before the deadline; and the old slot is never scaled down before that. */
  lemma ShiftFollowsHealth(sc: Script, cfg: Config, a: Slot, i: nat)
    requires SetsOut(sc, cfg, a) && i < |ActionsOf(sc, cfg)|
    requires ActionsOf(sc, cfg)[i] == Pointed(Other(a)) || ActionsOf(sc, cfg)[i] == Scaled(a)
    ensures i >= 2 && ActionsOf(sc, cfg)[..2] == [Deployed(Other(a), sc.newArn), SawHealthy(Other(a))]
    ensures ActionsOf(sc, cfg)[i] == Scaled(a) ==> ActionsOf(sc, cfg)[i - 1] == Pointed(Other(a))
    ensures SeesHealthy(sc.polls, sc.healthStart + cfg.healthTimeoutMs)
  {
    var f, u := Forward(sc, cfg, a), Undo(sc, a);
    assert forall k | 0 <= k < |u| :: u[k] == Pointed(a) || u[k] == Scaled(Other(a));
    assert i < |f|;
    assert ActionsOf(sc, cfg)[..i] == f[..i];
  }

  /** A failure: the old slot keeps its tasks, and nothing but its weight can have changed. */
  lemma FailureOutcome(c: Cloud, sc: Script, cfg: Config, a: Slot)
    requires SetsOut(sc, cfg, a) && !Succeeds(sc, cfg) && Serves(c, a)
    ensures var d := Outcome(c, sc, cfg);
            && (Untouched(c, a, d) <==> !Moves(sc, cfg) || Accepted(sc.restoreListener))
            && (Serves(d, Other(a)) <==> Moves(sc, cfg) && !Accepted(sc.restoreListener))
            && At(d, a).(weight := 100) == At(c, a)
            && (Accepted(sc.scaleDown) ==> At(d, Other(a)).desired == 0)
  {
    var f, u := Forward(sc, cfg, a), Undo(sc, a);
    ReplayOfSum(c, f, u);
    ForwardFailed(c, sc, cfg, a);
    UndoEffect(Replay(c, f), sc, a);
  }

  lemma ForwardFailed(c: Cloud, sc: Script, cfg: Config, a: Slot)
    requires !Succeeds(sc, cfg) && Serves(c, a)
    ensures var d := Replay(c, Forward(sc, cfg, a));
            At(d, a).(weight := 100) == At(c, a) && Serves(d, if Moves(sc, cfg) then Other(a) else a)
  {
    ForwardSteps(c, sc, cfg, a);
  }

  lemma UndoEffect(c: Cloud, sc: Script, a: Slot)
    ensures var d := Replay(c, Undo(sc, a));
            && At(d, a) == (if Accepted(sc.restoreListener) then At(c, a).(weight := 100) else At(c, a))
            && At(d, Other(a)).weight == (if Accepted(sc.restoreListener) then 0 else At(c, Other(a)).weight)
            && At(d, Other(a)).desired == (if Accepted(sc.scaleDown) then 0 else At(c, Other(a)).desired)
  {
    var n := Other(a);
    Step(c, Pointed(a), UndoRest(sc, a));
    Step(if Accepted(sc.restoreListener) then Apply(c, Pointed(a)) else c, Scaled(n), []);
  }

  // ---------------------------------------------------------------- what each outcome depends on

  /** Discovery takes a slot to be active exactly when every query is accepted at last, both services have a
      target group and the load balancer is there; it is green exactly when green alone has healthy targets. */
  lemma DiscoveredIff(d: Discovery, s: Slot)
    ensures Discovered(d) == Some(s) <==>
              && (d.services.first || d.services.second || d.services.third)
              && d.blue.Some? && d.green.Some? && d.blue.value.targetGroup != "" && d.green.value.targetGroup != ""
              && (d.blueHealth.first || d.blueHealth.second || d.blueHealth.third)
              && (d.greenHealth.first || d.greenHealth.second || d.greenHealth.third)
              && (d.targetGroups.first || d.targetGroups.second || d.targetGroups.third)
              && d.loadBalancerFound
              && (s == Green <==> d.greenHealthy > 0 && d.blueHealthy == 0)
  {
  }

  /** Poll `n` sees a healthy target, and all before it were answered in time and saw none. */
  predicate HealthyAtLast(sc: Script, cfg: Config, n: nat) {
    && n < |sc.polls| && sc.polls[n].healthy >= 1
    && (forall j :: 0 <= j <= n ==> sc.polls[j].now < sc.healthStart + cfg.healthTimeoutMs)
    && (forall j :: 0 <= j <= n ==> sc.polls[j].query.first || sc.polls[j].query.second || sc.polls[j].query.third)
    && (forall j :: 0 <= j < n ==> sc.polls[j].healthy == 0)
  }

  /** Exactly when traffic is given to the new slot. */
  lemma ShiftedIff(sc: Script, cfg: Config, a: Slot)
    requires SetsOut(sc, cfg, a)
    ensures Pointed(Other(a)) in ActionsOf(sc, cfg) <==>
              && (sc.describe.first || sc.describe.second || sc.describe.third) && sc.described
              && (sc.register.first || sc.register.second || sc.register.third) && sc.newArn != ""
              && (sc.update.first || sc.update.second || sc.update.third)
              && (exists n :: HealthyAtLast(sc, cfg, n))
              && (cfg.runSmokeTests ==>
                    && (sc.smokeQuery.first || sc.smokeQuery.second || sc.smokeQuery.third)
                    && sc.smokeHealthy > 0 && sc.smokeOk)
              && (sc.shift.first || sc.shift.second || sc.shift.third)
  {
    PointedIffMoves(sc, cfg, a);
    var deadline := sc.healthStart + cfg.healthTimeoutMs;
    assert forall n :: SeenAt(sc.polls, deadline, n) <==> HealthyAtLast(sc, cfg, n);
  }

  lemma PointedIffMoves(sc: Script, cfg: Config, a: Slot)
    requires SetsOut(sc, cfg, a)
    ensures Pointed(Other(a)) in ActionsOf(sc, cfg) <==> Moves(sc, cfg)
  {
    var f, u := Forward(sc, cfg, a), Undo(sc, a);
    assert Pointed(Other(a)) !in u;
    if Moves(sc, cfg) {
      assert f[2] == Pointed(Other(a)) && ActionsOf(sc, cfg)[2] == f[2];
    } else {
      assert forall k :: 0 <= k < |f| ==> f[k].Deployed? || f[k].SawHealthy?;
    }
  }

  /** Success is a run that sets out, in which traffic is given to the new slot and the drain is accepted. */
  lemma SucceedsIff(sc: Script, cfg: Config, a: Slot)
    requires SetsOut(sc, cfg, a)
    ensures Succeeds(sc, cfg) <==>
              Pointed(Other(a)) in ActionsOf(sc, cfg) && (sc.drain.first || sc.drain.second || sc.drain.third)
  {
    PointedIffMoves(sc, cfg, a);
  }

  // ---------------------------------------------------------------- no downtime

  /** In every state on the way, all traffic goes to a slot that is meant to run. */
  predicate AlwaysUp(c: Cloud, xs: seq<Action>)
    decreases |xs|
  {
    Up(c) && (xs == [] || AlwaysUp(Apply(c, xs[0]), xs[1..]))
  }

  lemma {:induction false} AlwaysUpMeansEveryState(c: Cloud, xs: seq<Action>, k: nat)
    requires AlwaysUp(c, xs) && k <= |xs|
    ensures Up(Replay(c, xs[..k]))
    decreases k
  {
    if k > 0 {
      AlwaysUpMeansEveryState(Apply(c, xs[0]), xs[1..], k - 1);
      assert xs[..k][1..] == xs[1..][..k - 1];
    }
  }

  lemma {:induction false} AlwaysUpOfSum(c: Cloud, xs: seq<Action>, ys: seq<Action>)
    ensures AlwaysUp(c, xs + ys) <==> AlwaysUp(c, xs) && AlwaysUp(Replay(c, xs), ys)
    decreases |xs|
  {
    if xs == [] {
      assert xs + ys == ys;
    } else {
      assert (xs + ys)[0] == xs[0] && (xs + ys)[1..] == xs[1..] + ys;
      AlwaysUpOfSum(Apply(c, xs[0]), xs[1..], ys);
    }
  }

  /** The course that ends with the traffic on a slot at zero although the guess was right: the shift was
      accepted, the drain and the restore were not, but the scale-down of the new slot was. */
  predicate Stranded(sc: Script, cfg: Config) {
    Moves(sc, cfg) && !Accepted(sc.drain) && !Accepted(sc.restoreListener) && Accepted(sc.scaleDown)
  }

  /** The courses that do when the traffic was on the slot taken to be inactive: the deployment fails, and
      its rollback sends the traffic to a slot without tasks, or scales down the slot that has it. */
  predicate Misdirected(c: Cloud, sc: Script, cfg: Config, a: Slot) {
    && !Succeeds(sc, cfg)
    && (if Accepted(sc.restoreListener) then At(c, a).desired == 0 else Accepted(sc.scaleDown))
  }

  /** Whether a run has downtime, by what was known before each of its commands. */
  predicate Downtime(c: Cloud, sc: Script, cfg: Config) {
    match Discovered(sc.discovery)
    case None => false
    case Some(a) => !cfg.dryRun && if Serves(c, a) then Stranded(sc, cfg) else Misdirected(c, sc, cfg, a)
  }

  /** Over every failure point, rollback included, and whichever slot discovery takes to be active: if
      traffic goes to a slot that is meant to run at the start, it does in every state of the deployment,
      except in the courses listed. */
  lemma NoDowntimeIff(c: Cloud, sc: Script, cfg: Config)
    requires Up(c)
    ensures AlwaysUp(c, ActionsOf(sc, cfg)) <==> !Downtime(c, sc, cfg)
  {
    if Discovered(sc.discovery).Some? && !cfg.dryRun {
      var a := Discovered(sc.discovery).value;
      if Serves(c, a) {
        RightGuess(c, sc, cfg, a);
      } else {
        WrongGuess(c, sc, cfg, a);
      }
    }
  }

  /** A stranded run ends with all traffic on the new slot, at zero. */
  lemma RightGuess(c: Cloud, sc: Script, cfg: Config, a: Slot)
    requires SetsOut(sc, cfg, a) && Serves(c, a) && At(c, a).desired > 0
    ensures AlwaysUp(c, ActionsOf(sc, cfg)) <==> !Stranded(sc, cfg)
    ensures Stranded(sc, cfg) ==>
              var d := Outcome(c, sc, cfg);
              Serves(d, Other(a)) && At(d, Other(a)).desired == 0
  {
    var f, u := Forward(sc, cfg, a), Undo(sc, a);
    ForwardKeepsUp(c, sc, cfg, a);
    if Succeeds(sc, cfg) { return; }
    AlwaysUpOfSum(c, f, u);
    ReplayOfSum(c, f, u);
    ForwardFailed(c, sc, cfg, a);
    UndoEffect(Replay(c, f), sc, a);
    UndoKeepsUpIff(Replay(c, f), sc, a);
  }

  /** A misdirected run ends with all traffic on a slot at zero, too. */
  lemma WrongGuess(c: Cloud, sc: Script, cfg: Config, a: Slot)
    requires SetsOut(sc, cfg, a) && Serves(c, Other(a)) && At(c, Other(a)).desired > 0
    ensures AlwaysUp(c, ActionsOf(sc, cfg)) <==> !Misdirected(c, sc, cfg, a)
    ensures Misdirected(c, sc, cfg, a) ==>
              var d := Outcome(c, sc, cfg);
              var s := if Accepted(sc.restoreListener) then a else Other(a);
              Serves(d, s) && At(d, s).desired == 0
  {
    var f, u := Forward(sc, cfg, a), Undo(sc, a);
    ForwardOnServing(c, sc, cfg, a);
    if Succeeds(sc, cfg) { return; }
    AlwaysUpOfSum(c, f, u);
    ReplayOfSum(c, f, u);
    UndoEffect(Replay(c, f), sc, a);
    UndoOnServing(Replay(c, f), sc, a);
  }

  lemma ForwardKeepsUp(c: Cloud, sc: Script, cfg: Config, a: Slot)
    requires Serves(c, a) && At(c, a).desired > 0
    ensures AlwaysUp(c, Forward(sc, cfg, a))
    ensures Registers(sc) && Accepted(sc.update) ==> At(Replay(c, Forward(sc, cfg, a)), Other(a)).desired == 2
  {
    var n := Other(a);
    var c1 := Apply(c, Deployed(n, sc.newArn));
    var c2 := Apply(c1, Pointed(n));
    assert Serves(c1, a) && Serves(c2, n) && Serves(Apply(c2, Scaled(a)), n);
    assert At(c1, a) == At(c, a) && At(c2, n).desired == At(c1, n).desired == 2;
    assert At(Apply(c2, Scaled(a)), n).desired == 2;
    ForwardSteps(c, sc, cfg, a);
  }

  /** The same when the traffic was on the other slot: it stays there, and the slot keeps its tasks. */
  lemma ForwardOnServing(c: Cloud, sc: Script, cfg: Config, a: Slot)
    requires Serves(c, Other(a)) && At(c, Other(a)).desired > 0
    ensures AlwaysUp(c, Forward(sc, cfg, a))
    ensures var d := Replay(c, Forward(sc, cfg, a));
            && Serves(d, Other(a)) && At(d, Other(a)).desired > 0
            && At(d, a).desired == if Succeeds(sc, cfg) then 0 else At(c, a).desired
  {
    var n := Other(a);
    var c1 := Apply(c, Deployed(n, sc.newArn));
    var c2 := Apply(c1, Pointed(n));
    assert Serves(c1, n) && Serves(c2, n) && Serves(Apply(c2, Scaled(a)), n);
    assert At(c2, n).desired == At(c1, n).desired == 2 && At(Apply(c2, Scaled(a)), n).desired == 2;
    ForwardSteps(c, sc, cfg, a);
  }

  /** The forward commands, one at a time. */
  lemma ForwardSteps(c: Cloud, sc: Script, cfg: Config, a: Slot)
    ensures var n := Other(a);
            var c1 := Apply(c, Deployed(n, sc.newArn));
            var c2 := Apply(c1, Pointed(n));
            var c3 := Apply(c2, Scaled(a));
            var f := Forward(sc, cfg, a);
            if Succeeds(sc, cfg)
            then Replay(c, f) == c3 && (AlwaysUp(c, f) <==> Up(c) && Up(c1) && Up(c2) && Up(c3))
            else if Moves(sc, cfg) then Replay(c, f) == c2 && (AlwaysUp(c, f) <==> Up(c) && Up(c1) && Up(c2))
            else if Registers(sc) && Accepted(sc.update)
            then Replay(c, f) == c1 && (AlwaysUp(c, f) <==> Up(c) && Up(c1))
            else Replay(c, f) == c && (AlwaysUp(c, f) <==> Up(c))
  {
    var n := Other(a);
    var c1 := Apply(c, Deployed(n, sc.newArn));
    var c2 := Apply(c1, Pointed(n));
    assert [Pointed(n)] + [] == [Pointed(n)];
    Step(c, Deployed(n, sc.newArn), AfterUpdate(sc, cfg, a));
    Step(c1, SawHealthy(n), AfterHealth(sc, cfg, a));
    Step(c1, Pointed(n), if Accepted(sc.drain) then [Scaled(a)] else []);
    Step(c2, Scaled(a), []);
  }

  /** Rolling back is safe exactly when the new slot is not scaled down under the traffic. */
  lemma UndoKeepsUpIff(c: Cloud, sc: Script, a: Slot)
    requires At(c, a).desired > 0 && Up(c)
    ensures AlwaysUp(c, Undo(sc, a)) <==>
              !(Serves(c, Other(a)) && !Accepted(sc.restoreListener) && Accepted(sc.scaleDown))
  {
    var n := Other(a);
    var p := Apply(c, Pointed(a));
    assert Serves(p, a) && Serves(Apply(p, Scaled(n)), a);
    assert Serves(c, a) ==> Serves(Apply(c, Scaled(n)), a);
    Step(c, Pointed(a), UndoRest(sc, a));
    Step(if Accepted(sc.restoreListener) then p else c, Scaled(n), []);
  }

  /** Rolling back with the traffic on the slot taken to be inactive. */
  lemma UndoOnServing(c: Cloud, sc: Script, a: Slot)
    requires Serves(c, Other(a)) && At(c, Other(a)).desired > 0
    ensures AlwaysUp(c, Undo(sc, a)) <==>
              if Accepted(sc.restoreListener) then At(c, a).desired > 0 else !Accepted(sc.scaleDown)
  {
    var n := Other(a);
    var p := Apply(c, Pointed(a));
    assert Up(c) && Serves(p, a) && Serves(Apply(p, Scaled(n)), a);
    assert At(p, a).desired == At(Apply(p, Scaled(n)), a).desired == At(c, a).desired;
    Step(c, Pointed(a), UndoRest(sc, a));
    Step(if Accepted(sc.restoreListener) then p else c, Scaled(n), []);
  }

  // ---------------------------------------------------------------- the guess of the active slot

  /** With both slots healthy, or neither, the guess is blue, right or wrong. A failure whose listener
      restore is accepted ends with the traffic where it was exactly when the guess was right. */
  lemma RestoreGoesToGuessedSlot(c: Cloud, sc: Script, cfg: Config, a: Slot, s: Slot)
    requires SetsOut(sc, cfg, a) && !Succeeds(sc, cfg) && Serves(c, s) && Accepted(sc.restoreListener)
    ensures Serves(Outcome(c, sc, cfg), s) <==> s == a
    ensures a == Green <==> sc.discovery.greenHealthy > 0 && sc.discovery.blueHealthy == 0
  {
    ReplayOfSum(c, Forward(sc, cfg, a), Undo(sc, a));
    UndoEffect(Replay(c, Forward(sc, cfg, a)), sc, a);
  }

  /** Nothing is done at all exactly when discovery throws, when the run is dry, or when the update was
      never accepted and neither was a rollback command. */
  lemma NothingHappensIff(sc: Script, cfg: Config)
    ensures ActionsOf(sc, cfg) == [] <==>
              || Discovered(sc.discovery).None?
              || cfg.dryRun
              || !((Registers(sc) && Accepted(sc.update)) || Accepted(sc.restoreListener) || Accepted(sc.scaleDown))
  {
  }
}
