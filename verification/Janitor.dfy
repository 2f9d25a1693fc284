/** One pass of the janitor over a listing: which tasks it asks the server to expire and to
    delete, and what the five phase gauges show. */
module Janitor {
  import opened Types
  import opened Tasks
  import opened TaskQueue
  import opened ClaimExclusivity

  // ---------------------------------------------------------------- specification

  /** The most recent instant of a terminal task in the listing, zero if there is none. */
  function LastTerminal(listed: seq<Task>): Time {
    if listed == [] then
      0
    else
      var rest := LastTerminal(listed[..|listed| - 1]);
      var t := listed[|listed| - 1];
      if t.status.phase.Terminal() && TerminalInstant(t) > rest then TerminalInstant(t) else rest
  }

  lemma {:induction false} LastTerminalIsMax(listed: seq<Task>)
    ensures forall t :: t in listed && t.status.phase.Terminal() ==> TerminalInstant(t) <= LastTerminal(listed)
    ensures LastTerminal(listed) != 0 ==>
              exists t :: t in listed && t.status.phase.Terminal() && TerminalInstant(t) == LastTerminal(listed)
  {
    if listed != [] {
      var init, last := listed[..|listed| - 1], listed[|listed| - 1];
      LastTerminalIsMax(init);
      assert listed == init + [last];
      if LastTerminal(listed) != 0 {
        if last.status.phase.Terminal() && TerminalInstant(last) > LastTerminal(init) {
          assert last in listed;
        } else {
          var t :| t in init && t.status.phase.Terminal() && TerminalInstant(t) == LastTerminal(init);
          assert t in listed;
        }
      }
    }
  }

  /** The reference instant the sweep computes: only used with a trailing retention. */
  function Reference(cfg: Config, listed: seq<Task>): Time {
    if cfg.trailingRetention > 0 then LastTerminal(listed) else 0
  }

  predicate Stuck(cfg: Config, t: Task, now: Time) {
    t.status.phase.Effective().Running? && IsStuck(cfg, t, now)
  }

  predicate Doomed(cfg: Config, t: Task, now: Time, tLast: Time) {
    t.status.phase.Terminal() && ShouldDelete(cfg, t, now, tLast)
  }

  function Doomeds(cfg: Config, listed: seq<Task>, now: Time, tLast: Time): seq<string> {
    if listed == [] then
      []
    else
      var t := listed[|listed| - 1];
      Doomeds(cfg, listed[..|listed| - 1], now, tLast) + (if Doomed(cfg, t, now, tLast) then [t.name] else [])
  }

  /** Expiry requests: the listed object, its status rewritten, its version as listed. */
  function Expiries(cfg: Config, listed: seq<Task>, now: Time, clock: nat -> Time): seq<Task> {
    if listed == [] then
      []
    else
      var i := |listed| - 1;
      var t := listed[i];
      Expiries(cfg, listed[..i], now, clock)
      + (if Stuck(cfg, t, now) then [t.(status := ExpiredStatus(t.status, clock(i)))] else [])
  }

  datatype Gauges = Gauges(pending: int, running: int, completed: int, failed: int, expired: int)
  {
    function Total(): int {
      pending + running + completed + failed + expired
    }
  }

  function KnownCount(listed: seq<Task>): nat {
    if listed == [] then
      0
    else
      KnownCount(listed[..|listed| - 1]) + (if listed[|listed| - 1].status.phase.Unknown? then 0 else 1)
  }

  /** The phase a task counts under after the pass, if it is still there. */
  function PhaseAfter(cfg: Config, t: Task, now: Time, tLast: Time): Option<Phase> {
    if Doomed(cfg, t, now, tLast) || t.status.phase.Unknown? then None
    else if Stuck(cfg, t, now) then Some(Expired)
    else Some(t.status.phase.Effective())
  }

  function CountAfter(cfg: Config, listed: seq<Task>, now: Time, tLast: Time, p: Phase): nat {
    if listed == [] then
      0
    else
      CountAfter(cfg, listed[..|listed| - 1], now, tLast, p)
      + (if PhaseAfter(cfg, listed[|listed| - 1], now, tLast) == Some(p) then 1 else 0)
  }

  function GaugesAfter(cfg: Config, listed: seq<Task>, now: Time, tLast: Time): Gauges {
    Gauges(CountAfter(cfg, listed, now, tLast, Pending), CountAfter(cfg, listed, now, tLast, Running),
           CountAfter(cfg, listed, now, tLast, Completed), CountAfter(cfg, listed, now, tLast, Failed),
           CountAfter(cfg, listed, now, tLast, Expired))
  }

  function Bump(g: Gauges, p: Option<Phase>): Gauges {
    match p
    case Some(Pending) => g.(pending := g.pending + 1)
    case Some(Running) => g.(running := g.running + 1)
    case Some(Completed) => g.(completed := g.completed + 1)
    case Some(Failed) => g.(failed := g.failed + 1)
    case Some(Expired) => g.(expired := g.expired + 1)
    case _ => g
  }

  lemma NoneSeen(cfg: Config, listed: seq<Task>, now: Time, tLast: Time, clock: nat -> Time)
    ensures Expiries(cfg, listed[..0], now, clock) == [] && Doomeds(cfg, listed[..0], now, tLast) == []
    ensures GaugesAfter(cfg, listed[..0], now, tLast) == Gauges(0, 0, 0, 0, 0) && KnownCount(listed[..0]) == 0
  {
  }

  /** What one more listed task adds. */
  lemma OneMore(cfg: Config, listed: seq<Task>, i: nat, now: Time, tLast: Time, clock: nat -> Time)
    requires i < |listed|
    ensures var t, seen, next := listed[i], listed[..i], listed[..i + 1];
            && GaugesAfter(cfg, next, now, tLast) == Bump(GaugesAfter(cfg, seen, now, tLast), PhaseAfter(cfg, t, now, tLast))
            && KnownCount(next) == KnownCount(seen) + (if t.status.phase.Unknown? then 0 else 1)
            && Doomeds(cfg, next, now, tLast) == Doomeds(cfg, seen, now, tLast) + (if Doomed(cfg, t, now, tLast) then [t.name] else [])
            && Expiries(cfg, next, now, clock)
               == Expiries(cfg, seen, now, clock) + (if Stuck(cfg, t, now) then [t.(status := ExpiredStatus(t.status, clock(i)))] else [])
  {
    assert listed[..i + 1][..i] == listed[..i];
  }

  // ---------------------------------------------------------------- the pass

  method FindLastTerminal(cfg: Config, listed: seq<Task>) returns (tLast: Time)
    ensures tLast == Reference(cfg, listed)
  {
    tLast := 0;
    if cfg.trailingRetention > 0 {
      for i := 0 to |listed|
        invariant tLast == LastTerminal(listed[..i])
      {
        assert listed[..i + 1][..i] == listed[..i];
        var obj := listed[i];
        if !obj.status.phase.Terminal() {
          continue;
        }
        var ts := Instant(obj.status.completedAt);
        if ts == 0 {
          ts := obj.created;
        }
        if ts > tLast {
          tLast := ts;
        }
      }
      assert listed[..|listed|] == listed;
    }
  }

  /** The status update that asks the server to expire a listed task. */
  method ExpireTask(obj: Task, now: Time) returns (request: Task)
    ensures request == obj.(status := ExpiredStatus(obj.status, now))
  {
    var task := new TaskObject(obj);
    task.MarkExpired(now);
    request := task.Value();
  }

  /** `clock(i)` is what the clock shows when the i-th listed task is being expired. The gauges
      are the phase counts after the pass; gauges and deletions add up to the listed tasks. */
  method Sweep(cfg: Config, listed: seq<Task>, now: Time, clock: nat -> Time)
    returns (gauges: Gauges, expiries: seq<Task>, deletions: seq<string>, expiredCount: nat, deletedCount: nat)
    ensures expiries == Expiries(cfg, listed, now, clock) && expiredCount == |expiries|
    ensures deletions == Doomeds(cfg, listed, now, Reference(cfg, listed)) && deletedCount == |deletions|
    ensures gauges == GaugesAfter(cfg, listed, now, Reference(cfg, listed))
    ensures gauges.Total() + deletedCount == KnownCount(listed)
  {
    hide Expiries, Doomeds, GaugesAfter, KnownCount;
    var tLast := FindLastTerminal(cfg, listed);
    NoneSeen(cfg, listed, now, tLast, clock);
    expiries, deletions, expiredCount, deletedCount := [], [], 0, 0;
    var pending, running, completed, failed, expired := 0, 0, 0, 0, 0;
    for i := 0 to |listed|
      invariant expiries == Expiries(cfg, listed[..i], now, clock) && expiredCount == |expiries|
      invariant deletions == Doomeds(cfg, listed[..i], now, tLast) && deletedCount == |deletions|
      invariant Gauges(pending, running, completed, failed, expired) == GaugesAfter(cfg, listed[..i], now, tLast)
      invariant pending + running + completed + failed + expired + deletedCount == KnownCount(listed[..i])
    {
      OneMore(cfg, listed, i, now, tLast, clock);
      var obj := listed[i];
      match obj.status.phase.Effective() {
        case Pending =>
          pending := pending + 1;
        case Running =>
          running := running + 1;
          if IsStuck(cfg, obj, now) {
            var request := ExpireTask(obj, clock(i));
            expiries := expiries + [request];
            expiredCount := expiredCount + 1;
            running := running - 1;
            expired := expired + 1;
          }
        case Completed =>
          completed := completed + 1;
          if ShouldDelete(cfg, obj, now, tLast) {
            deletions := deletions + [obj.name];
            deletedCount := deletedCount + 1;
            completed := completed - 1;
          }
        case Failed =>
          failed := failed + 1;
          if ShouldDelete(cfg, obj, now, tLast) {
            deletions := deletions + [obj.name];
            deletedCount := deletedCount + 1;
            failed := failed - 1;
          }
        case Expired =>
          expired := expired + 1;
          if ShouldDelete(cfg, obj, now, tLast) {
            deletions := deletions + [obj.name];
            deletedCount := deletedCount + 1;
            expired := expired - 1;
          }
        case _ =>
      }
    }
    assert listed[..|listed|] == listed;
    gauges := Gauges(pending, running, completed, failed, expired);
  }

  // ---------------------------------------------------------------- retention

  function Survivors(cfg: Config, listed: seq<Task>, now: Time): seq<Task> {
    Filter(cfg, listed, now, Reference(cfg, listed))
  }

  function Filter(cfg: Config, listed: seq<Task>, now: Time, tLast: Time): seq<Task> {
    if listed == [] then
      []
    else
      var t := listed[|listed| - 1];
      Filter(cfg, listed[..|listed| - 1], now, tLast) + (if Doomed(cfg, t, now, tLast) then [] else [t])
  }

  lemma {:induction false} FilterKeeps(cfg: Config, listed: seq<Task>, now: Time, tLast: Time)
    ensures forall t :: t in Filter(cfg, listed, now, tLast) <==> t in listed && !Doomed(cfg, t, now, tLast)
  {
    if listed != [] {
      FilterKeeps(cfg, listed[..|listed| - 1], now, tLast);
      assert listed == listed[..|listed| - 1] + [listed[|listed| - 1]];
    }
  }

  /** With a trailing retention and one dated terminal task, the terminal tasks kept are exactly
      those dated within the retention of the newest one, and the newest one is kept. */
  lemma TrailingWindow(cfg: Config, listed: seq<Task>, now: Time)
    requires cfg.trailingRetention > 0
    requires exists t :: t in listed && t.status.phase.Terminal() && TerminalInstant(t) != 0
    ensures var tLast := LastTerminal(listed);
            && (forall t :: t in listed && t.status.phase.Terminal() ==>
                  (t in Survivors(cfg, listed, now) <==> tLast - cfg.trailingRetention <= TerminalInstant(t) <= tLast))
            && (exists t :: t in Survivors(cfg, listed, now) && t.status.phase.Terminal() && TerminalInstant(t) == tLast)
  {
    LastTerminalIsMax(listed);
    var tLast := LastTerminal(listed);
    FilterKeeps(cfg, listed, now, tLast);
    var t :| t in listed && t.status.phase.Terminal() && TerminalInstant(t) == tLast;
    assert t in Survivors(cfg, listed, now);
  }

  /** When a terminal task ended as far as its status tells, else when it was created. */
  function EndOf(t: Task): Time {
    if t.status.completedAt.At? && t.status.completedAt.seconds > 0 then t.status.completedAt.seconds * SECOND else t.created
  }

  /** Without a trailing retention, or as long as no terminal task is dated, the terminal tasks kept are
      exactly those that ended at most the retention period ago. */
  lemma RetentionWindow(cfg: Config, listed: seq<Task>, now: Time, t: Task)
    requires cfg.trailingRetention == 0 || LastTerminal(listed) == 0
    requires t in listed && (t.status.phase.Completed? || t.status.phase.Failed? || t.status.phase.Expired?)
    ensures t in Survivors(cfg, listed, now) <==> now <= EndOf(t) + cfg.retentionPeriod
  {
    FilterKeeps(cfg, listed, now, Reference(cfg, listed));
  }

  /** Tasks in other phases are never deleted. */
  lemma OthersSurvive(cfg: Config, listed: seq<Task>, now: Time, t: Task)
    requires t in listed && !(t.status.phase.Completed? || t.status.phase.Failed? || t.status.phase.Expired?)
    ensures t in Survivors(cfg, listed, now)
  {
    FilterKeeps(cfg, listed, now, Reference(cfg, listed));
  }

  ghost predicate ClaimedTooLongAgo(cfg: Config, t: Task, now: Time) {
    t.status.phase == Running && t.status.claimedAt.At? && now > t.status.claimedAt.seconds * SECOND + cfg.activeDeadline
  }

  /** A name is among the expiries exactly when a listed task of it is Running with a readable claim time
      more than the deadline ago. */
  lemma {:induction false} ExpiresIff(cfg: Config, listed: seq<Task>, now: Time, clock: nat -> Time, name: string)
    ensures (exists e :: e in Expiries(cfg, listed, now, clock) && e.name == name)
       <==> (exists i :: 0 <= i < |listed| && listed[i].name == name && ClaimedTooLongAgo(cfg, listed[i], now))
  {
    if listed != [] {
      var n := |listed| - 1;
      var init, last := listed[..n], listed[n];
      ExpiresIff(cfg, init, now, clock, name);
      var request := last.(status := ExpiredStatus(last.status, clock(n)));
      if ClaimedTooLongAgo(cfg, last, now) {
        assert request in Expiries(cfg, listed, now, clock);
      }
      if e :| e in Expiries(cfg, init, now, clock) && e.name == name {
        assert e in Expiries(cfg, listed, now, clock);
      }
      if i :| 0 <= i < n && init[i].name == name && ClaimedTooLongAgo(cfg, init[i], now) {
        assert listed[i] == init[i];
      }
    }
  }

  // ---------------------------------------------------------------- the next pass

  /** What the pass leaves of a task it does not delete. */
  function PassedOn(cfg: Config, t: Task, now: Time, at: Time): Task {
    if Stuck(cfg, t, now) then t.(status := ExpiredStatus(t.status, at)) else t
  }

  /** The listing after the pass, its requests granted. */
  function Remainder(cfg: Config, listed: seq<Task>, now: Time, tLast: Time, clock: nat -> Time): seq<Task> {
    if listed == [] then
      []
    else
      var i := |listed| - 1;
      Remainder(cfg, listed[..i], now, tLast, clock)
      + (if Doomed(cfg, listed[i], now, tLast) then [] else [PassedOn(cfg, listed[i], now, clock(i))])
  }

  function CountIn(listed: seq<Task>, p: Phase): nat {
    if listed == [] then 0 else CountIn(listed[..|listed| - 1], p) + (if listed[|listed| - 1].status.phase == p then 1 else 0)
  }

  lemma CountAdds(left: seq<Task>, t: Task, p: Phase)
    ensures CountIn(left + [t], p) == CountIn(left, p) + (if t.status.phase == p then 1 else 0)
  {
    assert (left + [t])[..|left|] == left;
  }

  lemma PhaseOfLeft(cfg: Config, t: Task, now: Time, at: Time, tLast: Time, p: Phase)
    requires p == Pending || p == Running || p.Terminal()
    ensures PhaseAfter(cfg, t, now, tLast) == Some(p) <==>
              !Doomed(cfg, t, now, tLast)
              && (PassedOn(cfg, t, now, at).status.phase == p || (p == Pending && PassedOn(cfg, t, now, at).status.phase == Phase.Unset))
  {
  }

  /** A gauge counts the tasks left in its phase; Pending counts those without a phase as well. */
  lemma {:induction false} GaugeCounts(cfg: Config, listed: seq<Task>, now: Time, tLast: Time, clock: nat -> Time, p: Phase)
    requires p == Pending || p == Running || p.Terminal()
    ensures var left := Remainder(cfg, listed, now, tLast, clock);
            CountAfter(cfg, listed, now, tLast, p) == CountIn(left, p) + (if p == Pending then CountIn(left, Phase.Unset) else 0)
  {
    if listed != [] {
      hide PhaseAfter, Doomed, PassedOn;
      var n := |listed| - 1;
      var rest, t := Remainder(cfg, listed[..n], now, tLast, clock), PassedOn(cfg, listed[n], now, clock(n));
      GaugeCounts(cfg, listed[..n], now, tLast, clock, p);
      assert Remainder(cfg, listed, now, tLast, clock) == if Doomed(cfg, listed[n], now, tLast) then rest else rest + [t];
      PhaseOfLeft(cfg, listed[n], now, clock(n), tLast, p);
      CountAdds(rest, t, p);
      CountAdds(rest, t, Phase.Unset);
    }
  }

  /** The five gauges show the phases of the listing as the pass leaves it. */
  lemma GaugesCountRemainder(cfg: Config, listed: seq<Task>, now: Time, tLast: Time, clock: nat -> Time)
    ensures var g, left := GaugesAfter(cfg, listed, now, tLast), Remainder(cfg, listed, now, tLast, clock);
            && g.pending == CountIn(left, Pending) + CountIn(left, Phase.Unset) && g.running == CountIn(left, Running)
            && g.completed == CountIn(left, Completed) && g.failed == CountIn(left, Failed) && g.expired == CountIn(left, Expired)
  {
    hide CountIn, CountAfter, Remainder;
    GaugeCounts(cfg, listed, now, tLast, clock, Pending);
    GaugeCounts(cfg, listed, now, tLast, clock, Running);
    GaugeCounts(cfg, listed, now, tLast, clock, Completed);
    GaugeCounts(cfg, listed, now, tLast, clock, Failed);
    GaugeCounts(cfg, listed, now, tLast, clock, Expired);
  }

  /** The i-th listed task is still there, as t. */
  predicate Leaves(cfg: Config, listed: seq<Task>, now: Time, tLast: Time, clock: nat -> Time, i: int, t: Task) {
    0 <= i < |listed| && !Doomed(cfg, listed[i], now, tLast) && t == PassedOn(cfg, listed[i], now, clock(i))
  }

  lemma {:induction false} RemainderMembers(cfg: Config, listed: seq<Task>, now: Time, tLast: Time, clock: nat -> Time)
    ensures forall i, t :: Leaves(cfg, listed, now, tLast, clock, i, t) ==> t in Remainder(cfg, listed, now, tLast, clock)
    ensures forall t :: t in Remainder(cfg, listed, now, tLast, clock) ==> exists i :: Leaves(cfg, listed, now, tLast, clock, i, t)
  {
    if listed != [] {
      var n := |listed| - 1;
      var init := listed[..n];
      RemainderMembers(cfg, init, now, tLast, clock);
      forall i, t | Leaves(cfg, listed, now, tLast, clock, i, t) ensures t in Remainder(cfg, listed, now, tLast, clock) {
        assert i < n ==> Leaves(cfg, init, now, tLast, clock, i, t);
      }
      forall t | t in Remainder(cfg, listed, now, tLast, clock) ensures exists i :: Leaves(cfg, listed, now, tLast, clock, i, t) {
        if t in Remainder(cfg, init, now, tLast, clock) {
          var i :| Leaves(cfg, init, now, tLast, clock, i, t);
          assert Leaves(cfg, listed, now, tLast, clock, i, t);
        } else {
          assert Leaves(cfg, listed, now, tLast, clock, n, t);
        }
      }
    }
  }

  /** The next pass, whenever it comes, deletes nothing. */
  ghost predicate Settled(cfg: Config, listed: seq<Task>, now: Time, clock: nat -> Time, later: Time) {
    var left := Remainder(cfg, listed, now, Reference(cfg, listed), clock);
    forall t :: t in left ==> !Doomed(cfg, t, later, Reference(cfg, left))
  }

  /** Every expiry of the pass is within the trailing retention of every terminal task it leaves,
      the other expiries included, and of the reference instant. */
  ghost predicate ExpiriesNearby(cfg: Config, listed: seq<Task>, now: Time, clock: nat -> Time) {
    forall i :: 0 <= i < |listed| && Stuck(cfg, listed[i], now) ==>
      var stamp := TerminalInstant(PassedOn(cfg, listed[i], now, clock(i)));
      && LastTerminal(listed) <= stamp + cfg.trailingRetention
      && forall j, t :: Leaves(cfg, listed, now, LastTerminal(listed), clock, j, t) && t.status.phase.Terminal() ==>
           stamp <= TerminalInstant(t) + cfg.trailingRetention
  }

  /** The new reference instant is the old one or that of a task the pass expired. */
  lemma NextReference(cfg: Config, listed: seq<Task>, now: Time, clock: nat -> Time)
    requires cfg.trailingRetention > 0 && LastTerminal(listed) != 0
    ensures var tLast := LastTerminal(listed);
            var next := LastTerminal(Remainder(cfg, listed, now, tLast, clock));
            && next >= tLast
            && (next == tLast || exists i :: 0 <= i < |listed| && Stuck(cfg, listed[i], now)
                                             && TerminalInstant(PassedOn(cfg, listed[i], now, clock(i))) == next)
  {
    var tLast := LastTerminal(listed);
    var left := Remainder(cfg, listed, now, tLast, clock);
    NewestIsLeft(cfg, listed, now, clock);
    LastTerminalIsMax(left);
    var t :| t in left && t.status.phase.Terminal() && TerminalInstant(t) == LastTerminal(left);
    RemainderMembers(cfg, listed, now, tLast, clock);
    var i :| Leaves(cfg, listed, now, tLast, clock, i, t);
    if !Stuck(cfg, listed[i], now) {
      LastTerminalIsMax(listed);
      assert t in listed;
    }
  }

  lemma NewestIsLeft(cfg: Config, listed: seq<Task>, now: Time, clock: nat -> Time)
    requires cfg.trailingRetention > 0 && LastTerminal(listed) != 0
    ensures LastTerminal(Remainder(cfg, listed, now, LastTerminal(listed), clock)) >= LastTerminal(listed)
  {
    var tLast := LastTerminal(listed);
    var left := Remainder(cfg, listed, now, tLast, clock);
    LastTerminalIsMax(listed);
    var newest :| newest in listed && newest.status.phase.Terminal() && TerminalInstant(newest) == tLast;
    var k :| 0 <= k < |listed| && listed[k] == newest;
    assert Leaves(cfg, listed, now, tLast, clock, k, newest);
    RemainderMembers(cfg, listed, now, tLast, clock);
    LastTerminalIsMax(left);
  }

  lemma NearbySettles(cfg: Config, listed: seq<Task>, now: Time, clock: nat -> Time, later: Time)
    requires cfg.trailingRetention > 0 && LastTerminal(listed) != 0 && ExpiriesNearby(cfg, listed, now, clock)
    ensures Settled(cfg, listed, now, clock, later)
  {
    var tLast := LastTerminal(listed);
    var left := Remainder(cfg, listed, now, tLast, clock);
    NextReference(cfg, listed, now, clock);
    RemainderMembers(cfg, listed, now, tLast, clock);
    forall t | t in left ensures !Doomed(cfg, t, later, LastTerminal(left)) {
      var j :| Leaves(cfg, listed, now, tLast, clock, j, t);
    }
  }

  lemma SettledIsNearby(cfg: Config, listed: seq<Task>, now: Time, clock: nat -> Time, later: Time)
    requires cfg.trailingRetention > 0 && LastTerminal(listed) != 0 && Settled(cfg, listed, now, clock, later)
    ensures ExpiriesNearby(cfg, listed, now, clock)
  {
    var tLast := LastTerminal(listed);
    var left := Remainder(cfg, listed, now, tLast, clock);
    NextReference(cfg, listed, now, clock);
    RemainderMembers(cfg, listed, now, tLast, clock);
    LastTerminalIsMax(left);
    forall i | 0 <= i < |listed| && Stuck(cfg, listed[i], now)
      ensures TerminalInstant(PassedOn(cfg, listed[i], now, clock(i))) <= LastTerminal(left) <=
              TerminalInstant(PassedOn(cfg, listed[i], now, clock(i))) + cfg.trailingRetention
    {
      assert Leaves(cfg, listed, now, tLast, clock, i, PassedOn(cfg, listed[i], now, clock(i)));
    }
  }

  /** With a trailing retention and one dated terminal task: the next pass deletes nothing if and
      only if every task this pass expired is stamped within the retention of everything terminal
      it left. An expiry moves the reference instant, so a pass can make older tasks due. */
  lemma TrailingSweepSettlesIff(cfg: Config, listed: seq<Task>, now: Time, clock: nat -> Time, later: Time)
    requires cfg.trailingRetention > 0
    requires exists t :: t in listed && t.status.phase.Terminal() && TerminalInstant(t) != 0
    ensures Settled(cfg, listed, now, clock, later) <==> ExpiriesNearby(cfg, listed, now, clock)
  {
    LastTerminalIsMax(listed);
    if ExpiriesNearby(cfg, listed, now, clock) {
      NearbySettles(cfg, listed, now, clock, later);
    }
    if Settled(cfg, listed, now, clock, later) {
      SettledIsNearby(cfg, listed, now, clock, later);
    }
  }

  /** So a pass over a listing without stuck tasks settles it at once; without running tasks the
      next pass expires nothing either. */
  lemma TrailingSweepSettles(cfg: Config, listed: seq<Task>, now: Time, clock: nat -> Time, later: Time)
    requires cfg.trailingRetention > 0
    requires exists t :: t in listed && t.status.phase.Terminal() && TerminalInstant(t) != 0
    requires forall t :: t in listed ==> !Stuck(cfg, t, now)
    ensures Settled(cfg, listed, now, clock, later)
    ensures var left := Remainder(cfg, listed, now, Reference(cfg, listed), clock);
            (forall t :: t in listed ==> !t.status.phase.Running?) ==> Expiries(cfg, left, later, clock) == []
  {
    TrailingSweepSettlesIff(cfg, listed, now, clock, later);
    var left := Remainder(cfg, listed, now, Reference(cfg, listed), clock);
    if forall t :: t in listed ==> !t.status.phase.Running? {
      RemainderMembers(cfg, listed, now, Reference(cfg, listed), clock);
      forall t | t in left ensures !Stuck(cfg, t, later) {
        var i :| Leaves(cfg, listed, now, Reference(cfg, listed), clock, i, t);
        assert listed[i] in listed;
      }
      NoneStuckNoExpiries(cfg, left, later, clock);
    }
  }

  lemma {:induction false} NoneStuckNoExpiries(cfg: Config, listed: seq<Task>, now: Time, clock: nat -> Time)
    requires forall t :: t in listed ==> !Stuck(cfg, t, now)
    ensures Expiries(cfg, listed, now, clock) == []
  {
    if listed != [] {
      NoneStuckNoExpiries(cfg, listed[..|listed| - 1], now, clock);
    }
  }

  /** A pass that expires one task makes another due: A completed 100s, B claimed at 2s and running;
      the pass at 1000s keeps A and expires B, the next one deletes A. */
  lemma SweepCanUnsettle(spec: Spec, clock: nat -> Time, later: Time)
    requires clock(1) == 1000 * SECOND
    ensures var cfg := Config(5 * SECOND, 3600 * SECOND, 10 * SECOND);
            var done := Task("a", 1, 3, 0, spec, Status(Completed, Some("w"), At(90), At(100), 0, NoResult));
            var busy := Task("b", 2, 4, 0, spec, Status(Running, Some("w"), At(2), Absent, 0, NoResult));
            !Settled(cfg, [done, busy], 1000 * SECOND, clock, later)
  {
    var cfg := Config(5 * SECOND, 3600 * SECOND, 10 * SECOND);
    var done := Task("a", 1, 3, 0, spec, Status(Completed, Some("w"), At(90), At(100), 0, NoResult));
    var busy := Task("b", 2, 4, 0, spec, Status(Running, Some("w"), At(2), Absent, 0, NoResult));
    var listed, now := [done, busy], 1000 * SECOND;
    assert TerminalInstant(done) == 100 * SECOND;
    assert listed[..1] == [done];
    assert LastTerminal([done]) == 100 * SECOND by {
      assert [done][..0] == [] && LastTerminal([]) == 0;
    }
    assert LastTerminal(listed) == 100 * SECOND;
    assert listed[0] in listed && Stuck(cfg, listed[1], now);
    assert Leaves(cfg, listed, now, 100 * SECOND, clock, 0, done);
    assert !ExpiriesNearby(cfg, listed, now, clock);
    TrailingSweepSettlesIff(cfg, listed, now, clock, later);
  }

  // ---------------------------------------------------------------- requests and the queue's steps

  predicate DistinctNames(listed: seq<Task>) {
    forall i, j :: 0 <= i < j < |listed| ==> listed[i].name != listed[j].name
  }

  /** The names deleted are those of the listed tasks that do not survive. */
  lemma {:induction false} DeletionsAreTheRest(cfg: Config, listed: seq<Task>, now: Time, t: Task)
    requires DistinctNames(listed) && t in listed
    ensures t in Survivors(cfg, listed, now) <==> t.name !in Doomeds(cfg, listed, now, Reference(cfg, listed))
  {
    FilterKeeps(cfg, listed, now, Reference(cfg, listed));
    DoomedNames(cfg, listed, now, Reference(cfg, listed));
  }

  lemma {:induction false} DoomedNames(cfg: Config, listed: seq<Task>, now: Time, tLast: Time)
    ensures forall n :: n in Doomeds(cfg, listed, now, tLast) <==>
              exists i :: 0 <= i < |listed| && Doomed(cfg, listed[i], now, tLast) && listed[i].name == n
  {
    if listed != [] {
      var k := |listed| - 1;
      DoomedNames(cfg, listed[..k], now, tLast);
      assert forall i :: 0 <= i < k ==> listed[..k][i] == listed[i];
    }
  }

  /** The listing the sweep j of the queue works on. */
  ghost predicate ListedBy(s: State, j: nat, listed: seq<Task>, now: Time) {
    && j in s.sweeps && s.sweeps[j].now == Some(now)
    && (forall t :: t in listed <==> t in s.sweeps[j].listed.Values)
    && (forall n :: n in s.sweeps[j].listed ==> s.sweeps[j].listed[n].name == n)
  }

  lemma ListedUnderItsName(s: State, j: nat, listed: seq<Task>, now: Time, t: Task)
    requires ListedBy(s, j, listed, now) && t in listed
    ensures t.name in s.sweeps[j].listed && s.sweeps[j].listed[t.name] == t
  {
    assert t in s.sweeps[j].listed.Values;
    var n :| n in s.sweeps[j].listed && s.sweeps[j].listed[n] == t;
  }

  /** An expiry the sweep requests is the queue's Expire step, and the step does nothing for a task
      the sweep does not expire. */
  lemma ExpiriesAreSteps(cfg: Config, s: State, j: nat, listed: seq<Task>, now: Time, t: Task, at: Time)
    requires StoreOk(s) && ListedBy(s, j, listed, now) && t in listed && now <= at <= s.clock
    ensures var s' := Exec(cfg, s, Expire(j, t.name, at));
            if Stuck(cfg, t, now)
            then s'.store == UpdateStatus(s.store, t.(status := ExpiredStatus(t.status, at))).0
            else s' == s
  {
    hide ExpiredStatus;
    ListedUnderItsName(s, j, listed, now, t);
  }

  /** A deletion the sweep requests is the queue's DeleteTask step, and no choice of reference
      enables that step for a task the sweep keeps. */
  lemma DeletionsAreSteps(cfg: Config, s: State, j: nat, listed: seq<Task>, now: Time, t: Task)
    requires ListedBy(s, j, listed, now) && t in listed
    ensures Doomed(cfg, t, now, Reference(cfg, listed)) ==>
              Exec(cfg, s, DeleteTask(j, t.name, LastTerminal(listed))).store == Tasks.Delete(s.store, t.name)
    ensures !Doomed(cfg, t, now, Reference(cfg, listed)) ==>
              forall tLast :: Exec(cfg, s, DeleteTask(j, t.name, tLast)) == s
  {
    ListedUnderItsName(s, j, listed, now, t);
    ReferenceIsLastTerminal(s.sweeps[j].listed, listed);
    LastTerminalIsMax(listed);
    assert t.name !in s.store.objects ==> Tasks.Delete(s.store, t.name).objects == s.store.objects;
    forall tLast | IsLastTerminal(s.sweeps[j].listed, tLast) && t.status.phase.Terminal() ensures tLast == LastTerminal(listed) {
      ReferenceIsUnique(s.sweeps[j].listed, tLast, LastTerminal(listed));
    }
  }

  lemma ReferenceIsUnique(objects: map<string, Task>, a: Time, b: Time)
    requires IsLastTerminal(objects, a) && IsLastTerminal(objects, b)
    ensures a == b
  {
  }

  /** The protocol's janitor decides by the same reference instant: whatever order the server
      lists the objects in, LastTerminal of the listing is their last terminal instant. */
  lemma ReferenceIsLastTerminal(objects: map<string, Task>, listed: seq<Task>)
    requires forall t :: t in listed <==> t in objects.Values
    ensures IsLastTerminal(objects, LastTerminal(listed))
  {
    LastTerminalIsMax(listed);
    forall n | n in objects ensures objects[n] in listed {
      assert objects[n] in objects.Values;
    }
    if LastTerminal(listed) != 0 {
      var t :| t in listed && t.status.phase.Terminal() && TerminalInstant(t) == LastTerminal(listed);
      assert t in objects.Values;
    }
  }
}
