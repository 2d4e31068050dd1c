/** The deadman loop beside the supervisor: when it fences, and when it gives up. */
module Watchdog {
  import opened Quorum
  import opened Supervisor
  import F = FenceCache

  const MISS_LIMIT: nat := 20

  /**
   One wake-up: None if the server does not answer, otherwise whether it is in recovery; the clock, the
   heartbeat file's value (None if missing or empty) and the active setting, then the two calls' results.
   */
  datatype Look = Look(inRecovery: Option<bool>, now: Time, heartbeat: Option<Time>, readOnly: bool, call: F.Call)

  predicate Stale(look: Look) {
    look.now - look.heartbeat.GetOr(0) >= F.WATCHDOG_STALE
  }

  /** A serving node whose heartbeat is stale and which is not yet read-only is fenced. */
  predicate Fences(look: Look) {
    look.inRecovery == Some(false) && Stale(look) && !look.readOnly
  }

  /** How many of the latest looks in a row found no server. */
  function Misses(looks: seq<Look>): nat
    decreases |looks|
  {
    if looks == [] || looks[|looks| - 1].inRecovery.Some? then 0
    else 1 + Misses(looks[..|looks| - 1])
  }

  class Deadman {
    var miss: nat
    var running: bool
    ghost var looks: seq<Look>

    ghost predicate Valid()
      reads this
    {
      miss == Misses(looks) && (running <==> miss < MISS_LIMIT)
    }

    constructor ()
      ensures Valid() && running && looks == []
    {
      miss, running, looks := 0, true, [];
    }

    /** One pass of the loop; the returned call is what it asked of the server, if anything. */
    method Wake(look: Look) returns (fence: Option<F.Call>)
      requires Valid() && running
      modifies this
      ensures Valid() && looks == old(looks) + [look]
      ensures fence == if Fences(look) then Some(look.call) else None
    {
      ghost var seen := looks;
      looks := looks + [look];
      assert looks[..|looks| - 1] == seen;
      fence := None;
      if look.inRecovery.None? {
        miss := miss + 1;
        if miss >= MISS_LIMIT {
          running := false;
        }
        return;
      }
      miss := 0;
      if look.inRecovery.value {
        return;
      }
      var hb := if look.heartbeat.None? then 0 else look.heartbeat.value;
      if look.now - hb >= F.WATCHDOG_STALE && !look.readOnly {
        fence := Some(look.call);
      }
    }
  }

  /** It gives up exactly when the last twenty looks all found no server. */
  lemma {:induction false} GivesUpExactly(looks: seq<Look>, limit: nat)
    ensures Misses(looks) >= limit <==>
              |looks| >= limit && forall k :: |looks| - limit <= k < |looks| ==> looks[k].inRecovery.None?
    decreases |looks|
  {
    if limit > 0 && looks != [] && looks[|looks| - 1].inRecovery.None? {
      var front := looks[..|looks| - 1];
      GivesUpExactly(front, limit - 1);
      assert forall k :: 0 <= k < |front| ==> front[k] == looks[k];
    } else if limit > 0 && looks != [] {
      assert looks[|looks| - 1].inRecovery.Some?;
    }
  }

  /**
   A wake-up of a serving node is the fence-cache model's steps, each taken in the state in which the
   script reads it: the look at the heartbeat (zero when it is missing), the look at the setting, and the
   two calls.
   */
  lemma WakeIsWatchdogSteps(c: F.Config, look: Look, s1: F.State, s2: F.State, s3: F.State, at: Time)
    requires c.staleLimit == F.WATCHDOG_STALE && look.inRecovery == Some(false)
    requires look.heartbeat.GetOr(0) == s1.heartbeat && s1.watch.Asleep?
    requires s2.watch.Stale? && look.readOnly == s2.active
    requires s3.watch.Fencing?
    ensures var t1 := F.Next(c, s1, F.Look(at, look.now)); var t2 := F.Next(c, s2, F.Show(at));
            && (t1.watch.Stale? && t2.watch.Fencing? <==> Fences(look))
            && t1.conf == s1.conf && t1.active == s1.active && t2.conf == s2.conf && t2.active == s2.active
    ensures var t3 := F.Next(c, F.Next(c, s3, F.Alter(at, look.call.altered)), F.Reload(at, look.call.reloaded));
            var conf := s3.conf || look.call.altered;
            t3 == s3.(clock := at, watch := F.Asleep, conf := conf,
                      active := if look.call.reloaded then conf else s3.active)
  {
  }
}
