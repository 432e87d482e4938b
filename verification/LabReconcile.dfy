/** What a pass of the reconciler does to the labs it knows about and to those it discovers. */
module LabReconcile {
  import opened Wrappers
  import opened LabProtocol
  import opened LabProtocolTheorems
  import opened LabMonitors
  import opened LabModels

  /** `_State`: the monitor of a user's lab and the status of the lab, if there is one. */
  class LabRecord {
    const monitor: LabMonitor
    var status: Option<LabStatus>

    constructor (monitor: LabMonitor, status: Option<LabStatus>)
      ensures this.monitor == monitor && this.status == status
    {
      this.monitor, this.status := monitor, status;
    }

    /** `modified_since` */
    predicate ModifiedSince(date: nat)
      reads monitor
    {
      monitor.operation.Some? || monitor.lastModified > date
    }

    /** One record of `_reconcile_known_users`, and whether its lab should be monitored. */
    method Reconcile(observed: Option<LabStatus>, cutoff: nat) returns (pending: bool)
      modifies `status
      ensures status == Corrected(old(status), ModifiedSince(cutoff), observed)
      ensures pending == NeedsMonitor(old(status), ModifiedSince(cutoff), observed)
      ensures var changed := monitor.operation.Some? || monitor.lastModified > cutoff;
              if old(status).None? || changed || old(status) == Some(Failed) then status == old(status) && !pending
              else status == Some(observed.GetOr(Failed)) && (pending <==> observed == Some(Pending) && old(status) != Some(Pending))
    {
      pending := false;
      if status.None? || ModifiedSince(cutoff) || status == Some(Failed) {
        return;
      }
      if observed.None? {
        status := Some(Failed);
      } else if observed != status {
        status := observed;
        pending := observed == Some(Pending);
      }
    }
  }

  /** What the pass over known users makes of a status, given whether the lab changed meanwhile. */
  function Corrected(status: Option<LabStatus>, changed: bool, observed: Option<LabStatus>): Option<LabStatus> {
    if status.None? || changed || status == Some(Failed) then status
    else if observed.None? then Some(Failed)
    else observed
  }

  /** Labs that turn out to be pending without a monitor. */
  predicate NeedsMonitor(status: Option<LabStatus>, changed: bool, observed: Option<LabStatus>) {
    observed == Some(Pending) && Corrected(status, changed, observed) != status
  }

  function Lookup(observed: map<string, LabStatus>, user: string): Option<LabStatus> {
    if user in observed then Some(observed[user]) else None
  }

  /** The record of a lab that only Kubernetes knew about. */
  method NewRecord(status: LabStatus) returns (lab: LabRecord)
    ensures fresh(lab) && fresh(lab.monitor) && lab.status == Some(status) && lab.monitor.operation.None?
  {
    var monitor := new LabMonitor();
    lab := new LabRecord(monitor, Some(status));
  }

  /** `LabManager`, as far as reconciliation goes. */
  class LabManager {
    var labs: map<string, LabRecord>

    constructor ()
      ensures Valid() && labs == map[]
    {
      labs := map[];
    }

    /** Every user has a record of their own. */
    ghost predicate Valid()
      reads this
    {
      forall u, v | u in labs && v in labs && u != v :: labs[u] != labs[v]
    }

    /** `_reconcile_known_users`: corrects every record by what was seen, and names those to monitor. */
    method ReconcileKnownUsers(observed: map<string, LabStatus>, cutoff: nat) returns (toMonitor: set<string>)
      requires Valid()
      modifies labs.Values`status
      ensures toMonitor <= labs.Keys
      ensures forall u | u in labs ::
                && labs[u].status == Corrected(old(labs[u].status), labs[u].ModifiedSince(cutoff), Lookup(observed, u))
                && (u in toMonitor <==> NeedsMonitor(old(labs[u].status), labs[u].ModifiedSince(cutoff), Lookup(observed, u)))
    {
      hide Corrected, NeedsMonitor, Lookup, LabRecord.ModifiedSince;
      toMonitor := {};
      var todo := labs.Keys;
      while todo != {}
        invariant todo <= labs.Keys && toMonitor <= labs.Keys - todo
        invariant forall u | u in todo :: labs[u].status == old(labs[u].status)
        invariant forall u | u in labs.Keys - todo ::
                    && labs[u].status == Corrected(old(labs[u].status), labs[u].ModifiedSince(cutoff), Lookup(observed, u))
                    && (u in toMonitor <==> NeedsMonitor(old(labs[u].status), labs[u].ModifiedSince(cutoff), Lookup(observed, u)))
        decreases todo
      {
        var user :| user in todo;
        todo := todo - {user};
        var pending := labs[user].Reconcile(Lookup(observed, user), cutoff);
        if pending {
          toMonitor := toMonitor + {user};
        }
      }
    }

    /** The second pass of `reconcile`: records for the users that only Kubernetes knew about. */
    method CreateMissing(observed: map<string, LabStatus>) returns (toMonitor: set<string>)
      requires Valid()
      modifies this
      ensures Valid() && labs.Keys == old(labs.Keys) + observed.Keys
      ensures forall u | u in old(labs) :: labs[u] == old(labs[u])
      ensures forall u | u in labs && u !in old(labs) ::
                fresh(labs[u]) && labs[u].status == Some(observed[u]) && labs[u].monitor.operation.None?
      ensures toMonitor == set u | u in labs && u !in old(labs) && observed[u] == Pending
    {
      toMonitor := {};
      ghost var known := labs;
      var todo := observed.Keys - labs.Keys;
      while todo != {}
        invariant Valid() && todo !! labs.Keys && labs.Keys + todo == known.Keys + observed.Keys
        invariant forall u | u in known :: u in labs && labs[u] == known[u]
        invariant forall u | u in labs && u !in known ::
                    fresh(labs[u]) && labs[u].status == Some(observed[u]) && labs[u].monitor.operation.None?
        invariant toMonitor == set u | u in labs && u !in known && observed[u] == Pending
        decreases todo
      {
        var user :| user in todo;
        var lab := NewRecord(observed[user]);
        labs, todo := labs[user := lab], todo - {user};
        if observed[user] == Pending {
          toMonitor := toMonitor + {user};
        }
      }
    }

    /** The two passes of `reconcile` that change the records. */
    method ReconcileRecords(observed: map<string, LabStatus>, cutoff: nat) returns (toMonitor: set<string>)
      requires Valid()
      modifies this, labs.Values`status
      ensures Valid() && labs.Keys == old(labs.Keys) + observed.Keys && toMonitor <= labs.Keys
      ensures forall u | u in old(labs) ::
                && labs[u] == old(labs[u])
                && labs[u].status == Corrected(old(labs[u].status), labs[u].ModifiedSince(cutoff), Lookup(observed, u))
                && (u in toMonitor <==> NeedsMonitor(old(labs[u].status), labs[u].ModifiedSince(cutoff), Lookup(observed, u)))
      ensures forall u | u in labs && u !in old(labs) ::
                labs[u].status == Some(observed[u]) && labs[u].monitor.operation.None? && (u in toMonitor <==> observed[u] == Pending)
      ensures forall u | u in old(labs) ::
                var changed := labs[u].monitor.operation.Some? || labs[u].monitor.lastModified > cutoff;
                var was := old(labs[u].status);
                if was.None? || changed || was == Some(Failed) then labs[u].status == was && u !in toMonitor
                else if u !in observed then labs[u].status == Some(Failed) && u !in toMonitor
                else labs[u].status == Some(observed[u]) && (u in toMonitor <==> observed[u] == Pending && was != Some(Pending))
    {
      hide Corrected, NeedsMonitor, Lookup, LabRecord.ModifiedSince;
      toMonitor := ReconcileKnownUsers(observed, cutoff);
      var more := CreateMissing(observed);
      toMonitor := toMonitor + more;
      forall u | u in old(labs)
        ensures var changed := labs[u].monitor.operation.Some? || labs[u].monitor.lastModified > cutoff;
                var was := old(labs[u].status);
                if was.None? || changed || was == Some(Failed) then labs[u].status == was && u !in toMonitor
                else if u !in observed then labs[u].status == Some(Failed) && u !in toMonitor
                else labs[u].status == Some(observed[u]) && (u in toMonitor <==> observed[u] == Pending && was != Some(Pending))
      {
        CorrectedIs(old(labs[u].status), labs[u].ModifiedSince(cutoff), Lookup(observed, u));
        Changed(labs[u], cutoff);
        LookedUp(observed, u);
      }
    }

    /** One namespace of `_gather_current_state`, given what was read of it. */
    method GatherNamespace(user: string, found: Option<LabStatus>, cutoff: nat) returns (observed: Option<LabStatus>, deleted: bool)
      ensures observed == found && deleted == DeletesNamespace(user, found, cutoff)
      ensures deleted <==> found.None? && (user in labs ==> labs[user].monitor.operation.None? && labs[user].monitor.lastModified <= cutoff)
    {
      observed, deleted := found, false;
      if found.None? {
        deleted := user !in labs || !labs[user].ModifiedSince(cutoff);
      }
    }

    /** Whether `_gather_current_state` deletes a namespace in which it found this. */
    predicate DeletesNamespace(user: string, found: Option<LabStatus>, cutoff: nat)
      reads this, labs.Values, set u | u in labs :: labs[u].monitor
    {
      found.None? && (user !in labs || !labs[user].ModifiedSince(cutoff))
    }
  }

  /** What the pass makes of one status, and which labs it wants monitored. */
  lemma CorrectedIs(status: Option<LabStatus>, changed: bool, observed: Option<LabStatus>)
    ensures var r, pending := Corrected(status, changed, observed), NeedsMonitor(status, changed, observed);
            if status.None? || changed || status == Some(Failed) then r == status && !pending
            else if observed.None? then r == Some(Failed) && !pending
            else r == observed && (pending <==> observed == Some(Pending) && status != Some(Pending))
  {
  }

  lemma Changed(record: LabRecord, cutoff: nat)
    ensures record.ModifiedSince(cutoff) <==> record.monitor.operation.Some? || record.monitor.lastModified > cutoff
  {
  }

  lemma LookedUp(observed: map<string, LabStatus>, user: string)
    ensures Lookup(observed, user) == if user in observed then Some(observed[user]) else None
  {
  }

  /** What a pass leaves behind for a lab nobody touched meanwhile: no record, a failed lab, or what was seen. */
  lemma CorrectedAgrees(status: Option<LabStatus>, observed: Option<LabStatus>)
    ensures var r := Corrected(status, false, observed);
            r == Some(Failed) || r == observed || r == status == None
    ensures Corrected(status, false, observed).Some? <==> status.Some?
  {
  }

  /** A second pass over the same data changes nothing and finds nothing to monitor. */
  lemma CorrectedOnce(status: Option<LabStatus>, changed: bool, observed: Option<LabStatus>)
    ensures var r := Corrected(status, changed, observed);
            Corrected(r, changed, observed) == r && !NeedsMonitor(r, changed, observed)
  {
  }

  /**
   A lab whose spawn ended after a reconcile started, and of which no delete is pending: that
   reconcile changes nothing about its record, and if it has one with a state, it does not
   delete its namespace.
   */
  lemma RecentSpawnIsLeftAlone(manager: LabManager, user: string, states: seq<Lab>, steps: seq<LabProtocol.Step>, has: seq<bool>,
                               i: nat, k: nat, cutoff: nat, found: Option<LabStatus>, observed: Option<LabStatus>)
    requires Run(states, steps) && Recorded(states, steps, has) && i < |states| && k < |states[i].tasks|
    requires user in manager.labs && manager.labs[user].monitor.Abs() == states[i] && manager.labs[user].status.Some? == has[i]
    requires var t := states[i].tasks[k]; t.kind.Spawn? && t.phase.Finished? && t.finishedAt > cutoff
    requires !DeletePending(states[i])
    ensures has[i] ==> !manager.DeletesNamespace(user, found, cutoff)
    ensures var record := manager.labs[user];
            Corrected(record.status, record.ModifiedSince(cutoff), observed) == record.status
            && !NeedsMonitor(record.status, record.ModifiedSince(cutoff), observed)
  {
    hide DeletePending, Remembers;
    if has[i] {
      MissedSpawnIsBeingDeleted(states, steps, has, i, k, cutoff);
    }
  }
}
