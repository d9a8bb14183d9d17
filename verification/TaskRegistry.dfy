/** The registry from workspaces to the process groups running in them. */
module TaskRegistry {
  import opened SessionSpec

  function Registered(pgids: map<string, int>, key: string, pgid: int): map<string, int> {
    if key == "" || pgid <= 0 then pgids else pgids[key := pgid]
  }

  function Unregistered(pgids: map<string, int>, key: string, pgid: int): map<string, int> {
    if key != "" && key in pgids && (pgid <= 0 || pgids[key] == pgid) then pgids - {key} else pgids
  }

  datatype LookupResult = Found(pgid: int) | EmptyWorkspace | BadUtilization | NoTask

  /** The group a utilization update would be sent to. */
  function Lookup(pgids: map<string, int>, key: string, utilization: int): LookupResult {
    if key == "" then EmptyWorkspace
    else if utilization < 0 || utilization > 100 then BadUtilization
    else if key !in pgids then NoTask
    else Found(pgids[key])
  }

  class Registry {
    var pgids: map<string, int>

    method RegisterTaskProcessGroup(key: string, pgid: int)
      modifies this
      ensures pgids == Registered(old(pgids), key, pgid)
    {
      if key == "" || pgid <= 0 {
        return;
      }
      pgids := pgids[key := pgid];
    }

    method UnregisterTaskProcessGroup(key: string, pgid: int)
      modifies this
      ensures pgids == Unregistered(old(pgids), key, pgid)
    {
      if key == "" {
        return;
      }
      if key in pgids && (pgid <= 0 || pgids[key] == pgid) {
        pgids := pgids - {key};
      }
    }

    method LookupProcessGroup(key: string, utilization: int) returns (r: LookupResult)
      ensures r == Lookup(pgids, key, utilization)
    {
      if key == "" {
        return EmptyWorkspace;
      }
      if utilization < 0 || utilization > 100 {
        return BadUtilization;
      }
      if key !in pgids {
        return NoTask;
      }
      return Found(pgids[key]);
    }
  }
}
