/** The health state of the metrics registry (internal/metrics/metrics.go, the fields behind healthMu). */
module Metrics {
  import opened Health

  class Registry {
    var monitorConnected: bool
    var roleKnown: bool
    var failingOutputs: set<string>
    var failingAlertChannels: set<string>

    constructor ()
      ensures Snapshot() == Unready
    {
      monitorConnected, roleKnown, failingOutputs, failingAlertChannels := false, false, {}, {};
    }

    /** What the readiness endpoint reads. */
    function Snapshot(): Readiness
      reads this
    {
      Readiness(monitorConnected, roleKnown, failingOutputs, failingAlertChannels)
    }

    method SetMonitorConnected(connected: bool)
      modifies this`monitorConnected
      ensures Snapshot() == OnSession(old(Snapshot()), connected)
    {
      monitorConnected := connected;
    }

    method SetRedisRole(role: string)
      modifies this`roleKnown
      ensures Snapshot() == OnProbe(old(Snapshot()), role)
    {
      roleKnown := role != "" && role != "unknown";
    }

    method SetOutputFailing(output: string, failing: bool)
      modifies this`failingOutputs
      ensures Snapshot() == old(Snapshot()).(failingOutputs := Marked(old(failingOutputs), output, failing))
    {
      if failing {
        failingOutputs := failingOutputs + {output};
      } else {
        failingOutputs := failingOutputs - {output};
      }
    }

    method SetAlertChannelFailing(channel: string, failing: bool)
      modifies this`failingAlertChannels
      ensures Snapshot() == OnDispatch(old(Snapshot()), channel, !failing)
    {
      if failing {
        failingAlertChannels := failingAlertChannels + {channel};
      } else {
        failingAlertChannels := failingAlertChannels - {channel};
      }
    }
  }
}
