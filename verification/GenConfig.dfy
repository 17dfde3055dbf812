/** The captures of a generation configuration: what is read from each, and what that makes of the flows. */
module GenConfig {
  import opened Wrappers
  import opened Headers
  import opened Flows
  import opened GenLife

  /** A value of a configuration: a number without a sign, a text, or anything else. */
  datatype Json = Number(n: nat) | Text(s: string) | Another

  /** The fields of one capture. */
  type Fields = map<string, Json>

  datatype Error = Malformed | BadBurst | BadFlowsPerSec | BadIpg | BadClnPort | BadClients | BadServers

  datatype Result<T> = Success(value: T) | Failure(error: Error)

  predicate HasText(cap: Fields, name: string) {
    name in cap && cap[name].Text?
  }

  predicate HasNumber(cap: Fields, name: string) {
    name in cap && cap[name].Number?
  }

  function OptNumber(cap: Fields, name: string): Option<nat>
    requires name in cap
  {
    if cap[name].Number? then Some(cap[name].n) else None
  }

  /** All fields that are read are there, those that must have a kind are of it. */
  predicate WellFormed(cap: Fields) {
    && HasText(cap, "name") && HasNumber(cap, "burst") && HasNumber(cap, "fps") && "ipg" in cap
    && HasText(cap, "cln_ips") && "cln_port" in cap
  }

  /** One capture. `network` reads an IPv4 network from a text. The servers' one is read from the clients' text too. */
  function LoadCapture(cap: Fields, network: string -> Option<Network>): Result<GenCfg> {
    if !WellFormed(cap) then Failure(Malformed)
    else
      var burst, fps := cap["burst"].n, cap["fps"].n;
      var ipg, port := OptNumber(cap, "ipg"), OptNumber(cap, "cln_port");
      var clnIps, srvIps := cap["cln_ips"].s, cap["cln_ips"].s;
      if !(1 <= burst <= 5) then Failure(BadBurst)
      else if !(1 <= fps <= 1_000_000) then Failure(BadFlowsPerSec)
      else if ipg.Some? && !(1 <= ipg.value <= 1_000_000) then Failure(BadIpg)
      else if port.Some? && !(1_024 <= port.value <= 65_535) then Failure(BadClnPort)
      else if network(clnIps).None? then Failure(BadClients)
      else if network(srvIps).None? then Failure(BadServers)
      else
        var clnPort: Option<Port> := if port.Some? then Some(port.value) else None;
        Success(GenCfg(cap["name"].s, burst, fps, ipg, network(clnIps).value, network(srvIps).value, clnPort))
  }

  /** The captures of a configuration, up to the first that is not accepted. */
  method LoadCaptures(caps: seq<Fields>, network: string -> Option<Network>) returns (r: Result<seq<GenCfg>>)
    ensures r.Success? ==> |r.value| == |caps|
                           && forall i :: 0 <= i < |caps| ==> LoadCapture(caps[i], network) == Success(r.value[i])
    ensures r.Failure? ==> exists i :: 0 <= i < |caps| && LoadCapture(caps[i], network) == Failure(r.error)
                                       && forall j :: 0 <= j < i ==> LoadCapture(caps[j], network).Success?
  {
    var cfgs := [];
    for i := 0 to |caps|
      invariant |cfgs| == i && forall j :: 0 <= j < i ==> LoadCapture(caps[j], network) == Success(cfgs[j])
    {
      var one := LoadCapture(caps[i], network);
      if one.Failure? {
        return Failure(one.error);
      }
      cfgs := cfgs + [one.value];
    }
    r := Success(cfgs);
  }

  /** What an accepted capture asks for is what its fields say: a number that is missing or of another kind is not asked
      for, and the servers' network is that of the clients. */
  lemma LoadsWhatItSays(cap: Fields, network: string -> Option<Network>)
    requires LoadCapture(cap, network).Success?
    ensures var cfg := LoadCapture(cap, network).value;
      && "name" in cap && cap["name"] == Text(cfg.name)
      && "burst" in cap && cap["burst"] == Number(cfg.burst) && 1 <= cfg.burst <= 5
      && "fps" in cap && cap["fps"] == Number(cfg.flowsPerSec) && 1 <= cfg.flowsPerSec <= 1_000_000
      && "ipg" in cap && (if cap["ipg"].Number? then cfg.ipg == Some(cap["ipg"].n) && 1 <= cap["ipg"].n <= 1_000_000
                          else cfg.ipg == None)
      && "cln_ips" in cap && cap["cln_ips"].Text? && network(cap["cln_ips"].s) == Some(cfg.cln) && cfg.srv == cfg.cln
      && "cln_port" in cap
      && (if cap["cln_port"].Number? then
            cfg.clnPort == Some(cap["cln_port"].n) && 1_024 <= cap["cln_port"].n <= 65_535
          else cfg.clnPort == None)
  {
  }

  /** A capture as the documentation describes it, where two of the fields may be missing. */
  predicate AsDocumented(cap: Fields, network: string -> Option<Network>) {
    && HasText(cap, "name") && HasNumber(cap, "burst") && HasNumber(cap, "fps")
    && 1 <= cap["burst"].n <= 5 && 1 <= cap["fps"].n <= 1_000_000
    && ("ipg" in cap ==> cap["ipg"].Number? && 1 <= cap["ipg"].n <= 1_000_000)
    && HasText(cap, "cln_ips") && network(cap["cln_ips"].s).Some?
    && HasText(cap, "srv_ips") && network(cap["srv_ips"].s).Some?
    && ("cln_port" in cap ==> cap["cln_port"].Number? && 1_024 <= cap["cln_port"].n <= 65_535)
  }

  /** It is accepted exactly when neither is missing, and its servers get the addresses that are configured for them
      exactly when the clients have the same. */
  lemma LoadsAsDocumentedIff(cap: Fields, network: string -> Option<Network>)
    requires AsDocumented(cap, network)
    ensures LoadCapture(cap, network).Success? <==> "ipg" in cap && "cln_port" in cap
    ensures LoadCapture(cap, network).Success? ==>
              (Some(LoadCapture(cap, network).value.srv) == network(cap["srv_ips"].s)
               <==> network(cap["cln_ips"].s) == network(cap["srv_ips"].s))
  {
  }

  /** So every packet of every run, whatever the order of the flows' events, is sent to the address it comes from. */
  lemma EveryPacketReturns(caps: seq<Fields>, network: string -> Option<Network>, cfgs: seq<GenCfg>, env: Env, hz: nat,
                           g: nat, evs: seq<Event>)
    requires |cfgs| == |caps| && forall i :: 0 <= i < |caps| ==> LoadCapture(caps[i], network) == Success(cfgs[i])
    requires AllBuild(cfgs, env, hz) && g < |cfgs| && evs != []
    ensures var r := SetupsOf(cfgs, env, hz)[g].ReportOf(evs); r.src == r.dst
  {
    hide LoadCapture, CaptureOf, Hosts, Host, Allocation, Occurrences;
    SameNetworks(caps[g], network);
  }

  lemma SameNetworks(cap: Fields, network: string -> Option<Network>)
    requires LoadCapture(cap, network).Success?
    ensures LoadCapture(cap, network).value.srv == LoadCapture(cap, network).value.cln
  {
  }
}
