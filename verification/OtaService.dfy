/** OtaService::checkAndUpdate (main/services/ota/ota_service.cpp) and any sequence of module calls. */
module OtaService {
  import opened AtLink
  import opened AtText
  import opened Prelude
  import opened HttpAction
  import opened HttpRead
  import opened HttpReply
  import opened SimModule

  const OTA_MAX_ATTEMPTS: nat := 3
  const CURRENT_FW_VERSION: string := "ver1.1.16"

  predicate NeedsUpdate(remoteVersion: string) {
    remoteVersion != CURRENT_FW_VERSION
  }

  /** How the service reaches the network: over the SIM modem, over Wi-Fi, or not at all. */
  datatype Route = Sim(sim: Sim4GModule) | Netif(flash: OtaFlash)

  function FlashOf(route: Route): OtaFlash {
    match route
    case Sim(sim) => sim.flash
    case Netif(flash) => flash
  }

  ghost predicate Ready(route: Route)
    reads if route.Sim? then {route.sim, route.sim.modem, route.sim.flash} else {route.flash}
  {
    match route
    case Sim(sim) => sim.Idle() && !sim.flash.handleOpen
    case Netif(flash) => !flash.handleOpen
  }

  ghost function Footprint(route: Route): set<object> {
    match route
    case Sim(sim) => {sim, sim.modem, sim.modem.link, sim.modem.link.port, sim.flash}
    case Netif(flash) => {flash}
  }

  /** The history of the route's modem. */
  ghost function StoryOf(route: Route): History
    reads if route.Sim? then {route.sim.modem.link, route.sim.modem.link.port} else {}
  {
    match route
    case Sim(sim) => sim.Story()
    case Netif(_) => History([], "", "", [])
  }

  /** fetchAndParseVersion: JSON parsing is foreign; it yields some version or fails. */
  method FetchAndParseVersion(route: Route, versionUrl: string) returns (version: Option<string>)
    requires Ready(route)
    modifies Footprint(route)
    ensures Ready(route)
    ensures Follows(old(StoryOf(route)), StoryOf(route))
    ensures FlashOf(route).bootSwitches == old(FlashOf(route).bootSwitches)
    ensures FlashOf(route).begun == old(FlashOf(route).begun)
    ensures FlashOf(route).ended == old(FlashOf(route).ended) && FlashOf(route).aborted == old(FlashOf(route).aborted)
  {
    var fetched: bool := *;
    if route.Sim? {
      var body;
      ghost var reply;
      fetched, body, reply := route.sim.HttpGet(versionUrl);
    }
    if !fetched {
      return None;
    }
    var parsed: bool := *;
    var remote: string :| |remote| >= 0;
    version := if parsed then Some(remote) else None;
  }

  /**
   What a successful download left in flash: as many bytes as the size parsed from a slice received since
   position from; over an honest modem the start of the server's image, and all of it if and only if that
   slice held its whole line.
   */
  ghost predicate Flashed(route: Route, from: nat, line: string)
    reads FlashOf(route)
    reads if route.Sim? then {route.sim, route.sim.modem, route.sim.modem.link, route.sim.modem.link.port} else {}
  {
    route.Sim? ==>
      var written, image := route.sim.flash.written, route.sim.modem.image;
      && Probed(StoryOf(route).log, from, line, |written|)
      && (route.sim.modem.honest ==>
            && ProbeExact(image, line, |written|) && written <= image
            && (written == image <==> HoldsWholeLine(line, |image|)))
  }

  /** performOta: the Wi-Fi path is the ESP-IDF updater, which switches the boot partition or fails. */
  method PerformOta(route: Route, binUrl: string) returns (ok: bool, ghost line: string)
    requires Ready(route)
    modifies Footprint(route)
    ensures Ready(route)
    ensures FlashOf(route).bootSwitches == old(FlashOf(route).bootSwitches) + if ok then 1 else 0
    ensures old(FlashOf(route).begun) <= FlashOf(route).begun <= old(FlashOf(route).begun) + 1
    ensures FlashOf(route).begun - old(FlashOf(route).begun)
            == FlashOf(route).ended - old(FlashOf(route).ended) + FlashOf(route).aborted - old(FlashOf(route).aborted)
    ensures Follows(old(StoryOf(route)), StoryOf(route))
    ensures ok ==> Flashed(route, |old(StoryOf(route)).log|, line)
  {
    line := "";
    if route.Sim? {
      ok, line := route.sim.DownloadOtaImage(binUrl);
      return ok, line;
    }
    ok := route.flash.Begin();
    if !ok {
      return false, line;
    }
    var received: bool := *;
    if !received {
      route.flash.Abort();
      return false, line;
    }
    ok := route.flash.End();
    if !ok {
      return false, line;
    }
    ok := route.flash.SetBoot();
  }

  /**
   checkAndUpdate: over at most three attempts, true exactly when the boot partition was switched,
   which then happened once, to a version other than the running one; over an honest modem to the
   start of the server's image, all of it exactly if the size probe was not cut.  Every update begun in
   any attempt was closed exactly once.
   */
  method CheckAndUpdate(route: Route, versionUrl: string, binUrl: string)
    returns (ok: bool, remote: Option<string>, ghost line: string)
    requires Ready(route)
    modifies Footprint(route)
    ensures Ready(route)
    ensures FlashOf(route).bootSwitches == old(FlashOf(route).bootSwitches) + if ok then 1 else 0
    ensures FlashOf(route).begun <= old(FlashOf(route).begun) + OTA_MAX_ATTEMPTS
    ensures FlashOf(route).begun - old(FlashOf(route).begun)
            == FlashOf(route).ended - old(FlashOf(route).ended) + FlashOf(route).aborted - old(FlashOf(route).aborted)
    ensures FlashOf(route).begun > old(FlashOf(route).begun) ==> remote.Some? && NeedsUpdate(remote.value)
    ensures Follows(old(StoryOf(route)), StoryOf(route))
    ensures ok ==> Flashed(route, |old(StoryOf(route)).log|, line)
  {
    line := "";
    remote := FetchAndParseVersion(route, versionUrl);
    if remote.None? {
      return false, remote, line;
    }
    if !NeedsUpdate(remote.value) {
      return false, remote, line;
    }
    for attempt := 1 to OTA_MAX_ATTEMPTS + 1
      invariant Ready(route)
      invariant Follows(old(StoryOf(route)), StoryOf(route))
      invariant FlashOf(route).bootSwitches == old(FlashOf(route).bootSwitches)
      invariant old(FlashOf(route).begun) <= FlashOf(route).begun < old(FlashOf(route).begun) + attempt
      invariant FlashOf(route).begun - old(FlashOf(route).begun)
                == FlashOf(route).ended - old(FlashOf(route).ended)
                   + FlashOf(route).aborted - old(FlashOf(route).aborted)
    {
      ghost var before := StoryOf(route);
      ok, line := PerformOta(route, binUrl);
      FollowsTrans(old(StoryOf(route)), before, StoryOf(route));
      if ok {
        if route.Sim? {
          ProbedStays(StoryOf(route).log, |before.log|, line, |route.sim.flash.written|,
                      StoryOf(route).log, |old(StoryOf(route)).log|);
        }
        return true, remote, line;
      }
    }
    ok := false;
  }

  /** A call on the SIM module between power-on and power-off. */
  datatype Call = Send(url: string, json: string) | Fetch(url: string) | Download(url: string) | PowerCycle

  /**
   Any sequence of calls, each failing wherever it likes: the session flag is down after every one,
   and without lost replies AT+HTTPINIT has never reached a modem whose session was open.
   */
  method RunCalls(sim: Sim4GModule, calls: seq<Call>)
    requires sim.Idle() && !sim.flash.handleOpen
    modifies sim, sim.modem, sim.modem.link, sim.modem.link.port, sim.flash
    ensures sim.Idle() && !sim.flash.handleOpen
    ensures sim.modem.lossless ==> !sim.modem.initWhileOpen && !sim.modem.sessionOpen
  {
    for i := 0 to |calls|
      invariant sim.Idle() && !sim.flash.handleOpen
    {
      match calls[i] {
        case Send(url, json) => var _ := sim.SendPayload(url, json);
        case Fetch(url) => var _, _, _ := sim.HttpGet(url);
        case Download(url) => var _, _ := sim.DownloadOtaImage(url);
        case PowerCycle =>
          sim.PowerOff();
          sim.active := true;
      }
    }
  }
}
