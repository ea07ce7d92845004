/**
 * The Wi-Fi status owner of nextgen/src/wifi.rs: a snapshot of station and
 * access-point state that the radio code updates and the HTTP handlers read,
 * the cached scan results, and the validation of a station configuration.
 */
module Wifi {
  import opened Wrappers
  import opened Rust

  datatype ProvisioningState = Idle | Connecting | ApMode | Error
  datatype WifiMode = Station | AccessPoint

  datatype StationSnapshot = StationSnapshot(ssid: Option<string>, connected: bool, rssi: Option<int>, ip: Option<string>)
  datatype AccessPointSnapshot = AccessPointSnapshot(ssid: string, channel: nat, clientCount: nat)
  datatype WifiSnapshot = WifiSnapshot(
    mode: WifiMode,
    station: StationSnapshot,
    accessPoint: Option<AccessPointSnapshot>,
    provisioningState: ProvisioningState)
  datatype WifiNetwork = WifiNetwork(ssid: string, rssi: int, secure: bool)

  /** `StationSnapshot::default`. */
  const DefaultStation: StationSnapshot := StationSnapshot(None, false, None, None)
  /** `AccessPointSnapshot::default`. */
  const DefaultAccessPoint: AccessPointSnapshot := AccessPointSnapshot("Solar-Heater", 1, 0)
  /** `WifiSnapshot::default`: serving the captive access point. */
  const DefaultSnapshot: WifiSnapshot := WifiSnapshot(AccessPoint, DefaultStation, Some(DefaultAccessPoint), ApMode)
  /** The scan results `WifiRuntime::new` starts with. */
  const InitialScanCache: seq<WifiNetwork> := [WifiNetwork("Backyard", -55, true), WifiNetwork("Guest", -68, false)]

  /**
   * How the four transitions keep the snapshot consistent: the state is Idle
   * exactly when the station is connected; Idle and Connecting only occur in
   * station mode, Connecting without an access point; ApMode always has an
   * access point and an empty station; access-point mode always has one.
   */
  predicate Consistent(s: WifiSnapshot) {
    && (s.provisioningState == Idle <==> s.station.connected)
    && (s.station.connected ==> s.mode == Station && s.station.ssid.Some?)
    && (s.provisioningState == Connecting ==> s.mode == Station && s.accessPoint.None?)
    && (s.provisioningState == ApMode ==> s.mode == AccessPoint && s.station == DefaultStation && s.accessPoint.Some?)
    && (s.mode == AccessPoint ==> s.accessPoint.Some?)
  }

  /** `WifiController`. */
  class WifiController {
    var snapshot: WifiSnapshot
    var scanCache: seq<WifiNetwork>

    predicate Valid()
      reads this
    {
      Consistent(snapshot)
    }

    /** `WifiController::new`. */
    constructor ()
      ensures snapshot == DefaultSnapshot && scanCache == InitialScanCache
      ensures Valid()
    {
      snapshot := DefaultSnapshot;
      scanCache := InitialScanCache;
    }

    /** `WifiController::snapshot`: a copy of the current status. */
    method Snapshot() returns (s: WifiSnapshot)
      ensures s == snapshot
    {
      s := snapshot;
    }

    /** `begin_sta_attempt`: station mode, connecting to `ssid`, access point switched off. */
    method BeginStaAttempt(ssid: string)
      requires Valid()
      modifies this
      ensures snapshot == WifiSnapshot(Station, StationSnapshot(Some(ssid), false, None, None), None, Connecting)
      ensures scanCache == old(scanCache)
      ensures Valid()
    {
      snapshot := snapshot.(mode := Station);
      snapshot := snapshot.(provisioningState := Connecting);
      snapshot := snapshot.(station := snapshot.station.(connected := false));
      snapshot := snapshot.(station := snapshot.station.(ssid := Some(ssid)));
      snapshot := snapshot.(station := snapshot.station.(rssi := None));
      snapshot := snapshot.(station := snapshot.station.(ip := None));
      snapshot := snapshot.(accessPoint := None);
    }

    /** `mark_sta_connected`: joined `ssid`; the access point is left as it was. */
    method MarkStaConnected(ssid: string, rssi: Option<int>, ip: Option<string>)
      requires Valid()
      modifies this
      ensures snapshot == old(snapshot).(mode := Station, provisioningState := Idle,
                                         station := StationSnapshot(Some(ssid), true, rssi, ip))
      ensures scanCache == old(scanCache)
      ensures Valid()
    {
      snapshot := snapshot.(mode := Station);
      snapshot := snapshot.(provisioningState := Idle);
      snapshot := snapshot.(station := snapshot.station.(ssid := Some(ssid)));
      snapshot := snapshot.(station := snapshot.station.(connected := true));
      snapshot := snapshot.(station := snapshot.station.(rssi := rssi));
      snapshot := snapshot.(station := snapshot.station.(ip := ip));
    }

    /**
     * `enable_captive_ap`: back to the access point, whose channel and client
     * count survive (the default one if there was none); `ssid` renames it.
     */
    method EnableCaptiveAp(ssid: Option<string>)
      requires Valid()
      modifies this
      ensures snapshot.mode == AccessPoint && snapshot.provisioningState == ApMode
      ensures snapshot.station == DefaultStation
      ensures var previous := old(snapshot.accessPoint).GetOr(DefaultAccessPoint);
        snapshot.accessPoint == Some(previous.(ssid := ssid.GetOr(previous.ssid)))
      ensures scanCache == old(scanCache)
      ensures Valid()
    {
      snapshot := snapshot.(mode := AccessPoint);
      snapshot := snapshot.(provisioningState := ApMode);
      snapshot := snapshot.(station := DefaultStation);
      var ap := snapshot.accessPoint.GetOr(DefaultAccessPoint);
      snapshot := snapshot.(accessPoint := None);
      if ssid.Some? {
        ap := ap.(ssid := ssid.value);
      }
      snapshot := snapshot.(accessPoint := Some(ap));
    }

    /**
     * `mark_error`: only the provisioning state and the connected flag change.
     * Mode, station name and access point stay, so a failed join does not by
     * itself bring the access point back.
     */
    method MarkError()
      requires Valid()
      modifies this
      ensures snapshot == old(snapshot).(provisioningState := Error,
                                         station := old(snapshot).station.(connected := false))
      ensures scanCache == old(scanCache)
      ensures Valid()
    {
      snapshot := snapshot.(provisioningState := Error);
      snapshot := snapshot.(station := snapshot.station.(connected := false));
    }

    /**
     * `scan_networks`: `hardware` is what the driver's scan returned (always an
     * error off the device). A successful scan replaces the cache and is
     * returned; a failed one returns the cache.
     */
    method ScanNetworks(hardware: Result<seq<WifiNetwork>, string>) returns (networks: seq<WifiNetwork>)
      modifies this
      ensures hardware.Ok? ==> networks == hardware.value && scanCache == hardware.value
      ensures hardware.Err? ==> networks == old(scanCache) && scanCache == old(scanCache)
      ensures snapshot == old(snapshot)
    {
      if hardware.Ok? {
        scanCache := hardware.value;
        return hardware.value;
      }
      networks := scanCache;
    }
  }

  /**
   * A join that fails right after it started leaves the device in station mode
   * with no access point, contrary to what the comment on `mark_error` says.
   */
  method FailedJoinKeepsStationMode(ssid: string) returns (s: WifiSnapshot)
    ensures s.mode == Station && s.accessPoint.None? && s.provisioningState == Error
    ensures s.station.ssid == Some(ssid) && !s.station.connected
  {
    var controller := new WifiController();
    controller.BeginStaAttempt(ssid);
    controller.MarkError();
    s := controller.Snapshot();
  }

  /** Off the device every scan answers with the cache, whatever came before. */
  method ScanWithoutHardware() returns (first: seq<WifiNetwork>, second: seq<WifiNetwork>)
    ensures first == second == InitialScanCache
  {
    var controller := new WifiController();
    first := controller.ScanNetworks(Err("Wi-Fi scanning not available on this target"));
    second := controller.ScanNetworks(Err("Wi-Fi scanning not available on this target"));
  }

  /** A successful scan is served from the cache after a later scan fails. */
  method FailedScanServesLastResults(found: seq<WifiNetwork>) returns (served: seq<WifiNetwork>)
    ensures served == found
  {
    var controller := new WifiController();
    var scanned := controller.ScanNetworks(Ok(found));
    served := controller.ScanNetworks(Err("Wi-Fi scan failed"));
  }

  /** `heapless::String` capacities of the station configuration. */
  const MaxSsidLen: nat := 32
  const MaxPasswordLen: nat := 64

  datatype AuthMethod = NoAuth | Wpa2Personal
  datatype ClientConfiguration = ClientConfiguration(ssid: string, authMethod: AuthMethod, password: string)
  datatype ConfigError = ValueTooLong(limit: nat) | PasswordTooLong

  /** `to_heapless::<N>`: the text, if its UTF-8 bytes fit in `n`. */
  function ToHeapless(value: string, n: nat): (r: Result<string, ConfigError>)
    ensures r.Ok? <==> Utf8Len(value) <= n
    ensures r.Ok? ==> r.value == value
    ensures r.Err? ==> r.error == ValueTooLong(n)
  {
    if Utf8Len(value) > n then Err(ValueTooLong(n)) else Ok(value)
  }

  /**
   * `build_client_config`: the SSID must fit 32 bytes (checked first) and the
   * password 64; WPA2-Personal unless there is no password or it is empty.
   */
  function BuildClientConfig(ssid: string, password: Option<string>): (r: Result<ClientConfiguration, ConfigError>)
    ensures r.Ok? <==> Utf8Len(ssid) <= MaxSsidLen && (password.None? || Utf8Len(password.value) <= MaxPasswordLen)
    ensures Utf8Len(ssid) > MaxSsidLen ==> r == Err(ValueTooLong(MaxSsidLen))
    ensures Utf8Len(ssid) <= MaxSsidLen && r.Err? ==> r == Err(PasswordTooLong)
    ensures r.Ok? ==> r.value.ssid == ssid && r.value.password == password.GetOr("")
    ensures r.Ok? ==> (r.value.authMethod == NoAuth <==> password.None? || password.value == "")
  {
    match ToHeapless(ssid, MaxSsidLen)
    case Err(e) => Err(e)
    case Ok(ssidValue) =>
      if password.Some? && Utf8Len(password.value) > MaxPasswordLen then Err(PasswordTooLong)
      else
        var passwordValue := password.GetOr("");
        var auth := if passwordValue == "" then NoAuth else Wpa2Personal;
        Ok(ClientConfiguration(ssidValue, auth, passwordValue))
  }

  /** A 32-byte SSID is accepted and a 33-byte one refused; likewise 64 and 65 bytes of password. */
  lemma ClientConfigBoundaries(ssid: string, password: string)
    requires |ssid| == MaxSsidLen && |password| == MaxPasswordLen
    requires forall i :: 0 <= i < |ssid| ==> ssid[i] as int < 0x80
    requires forall i :: 0 <= i < |password| ==> password[i] as int < 0x80
    ensures BuildClientConfig(ssid, Some(password)).Ok?
    ensures BuildClientConfig(ssid + "x", None) == Err(ValueTooLong(MaxSsidLen))
    ensures BuildClientConfig(ssid, Some(password + "x")) == Err(PasswordTooLong)
  {
    Utf8LenAppend(ssid, "x");
    Utf8LenAppend(password, "x");
  }
}
