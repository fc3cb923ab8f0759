/** The settings the beacon derives from its configuration
    (`APRSBeacon.load_config`, and the `.get(key, default)` reads at the
    top of `connect_aprs_is`, `send_packet`, `beacon_main_station` and
    `beacon_object`).

    The parsed YAML document is given as a map from its top-level keys to
    scalar values plus the server list, and each beacon target's keys as a
    record of optional fields; reading the file is not modelled. */
module Config {
  import opened Text

  /** A scalar YAML value as Python sees it after `yaml.safe_load`. */
  datatype Value =
    | Str(s: string)
    | Int(i: int)
    | Bool(b: bool)
    | Null
      /** Any other YAML value (a float, a list, a mapping): its `str()`
          and whether Python counts it as true. */
    | Other(repr: string, truthy: bool)

  datatype Server = Server(host: string, port: nat)

  /** The top-level keys the core reads: `callsign`, `beacon_callsign`,
      `passcode` and `dry_run`. */
  datatype Key = Callsign | BeaconCallsign | Passcode | DryRun

  datatype RawConfig = RawConfig(entries: map<Key, Value>, servers: Option<seq<Server>>)

  datatype Settings = Settings(
    loginCallsign: string,
    beaconCallsign: string,
    passcode: string,
    servers: seq<Server>,
    dryRun: bool)

  /** Loading stops at a callsign that is not a string: `.strip()` raises. */
  datatype ConfigError = NotAString(key: Key)

  /** Used when the configuration names no servers. */
  const DefaultServers: seq<Server> := [Server("aprs.hamradio.my", 14580), Server("rotate.aprs.net", 14580)]

  /** `s.strip().upper()`. */
  function Clean(s: string): string {
    Upper(Strip(s))
  }

  /** A cleaned callsign: no lower-case ASCII letter, no surrounding blanks. */
  predicate IsClean(s: string) {
    && (forall i :: 0 <= i < |s| ==> !('a' <= s[i] <= 'z'))
    && (s == [] || (!IsSpace(s[0]) && !IsSpace(s[|s| - 1])))
  }

  /** Python's truth value of a configuration value. */
  function Truthy(v: Value): bool {
    match v
    case Str(s) => s != ""
    case Int(i) => i != 0
    case Bool(b) => b
    case Null => false
    case Other(_, t) => t
  }

  /** `str(v)`. */
  function AsText(v: Value): string {
    match v
    case Str(s) => s
    case Int(i) => if i < 0 then "-" + Digits(-i) else Digits(i)
    case Bool(b) => if b then "True" else "False"
    case Null => "None"
    case Other(r, _) => r
  }

  function Get(m: map<Key, Value>, key: Key, default: Value): Value {
    if key in m then m[key] else default
  }

  function LoadConfig(cfg: RawConfig): (r: Result<Settings, ConfigError>)
    ensures r.Failure? <==> (!Get(cfg.entries, Callsign, Str("")).Str?
                             || !Get(cfg.entries, BeaconCallsign, Str("")).Str?)
  {
    var callsign := Get(cfg.entries, Callsign, Str(""));
    if !callsign.Str? then Failure(NotAString(Callsign))
    else
      var login := Clean(callsign.s);
      var beacon := Get(cfg.entries, BeaconCallsign, Str(login));
      if !beacon.Str? then Failure(NotAString(BeaconCallsign))
      else
        Success(Settings(
          login,
          Clean(beacon.s),
          AsText(Get(cfg.entries, Passcode, Str(""))),
          cfg.servers.GetOr(DefaultServers),
          Truthy(Get(cfg.entries, DryRun, Bool(false)))))
  }

  lemma LoadConfigSettings(cfg: RawConfig)
    requires LoadConfig(cfg).Success?
    ensures var st := LoadConfig(cfg).value;
      && IsClean(st.loginCallsign) && IsClean(st.beaconCallsign)
      && st.loginCallsign == Clean(Get(cfg.entries, Callsign, Str("")).s)
      // an absent beacon callsign is the login callsign
      && (BeaconCallsign !in cfg.entries ==> st.beaconCallsign == st.loginCallsign)
      && (BeaconCallsign in cfg.entries ==> st.beaconCallsign == Clean(cfg.entries[BeaconCallsign].s))
      && (cfg.servers.None? ==> st.servers == DefaultServers)
      && (cfg.servers.Some? ==> st.servers == cfg.servers.value)
      && st.passcode == AsText(Get(cfg.entries, Passcode, Str("")))
      && st.dryRun == Truthy(Get(cfg.entries, DryRun, Bool(false)))
  {
    var raw := Get(cfg.entries, Callsign, Str("")).s;
    var login := Clean(raw);
    var beacon := Get(cfg.entries, BeaconCallsign, Str(login)).s;
    var st := LoadConfig(cfg).value;
    assert st == Settings(login, Clean(beacon), AsText(Get(cfg.entries, Passcode, Str(""))),
      cfg.servers.GetOr(DefaultServers), Truthy(Get(cfg.entries, DryRun, Bool(false))));
    assert IsClean(login) by { CleanIsClean(raw); }
    assert IsClean(Clean(beacon)) by { CleanIsClean(beacon); }
    assert BeaconCallsign !in cfg.entries ==> Clean(beacon) == login by {
      if BeaconCallsign !in cfg.entries {
        CleanIdempotent(raw);
      }
    }
  }

  lemma CleanIsClean(s: string)
    ensures IsClean(Clean(s))
  {
    var t := Strip(s);
    var u := Upper(t);
    if u != [] {
      assert u[0] == UpperChar(t[0]);
      assert u[|u| - 1] == UpperChar(t[|t| - 1]);
    }
  }

  /** A cleaned callsign is its own cleaning. */
  lemma CleanFixesClean(u: string)
    requires IsClean(u)
    ensures Clean(u) == u
  {
    TrimStartNoop(u);
    TrimEndNoop(u);
    assert Strip(u) == u;
    assert Upper(u) == u;
  }

  /** Cleaning a cleaned callsign changes nothing, so the beacon callsign
      that defaults to the cleaned login callsign equals it. */
  lemma CleanIdempotent(s: string)
    ensures Clean(Clean(s)) == Clean(s)
  {
    CleanIsClean(s);
    CleanFixesClean(Clean(s));
  }

  // ---------------------------------------------------------------------
  // Beacon targets

  /** The keys of one beacon target as the configuration gives them. */
  datatype TargetEntries = TargetEntries(
    name: Option<string>,
    latitude: Option<int>,
    longitude: Option<int>,
    symbolTable: Option<string>,
    symbol: Option<string>,
    comment: Option<string>,
    intervalMinutes: Option<int>)

  datatype TargetKind = MainStation | Object(name: string)

  /** What one beacon loop sends and how long it sleeps between sends.
      Coordinates are in hundredths of an arc-minute. */
  datatype Target = Target(
    kind: TargetKind,
    lat: int,
    lon: int,
    table: string,
    symbol: string,
    comment: string,
    intervalSeconds: int)

  /** Each field of `t` is the value of its key when the key is present,
      and the loops' default when it is absent: position 0/0, symbol `/r`,
      empty comment, 10 minutes; the interval is in seconds. */
  predicate ResolvedFrom(t: Target, e: TargetEntries) {
    && (if e.latitude.Some? then t.lat == e.latitude.value else t.lat == 0)
    && (if e.longitude.Some? then t.lon == e.longitude.value else t.lon == 0)
    && (if e.symbolTable.Some? then t.table == e.symbolTable.value else t.table == "/")
    && (if e.symbol.Some? then t.symbol == e.symbol.value else t.symbol == "r")
    && (if e.comment.Some? then t.comment == e.comment.value else t.comment == "")
    && (if e.intervalMinutes.Some? then t.intervalSeconds == 60 * e.intervalMinutes.value
        else t.intervalSeconds == 600)
  }

  /** A target of the given kind read from its keys. */
  function Resolve(kind: TargetKind, e: TargetEntries): (t: Target)
    ensures t.kind == kind
    ensures ResolvedFrom(t, e)
  {
    Target(
      kind,
      e.latitude.GetOr(0),
      e.longitude.GetOr(0),
      e.symbolTable.GetOr("/"),
      e.symbol.GetOr("r"),
      e.comment.GetOr(""),
      e.intervalMinutes.GetOr(10) * 60)
  }

  /** `beacon_main_station`'s reads of the top-level configuration. */
  function MainStationTarget(e: TargetEntries): (t: Target)
    ensures t.kind == MainStation
    ensures ResolvedFrom(t, e)
  {
    Resolve(MainStation, e)
  }

  /** `beacon_object`'s reads of one entry of `beacons`; a missing name is empty. */
  function ObjectTarget(e: TargetEntries): (t: Target)
    ensures t.kind == Object(if e.name.Some? then e.name.value else "")
    ensures ResolvedFrom(t, e)
  {
    Resolve(Object(e.name.GetOr("")), e)
  }
}
