/** dnsctl's local state store (core/state_manager.py): one JSON state file per synced zone,
    the `config.json` dictionary and zone export and import. The zone directory is a map
    from zone name to the state its file holds; `_compute_hash` (SHA-256 over canonical
    JSON) is an uninterpreted deterministic function of the record list; the clock that
    stamps `last_synced_at` is a parameter. */
module StateManager {
  import opened Wrappers
  import opened Text
  import opened Records

  /** The content of `zones/<zone_name>.json`. */
  datatype ZoneState = ZoneState(
    zoneId: string,
    zoneName: string,
    records: seq<Record>,
    lastSyncedAt: string,
    stateHash: string)

  /** A JSON value of `config.json`; floating-point numbers are not modelled. */
  datatype ConfigValue =
    | Null | Bool(b: bool) | Num(n: int) | Str(s: string)
    | List(items: seq<ConfigValue>) | Object(fields: map<string, ConfigValue>)

  type Config = map<string, ConfigValue>

  /** Every state file is stored under its own zone name and carries the hash of its
      records, as `save_zone` writes it. */
  predicate WellFormed(zones: map<string, ZoneState>, hash: seq<Record> -> string) {
    forall z :: z in zones ==> zones[z].zoneName == z && zones[z].stateHash == hash(zones[z].records)
  }

  // ------------------------------------------------------------------
  // save_zone and load_zone
  // ------------------------------------------------------------------

  /** What `save_zone` returns and the zone directory after it. */
  datatype Saved = Saved(state: ZoneState, zones: map<string, ZoneState>)

  /** `load_zone` on a zone directory. */
  function LoadFrom(zones: map<string, ZoneState>, zoneName: string): (r: Option<ZoneState>)
    ensures r.None? <==> zoneName !in zones
  {
    if zoneName in zones then Some(zones[zoneName]) else None
  }

  /** `save_zone(zone_id, zone_name, records)` at clock reading `now`: when the stored state of
      the zone already has the hash of `records` it is returned and nothing is written;
      otherwise a new state is written under `zone_name`. */
  function SaveZoneSpec(zones: map<string, ZoneState>, hash: seq<Record> -> string, zoneId: string,
                        zoneName: string, records: seq<Record>, now: string): (s: Saved)
    ensures LoadFrom(s.zones, zoneName) == Some(s.state)
    ensures s.state.stateHash == hash(records)
    ensures s.zones.Keys == zones.Keys + {zoneName}
    ensures forall z :: z in zones && z != zoneName ==> s.zones[z] == zones[z]
  {
    var existing := LoadFrom(zones, zoneName);
    if existing.Some? && existing.value.stateHash == hash(records) then Saved(existing.value, zones)
    else
      var state := ZoneState(zoneId, zoneName, records, now, hash(records));
      Saved(state, zones[zoneName := state])
  }

  /** A stored state whose hash matches is returned unchanged and nothing is written, even
      when the zone id or the clock differ. */
  lemma SaveSkipsUnchangedRecords(zones: map<string, ZoneState>, hash: seq<Record> -> string, zoneId: string,
                                  zoneName: string, records: seq<Record>, now: string)
    requires zoneName in zones && zones[zoneName].stateHash == hash(records)
    ensures SaveZoneSpec(zones, hash, zoneId, zoneName, records, now) == Saved(zones[zoneName], zones)
  {
  }

  /** Otherwise the zone is stored with exactly the given id, name, records and their hash. */
  lemma SaveWritesNewState(zones: map<string, ZoneState>, hash: seq<Record> -> string, zoneId: string,
                           zoneName: string, records: seq<Record>, now: string)
    requires zoneName !in zones || zones[zoneName].stateHash != hash(records)
    ensures var s := SaveZoneSpec(zones, hash, zoneId, zoneName, records, now);
      s.state == ZoneState(zoneId, zoneName, records, now, hash(records))
      && LoadFrom(s.zones, zoneName) == Some(ZoneState(zoneId, zoneName, records, now, hash(records)))
  {
  }

  /** Saving the same records again returns the first saved state and writes nothing,
      whatever id and clock reading the second call is given. */
  lemma SaveIdempotent(zones: map<string, ZoneState>, hash: seq<Record> -> string, zoneName: string,
                       records: seq<Record>, id1: string, now1: string, id2: string, now2: string)
    ensures var s1 := SaveZoneSpec(zones, hash, id1, zoneName, records, now1);
      SaveZoneSpec(s1.zones, hash, id2, zoneName, records, now2) == s1
  {
    var s1 := SaveZoneSpec(zones, hash, id1, zoneName, records, now1);
    SaveSkipsUnchangedRecords(s1.zones, hash, id2, zoneName, records, now2);
  }

  /** Saving keeps every state file as `save_zone` writes it. */
  lemma SavePreservesWellFormed(zones: map<string, ZoneState>, hash: seq<Record> -> string, zoneId: string,
                                zoneName: string, records: seq<Record>, now: string)
    requires WellFormed(zones, hash)
    ensures WellFormed(SaveZoneSpec(zones, hash, zoneId, zoneName, records, now).zones, hash)
  {
  }

  // ------------------------------------------------------------------
  // get_config and set_config
  // ------------------------------------------------------------------

  /** `get_config()`: the stored dictionary, or `{}` when there is no config file. */
  function ConfigOf(config: Option<Config>): (c: Config)
    ensures config.None? ==> c == map[]
  {
    config.GetOr(map[])
  }

  /** `set_config(key, value)` writes this dictionary. */
  function WithSetting(config: Option<Config>, key: string, value: ConfigValue): (updated: Config) {
    ConfigOf(config)[key := value]
  }

  /** `set_config` sets `key` and leaves every other key as it was. */
  lemma SetConfigSetsOnlyKey(config: Option<Config>, key: string, value: ConfigValue)
    ensures key in WithSetting(config, key, value) && WithSetting(config, key, value)[key] == value
    ensures forall j :: j != key ==>
      (j in WithSetting(config, key, value) <==> j in ConfigOf(config))
      && (j in ConfigOf(config) ==> WithSetting(config, key, value)[j] == ConfigOf(config)[j])
  {
  }

  // ------------------------------------------------------------------
  // export_zone and import_zone
  // ------------------------------------------------------------------

  /** The `FileNotFoundError` of `export_zone`. */
  datatype NotSynced = NotSynced(zoneName: string) {
    function Message(): (msg: string) {
      "Zone '" + zoneName + "' has not been synced yet."
    }
  }

  /** The `records` entry of an import file. */
  datatype ImportRecords = NoRecords | NotAList | RecordList(items: seq<Record>)

  /** An import file: unreadable or not JSON (with the reason), or the entries `import_zone`
      reads, an absent or `null` `zone_id`/`zone_name` being `None`. */
  datatype ImportFile =
    | Unreadable(reason: string)
    | Parsed(zoneId: Option<string>, zoneName: Option<string>, records: ImportRecords)

  /** The `ValueError`s of `import_zone`. */
  datatype ImportError = CannotRead(reason: string) | MissingFields | RecordsNotList {
    function Message(): (msg: string) {
      match this
      case CannotRead(reason) => "Cannot read import file: " + reason
      case MissingFields => "Import file must contain 'zone_id', 'zone_name', and 'records'."
      case RecordsNotList => "'records' must be a list."
    }
  }

  /** A non-empty string entry: Python truthiness of a `str` or `None`. */
  predicate Truthy(s: Option<string>) {
    s.Some? && s.value != ""
  }

  /** The checks of `import_zone`, in order; on success, the arguments it passes to
      `save_zone`. */
  function CheckImport(file: ImportFile): (r: Result<(string, string, seq<Record>), ImportError>)
    ensures r.Ok? <==>
      file.Parsed? && Truthy(file.zoneId) && Truthy(file.zoneName) && file.records.RecordList?
    ensures r.Ok? ==> r.value == (file.zoneId.value, file.zoneName.value, file.records.items)
    ensures file.Unreadable? ==> r == Err(CannotRead(file.reason))
    ensures file.Parsed? && (!Truthy(file.zoneId) || !Truthy(file.zoneName) || file.records.NoRecords?)
            ==> r == Err(MissingFields)
    ensures file.Parsed? && Truthy(file.zoneId) && Truthy(file.zoneName) && file.records.NotAList?
            ==> r == Err(RecordsNotList)
  {
    match file
    case Unreadable(reason) => Err(CannotRead(reason))
    case Parsed(zoneId, zoneName, records) =>
      if !Truthy(zoneId) || !Truthy(zoneName) || records.NoRecords? then Err(MissingFields)
      else if records.NotAList? then Err(RecordsNotList)
      else Ok((zoneId.value, zoneName.value, records.items))
  }

  // ------------------------------------------------------------------
  // The store
  // ------------------------------------------------------------------

  /** What the state directory holds, as git sees it. */
  datatype StoreContents = StoreContents(
    zones: map<string, ZoneState>,
    config: Option<Config>,
    protectedRecords: seq<ProtectedEntry>)

  /** The state directory: zone files, `config.json` and the protected-record ledger of
      `metadata.json`. */
  class StateStore {
    const hash: seq<Record> -> string
    var zones: map<string, ZoneState>
    var config: Option<Config>
    var protectedRecords: seq<ProtectedEntry>

    constructor (hash: seq<Record> -> string)
      ensures this.hash == hash && zones == map[] && config == None && protectedRecords == []
    {
      this.hash := hash;
      zones := map[];
      config := None;
      protectedRecords := [];
    }

    function Contents(): (contents: StoreContents)
      reads this
    {
      StoreContents(zones, config, protectedRecords)
    }

    /** `load_zone`: the stored state, `None` for a zone never saved. */
    function LoadZone(zoneName: string): (state: Option<ZoneState>)
      reads this
    {
      LoadFrom(zones, zoneName)
    }

    method SaveZone(zoneId: string, zoneName: string, records: seq<Record>, now: string)
      returns (state: ZoneState)
      modifies this
      ensures Saved(state, zones) == SaveZoneSpec(old(zones), hash, zoneId, zoneName, records, now)
      ensures config == old(config) && protectedRecords == old(protectedRecords)
    {
      var newHash := hash(records);
      var existing := LoadZone(zoneName);
      if existing.Some? && existing.value.stateHash == newHash {
        return existing.value;
      }
      state := ZoneState(zoneId, zoneName, records, now, hash(records));
      zones := zones[zoneName := state];
    }

    /** `list_synced_zones`: the saved zone names, each once, in sorted order. */
    function ListSyncedZones(): (r: seq<string>)
      reads this
      ensures forall z :: z in r <==> z in zones
      ensures |r| == |zones|
      ensures forall i, j :: 0 <= i < j < |r| ==> LexLe(r[i], r[j]) && r[i] != r[j]
    {
      SortedNames(zones.Keys)
    }

    function GetConfig(): (cfg: Config)
      reads this
    {
      ConfigOf(config)
    }

    method SetConfig(key: string, value: ConfigValue)
      modifies this
      ensures config == Some(WithSetting(old(config), key, value))
      ensures zones == old(zones) && protectedRecords == old(protectedRecords)
    {
      var cfg := GetConfig();
      cfg := cfg[key := value];
      config := Some(cfg);
    }

    /** `export_zone`: the state the destination file receives, or the error for a zone
        never saved. */
    function ExportZone(zoneName: string): (r: Result<ZoneState, NotSynced>)
      reads this
      ensures r.Err? <==> LoadZone(zoneName).None?
      ensures r.Err? ==> r.error == NotSynced(zoneName)
      ensures r.Ok? ==> Some(r.value) == LoadZone(zoneName)
    {
      var state := LoadZone(zoneName);
      if state.None? then Err(NotSynced(zoneName)) else Ok(state.value)
    }

    /** `import_zone`: a rejected file changes nothing; an accepted one is saved exactly as
        `save_zone` would save it. */
    method ImportZone(file: ImportFile, now: string) returns (r: Result<ZoneState, ImportError>)
      modifies this
      ensures CheckImport(file).Err? ==> r == Err(CheckImport(file).error) && zones == old(zones)
      ensures CheckImport(file).Ok? ==>
        var (zoneId, zoneName, records) := CheckImport(file).value;
        r.Ok? && Saved(r.value, zones) == SaveZoneSpec(old(zones), hash, zoneId, zoneName, records, now)
      ensures config == old(config) && protectedRecords == old(protectedRecords)
    {
      var checked := CheckImport(file);
      if checked.Err? {
        return Err(checked.error);
      }
      var (zoneId, zoneName, records) := checked.value;
      var state := SaveZone(zoneId, zoneName, records, now);
      return Ok(state);
    }
  }
}
