/**
 * Use cases of the metrics ingestion pipeline and the registry that maps each
 * use case to its ingestion configuration.
 */
module Configuration {
  import opened Wrappers

  /** The use cases the metrics indexer serves. */
  datatype UseCaseKey = ReleaseHealth | Performance
  {
    /** The enum member's value, which `from_str` parses back to the member. */
    function Value(): (v: string)
      ensures FromStr(v) == Success(this)
    {
      match this
      case ReleaseHealth => "release-health"
      case Performance => "performance"
    }
  }

  /** The error `from_str` raises on a string it does not know. */
  datatype ParseError = ValueError

  /**
   * `UseCaseKey.from_str`: "performance" is PERFORMANCE, "release-health" and
   * its camel-case spelling "releaseHealth" are RELEASE_HEALTH, and every
   * other string is an error.
   */
  function FromStr(useCase: string): (r: Result<UseCaseKey, ParseError>)
    ensures r == Success(Performance) <==> useCase == "performance"
    ensures r == Success(ReleaseHealth) <==> useCase == "release-health" || useCase == "releaseHealth"
    ensures r.Failure? <==> useCase != "performance" && useCase != "release-health" && useCase != "releaseHealth"
  {
    if useCase == "performance" then Success(Performance)
    else if useCase == "release-health" || useCase == "releaseHealth" then Success(ReleaseHealth)
    else Failure(ValueError)
  }

  /** Parsing an enum member's own value gives that member back: a corollary of `Value`'s contract. */
  lemma FromStrValue(k: UseCaseKey)
    ensures FromStr(k.Value()) == Success(k)
  {
    var v := k.Value();
  }

  /** The only string other than a member's value that parses is the camel-case alias. */
  lemma FromStrAliases(s: string, k: UseCaseKey)
    requires FromStr(s) == Success(k)
    ensures s == k.Value() || (k == ReleaseHealth && s == "releaseHealth")
  {
  }

  /** Which indexer table a use case writes to. */
  datatype DbKey = StringIndexer | PerfStringIndexer
  {
    function Value(): string
    {
      match this
      case StringIndexer => "StringIndexer"
      case PerfStringIndexer => "PerfStringIndexer"
    }
  }

  /**
   * `MetricsIngestConfiguration`, without the Kafka topics and the writes
   * limiter options, which are read from deployment settings.
   */
  datatype IngestConfig = IngestConfig(dbModel: DbKey, useCaseId: UseCaseKey, internalMetricsTag: Option<string>)

  /** The configuration registered for release health. */
  const ReleaseHealthConfig := IngestConfig(StringIndexer, ReleaseHealth, Some("release-health"))

  /** The configuration registered for performance. */
  const PerformanceConfig := IngestConfig(PerfStringIndexer, Performance, Some("perf"))

  /** The registry after the module's two registrations. */
  function DefaultConfigs(): (configs: map<UseCaseKey, IngestConfig>)
    ensures ReleaseHealth in configs && configs[ReleaseHealth].dbModel == StringIndexer
    ensures Performance in configs && configs[Performance].dbModel == PerfStringIndexer
    ensures forall k :: k in configs ==> configs[k].useCaseId == k
  {
    map[ReleaseHealth := ReleaseHealthConfig, Performance := PerformanceConfig]
  }

  /** Both use cases are registered, so `get_ingest_config` never raises after initialisation. */
  lemma DefaultConfigsTotal()
    ensures forall k: UseCaseKey :: k in DefaultConfigs()
  {
    forall k: UseCaseKey ensures k in DefaultConfigs() {
      match k
      case ReleaseHealth =>
      case Performance =>
    }
  }

  /** The module-level dictionary of ingestion configurations, keyed by use case. */
  class ConfigRegistry {
    var configs: map<UseCaseKey, IngestConfig>

    /** Every configuration is filed under its own use case. */
    ghost predicate Valid()
      reads this
    {
      forall k :: k in configs ==> configs[k].useCaseId == k
    }

    constructor ()
      ensures Valid() && configs == map[]
    {
      configs := map[];
    }

    /**
     * `_register_ingest_config`: files the configuration under its use case,
     * replacing any earlier one for that use case and leaving the others alone.
     */
    method Register(config: IngestConfig)
      requires Valid()
      modifies this
      ensures Valid()
      ensures configs == old(configs)[config.useCaseId := config]
    {
      configs := configs[config.useCaseId := config];
    }

    /**
     * `get_ingest_config`: the configuration registered for a use case, whose
     * own use case is the one asked for; None where the dictionary lookup
     * would raise.
     */
    function GetIngestConfig(k: UseCaseKey): (r: Option<IngestConfig>)
      reads this
      requires Valid()
      ensures r.Some? <==> k in configs
      ensures r.Some? ==> r.value.useCaseId == k
    {
      if k in configs then Some(configs[k]) else None
    }
  }

  /** Module initialisation: an empty registry and the two registrations. */
  method LoadIngestConfigs() returns (registry: ConfigRegistry)
    ensures fresh(registry) && registry.Valid()
    ensures registry.configs == DefaultConfigs()
  {
    registry := new ConfigRegistry();
    registry.Register(ReleaseHealthConfig);
    registry.Register(PerformanceConfig);
  }
}
