/** The static event catalogue of `src/lib/events.ts`: the type of every
    event (solo or team, with a team size for team events) and its
    registration limit, plus the limit lookup with its fallback default. */
module Events {
  import opened Optional

  datatype EventType = Solo | Team

  /** The behavioural part of one catalogue entry; the WhatsApp link and the
      free-text details are display data and are not modelled. */
  datatype EventConfig = EventConfig(kind: EventType, teamSize: Option<int>) {

    /** `teamSize` is given exactly for team events, and a team has at
        least two members. */
    predicate WellFormed() {
      && (teamSize.Some? <==> kind == Team)
      && (teamSize.Some? ==> teamSize.value >= 2)
    }
  }

  /** `EVENTS_CONFIG`. */
  const EventsConfig: map<string, EventConfig> := map[
    "Impel_Down_Trials" := EventConfig(Solo, None),
    "The_Pirate_Pitch" := EventConfig(Team, Some(5)),
    "Wanted_Creation" := EventConfig(Solo, None),
    "Buster_Call_Challenge" := EventConfig(Team, Some(2)),
    "Grand_Line_Showdown" := EventConfig(Team, Some(5)),
    "Log_Pose_Hunt" := EventConfig(Team, Some(3)),
    "Devil_Whisper" := EventConfig(Team, Some(3)),
    "DeepDive_GitHub" := EventConfig(Solo, None),
    "Cyber_Forensics" := EventConfig(Solo, None),
    "Canva_Workshop" := EventConfig(Solo, None),
    "Stock_Analysis" := EventConfig(Solo, None),
    "Literacy_In_finance" := EventConfig(Solo, None),
    "Sea_Shanty_Session" := EventConfig(Solo, None),
    "Thousand_Sunny_Design" := EventConfig(Solo, None)
  ]

  /** `EVENT_LIMITS`. */
  const EventLimits: map<string, int> := map[
    "Impel_Down_Trials" := 40,
    "The_Pirate_Pitch" := 14,
    "Wanted_Creation" := 70,
    "Buster_Call_Challenge" := 25,
    "Grand_Line_Showdown" := 14,
    "Log_Pose_Hunt" := 24,
    "Devil_Whisper" := 24,
    "DeepDive_GitHub" := 70,
    "Cyber_Forensics" := 70,
    "Canva_Workshop" := 35,
    "Stock_Analysis" := 45,
    "Literacy_In_finance" := 60,
    "Sea_Shanty_Session" := 70,
    "Thousand_Sunny_Design" := 70
  ]

  /** The default used when `DEFAULT_EVENT_LIMIT` is unset. */
  const FallbackLimit: int := 50

  /** A catalogue and a limit table agree: they configure the same events,
      every limit is positive and every entry is well formed. */
  predicate CatalogueWellFormed(config: map<string, EventConfig>, limits: map<string, int>) {
    && config.Keys == limits.Keys
    && (forall id :: id in limits ==> limits[id] > 0)
    && (forall id :: id in config ==> config[id].WellFormed())
  }

  /** The shipped tables are well formed. */
  lemma ShippedCatalogueWellFormed()
    ensures CatalogueWellFormed(EventsConfig, EventLimits)
  {
  }

  /** `getLimitFor`: the table value for a configured event, otherwise the
      `DEFAULT_EVENT_LIMIT` environment value, otherwise 50. The environment
      value is given already parsed as `envDefault`. */
  function GetLimitFor(eventId: string, envDefault: Option<int>): (limit: int)
    ensures eventId in EventLimits ==> limit > 0
    ensures eventId !in EventLimits && envDefault.None? ==> limit == FallbackLimit
  {
    if eventId in EventLimits then EventLimits[eventId] else envDefault.GetOr(FallbackLimit)
  }

  /** Every catalogue event gets its own table limit, whatever the
      environment says, and that limit is positive; any other id gets the
      environment default, or 50 when it is unset. */
  lemma LimitLookup(eventId: string, envDefault: Option<int>)
    ensures eventId in EventsConfig ==>
      GetLimitFor(eventId, envDefault) == EventLimits[eventId] > 0
    ensures eventId !in EventsConfig ==>
      GetLimitFor(eventId, envDefault) == (if envDefault.Some? then envDefault.value else FallbackLimit)
  {
    ShippedCatalogueWellFormed();
  }
}
