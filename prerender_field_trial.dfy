/** How prerendering and prefetching are configured at start-up: the
    --prerender command-line switch, or else the "Prefetch" and "Prerender"
    field trials; whether prerendering from the omnibox is on; and the
    sanity clamps on the local predictor's field-trial parameters.

    Field-trial randomisation, the release channel and the value
    base::StringToInt leaves in its output are inputs. */
module PrerenderFieldTrial {
  import opened Wrappers

  /** The C++ `int` the parameters are parsed into. */
  type int32 = x: int | -0x8000_0000 <= x < 0x8000_0000

  /** The values of the --prerender switch (chrome_switches.cc). */
  const kPrerenderModeSwitchValueAuto := "auto"
  const kPrerenderModeSwitchValueDisabled := "disabled"
  const kPrerenderModeSwitchValueEnabled := "enabled"
  const kPrerenderModeSwitchValuePrefetchOnly := "prefetch_only"

  /** The values of the --prerender-from-omnibox switch. */
  const kPrerenderFromOmniboxSwitchValueAuto := "auto"
  const kPrerenderFromOmniboxSwitchValueDisabled := "disabled"
  const kPrerenderFromOmniboxSwitchValueEnabled := "enabled"

  datatype PrerenderOption =
    PRERENDER_OPTION_AUTO | PRERENDER_OPTION_DISABLED | PRERENDER_OPTION_ENABLED | PRERENDER_OPTION_PREFETCH_ONLY

  /** PrerenderManager::PrerenderManagerMode. */
  datatype PrerenderMode =
    | PRERENDER_MODE_DISABLED
    | PRERENDER_MODE_ENABLED
    | PRERENDER_MODE_EXPERIMENT_PRERENDER_GROUP
    | PRERENDER_MODE_EXPERIMENT_CONTROL_GROUP
    | PRERENDER_MODE_EXPERIMENT_MULTI_PRERENDER_GROUP
    | PRERENDER_MODE_EXPERIMENT_15MIN_TTL_GROUP
    | PRERENDER_MODE_EXPERIMENT_NO_USE_GROUP

  /** chrome::VersionInfo::Channel. */
  datatype Channel = CHANNEL_UNKNOWN | CHANNEL_CANARY | CHANNEL_DEV | CHANNEL_BETA | CHANNEL_STABLE

  predicate IsRelease(channel: Channel)
  {
    channel == CHANNEL_STABLE || channel == CHANNEL_BETA
  }

  /** The groups of the "Prerender" field trial; PrerenderEnabled is the
      default group. */
  datatype PrerenderGroup =
    PrerenderEnabled | PrerenderControl | PrerenderMulti | Prerender15minTTL | PrerenderNoUse

  // ---------------------------------------------------------------------
  // The --prerender switch

  /** The option chosen by the --prerender switch; `switchValue` is None
      when the switch is absent. */
  function ParseOption(switchValue: Option<string>): PrerenderOption
  {
    if switchValue.None? then PRERENDER_OPTION_AUTO
    else
      var v := switchValue.value;
      if v == kPrerenderModeSwitchValueAuto then PRERENDER_OPTION_AUTO
      else if v == kPrerenderModeSwitchValueDisabled then PRERENDER_OPTION_DISABLED
      else if v == "" || v == kPrerenderModeSwitchValueEnabled then PRERENDER_OPTION_ENABLED
      else if v == kPrerenderModeSwitchValuePrefetchOnly then PRERENDER_OPTION_PREFETCH_ONLY
      else PRERENDER_OPTION_DISABLED
  }

  /** The prefetch flag and prerender mode an explicit option sets. */
  function OptionSettings(option: PrerenderOption): (settings: (bool, PrerenderMode))
    requires option != PRERENDER_OPTION_AUTO
    ensures settings.1 == PRERENDER_MODE_ENABLED <==> option == PRERENDER_OPTION_ENABLED
    ensures settings.1 != PRERENDER_MODE_ENABLED ==> settings.1 == PRERENDER_MODE_DISABLED
    ensures settings.0 <==> option != PRERENDER_OPTION_DISABLED
  {
    match option
    case PRERENDER_OPTION_DISABLED => (false, PRERENDER_MODE_DISABLED)
    case PRERENDER_OPTION_ENABLED => (true, PRERENDER_MODE_ENABLED)
    case PRERENDER_OPTION_PREFETCH_ONLY => (true, PRERENDER_MODE_DISABLED)
  }

  /** The mode each group of the "Prerender" trial selects. */
  function GroupMode(group: PrerenderGroup): (mode: PrerenderMode)
    ensures mode != PRERENDER_MODE_DISABLED && mode != PRERENDER_MODE_ENABLED
  {
    match group
    case PrerenderEnabled => PRERENDER_MODE_EXPERIMENT_PRERENDER_GROUP
    case PrerenderControl => PRERENDER_MODE_EXPERIMENT_CONTROL_GROUP
    case PrerenderMulti => PRERENDER_MODE_EXPERIMENT_MULTI_PRERENDER_GROUP
    case Prerender15minTTL => PRERENDER_MODE_EXPERIMENT_15MIN_TTL_GROUP
    case PrerenderNoUse => PRERENDER_MODE_EXPERIMENT_NO_USE_GROUP
  }

  lemma GroupModeInjective(g: PrerenderGroup, h: PrerenderGroup)
    ensures GroupMode(g) == GroupMode(h) <==> g == h
  {
  }

  /** A present switch whose value is none of the known ones, or
      "disabled", turns both prefetching and prerendering off. */
  lemma UnknownSwitchDisables(v: string)
    requires v !in {kPrerenderModeSwitchValueAuto, kPrerenderModeSwitchValueEnabled,
                    kPrerenderModeSwitchValuePrefetchOnly, ""}
    ensures ParseOption(Some(v)) != PRERENDER_OPTION_AUTO
    ensures OptionSettings(ParseOption(Some(v))) == (false, PRERENDER_MODE_DISABLED)
  {
  }

  /** With the switch present, prerendering is forced on exactly for an
      empty value or "enabled", and prefetching for those and
      "prefetch_only"; "auto" leaves both to the field trials. */
  lemma SwitchDecides(v: string)
    ensures ParseOption(Some(v)) == PRERENDER_OPTION_AUTO <==> v == kPrerenderModeSwitchValueAuto
    ensures ParseOption(Some(v)) != PRERENDER_OPTION_AUTO ==>
              (OptionSettings(ParseOption(Some(v))).1 == PRERENDER_MODE_ENABLED <==>
                 v == "" || v == kPrerenderModeSwitchValueEnabled)
    ensures ParseOption(Some(v)) != PRERENDER_OPTION_AUTO ==>
              (OptionSettings(ParseOption(Some(v))).0 <==>
                 v == "" || v == kPrerenderModeSwitchValueEnabled || v == kPrerenderModeSwitchValuePrefetchOnly)
  {
  }

  // ---------------------------------------------------------------------
  // The field trials

  const kDivisor := 1000

  /** The probabilities of the "Prerender" trial's groups, in the order
      enabled, control, multi-prerender, 15-minute TTL, no-use. */
  function PrerenderProbabilities(channel: Channel): (p: seq<nat>)
    ensures |p| == 5 && p[0] + p[1] + p[2] + p[3] + p[4] == kDivisor
    ensures IsRelease(channel) ==> p[2] == 0 && p[4] == 0 && p[0] > p[1] + p[3]
  {
    if IsRelease(channel) then [980, 10, 0, 10, 0] else [250, 250, 250, 125, 125]
  }

  /** The probability, out of kDivisor, that the "Prerender" trial draws
      `group` on `channel`. */
  function GroupProbability(channel: Channel, group: PrerenderGroup): nat
  {
    var p := PrerenderProbabilities(channel);
    match group
    case PrerenderEnabled => p[0]
    case PrerenderControl => p[1]
    case PrerenderMulti => p[2]
    case Prerender15minTTL => p[3]
    case PrerenderNoUse => p[4]
  }

  /** PrerenderManager's global settings. */
  class PrerenderManager {
    var mode: PrerenderMode
    var prefetchEnabled: bool

    constructor (mode: PrerenderMode, prefetchEnabled: bool)
      ensures this.mode == mode && this.prefetchEnabled == prefetchEnabled
    {
      this.mode := mode;
      this.prefetchEnabled := prefetchEnabled;
    }
  }

  /** ConfigurePrefetchAndPrerender. In AUTO, the "Prefetch" trial (not run
      on release channels) draws `prefetchOnDrawn` and the "Prerender" trial
      draws `prerenderGroup`, which has a non-zero probability on the
      channel. */
  method ConfigurePrefetchAndPrerender(manager: PrerenderManager, switchValue: Option<string>, channel: Channel,
                                       prefetchOnDrawn: bool, prerenderGroup: PrerenderGroup)
    requires ParseOption(switchValue) == PRERENDER_OPTION_AUTO ==> GroupProbability(channel, prerenderGroup) > 0
    modifies manager
    ensures ParseOption(switchValue) != PRERENDER_OPTION_AUTO ==>
              (manager.prefetchEnabled, manager.mode) == OptionSettings(ParseOption(switchValue))
    ensures ParseOption(switchValue) == PRERENDER_OPTION_AUTO ==>
              manager.mode == GroupMode(prerenderGroup) &&
              manager.prefetchEnabled == (if IsRelease(channel) then old(manager.prefetchEnabled) else prefetchOnDrawn)
    ensures ParseOption(switchValue) == PRERENDER_OPTION_AUTO && IsRelease(channel) ==>
              manager.mode != PRERENDER_MODE_EXPERIMENT_MULTI_PRERENDER_GROUP &&
              manager.mode != PRERENDER_MODE_EXPERIMENT_NO_USE_GROUP
  {
    var option := ParseOption(switchValue);
    match option
    case PRERENDER_OPTION_AUTO =>
      if !IsRelease(channel) {
        manager.prefetchEnabled := prefetchOnDrawn;
      }
      manager.mode := GroupMode(prerenderGroup);
    case PRERENDER_OPTION_DISABLED =>
      manager.prefetchEnabled := false;
      manager.mode := PRERENDER_MODE_DISABLED;
    case PRERENDER_OPTION_ENABLED =>
      manager.prefetchEnabled := true;
      manager.mode := PRERENDER_MODE_ENABLED;
    case PRERENDER_OPTION_PREFETCH_ONLY =>
      manager.prefetchEnabled := true;
      manager.mode := PRERENDER_MODE_DISABLED;
  }

  // ---------------------------------------------------------------------
  // Prerendering from the omnibox

  /** FieldTrial::kNotFinalized. */
  const kNotFinalized := -1

  /** IsOmniboxEnabled. `omniboxSwitch` is the value of
      --prerender-from-omnibox (None when absent), `group` the group
      FieldTrialList::FindValue reports for the omnibox trial and
      `defaultGroup` that trial's default group number. */
  function IsOmniboxEnabled(hasProfile: bool, prerenderingPossible: bool, omniboxSwitch: Option<string>,
                            group: int, defaultGroup: int): (enabled: bool)
    ensures enabled ==> hasProfile && prerenderingPossible
    ensures hasProfile && prerenderingPossible && omniboxSwitch == Some(kPrerenderFromOmniboxSwitchValueEnabled) ==> enabled
    ensures omniboxSwitch == Some(kPrerenderFromOmniboxSwitchValueDisabled) ==> !enabled
    ensures omniboxSwitch.None? || omniboxSwitch.value !in {kPrerenderFromOmniboxSwitchValueEnabled, kPrerenderFromOmniboxSwitchValueDisabled} ==>
              (enabled <==> hasProfile && prerenderingPossible && (group == kNotFinalized || group == defaultGroup))
  {
    if !hasProfile then false
    else if !prerenderingPossible then false
    else if omniboxSwitch.Some? && omniboxSwitch.value == kPrerenderFromOmniboxSwitchValueEnabled then true
    else if omniboxSwitch.Some? && omniboxSwitch.value == kPrerenderFromOmniboxSwitchValueDisabled then false
    else group == kNotFinalized || group == defaultGroup
  }

  /** An "enabled" or "disabled" switch decides the result whatever group
      the trial drew. */
  lemma OmniboxSwitchOverridesTrial(hasProfile: bool, possible: bool, v: string,
                                    g1: int, g2: int, defaultGroup: int)
    requires v == kPrerenderFromOmniboxSwitchValueEnabled || v == kPrerenderFromOmniboxSwitchValueDisabled
    ensures IsOmniboxEnabled(hasProfile, possible, Some(v), g1, defaultGroup)
         == IsOmniboxEnabled(hasProfile, possible, Some(v), g2, defaultGroup)
  {
  }

  // ---------------------------------------------------------------------
  // The local predictor's parameters; `parsed` is the value
  // base::StringToInt leaves in its output for the trial's group name.

  /** GetLocalPredictorTTLSeconds: a value outside [10, 600] becomes 180. */
  function GetLocalPredictorTTLSeconds(parsed: int32): (ttl: int32)
    ensures 10 <= ttl <= 600
    ensures 10 <= parsed <= 600 ==> ttl == parsed
    ensures !(10 <= parsed <= 600) ==> ttl == 180
  {
    if parsed < 10 || parsed > 600 then 180 else parsed
  }

  /** GetLocalPredictorPrerenderPriorityHalfLifeTimeSeconds: never negative. */
  function GetLocalPredictorPrerenderPriorityHalfLifeTimeSeconds(parsed: int32): (halfLife: int32)
    ensures halfLife >= 0
    ensures parsed >= 0 ==> halfLife == parsed
    ensures parsed < 0 ==> halfLife == 0
  {
    if parsed < 0 then 0 else parsed
  }

  /** GetLocalPredictorMaxConcurrentPrerenders: clamped into [1, 10]. */
  function GetLocalPredictorMaxConcurrentPrerenders(parsed: int32): (n: int32)
    ensures 1 <= n <= 10
    ensures 1 <= parsed <= 10 ==> n == parsed
    ensures parsed < 1 ==> n == 1
    ensures parsed > 10 ==> n == 10
  {
    var atLeastOne := if parsed < 1 then 1 else parsed;
    if atLeastOne > 10 then 10 else atLeastOne
  }

  /** The clamps are idempotent: a clamped value is left alone. */
  lemma ClampsIdempotent(parsed: int32)
    ensures GetLocalPredictorTTLSeconds(GetLocalPredictorTTLSeconds(parsed)) == GetLocalPredictorTTLSeconds(parsed)
    ensures GetLocalPredictorPrerenderPriorityHalfLifeTimeSeconds(GetLocalPredictorPrerenderPriorityHalfLifeTimeSeconds(parsed))
            == GetLocalPredictorPrerenderPriorityHalfLifeTimeSeconds(parsed)
    ensures GetLocalPredictorMaxConcurrentPrerenders(GetLocalPredictorMaxConcurrentPrerenders(parsed))
            == GetLocalPredictorMaxConcurrentPrerenders(parsed)
  {
  }
}
