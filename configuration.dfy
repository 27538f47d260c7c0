/** `mergeConfig`: user options overlaid on a fresh copy of the defaults. Configurations
    are values here, so the defaults can never be altered through the merged copy. */
module Configuration {
  import opened Wrappers

  datatype Config = Config(pollInterval: int, widgetPosition: map<string, string>, fallbackComments: seq<string>)

  /** The user's options; `None` (and, for the interval, 0) stands for an absent or falsy option. */
  datatype Options = Options(
    pollInterval: Option<int>,
    widgetPosition: Option<map<string, string>>,
    fallbackComments: Option<seq<string>>)

  const DefaultPosition: map<string, string> :=
    map["bottom" := "20px", "right" := "20px", "width" := "300px", "zIndex" := "10000"]

  const DefaultComments: seq<string> := [
    "The tension is rising in the arena!",
    "What an exciting match we're seeing!",
    "The crowd is going wild!",
    "This is turning out to be an incredible tournament!",
    "The competition is heating up!"
  ]

  const DefaultConfig: Config := Config(1000, DefaultPosition, DefaultComments)

  /** A poll interval option is used only when it is truthy, that is, non-zero. */
  predicate TruthyInterval(o: Option<int>) {
    o.Some? && o.value != 0
  }

  function MergeConfig(user: Option<Options>): (c: Config)
    ensures c.pollInterval != 0
    ensures user.Some? && TruthyInterval(user.value.pollInterval) ==>
      c.pollInterval == user.value.pollInterval.value
    ensures !(user.Some? && TruthyInterval(user.value.pollInterval)) ==>
      c.pollInterval == DefaultConfig.pollInterval
    ensures user.Some? && user.value.fallbackComments.Some? ==>
      c.fallbackComments == user.value.fallbackComments.value
    ensures user.None? || user.value.fallbackComments.None? ==>
      c.fallbackComments == DefaultComments
    ensures c.widgetPosition.Keys == DefaultPosition.Keys +
      (if user.Some? && user.value.widgetPosition.Some? then user.value.widgetPosition.value.Keys else {})
    ensures forall k :: k in c.widgetPosition ==>
      if user.Some? && user.value.widgetPosition.Some? && k in user.value.widgetPosition.value
      then c.widgetPosition[k] == user.value.widgetPosition.value[k]
      else c.widgetPosition[k] == DefaultPosition[k]
  {
    if user.None? then DefaultConfig
    else
      var o := user.value;
      var position := if o.widgetPosition.Some? then DefaultPosition + o.widgetPosition.value else DefaultPosition;
      var interval := if TruthyInterval(o.pollInterval) then o.pollInterval.value else DefaultConfig.pollInterval;
      var comments := if o.fallbackComments.Some? then o.fallbackComments.value else DefaultComments;
      Config(interval, position, comments)
  }

  /** An effective configuration written back as options. */
  function AsOptions(c: Config): Options {
    Options(Some(c.pollInterval), Some(c.widgetPosition), Some(c.fallbackComments))
  }

  /** Absent options, or options with every field absent, give the defaults. */
  lemma NoOptionsGiveDefaults()
    ensures MergeConfig(None) == DefaultConfig
    ensures MergeConfig(Some(Options(None, None, None))) == DefaultConfig
    ensures MergeConfig(Some(Options(Some(0), None, None))) == DefaultConfig
  {
  }

  /** Merging an effective configuration back over the defaults reproduces it:
      every merged value is one the merge keeps as it is. */
  lemma MergeIsFixpoint(user: Option<Options>)
    ensures MergeConfig(Some(AsOptions(MergeConfig(user)))) == MergeConfig(user)
  {
  }

  /** The merged pool is empty only when the user supplied an empty pool. */
  lemma EmptyPoolOnlyFromUser(user: Option<Options>)
    requires MergeConfig(user).fallbackComments == []
    ensures user.Some? && user.value.fallbackComments == Some([])
  {
  }
}
