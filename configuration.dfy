/** The client's options and their defaults (`Configuration`). A falsy
    option is an absent one or, for numbers, 0 and, for the url, the empty
    string. */
module Configurations {
  import opened Wrappers
  import opened Listeners

  /** Subscribers by topic: the options object's own properties in the
      order `for...in` visits them, which JavaScript fixes as integer-like
      keys in ascending numeric order first, then the other keys in the
      order they were added. The table is taken already in that order. */
  type SubscriberTable = seq<(string, seq<Listener>)>

  datatype Options = Options(
    tickInterval: Option<int>,
    reconnectInterval: Option<int>,
    url: Option<string>,
    subscribers: Option<SubscriberTable>)

  datatype Configuration = Configuration(
    tickInterval: int,
    reconnectInterval: int,
    url: Option<string>,
    subscribers: SubscriberTable)

  const DefaultTickInterval: int := 5
  const DefaultReconnectInterval: int := 1000

  /** `options.x ? options.x : default` for a number. */
  function NumberOr(x: Option<int>, default: int): (n: int)
    ensures x.Some? && x.value != 0 ==> n == x.value
    ensures x.None? || x.value == 0 ==> n == default
  {
    if x.Some? && x.value != 0 then x.value else default
  }

  /** The constructor of `Configuration`: tick interval 5 and reconnect
      interval 1000 unless given and non-zero, no url unless a non-empty one
      is given, no subscribers unless given. */
  function Configure(o: Options): (c: Configuration)
    ensures c.tickInterval == NumberOr(o.tickInterval, DefaultTickInterval)
    ensures c.reconnectInterval == NumberOr(o.reconnectInterval, DefaultReconnectInterval)
    ensures c.url.Some? <==> o.url.Some? && o.url.value != ""
    ensures c.url.Some? ==> c.url == o.url
    ensures o.subscribers.Some? ==> c.subscribers == o.subscribers.value
    ensures o.subscribers.None? ==> c.subscribers == []
  {
    Configuration(
      NumberOr(o.tickInterval, DefaultTickInterval),
      NumberOr(o.reconnectInterval, DefaultReconnectInterval),
      if o.url.Some? && o.url.value != "" then o.url else None,
      if o.subscribers.Some? then o.subscribers.value else [])
  }

  /** The options a configuration stands for. */
  function AsOptions(c: Configuration): Options
  {
    Options(Some(c.tickInterval), Some(c.reconnectInterval), c.url, Some(c.subscribers))
  }

  /** Every configuration has non-zero intervals and no empty url, and
      configuring from a configuration's own values gives it back, so
      applying the defaults twice is applying them once. */
  lemma ConfigureIsIdempotent(o: Options)
    ensures Configure(o).tickInterval != 0 && Configure(o).reconnectInterval != 0
    ensures Configure(o).url != Some("")
    ensures Configure(AsOptions(Configure(o))) == Configure(o)
  {
  }

}
