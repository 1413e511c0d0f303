/** The two user options of the mannequin tool, persisted in host option
    variables and cached lazily in the context: the rotate-handle scale
    (`chartreuseManipScale`, a double, default 5) and the auto-adjust flag
    (`chartreuseManipAutoAdjust`, an integer read as `> 0`, default off). */
module Options {
  import opened Wrappers

  /** `MANIP_DEFAULT_SCALE`. */
  const ManipDefaultScale: real := 5.0

  /** The host's option variables; `None` when never stored. */
  datatype OptionStore = OptionStore(scale: Option<real>, autoAdjust: Option<int>)

  /** A getter's answer together with the cache it leaves behind. */
  datatype Read<T> = Read(value: T, cache: Option<T>)

  /** `manipScale`: the cached value, or, on first use, the stored option
      (or the default), which is then cached. */
  function ManipScale(cache: Option<real>, store: OptionStore): (r: Read<real>)
    ensures r.cache == Some(r.value)
    ensures cache.Some? ==> r.value == cache.value
    ensures cache.None? ==> r.value == store.scale.GetOr(ManipDefaultScale)
  {
    match cache
    case Some(v) => Read(v, cache)
    case None =>
      var v := if store.scale.Some? then store.scale.value else ManipDefaultScale;
      Read(v, Some(v))
  }

  /** `manipAutoAdjust`: as above, with the stored integer read as
      "positive means on" and a default of off. */
  function ManipAutoAdjust(cache: Option<bool>, store: OptionStore): (r: Read<bool>)
    ensures r.cache == Some(r.value)
    ensures cache.Some? ==> r.value == cache.value
    ensures cache.None? ==> (r.value <==> store.autoAdjust.Some? && store.autoAdjust.value > 0)
  {
    match cache
    case Some(b) => Read(b, cache)
    case None =>
      var b := if store.autoAdjust.Some? then store.autoAdjust.value > 0 else false;
      Read(b, Some(b))
  }

  /** Once cached, the store is never consulted again and a second read
      changes nothing. */
  lemma CachedReadsIgnoreStore(c: real, b: bool, s1: OptionStore, s2: OptionStore)
    ensures ManipScale(Some(c), s1) == ManipScale(Some(c), s2) == Read(c, Some(c))
    ensures ManipAutoAdjust(Some(b), s1) == ManipAutoAdjust(Some(b), s2) == Read(b, Some(b))
  {
  }

  lemma ReadsAreIdempotent(cache: Option<real>, flag: Option<bool>, store: OptionStore)
    ensures var first := ManipScale(cache, store);
            ManipScale(first.cache, store) == first
    ensures var first := ManipAutoAdjust(flag, store);
            ManipAutoAdjust(first.cache, store) == first
  {
  }

  /** `setManipScale` minus the reselect: stores the option and the cache. */
  function StoreManipScale(store: OptionStore, scale: real): (r: OptionStore)
    ensures r.autoAdjust == store.autoAdjust
  {
    store.(scale := Some(scale))
  }

  /** `setManipAutoAdjust` minus the reselect: stores 1 or 0. */
  function StoreManipAutoAdjust(store: OptionStore, autoAdjust: bool): (r: OptionStore)
    ensures r.scale == store.scale
  {
    store.(autoAdjust := Some(if autoAdjust then 1 else 0))
  }

  /** A value set is what the next read returns, whether from the cache of
      this session or from the store in a fresh one. */
  lemma SetThenRead(store: OptionStore, scale: real, autoAdjust: bool)
    ensures ManipScale(Some(scale), StoreManipScale(store, scale)).value == scale
    ensures ManipScale(None, StoreManipScale(store, scale)).value == scale
    ensures ManipAutoAdjust(Some(autoAdjust), StoreManipAutoAdjust(store, autoAdjust)).value == autoAdjust
    ensures ManipAutoAdjust(None, StoreManipAutoAdjust(store, autoAdjust)).value == autoAdjust
  {
  }
}
