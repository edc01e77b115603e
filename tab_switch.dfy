/**
 * The decision `startTab(coordinator:at:reset:)` makes, as a function of the tab state before
 * the call and the screens on the live navigation stack: the new tab state, the cached stack
 * to restore (if any), and the `animated` flag of the reset transition a new child gets.
 */
module TabSwitching {
  import opened Wrappers
  import opened Transitions
  import opened CoordinatorTree

  datatype TabOutcome = TabOutcome(state: TabState, restored: Option<seq<Screen>>, animated: bool)

  /** `startTab` looks at the live stack only when a tab is active that was not opened with `reset`. */
  predicate ReadsLiveStack(ts: TabState)
  {
    ts.activeIndex.Some? && !ts.shouldReset
  }

  /** The cache once the active tab is put away, before the selected tab is looked up. */
  function StowedCache(ts: TabState, live: seq<Screen>, index: int): map<int, seq<Screen>>
  {
    if !ReadsLiveStack(ts) then ts.cache
    else if index == ts.activeIndex.value && live != [] then ts.cache - {index}
    else ts.cache[ts.activeIndex.value := live]
  }

  function TabSwitch(ts: TabState, live: seq<Screen>, index: int, reset: bool): (o: TabOutcome)
    ensures o.state.activeIndex == Some(index) && o.state.shouldReset == reset
    ensures index !in o.state.cache
    ensures o.restored.Some? <==> index in StowedCache(ts, live, index)
  {
    var cache := StowedCache(ts, live, index);
    var animated := ReadsLiveStack(ts) && index == ts.activeIndex.value && |live| > 1;
    if index in cache then TabOutcome(TabState(Some(index), reset, cache - {index}), Some(cache[index]), animated)
    else TabOutcome(TabState(Some(index), reset, cache), None, animated)
  }

  /** Switching away from an active tab stores its live stack under the old index. */
  lemma SwitchStoresLiveStack(ts: TabState, live: seq<Screen>, index: int, reset: bool)
    requires ReadsLiveStack(ts) && index != ts.activeIndex.value
    ensures ts.activeIndex.value in TabSwitch(ts, live, index, reset).state.cache
    ensures TabSwitch(ts, live, index, reset).state.cache[ts.activeIndex.value] == live
  {
  }

  /**
   * Reselecting the active tab with screens on its stack drops its cache entry and starts a
   * new child, animated exactly when more than one screen was on the stack.
   */
  lemma ReselectWithScreens(ts: TabState, live: seq<Screen>, index: int, reset: bool)
    requires ReadsLiveStack(ts) && index == ts.activeIndex.value && live != []
    ensures var o := TabSwitch(ts, live, index, reset);
            o.restored.None? && o.state.cache == ts.cache - {index} && (o.animated <==> |live| > 1)
  {
  }

  /**
   * Only a reselection can animate: switching to another tab, or a bar with no active tab or
   * whose active tab was opened with `reset`, starts the child's reset without animation.
   */
  lemma OnlyReselectAnimates(ts: TabState, live: seq<Screen>, index: int, reset: bool)
    ensures TabSwitch(ts, live, index, reset).animated
            <==> ReadsLiveStack(ts) && index == ts.activeIndex.value && |live| > 1
    ensures ts.activeIndex.Some? && index != ts.activeIndex.value ==> !TabSwitch(ts, live, index, reset).animated
    ensures !ReadsLiveStack(ts) ==> !TabSwitch(ts, live, index, reset).animated
  {
  }

  /** Reselecting the active tab with an empty stack caches `[]`, restores it and starts no child. */
  lemma ReselectEmpty(ts: TabState, index: int, reset: bool)
    requires ReadsLiveStack(ts) && index == ts.activeIndex.value
    ensures var o := TabSwitch(ts, [], index, reset);
            o.restored == Some([]) && o.state.cache == ts.cache - {index}
  {
  }

  /** A cached stack is restored and leaves the cache; no child is started. */
  lemma CachedTabRestored(ts: TabState, live: seq<Screen>, index: int, reset: bool)
    requires index in StowedCache(ts, live, index)
    ensures var o := TabSwitch(ts, live, index, reset);
            o.restored == Some(StowedCache(ts, live, index)[index])
            && o.state.cache == StowedCache(ts, live, index) - {index}
  {
  }

  /** Without a cached stack the cache keeps what was stowed and a child is started. */
  lemma UncachedTabStartsChild(ts: TabState, live: seq<Screen>, index: int, reset: bool)
    requires index !in StowedCache(ts, live, index)
    ensures var o := TabSwitch(ts, live, index, reset);
            o.restored.None? && o.state.cache == StowedCache(ts, live, index)
  {
  }

  /**
   * Leaving tab `i` for an uncached tab `j` and coming back restores exactly the stack tab `i`
   * had, whatever the new tab's stack became in between.
   */
  lemma {:induction false} SwitchAwayAndBack(ts: TabState, live: seq<Screen>, other: seq<Screen>, j: int)
    requires ReadsLiveStack(ts) && j != ts.activeIndex.value && j !in ts.cache
    ensures var o1 := TabSwitch(ts, live, j, false);
            o1.restored.None?
            && TabSwitch(o1.state, other, ts.activeIndex.value, false).restored == Some(live)
  {
    var i := ts.activeIndex.value;
    var o1 := TabSwitch(ts, live, j, false);
    assert StowedCache(ts, live, j) == ts.cache[i := live];
    assert o1.state.cache == ts.cache[i := live];
    assert ReadsLiveStack(o1.state) && o1.state.activeIndex.value == j;
    assert StowedCache(o1.state, other, i) == ts.cache[i := live][j := other];
  }
}
