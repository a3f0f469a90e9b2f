/** The single-slot cache in front of `GET /api/menu`: a captured menu and
    the clock reading (milliseconds) at which it was captured. The store
    read and the clock are parameters: `now` is the reading taken when the
    request arrives, `stored` is what the store would return to it. */
module MenuCache {
  import opened Wrappers
  import opened Catalog

  /** How long a captured menu is served, in milliseconds. */
  const FreshnessWindow: int := 5000

  /** `menuCache` (None while it is still null) and `menuCacheTime`. Any
      array, even an empty one, is truthy, so a captured empty menu is a
      cached value like any other. */
  datatype State = State(cache: Option<seq<Item>>, time: int)

  /** Nothing captured yet; the time is never read while the cache is empty. */
  const Initial: State := State(None, 0)

  /** The handler answers from the slot: something is captured and it was
      captured less than the window ago. */
  predicate Hit(st: State, now: int) {
    st.cache.Some? && now - st.time < FreshnessWindow
  }

  /** What one request gets (`items`), the slot it leaves (`next`), and
      whether it read the store. */
  datatype Served = Served(items: seq<Item>, next: State, storeRead: bool)

  /** One `GET /api/menu`. On a hit the captured menu is returned and the
      slot is untouched; otherwise the store is read, the result captured
      with the request's clock reading, and returned. Either way the slot
      afterwards holds exactly what was returned, captured less than the
      window before `now`. */
  function GetOrLoad(st: State, now: int, stored: seq<Item>): (r: Served)
    ensures r.storeRead <==> !Hit(st, now)
    ensures !r.storeRead ==> r.items == st.cache.value && r.next == st
    ensures r.storeRead ==> r.items == stored && r.next == State(Some(stored), now)
    ensures r.next.cache == Some(r.items) && now - r.next.time < FreshnessWindow
  {
    if st.cache.Some? && now - st.time < FreshnessWindow then Served(st.cache.value, st, false)
    else Served(stored, State(Some(stored), now), true)
  }

  /** A second read less than the window after a first one that read the
      store is answered from the cache with byte-identical data and no
      store access, whatever the store holds by then. */
  lemma {:induction false} RereadWithinWindow(st: State, t0: int, d: int, first: seq<Item>, second: seq<Item>)
    requires !Hit(st, t0)
    requires 0 <= d < FreshnessWindow
    ensures var r1 := GetOrLoad(st, t0, first);
      var r2 := GetOrLoad(r1.next, t0 + d, second);
      && !r2.storeRead
      && r2.items == r1.items
      && r2.next == r1.next
  {
  }

  /** A read the full window (or more) after the capture goes to the store;
      exactly 5000 ms is already stale. */
  lemma {:induction false} RereadAfterWindow(t0: int, d: int, captured: seq<Item>, stored: seq<Item>)
    requires d >= FreshnessWindow
    ensures var r := GetOrLoad(State(Some(captured), t0), t0 + d, stored);
      && r.storeRead
      && r.items == stored
      && r.next == State(Some(stored), t0 + d)
  {
  }

  /** One request: its clock reading and what the store holds at that time. */
  datatype Read = Read(now: int, stored: seq<Item>)

  /** Request `k` (not the first) read the store exactly when the capture
      it found, made by request `source[k - 1]`, was at least the window
      old; otherwise it repeated the answer to request `k - 1`. */
  ghost predicate ReloadRule(requests: seq<Read>, replies: seq<seq<Item>>, source: seq<nat>, k: int) {
    && 0 < k < |requests| && k < |replies| && k < |source| && source[k - 1] < |requests|
    && (source[k] == k <==> requests[k].now - requests[source[k - 1]].now >= FreshnessWindow)
    && (source[k] != k ==> source[k] == source[k - 1] && replies[k] == replies[k - 1])
  }

  /** Serves a sequence of `GET /api/menu` requests, in order, from a fresh
      process. `source[i]` is the request whose store read answered request
      `i`: the first request always reads the store; each later one reads it
      exactly when the capture in the slot is at least the window old, and
      otherwise repeats the previous answer. Every answer is what the store
      held less than the window before the request (staleness is bounded by
      the window, whatever the store does meanwhile). */
  method ServeReads(requests: seq<Read>) returns (replies: seq<seq<Item>>, source: seq<nat>)
    ensures |replies| == |requests| && |source| == |requests|
    ensures forall i :: 0 <= i < |requests| ==>
      && source[i] <= i
      && replies[i] == requests[source[i]].stored
      && requests[i].now - requests[source[i]].now < FreshnessWindow
    ensures |requests| > 0 ==> source[0] == 0
    ensures forall i :: 0 < i < |requests| ==> ReloadRule(requests, replies, source, i)
  {
    var st := Initial;
    replies := [];
    source := [];
    var i := 0;
    while i < |requests|
      invariant 0 <= i <= |requests|
      invariant |replies| == i && |source| == i
      invariant i == 0 ==> st == Initial
      invariant i > 0 ==> source[i - 1] < i
      invariant i > 0 ==>
        st == State(Some(requests[source[i - 1]].stored), requests[source[i - 1]].now)
      invariant forall k :: 0 <= k < i ==>
        && source[k] <= k
        && replies[k] == requests[source[k]].stored
        && requests[k].now - requests[source[k]].now < FreshnessWindow
      invariant i > 0 ==> source[0] == 0
      invariant forall k :: 0 < k < i ==> ReloadRule(requests, replies, source, k)
    {
      var r := GetOrLoad(st, requests[i].now, requests[i].stored);
      var src := if r.storeRead then i else source[i - 1];
      assert src <= i && r.items == requests[src].stored;
      assert requests[i].now - requests[src].now < FreshnessWindow;
      assert r.next == State(Some(requests[src].stored), requests[src].now);
      assert i > 0 ==>
        (src == i <==> requests[i].now - requests[source[i - 1]].now >= FreshnessWindow);
      assert i > 0 && src != i ==> src == source[i - 1] && r.items == replies[i - 1];
      ghost var before := source;
      ghost var answered := replies;
      replies := replies + [r.items];
      source := source + [src];
      assert forall k :: 0 <= k < i ==> source[k] == before[k] && replies[k] == answered[k];
      forall k | 0 < k < i + 1
        ensures ReloadRule(requests, replies, source, k)
      {
        if k < i {
          assert ReloadRule(requests, answered, before, k);
        }
      }
      st := r.next;
      i := i + 1;
    }
  }
}
