/** What the throttle classes declare to the rate-throttle framework: a
    scope, the viewset actions it throttles and whose requests share one
    budget. The framework's admission decision is not part of this model;
    only the declarations and the recording step are. */
module Throttling {

  /** The identity a throttle class declares: composed with
      `GlobalThrottlingMixin` (Global) or derived from `UserRateThrottle`
      (PerUser). */
  datatype Identity = Global | PerUser

  datatype Binding = Binding(scope: string, throttledActions: seq<string>, identity: Identity)

  /** `ThrottleByActionMixin`: the binding applies to the listed actions only. */
  predicate Covers(b: Binding, action: string)
  {
    action in b.throttledActions
  }

  /** The scopes of a viewset's `throttle_classes` that apply to `action`,
      in declaration order. */
  function ScopesFor(bindings: seq<Binding>, action: string): (scopes: seq<string>)
    ensures |scopes| <= |bindings|
    ensures forall s :: s in scopes <==> exists b :: b in bindings && Covers(b, action) && b.scope == s
  {
    if |bindings| == 0 then []
    else
      var rest := ScopesFor(bindings[1..], action);
      assert forall b :: b in bindings <==> b == bindings[0] || b in bindings[1..];
      if Covers(bindings[0], action) then [bindings[0].scope] + rest else rest
  }

  /** No action is throttled by both bindings. */
  predicate Disjoint(a: Binding, b: Binding)
  {
    forall x :: x in a.throttledActions ==> x !in b.throttledActions
  }

  /** A response as the throttle sees it. */
  datatype Response = Response(statusCode: int)

  /** A cached history: request times, newest first, and its time to live. */
  datatype CacheEntry = CacheEntry(history: seq<real>, timeout: nat)

  /** The cache the rate throttles share. */
  class Cache {
    var entries: map<string, CacheEntry>

    constructor (entries: map<string, CacheEntry>)
      ensures this.entries == entries
    {
      this.entries := entries;
    }

    /** `cache.set(key, value, timeout)`. */
    method Set(key: string, value: seq<real>, timeout: nat)
      modifies this
      ensures entries == old(entries)[key := CacheEntry(value, timeout)]
    {
      entries := entries[key := CacheEntry(value, timeout)];
    }
  }
}
