/** `LoginFailRateThrottle` and `RegisterSuccessRateThrottle`
    (`tweets2cash/auth/throttling.py`): throttles that count only the
    requests whose response has one status, failed logins and successful
    registrations. */
module AuthThrottling {
  import opened Wrappers
  import opened Throttling

  const LoginFail: Binding := Binding("login-fail", ["create"], Global)
  const RegisterSuccess: Binding := Binding("register-success", ["register"], Global)
  const LoginFailStatus: int := 400
  const RegisterSuccessStatus: int := 201

  /** `AuthViewSet.throttle_classes`. */
  const AuthThrottles: seq<Binding> := [LoginFail, RegisterSuccess]

  /** Whether `throttle_success` records a request with this response. */
  predicate Records(recordedStatus: int, response: Option<Response>)
  {
    response.Some? && response.value.statusCode == recordedStatus
  }

  /** Login attempts are throttled only by "login-fail", registrations only
      by "register-success", and no other action of the viewset is. */
  lemma AuthScopes(action: string)
    ensures ScopesFor(AuthThrottles, action) ==
              if action == "create" then ["login-fail"]
              else if action == "register" then ["register-success"]
              else []
  {
    assert AuthThrottles[1..] == [RegisterSuccess];
    assert AuthThrottles[1..][1..] == [];
  }

  /** The throttle's state once the framework's admission check has
      loaded it: the history under `key` (newest first), the request time
      `now` and the duration of the configured rate. */
  class RecordingRateThrottle {
    const binding: Binding
    const recordedStatus: int
    var history: seq<real>
    const now: real
    const key: string
    const duration: nat
    const cache: Cache

    constructor LoginFailRateThrottle(history: seq<real>, now: real, key: string, duration: nat, cache: Cache)
      ensures binding == LoginFail && recordedStatus == LoginFailStatus
      ensures this.history == history && this.now == now && this.key == key
      ensures this.duration == duration && this.cache == cache
    {
      binding := LoginFail;
      recordedStatus := LoginFailStatus;
      this.history := history;
      this.now := now;
      this.key := key;
      this.duration := duration;
      this.cache := cache;
    }

    constructor RegisterSuccessRateThrottle(history: seq<real>, now: real, key: string, duration: nat, cache: Cache)
      ensures binding == RegisterSuccess && recordedStatus == RegisterSuccessStatus
      ensures this.history == history && this.now == now && this.key == key
      ensures this.duration == duration && this.cache == cache
    {
      binding := RegisterSuccess;
      recordedStatus := RegisterSuccessStatus;
      this.history := history;
      this.now := now;
      this.key := key;
      this.duration := duration;
      this.cache := cache;
    }

    /** `throttle_success`: with a response of the recorded status, the
        request time goes in front of the history and the history is
        stored under the key for `duration`; otherwise nothing changes.
        The request is let through either way. */
    method ThrottleSuccess(response: Option<Response>) returns (ok: bool)
      modifies this, cache
      ensures ok
      ensures Records(recordedStatus, response) ==>
                history == [now] + old(history) &&
                cache.entries == old(cache.entries)[key := CacheEntry(history, duration)]
      ensures !Records(recordedStatus, response) ==>
                history == old(history) && cache.entries == old(cache.entries)
      ensures |history| == |old(history)| + (if Records(recordedStatus, response) then 1 else 0)
    {
      if response.Some? && response.value.statusCode == recordedStatus {
        history := [now] + history;
        cache.Set(key, history, duration);
      }
      ok := true;
    }
  }

  /** A failed registration (400) is not counted against the
      register-success budget; the successful one after it is. */
  method FailedRegistrationKeepsBudget(history: seq<real>, now: real, key: string, duration: nat)
    returns (afterFailure: seq<real>, afterSuccess: seq<real>, stored: Option<CacheEntry>)
    ensures afterFailure == history
    ensures afterSuccess == [now] + history
    ensures stored == Some(CacheEntry([now] + history, duration))
  {
    var cache := new Cache(map[]);
    var throttle := new RecordingRateThrottle.RegisterSuccessRateThrottle(history, now, key, duration, cache);
    var ok := throttle.ThrottleSuccess(Some(Response(400)));
    afterFailure := throttle.history;
    ok := throttle.ThrottleSuccess(Some(Response(201)));
    afterSuccess := throttle.history;
    stored := if key in cache.entries then Some(cache.entries[key]) else None;
  }

  /** A failed login is counted; a successful one (or no response) is not. */
  method LoginFailuresAreCounted(history: seq<real>, now: real, key: string, duration: nat, status: int)
    returns (after: seq<real>)
    ensures after == if status == 400 then [now] + history else history
  {
    var cache := new Cache(map[]);
    var throttle := new RecordingRateThrottle.LoginFailRateThrottle(history, now, key, duration, cache);
    var ok := throttle.ThrottleSuccess(Some(Response(status)));
    after := throttle.history;
  }
}
